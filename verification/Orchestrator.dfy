/**
 The orchestrator's operations on the rows of one experiment, as methods that change
 them in place (internal/orchestrator/orchestrator.go). Each is proved against the
 step of the state machine in Scheduler that it implements.
 */
module Orchestrator {
  import opened Wrappers
  import opened Runs
  import opened RunGraph
  import opened Scheduler

  /** What the store and the run starts answer during one advance call. */
  datatype AdvanceEnv = AdvanceEnv(
    listOk: bool,
    writes: nat -> bool,        // the result of the n-th status write of the cascade
    starts: RunId -> StartEnv,  // what StartRun meets for each run
    finalWriteOk: bool)

  ghost predicate NoErrors(env: AdvanceEnv) {
    && env.listOk && env.finalWriteOk
    && (forall n :: env.writes(n))
    && StartsOk(env.starts)
  }

  ghost predicate StartsOk(starts: RunId -> StartEnv) {
    forall id :: starts(id).readOk && starts(id).enterOk && starts(id).writeOk
  }

  /** A pass of the cascade that changes nothing and meets no error leaves nothing to cascade. */
  lemma QuietPassIsFixpoint(runs: seq<Run>, g: Graph, rows: Statuses)
    requires Indexed(runs, g) && rows.Keys == g.Keys
    requires forall i :: 0 <= i < |runs| && rows[runs[i].id] == Pending ==> NoFailedDependency(rows, runs[i])
    ensures NothingToCascade(g, rows)
  {
    forall id, dep | id in rows && rows[id] == Pending && Edge(g, id, dep) && dep in rows ensures rows[dep] != Failed {
      var i :| 0 <= i < |runs| && runs[i].id == id;
      assert IsRow(g, runs[i]);
    }
  }

  function PendingRuns(rows: Statuses): set<RunId> {
    set id | id in rows && rows[id] == Pending
  }

  lemma MarkOneMore(rows: Statuses, marked: set<RunId>, id: RunId)
    requires id in rows && rows[id] == Pending && id !in marked
    ensures Mark(rows, marked + {id}) == Mark(rows, marked)[id := Failed]
    ensures |PendingRuns(Mark(rows, marked + {id}))| < |PendingRuns(Mark(rows, marked))|
  {
    assert Mark(rows, marked + {id}) == Mark(rows, marked)[id := Failed];
    assert PendingRuns(Mark(rows, marked + {id})) == PendingRuns(Mark(rows, marked)) - {id};
  }

  /** What Recover has done about one run. */
  predicate Restored(before: Statuses, after: Statuses, running: set<RunId>, env: RestartEnv, id: RunId) {
    && id in before && id in after
    && after[id] == (if before[id] == Running && id in env.lost - env.unwritten then Failed else before[id])
    && (id in running <==> before[id] == Running && id !in env.lost)
  }

  predicate NotYetRestored(before: Statuses, after: Statuses, running: set<RunId>, id: RunId) {
    id in before && id in after && after[id] == before[id] && id !in running
  }

  /** The first n runs of the list are restored, the others not yet looked at. */
  ghost predicate RestoredPrefix(runs: seq<Run>, n: nat, before: Statuses, after: Statuses, running: set<RunId>,
                                 env: RestartEnv)
  {
    && n <= |runs|
    && (forall j :: 0 <= j < n ==> Restored(before, after, running, env, runs[j].id))
    && (forall j :: n <= j < |runs| ==> NotYetRestored(before, after, running, runs[j].id))
  }

  lemma RestoredPrefixGrows(runs: seq<Run>, n: nat, before: Statuses, rows0: Statuses, running0: set<RunId>,
                            rows1: Statuses, running1: set<RunId>, env: RestartEnv)
    requires n < |runs| && DistinctIds(runs)
    requires RestoredPrefix(runs, n, before, rows0, running0, env)
    requires runs[n].id in rows1 && rows1 == rows0[runs[n].id := rows1[runs[n].id]]
    requires running1 == running0 || running1 == running0 + {runs[n].id}
    requires Restored(rows0, rows1, running1, env, runs[n].id)
    ensures RestoredPrefix(runs, n + 1, before, rows1, running1, env)
  {
    assert NotYetRestored(before, rows0, running0, runs[n].id);
    forall j | 0 <= j < n ensures Restored(before, rows1, running1, env, runs[j].id) {
      assert Restored(before, rows0, running0, env, runs[j].id) && runs[j].id != runs[n].id;
    }
    forall j | n < j < |runs| ensures NotYetRestored(before, rows1, running1, runs[j].id) {
      assert NotYetRestored(before, rows0, running0, runs[j].id) && runs[j].id != runs[n].id;
    }
  }

  lemma RestoreOne(running: set<RunId>, id: RunId, undriven: set<RunId>)
    requires id !in running
    ensures multiset((running + {id}) * undriven)
         == multiset(running * undriven) + if id in undriven then multiset{id} else multiset{}
  {
    if id in undriven {
      assert (running + {id}) * undriven == running * undriven + {id};
    } else {
      assert (running + {id}) * undriven == running * undriven;
    }
  }

  lemma RestoredAll(s: System, s': System, env: RestartEnv)
    requires env.listed && s'.exp == s.exp && s'.advances == 0
    requires s'.rows.Keys == s.rows.Keys && s'.running <= s'.rows.Keys
    requires forall id :: id in s.rows ==> Restored(s.rows, s'.rows, s'.running, env, id)
    requires s'.autoStops == multiset(s'.running * env.undriven)
    ensures s' == RestartNext(s, env)
  {
    var r := RestartNext(s, env);
    assert s'.rows == r.rows;
    assert s'.running == r.running;
  }

  /**
   The dependency loop of the cascade for one pending run: try to write it as failed for each
   failed dependency in turn until a write succeeds.
  */
  method TryFail(r: Run, statusById: Statuses, writes: nat -> bool, attempts: nat)
    returns (failed: bool, attempts': nat, clean: bool)
    ensures failed ==> !NoFailedDependency(statusById, r)
    ensures !failed && clean ==> NoFailedDependency(statusById, r)
    ensures attempts <= attempts' && (failed ==> attempts < attempts' && writes(attempts' - 1))
    ensures forall n :: attempts <= n < (if failed then attempts' - 1 else attempts') ==> !writes(n)
    ensures clean <==> attempts' == if failed then attempts + 1 else attempts
    ensures (forall n :: writes(n)) ==> clean
  {
    attempts', clean := attempts, true;
    for d := 0 to |r.dependsOn|
      invariant clean ==> forall k :: 0 <= k < d && r.dependsOn[k] in statusById ==>
          statusById[r.dependsOn[k]] != Failed
      invariant attempts <= attempts' && (clean <==> attempts' == attempts)
      invariant forall n :: attempts <= n < attempts' ==> !writes(n)
      invariant (forall n :: writes(n)) ==> clean
    {
      var dep := r.dependsOn[d];
      if dep in statusById && statusById[dep] == Failed {
        attempts' := attempts' + 1;
        if writes(attempts' - 1) {
          return true, attempts', clean;
        }
        clean := false;
      }
    }
    return false, attempts', clean;
  }

  predicate NoFailedDependency(rows: Statuses, r: Run) {
    forall dep :: dep in r.dependsOn && dep in rows ==> rows[dep] != Failed
  }

  lemma FailedDependencyDooms(g: Graph, before: Statuses, marked: set<RunId>, r: Run)
    requires r.id in g && g[r.id] == r && marked <= DoomedRuns(g, before)
    requires r.id in before && Mark(before, marked)[r.id] == Pending
    requires !NoFailedDependency(Mark(before, marked), r)
    ensures r.id !in marked && before[r.id] == Pending && Doomed(g, before, r.id)
  {
    var rows := Mark(before, marked);
    var dep :| dep in r.dependsOn && dep in rows && rows[dep] == Failed;
    DoomSpreads(g, before, r.id, dep);
  }

  lemma LaunchOneMore(rows: Statuses, started: set<RunId>, id: RunId)
    requires id in rows
    ensures Launch(rows, started + {id}) == Launch(rows, started)[id := Running]
  {
  }

  /** Of the first n runs of the list, those that are ready have been started. */
  ghost predicate Considered(g: Graph, runs: seq<Run>, n: nat, rows: Statuses, started: set<RunId>) {
    n <= |runs| && forall j :: 0 <= j < n && Ready(g, rows, runs[j].id) ==> runs[j].id in started
  }

  lemma ConsideredGrows(g: Graph, runs: seq<Run>, n: nat, rows: Statuses, earlier: set<RunId>, started: set<RunId>)
    requires n < |runs| && earlier <= started
    ensures Considered(g, runs, n, rows, earlier) && (Ready(g, rows, runs[n].id) ==> runs[n].id in started)
            ==> Considered(g, runs, n + 1, rows, started)
  {
  }

  class Orchestrator {
    const runs: seq<Run>        // the experiment's runs, in run_index order
    ghost const g: Graph
    var exp: ExperimentStatus
    var rows: Statuses
    var running: set<RunId>
    var advances: nat
    var autoStops: multiset<RunId>

    ghost predicate Valid()
      reads this
    {
      Indexed(runs, g) && rows.Keys == g.Keys
    }

    ghost function State(): System
      reads this
    {
      System(exp, rows, running, advances, autoStops)
    }

    constructor (runs: seq<Run>)
      requires DistinctIds(runs)
      ensures Valid() && this.runs == runs && Init(g, State())
    {
      DistinctIdsAreIndexed(runs);
      this.runs := runs;
      g := ById(runs);
      exp := ExpPlanned;
      rows := map id | id in ById(runs) :: Pending;
      running, advances, autoStops := {}, 0, multiset{};
    }

    method StartRun(id: RunId, env: StartEnv) returns (err: Option<OpError>)
      requires Valid()
      modifies this`rows, this`running, this`autoStops
      ensures Valid() && (State(), err) == StartNext(old(State()), id, env)
      ensures err.None? <==>
                env.readOk && id in old(rows) && old(rows)[id] == Pending && env.enterOk && env.writeOk
      ensures if err.None? then rows == old(rows)[id := Running] && running == old(running) + {id}
              else State() == old(State())
      ensures err.None? ==> autoStops == old(autoStops) + if env.driven then multiset{} else multiset{id}
    {
      if !env.readOk {
        return Some(StoreError);
      }
      if id !in rows {
        return Some(RunNotFound);
      }
      if rows[id] != Pending {
        return Some(WrongStatus(rows[id]));
      }
      if !env.enterOk {
        return Some(EnterPhaseFailed);
      }
      if !env.writeOk {
        return Some(StoreError);
      }
      rows := rows[id := Running];
      running := running + {id};
      if !env.driven {
        autoStops := autoStops + multiset{id};
      }
      return None;
    }

    method PauseRun(id: RunId, readOk: bool, writeOk: bool) returns (err: Option<OpError>)
      requires Valid()
      modifies this`rows, this`running
      ensures Valid() && (State(), err) == PauseNext(old(State()), id, readOk, writeOk)
      ensures err.None? <==> readOk && id in old(rows) && old(rows)[id] == Running && writeOk
      ensures rows == if err.None? then old(rows)[id := Paused] else old(rows)
      ensures running == if readOk && id in old(rows) && old(rows)[id] == Running then old(running) - {id}
                         else old(running)
    {
      if !readOk {
        return Some(StoreError);
      }
      if id !in rows {
        return Some(RunNotFound);
      }
      if rows[id] != Running {
        return Some(WrongStatus(rows[id]));
      }
      running := running - {id};
      if !writeOk {
        return Some(StoreError);
      }
      rows := rows[id := Paused];
      return None;
    }

    method ResumeRun(id: RunId, env: StartEnv) returns (err: Option<OpError>)
      requires Valid()
      modifies this`rows, this`running, this`autoStops
      ensures Valid() && (State(), err) == ResumeNext(old(State()), id, env)
      ensures err.None? <==>
                env.readOk && id in old(rows) && old(rows)[id] == Paused && env.enterOk && env.writeOk
      ensures if err.None? then rows == old(rows)[id := Running] && running == old(running) + {id}
              else State() == old(State())
      ensures err.None? ==> autoStops == old(autoStops) + if env.driven then multiset{} else multiset{id}
    {
      if !env.readOk {
        return Some(StoreError);
      }
      if id !in rows {
        return Some(RunNotFound);
      }
      if rows[id] != Paused {
        return Some(WrongStatus(rows[id]));
      }
      if !env.enterOk {
        return Some(EnterPhaseFailed);
      }
      if !env.writeOk {
        return Some(StoreError);
      }
      rows := rows[id := Running];
      running := running + {id};
      if !env.driven {
        autoStops := autoStops + multiset{id};
      }
      return None;
    }

    method StopRun(id: RunId, status: Status, readOk: bool, finalizeOk: bool) returns (err: Option<OpError>)
      requires Valid()
      modifies this`rows, this`running, this`advances
      ensures Valid() && (State(), err) == StopNext(old(State()), id, status, readOk, finalizeOk)
      ensures err.None? <==>
                (status == Completed || status == Failed) && readOk && id in old(rows)
                && (old(rows)[id] == Completed || old(rows)[id] == Failed || finalizeOk)
      ensures err.None? ==>
                rows == old(rows)[id := if IsTerminal(old(rows)[id]) then old(rows)[id] else status]
      ensures err.Some? ==> rows == old(rows)
      ensures advances == old(advances) + if rows != old(rows) then 1 else 0
      ensures running == if status == Completed || status == Failed then old(running) - {id} else old(running)
    {
      if status != Completed && status != Failed {
        return Some(NotTerminalStatus(status));
      }
      running := running - {id};
      if !readOk {
        return Some(StoreError);
      }
      if id !in rows {
        return Some(RunNotFound);
      }
      if rows[id] == Completed || rows[id] == Failed {
        return None;
      }
      if !finalizeOk {
        return Some(StoreError);
      }
      rows := rows[id := status];
      advances := advances + 1;
      return None;
    }

    /** What Recover does for one run of the in-flight list. */
    method RestoreRun(id: RunId, env: RestartEnv)
      requires Valid() && id in rows && id !in running && autoStops == multiset(running * env.undriven)
      modifies this`rows, this`running, this`autoStops
      ensures Valid() && rows == old(rows)[id := rows[id]]
      ensures running == old(running) || running == old(running) + {id}
      ensures Restored(old(rows), rows, running, env, id)
      ensures autoStops == multiset(running * env.undriven)
    {
      if rows[id] == Running {
        if id in env.lost {
          if id !in env.unwritten {
            rows := rows[id := Failed];
          }
        } else {
          RestoreOne(running, id, env.undriven);
          running := running + {id};
          if id in env.undriven {
            autoStops := autoStops + multiset{id};
          }
        }
      }
    }

    /** Recover's loop over the runs that were in flight. */
    method Recover(env: RestartEnv)
      requires Valid() && running == {} && autoStops == multiset{}
      modifies this`rows, this`running, this`autoStops
      ensures Valid() && running <= rows.Keys && autoStops == multiset(running * env.undriven)
      ensures forall id :: id in rows ==> Restored(old(rows), rows, running, env, id)
    {
      ghost var before := rows;
      for i := 0 to |runs|
        invariant Valid() && running <= rows.Keys && autoStops == multiset(running * env.undriven)
        invariant RestoredPrefix(runs, i, before, rows, running, env)
      {
        assert IsRow(g, runs[i]);
        ghost var rows0, running0 := rows, running;
        RestoreRun(runs[i].id, env);
        RestoredPrefixGrows(runs, i, before, rows0, running0, rows, running, env);
      }
      forall id | id in rows ensures Restored(before, rows, running, env, id) {
        assert Listed(runs, id);
      }
    }

    /** The restart of the process: the in-memory state is gone, Recover rebuilds what it can. */
    method Restart(env: RestartEnv)
      requires Valid()
      modifies this`rows, this`running, this`advances, this`autoStops
      ensures Valid() && State() == RestartNext(old(State()), env)
      ensures exp == old(exp) && advances == 0
      ensures !env.listed ==> rows == old(rows) && running == {} && autoStops == multiset{}
      ensures env.listed ==> autoStops == multiset(running * env.undriven)
                             && forall id :: id in rows ==> Restored(old(rows), rows, running, env, id)
    {
      running, advances, autoStops := {}, 0, multiset{};
      if env.listed {
        Recover(env);
        RestoredAll(old(State()), State(), env);
      }
    }

    /** The body of the cascade loop for one run. */
    method CascadeRun(r: Run, writes: nat -> bool, attempts: nat, statusById: Statuses, ghost before: Statuses,
                      marked: set<RunId>)
      returns (statusById': Statuses, marked': set<RunId>, attempts': nat, failed: bool, tried: bool)
      requires IsRow(g, r) && r.id in rows && statusById == rows == Mark(before, marked)
      requires marked <= DoomedRuns(g, before)
      modifies this`rows
      ensures rows.Keys == old(rows).Keys && statusById' == rows == Mark(before, marked')
      ensures marked <= marked' <= DoomedRuns(g, before)
      ensures failed ==> |PendingRuns(rows)| < |PendingRuns(old(rows))|
      ensures !failed ==> rows == old(rows) && marked' == marked
      ensures !failed && tried && rows[r.id] == Pending ==> NoFailedDependency(rows, r)
      ensures (forall n :: writes(n)) ==> tried
    {
      statusById', marked', attempts', failed, tried := statusById, marked, attempts, false, true;
      if statusById[r.id] == Pending {
        failed, attempts', tried := TryFail(r, statusById, writes, attempts);
        if failed {
          FailedDependencyDooms(g, before, marked, r);
          MarkOneMore(before, marked, r.id);
          rows := rows[r.id := Failed];
          statusById' := statusById[r.id := Failed];
          marked' := marked + {r.id};
        }
      }
    }

    /**
     One pass of the cascade over the run list. Marks only doomed runs; if it changes nothing and
     no write fails, no listed run is left to mark.
    */
    method CascadePass(writes: nat -> bool, attempts: nat, statusById: Statuses, ghost before: Statuses,
        marked: set<RunId>)
      returns (statusById': Statuses, marked': set<RunId>, attempts': nat, changed: bool, clean: bool)
      requires Valid() && before.Keys == rows.Keys && statusById == rows == Mark(before, marked)
      requires marked <= DoomedRuns(g, before)
      modifies this`rows
      ensures Valid() && statusById' == rows == Mark(before, marked')
      ensures marked <= marked' <= DoomedRuns(g, before)
      ensures changed ==> |PendingRuns(rows)| < |PendingRuns(old(rows))|
      ensures !changed ==> rows == old(rows) && marked' == marked
      ensures !changed && clean ==> NothingToCascade(g, rows)
      ensures (forall n :: writes(n)) ==> clean
    {
      statusById', marked', attempts' := statusById, marked, attempts;
      changed, clean := false, true;
      for i := 0 to |runs|
        invariant Valid() && statusById' == rows == Mark(before, marked')
        invariant marked <= marked' <= DoomedRuns(g, before)
        invariant |PendingRuns(rows)| <= |PendingRuns(old(rows))|
        invariant changed ==> |PendingRuns(rows)| < |PendingRuns(old(rows))|
        invariant !changed ==> rows == old(rows) && marked' == marked
        invariant !changed && clean ==> forall j :: 0 <= j < i && rows[runs[j].id] == Pending ==>
            NoFailedDependency(rows, runs[j])
        invariant (forall n :: writes(n)) ==> clean
      {
        var failed, tried;
        statusById', marked', attempts', failed, tried :=
          CascadeRun(runs[i], writes, attempts', statusById', before, marked');
        clean := clean && tried;
        changed := changed || failed;
      }
      if !changed && clean {
        QuietPassIsFixpoint(runs, g, rows);
      }
    }

    /** The cascade loop: at most one pass more than there are runs, even when writes fail. */
    method Cascade(writes: nat -> bool)
      returns (statusById: Statuses, marked: set<RunId>, passes: nat, clean: bool)
      requires Valid()
      modifies this`rows
      ensures Valid() && statusById == rows == Mark(old(rows), marked)
      ensures marked <= DoomedRuns(g, old(rows))
      ensures clean ==> marked == DoomedRuns(g, old(rows))
      ensures (forall n :: writes(n)) ==> clean
      ensures 1 <= passes <= |PendingRuns(old(rows))| + 1
    {
      statusById, marked, passes, clean := rows, {}, 0, true;
      assert Mark(rows, {}) == rows;
      var attempts := 0;
      var changed := true;
      while changed
        invariant Valid() && statusById == rows == Mark(old(rows), marked)
        invariant marked <= DoomedRuns(g, old(rows))
        invariant changed || passes > 0
        invariant passes + |PendingRuns(rows)| <= |PendingRuns(old(rows))| + if changed then 0 else 1
        invariant !changed && clean ==> NothingToCascade(g, rows)
        invariant (forall n :: writes(n)) ==> clean
        decreases |PendingRuns(rows)|, changed
      {
        statusById, marked, attempts, changed, clean := CascadePass(writes, attempts, statusById, old(rows), marked);
        passes := passes + 1;
      }
      if clean {
        CascadeIsExact(g, old(rows), marked);
      }
    }

    /** StartRun as the scheduler uses it: on a run that is ready according to its snapshot. */
    method LaunchRun(id: RunId, env: StartEnv, ghost cascaded: Statuses, started: set<RunId>, undriven: set<RunId>,
                     ghost before: multiset<RunId>, ghost base: set<RunId>)
      returns (started': set<RunId>, undriven': set<RunId>)
      requires Valid() && rows == Launch(cascaded, started) && cascaded.Keys == rows.Keys
      requires Ready(g, cascaded, id) && id !in started && undriven <= started
      requires autoStops == before + multiset(undriven) && running == base + started
      modifies this`rows, this`running, this`autoStops
      ensures Valid() && rows == Launch(cascaded, started')
      ensures started' == started || started' == started + {id}
      ensures undriven' <= started' && autoStops == before + multiset(undriven')
      ensures running == base + started'
      ensures env.readOk && env.enterOk && env.writeOk ==> id in started'
      ensures undriven' == if id in started' && !env.driven then undriven + {id} else undriven
    {
      var err := StartRun(id, env);
      started', undriven' := started, undriven;
      if err.None? {
        started' := started + {id};
        LaunchOneMore(cascaded, started, id);
        if !env.driven {
          undriven' := undriven + {id};
        }
      }
    }

    /** The body of the start loop for one run: it is started only if its snapshot says it is ready. */
    method ConsiderRun(r: Run, env: StartEnv, statusById: Statuses, started: set<RunId>, undriven: set<RunId>,
                       ghost before: multiset<RunId>, ghost base: set<RunId>)
      returns (started': set<RunId>, undriven': set<RunId>)
      requires Valid() && rows == Launch(statusById, started) && IsRow(g, r)
      requires r.id !in started && undriven <= started
      requires autoStops == before + multiset(undriven) && running == base + started
      modifies this`rows, this`running, this`autoStops
      ensures Valid() && rows == Launch(statusById, started')
      ensures started' == started || (started' == started + {r.id} && Ready(g, statusById, r.id))
      ensures undriven' <= started' && autoStops == before + multiset(undriven')
      ensures running == base + started'
      ensures Ready(g, statusById, r.id) && env.readOk && env.enterOk && env.writeOk ==> r.id in started'
      ensures undriven' == if r.id in started' && !env.driven then undriven + {r.id} else undriven
    {
      started', undriven' := started, undriven;
      if statusById[r.id] == Pending {
        var ready := DependenciesDone(r, statusById);
        if ready {
          started', undriven' := LaunchRun(r.id, env, statusById, started, undriven, before, base);
        }
      }
    }

    method StartReady(statusById: Statuses, starts: RunId -> StartEnv)
      returns (started: set<RunId>, undriven: set<RunId>)
      requires Valid() && rows == statusById
      modifies this`rows, this`running, this`autoStops
      ensures Valid() && rows == Launch(statusById, started)
      ensures running == old(running) + started && autoStops == old(autoStops) + multiset(undriven)
      ensures undriven <= started && forall id :: id in started ==> Ready(g, statusById, id)
      ensures StartsOk(starts) ==> forall id :: Ready(g, statusById, id) ==> id in started
      ensures forall id :: id in undriven <==> id in started && !starts(id).driven
    {
      started, undriven := {}, {};
      assert Launch(statusById, {}) == statusById;
      for i := 0 to |runs|
        invariant Valid() && rows == Launch(statusById, started)
        invariant running == old(running) + started && autoStops == old(autoStops) + multiset(undriven)
        invariant undriven <= started && forall id :: id in started ==> Ready(g, statusById, id)
        invariant forall id :: id in undriven <==> id in started && !starts(id).driven
        invariant forall j :: i <= j < |runs| ==> runs[j].id !in started
        invariant StartsOk(starts) ==> Considered(g, runs, i, statusById, started)
      {
        assert IsRow(g, runs[i]);
        ghost var earlier := started;
        started, undriven := ConsiderRun(runs[i], starts(runs[i].id), statusById, started, undriven,
                                         old(autoStops), old(running));
        ConsideredGrows(g, runs, i, statusById, earlier, started);
      }
      forall id | Ready(g, statusById, id) && StartsOk(starts) ensures id in started {
        assert Listed(runs, id);
      }
    }

    method Judge(statusById: Statuses) returns (allTerminal: bool, anyFailed: bool)
      requires Valid() && statusById.Keys == g.Keys
      ensures allTerminal == AllTerminal(statusById)
      ensures anyFailed == AnyFailed(statusById)
    {
      allTerminal, anyFailed := true, false;
      for i := 0 to |runs|
        invariant allTerminal <==> forall j :: 0 <= j < i ==> IsTerminal(statusById[runs[j].id])
        invariant anyFailed <==> exists j :: 0 <= j < i && statusById[runs[j].id] == Failed
      {
        assert IsRow(g, runs[i]);
        match statusById[runs[i].id]
        case Pending => allTerminal := false;
        case Running => allTerminal := false;
        case Paused => allTerminal := false;
        case Failed => anyFailed := true;
        case Completed =>
      }
      forall id | id in statusById ensures Listed(runs, id) {
      }
      forall i | 0 <= i < |runs| ensures runs[i].id in statusById {
        assert IsRow(g, runs[i]);
      }
    }

    /** One advance: cascade failures, start what is ready, finalize when nothing is left. */
    method AdvanceExperiment(env: AdvanceEnv) returns (o: AdvanceOutcome)
      requires Valid()
      modifies this`rows, this`running, this`autoStops, this`exp
      ensures Valid() && Possible(g, old(State()), o) && State() == AdvanceNext(old(State()), o)
      ensures NoErrors(env) ==> Clean(g, old(State()), o)
      ensures autoStops == old(autoStops) + multiset(o.undriven) && running == old(running) + o.started
      ensures forall id :: id in o.undriven <==> id in o.started && !env.starts(id).driven
      ensures exp == if env.listOk && env.finalWriteOk && AllTerminal(rows)
                     then (if AnyFailed(rows) then ExpFailed else ExpCompleted) else old(exp)
    {
      if !env.listOk {
        return AdvanceOutcome(false, {}, {}, {}, false);
      }
      var statusById, marked, passes, clean := Cascade(env.writes);
      var started, undriven := StartReady(statusById, env.starts);
      var allTerminal, anyFailed := Judge(statusById);
      if allTerminal && env.finalWriteOk {
        exp := if anyFailed then ExpFailed else ExpCompleted;
      }
      LaunchKeepsVerdict(g, statusById, started);
      return AdvanceOutcome(true, marked, started, undriven, env.finalWriteOk);
    }

    /**
     Starting an experiment: only a planned experiment with a valid run graph is started, and then
     by exactly the first advance; every refusal leaves everything unchanged.
    */
    method StartExperiment(readOk: bool, listOk: bool, writeOk: bool, env: AdvanceEnv)
      returns (err: Option<OpError>, o: AdvanceOutcome)
      requires Valid()
      modifies this`rows, this`running, this`autoStops, this`exp
      ensures Valid()
      ensures err.None? <==> readOk && old(exp) == ExpPlanned && listOk && ValidRunGraph(runs) && writeOk
      ensures err.Some? ==> State() == old(State())
      ensures err.None? ==> Enabled(g, old(State()), StartExperimentStep(o))
                            && State() == Next(old(State()), StartExperimentStep(o))
      ensures err.None? && NoErrors(env) ==> FaultFree(g, old(State()), StartExperimentStep(o))
      ensures err.Some? && readOk && old(exp) == ExpPlanned && listOk && err.value != StoreError ==>
                err.value.InvalidGraph? && Genuine(runs, err.value.reason)
    {
      o := AdvanceOutcome(false, {}, {}, {}, false);
      if !readOk {
        return Some(StoreError), o;
      }
      if exp != ExpPlanned {
        return Some(NotPlanned), o;
      }
      if !listOk {
        return Some(StoreError), o;
      }
      var invalid := ValidateRunGraph(runs);
      if invalid.Some? {
        return Some(InvalidGraph(invalid.value)), o;
      }
      if !writeOk {
        return Some(StoreError), o;
      }
      IndexedIsById(runs, g);
      exp := ExpRunning;
      o := AdvanceExperiment(env);
      err := None;
    }

    /** A launched advance goroutine runs. */
    method RunAdvance(env: AdvanceEnv) returns (o: AdvanceOutcome)
      requires Valid() && advances > 0
      modifies this`rows, this`running, this`autoStops, this`exp, this`advances
      ensures Valid() && Enabled(g, old(State()), AdvanceStep(o)) && State() == Next(old(State()), AdvanceStep(o))
      ensures NoErrors(env) ==> FaultFree(g, old(State()), AdvanceStep(o))
    {
      advances := advances - 1;
      o := AdvanceExperiment(env);
    }

    /** A launched auto-complete goroutine runs. */
    method RunAutoStop(id: RunId, readOk: bool, finalizeOk: bool)
      requires Valid() && id in autoStops
      modifies this`rows, this`running, this`autoStops, this`advances
      ensures Valid() && State() == Next(old(State()), AutoStopStep(id, readOk, finalizeOk))
      ensures rows == if readOk && finalizeOk && id in old(rows) && !IsTerminal(old(rows)[id])
                      then old(rows)[id := Completed] else old(rows)
      ensures autoStops == old(autoStops) - multiset{id}
      ensures advances == old(advances) + if rows != old(rows) then 1 else 0
    {
      autoStops := autoStops - multiset{id};
      var _ := StopRun(id, Completed, readOk, finalizeOk);
    }
  }

  method DependenciesDone(r: Run, statusById: Statuses) returns (ready: bool)
    ensures ready <==> forall dep :: dep in r.dependsOn ==> dep in statusById && statusById[dep] == Completed
  {
    for d := 0 to |r.dependsOn|
      invariant forall k :: 0 <= k < d ==> r.dependsOn[k] in statusById && statusById[r.dependsOn[k]] == Completed
    {
      var dep := r.dependsOn[d];
      if dep !in statusById || statusById[dep] != Completed {
        return false;
      }
    }
    return true;
  }
}
