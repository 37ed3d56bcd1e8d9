/**
 The experiment scheduler as a state machine (internal/orchestrator/orchestrator.go).

 One value of type System is everything the orchestrator's operations read and
 write about one experiment: the experiment row, the run rows, the in-memory
 map of running runs, and the goroutines that have been launched but have not
 yet executed (advance calls and auto-complete stops). Each public operation is
 one atomic step; what the outside world decides (store errors, whether a
 phase can be entered, whether a run has a watcher or poller) is a parameter.
 */
module Scheduler {
  import opened Wrappers
  import opened Runs
  import opened RunGraph

  datatype Status = Pending | Running | Paused | Completed | Failed

  datatype ExperimentStatus = ExpPlanned | ExpRunning | ExpCompleted | ExpFailed

  type Statuses = map<RunId, Status>

  datatype System = System(
    exp: ExperimentStatus,
    rows: Statuses,
    running: set<RunId>,         // keys of the in-memory map of run handles
    advances: nat,               // advance goroutines launched and not yet run
    autoStops: multiset<RunId>)  // auto-complete goroutines launched and not yet run

  datatype OpError =
    | StoreError
    | RunNotFound
    | WrongStatus(status: Status)
    | EnterPhaseFailed
    | NotTerminalStatus(status: Status)
    | NotPlanned
    | InvalidGraph(reason: GraphError)

  predicate IsTerminal(s: Status) {
    s == Completed || s == Failed
  }

  predicate IsActive(s: Status) {
    s == Running || s == Paused
  }

  predicate DistinctIds(runs: seq<Run>) {
    forall i, j :: 0 <= i < j < |runs| ==> runs[i].id != runs[j].id
  }

  predicate IsRow(g: Graph, r: Run) {
    r.id in g && g[r.id] == r
  }

  predicate Listed(runs: seq<Run>, id: RunId) {
    exists i :: 0 <= i < |runs| && runs[i].id == id
  }

  /** The run list of an experiment and its lookup table describe the same rows, each id once. */
  ghost predicate Indexed(runs: seq<Run>, g: Graph) {
    && DistinctIds(runs)
    && (forall i :: 0 <= i < |runs| ==> IsRow(g, runs[i]))
    && (forall id :: id in g ==> Listed(runs, id))
  }

  lemma DistinctIdsAreIndexed(runs: seq<Run>)
    requires DistinctIds(runs)
    ensures Indexed(runs, ById(runs))
  {
    var g := ById(runs);
    forall i | 0 <= i < |runs| ensures IsRow(g, runs[i]) {
      assert runs[i] in runs;
      var k :| 0 <= k < |runs| && runs[k] == g[runs[i].id];
      assert runs[k].id == runs[i].id;
    }
    forall id | id in g ensures Listed(runs, id) {
      var k :| 0 <= k < |runs| && runs[k] == g[id];
    }
  }

  lemma IndexedIsById(runs: seq<Run>, g: Graph)
    requires Indexed(runs, g)
    ensures ById(runs) == g
  {
    DistinctIdsAreIndexed(runs);
    var h := ById(runs);
    forall id | id in h ensures id in g && g[id] == h[id] {
      var i :| 0 <= i < |runs| && runs[i].id == id;
      assert IsRow(g, runs[i]) && IsRow(h, runs[i]);
    }
    forall id | id in g ensures id in h {
      var i :| 0 <= i < |runs| && runs[i].id == id;
      assert IsRow(h, runs[i]);
    }
  }

  // ----- The failure cascade -----

  /** A dependency path whose runs are all pending except the last, which has failed. */
  ghost predicate FailurePath(g: Graph, rows: Statuses, p: seq<RunId>) {
    && IsPath(g, p)
    && |p| >= 2
    && (forall i :: 0 <= i < |p| - 1 ==> p[i] in rows && rows[p[i]] == Pending)
    && p[|p| - 1] in rows && rows[p[|p| - 1]] == Failed
  }

  ghost predicate Doomed(g: Graph, rows: Statuses, id: RunId) {
    exists p :: FailurePath(g, rows, p) && p[0] == id
  }

  ghost function DoomedRuns(g: Graph, rows: Statuses): set<RunId> {
    set id | id in rows && Doomed(g, rows, id)
  }

  /** The rows after the given runs have been written as failed. */
  function Mark(rows: Statuses, marked: set<RunId>): (r: Statuses)
    ensures r.Keys == rows.Keys
  {
    map id | id in rows :: if id in marked then Failed else rows[id]
  }

  lemma DoomedIsPending(g: Graph, rows: Statuses, id: RunId)
    requires Doomed(g, rows, id)
    ensures id in rows && rows[id] == Pending
  {
    var p :| FailurePath(g, rows, p) && p[0] == id;
    assert 0 < |p| - 1;
  }

  /** A pending run that waits on a failed or doomed run is doomed itself. */
  lemma DoomSpreads(g: Graph, rows: Statuses, id: RunId, dep: RunId)
    requires Edge(g, id, dep) && id in rows && rows[id] == Pending && dep in rows
    requires rows[dep] == Failed || Doomed(g, rows, dep)
    ensures Doomed(g, rows, id)
  {
    var tail := [dep];
    if rows[dep] != Failed {
      tail :| FailurePath(g, rows, tail) && tail[0] == dep;
    }
    var p := [id] + tail;
    forall i, j | 0 <= i < j < |p| && j == i + 1 ensures Edge(g, p[i], p[j]) {
      if i > 0 {
        assert p[i] == tail[i - 1] && p[j] == tail[j - 1];
      }
    }
    forall i | 0 <= i < |p| - 1 ensures p[i] in rows && rows[p[i]] == Pending {
      if i > 0 {
        assert p[i] == tail[i - 1];
      }
    }
    assert FailurePath(g, rows, p);
  }

  ghost predicate NothingToCascade(g: Graph, rows: Statuses) {
    forall id, dep :: id in rows && rows[id] == Pending && Edge(g, id, dep) && dep in rows ==> rows[dep] != Failed
  }

  lemma {:induction false} FailurePathIsMarked(g: Graph, rows: Statuses, marked: set<RunId>, p: seq<RunId>)
    requires FailurePath(g, rows, p)
    requires NothingToCascade(g, Mark(rows, marked))
    ensures p[0] in marked
    decreases |p|
  {
    var after := Mark(rows, marked);
    assert Edge(g, p[0], p[1]);
    assert 0 < |p| - 1;
    if |p| > 2 {
      var q := p[1..];
      forall i, j | 0 <= i < j < |q| && j == i + 1 ensures Edge(g, q[i], q[j]) {
        assert q[i] == p[i + 1] && q[j] == p[j + 1];
      }
      forall i | 0 <= i < |q| - 1 ensures q[i] in rows && rows[q[i]] == Pending {
        assert q[i] == p[i + 1];
      }
      FailurePathIsMarked(g, rows, marked, q);
    }
    assert after[p[1]] == Failed;
    assert after[p[0]] != Pending;
  }

  /**
   The doomed runs are the least set the cascade can stop at: marking only doomed
   runs and stopping with nothing left to cascade means exactly the doomed runs are marked.
   */
  lemma CascadeIsExact(g: Graph, rows: Statuses, marked: set<RunId>)
    requires marked <= DoomedRuns(g, rows)
    ensures NothingToCascade(g, Mark(rows, marked)) <==> marked == DoomedRuns(g, rows)
  {
    var after := Mark(rows, marked);
    if NothingToCascade(g, after) {
      forall id | id in DoomedRuns(g, rows) ensures id in marked {
        var p :| FailurePath(g, rows, p) && p[0] == id;
        FailurePathIsMarked(g, rows, marked, p);
      }
    }
    if marked == DoomedRuns(g, rows) {
      forall id, dep | id in after && after[id] == Pending && Edge(g, id, dep) && dep in after
        ensures after[dep] != Failed
      {
        if after[dep] == Failed {
          DoomSpreads(g, rows, id, dep);
        }
      }
    }
  }

  // ----- The operations, as functions on System -----

  datatype StartEnv = StartEnv(readOk: bool, enterOk: bool, writeOk: bool, driven: bool)

  /** Install the run's handles; a run with neither watcher nor poller gets an auto-complete goroutine. */
  function Drive(s: System, id: RunId, driven: bool): System {
    s.(running := s.running + {id},
       autoStops := if driven then s.autoStops else s.autoStops + multiset{id})
  }

  function StartNext(s: System, id: RunId, env: StartEnv): (System, Option<OpError>) {
    if !env.readOk then (s, Some(StoreError))
    else if id !in s.rows then (s, Some(RunNotFound))
    else if s.rows[id] != Pending then (s, Some(WrongStatus(s.rows[id])))
    else if !env.enterOk then (s, Some(EnterPhaseFailed))
    else if !env.writeOk then (s, Some(StoreError))
    else (Drive(s.(rows := s.rows[id := Running]), id, env.driven), None)
  }

  function PauseNext(s: System, id: RunId, readOk: bool, writeOk: bool): (System, Option<OpError>) {
    if !readOk then (s, Some(StoreError))
    else if id !in s.rows then (s, Some(RunNotFound))
    else if s.rows[id] != Running then (s, Some(WrongStatus(s.rows[id])))
    else
      var s1 := s.(running := s.running - {id});
      if writeOk then (s1.(rows := s1.rows[id := Paused]), None) else (s1, Some(StoreError))
  }

  function ResumeNext(s: System, id: RunId, env: StartEnv): (System, Option<OpError>) {
    if !env.readOk then (s, Some(StoreError))
    else if id !in s.rows then (s, Some(RunNotFound))
    else if s.rows[id] != Paused then (s, Some(WrongStatus(s.rows[id])))
    else if !env.enterOk then (s, Some(EnterPhaseFailed))
    else if !env.writeOk then (s, Some(StoreError))
    else (Drive(s.(rows := s.rows[id := Running]), id, env.driven), None)
  }

  function StopNext(s: System, id: RunId, status: Status, readOk: bool, finalizeOk: bool): (System, Option<OpError>) {
    if !IsTerminal(status) then (s, Some(NotTerminalStatus(status)))
    else
      var s1 := s.(running := s.running - {id});
      if !readOk then (s1, Some(StoreError))
      else if id !in s.rows then (s1, Some(RunNotFound))
      else if IsTerminal(s.rows[id]) then (s1, None)
      else if !finalizeOk then (s1, Some(StoreError))
      else (s1.(rows := s1.rows[id := status], advances := s1.advances + 1), None)
  }

  /** What one advance call managed to do; with no store or start error it is Clean below. */
  datatype AdvanceOutcome = AdvanceOutcome(
    listed: bool,           // the run list could be read
    marked: set<RunId>,     // runs written as failed by the cascade
    started: set<RunId>,    // runs StartRun brought to running
    undriven: set<RunId>,   // those of them with neither watcher nor poller
    finalWriteOk: bool)     // the experiment row could be written

  predicate DependenciesCompleted(g: Graph, rows: Statuses, id: RunId)
    requires id in g
  {
    forall dep :: dep in g[id].dependsOn ==> dep in rows && rows[dep] == Completed
  }

  predicate Ready(g: Graph, rows: Statuses, id: RunId) {
    id in g && id in rows && rows[id] == Pending && DependenciesCompleted(g, rows, id)
  }

  predicate AllTerminal(rows: Statuses) {
    forall id :: id in rows ==> IsTerminal(rows[id])
  }

  predicate AnyFailed(rows: Statuses) {
    exists id :: id in rows && rows[id] == Failed
  }

  predicate AnyActive(rows: Statuses) {
    exists id :: id in rows && IsActive(rows[id])
  }

  function Launch(rows: Statuses, started: set<RunId>): (r: Statuses)
    ensures r.Keys == rows.Keys
  {
    map id | id in rows :: if id in started then Running else rows[id]
  }

  /** The verdict uses the statuses as they were before any run was started. */
  function Verdict(exp: ExperimentStatus, rows: Statuses, writeOk: bool): ExperimentStatus {
    if !AllTerminal(rows) || !writeOk then exp
    else if AnyFailed(rows) then ExpFailed
    else ExpCompleted
  }

  /** Starting ready runs changes nothing about the verdict: while there are any, not all rows are terminal. */
  lemma LaunchKeepsVerdict(g: Graph, rows: Statuses, started: set<RunId>)
    requires forall id :: id in started ==> Ready(g, rows, id)
    ensures AllTerminal(rows) <==> AllTerminal(Launch(rows, started))
    ensures AllTerminal(rows) ==> Launch(rows, started) == rows
  {
    if id :| id in started {
      assert Ready(g, rows, id);
    }
    if AllTerminal(Launch(rows, started)) {
      assert forall id :: id in rows ==> Launch(rows, started)[id] == rows[id];
    }
  }

  function AdvanceNext(s: System, o: AdvanceOutcome): System {
    if !o.listed then s
    else
      var cascaded := Mark(s.rows, o.marked);
      System(Verdict(s.exp, cascaded, o.finalWriteOk),
             Launch(cascaded, o.started),
             s.running + o.started,
             s.advances,
             s.autoStops + multiset(o.undriven))
  }

  /** An outcome the code can produce, whatever store and start errors occur. */
  ghost predicate Possible(g: Graph, s: System, o: AdvanceOutcome) {
    o.listed ==>
      && o.marked <= DoomedRuns(g, s.rows)
      && (forall id :: id in o.started ==> Ready(g, Mark(s.rows, o.marked), id))
      && o.undriven <= o.started
  }

  /** The outcome when no store or start error occurs. */
  ghost predicate Clean(g: Graph, s: System, o: AdvanceOutcome) {
    && o.listed && o.finalWriteOk
    && o.marked == DoomedRuns(g, s.rows)
    && (forall id :: Ready(g, Mark(s.rows, o.marked), id) ==> id in o.started)
  }

  /**
   A crash followed by Recover: every goroutine is gone, running runs whose attacks
   are all lost are written as failed, the others get their handles back. No advance is launched.
   */
  datatype RestartEnv = RestartEnv(
    listed: bool,             // the in-flight runs could be read
    lost: set<RunId>,         // runs whose persisted attacks Zeus no longer knows
    unwritten: set<RunId>,    // of those, the runs whose row could not be written
    undriven: set<RunId>)     // runs restored with neither watcher nor poller

  function RestartNext(s: System, env: RestartEnv): System {
    if !env.listed then System(s.exp, s.rows, {}, 0, multiset{})
    else
      var alive := set id | id in s.rows && s.rows[id] == Running && id !in env.lost;
      System(s.exp,
             map id | id in s.rows ::
               if s.rows[id] == Running && id in env.lost - env.unwritten then Failed else s.rows[id],
             alive,
             0,
             multiset(alive * env.undriven))
  }

  // ----- Steps and runs of the system -----

  datatype Step =
    | StartExperimentStep(o: AdvanceOutcome)
    | AdvanceStep(o: AdvanceOutcome)
    | StopStep(id: RunId, status: Status, readOk: bool, finalizeOk: bool)
    | AutoStopStep(id: RunId, readOk: bool, finalizeOk: bool)
    | PauseStep(id: RunId, readOk: bool, writeOk: bool)
    | ResumeStep(id: RunId, env: StartEnv)
    | RestartStep(restart: RestartEnv)

  ghost predicate Enabled(g: Graph, s: System, step: Step) {
    match step
    case StartExperimentStep(o) =>
      s.exp == ExpPlanned && DependenciesOk(g) && Acyclic(g) && Possible(g, s.(exp := ExpRunning), o)
    case AdvanceStep(o) => s.advances > 0 && Possible(g, s, o)
    case AutoStopStep(id, _, _) => id in s.autoStops
    case _ => true
  }

  function Next(s: System, step: Step): System {
    match step
    case StartExperimentStep(o) => AdvanceNext(s.(exp := ExpRunning), o)
    case AdvanceStep(o) => if s.advances == 0 then s else AdvanceNext(s.(advances := s.advances - 1), o)
    case StopStep(id, status, readOk, finalizeOk) => StopNext(s, id, status, readOk, finalizeOk).0
    case AutoStopStep(id, readOk, finalizeOk) =>
      StopNext(s.(autoStops := s.autoStops - multiset{id}), id, Completed, readOk, finalizeOk).0
    case PauseStep(id, readOk, writeOk) => PauseNext(s, id, readOk, writeOk).0
    case ResumeStep(id, env) => ResumeNext(s, id, env).0
    case RestartStep(env) => RestartNext(s, env)
  }

  ghost predicate Init(g: Graph, s: System) {
    && s.rows.Keys == g.Keys
    && (forall id :: id in s.rows ==> s.rows[id] == Pending)
    && s.exp == ExpPlanned && s.running == {} && s.advances == 0 && s.autoStops == multiset{}
  }

  // ----- Safety -----

  ghost predicate Inv(g: Graph, s: System) {
    && s.rows.Keys == g.Keys
    && (forall id :: id in s.rows && IsActive(s.rows[id]) ==> DependenciesCompleted(g, s.rows, id))
    && (forall id :: id in s.running ==> id in s.rows && s.rows[id] == Running)
    && (s.exp == ExpRunning ==> DependenciesOk(g) && Acyclic(g))
    && (s.exp == ExpCompleted ==> forall id :: id in s.rows ==> s.rows[id] == Completed)
    && (s.exp == ExpFailed ==> AllTerminal(s.rows) && AnyFailed(s.rows))
  }

  /** Terminal rows stay as they are, and no row disappears. */
  predicate TerminalKept(before: Statuses, after: Statuses) {
    && before.Keys == after.Keys
    && forall id :: id in before && IsTerminal(before[id]) ==> after[id] == before[id]
  }

  lemma DependenciesStayCompleted(g: Graph, before: Statuses, after: Statuses, id: RunId)
    requires id in g && TerminalKept(before, after) && DependenciesCompleted(g, before, id)
    ensures DependenciesCompleted(g, after, id)
  {
  }

  lemma AdvanceKeepsInv(g: Graph, s: System, o: AdvanceOutcome)
    requires Inv(g, s) && Possible(g, s, o)
    ensures Inv(g, AdvanceNext(s, o)) && TerminalKept(s.rows, AdvanceNext(s, o).rows)
  {
    if s.exp == ExpCompleted || s.exp == ExpFailed {
      AdvanceIsIdempotent(g, s, o);
    } else if o.listed {
      var s' := AdvanceNext(s, o);
      var cascaded := Mark(s.rows, o.marked);
      forall id | id in o.marked ensures id in s.rows && s.rows[id] == Pending {
        DoomedIsPending(g, s.rows, id);
      }
      assert TerminalKept(s.rows, cascaded) && TerminalKept(cascaded, s'.rows);
      forall id | id in s'.rows && IsActive(s'.rows[id]) ensures DependenciesCompleted(g, s'.rows, id) {
        DependenciesStayCompleted(g, if id in o.started then cascaded else s.rows, s'.rows, id);
      }
      if AllTerminal(cascaded) {
        assert s'.rows == cascaded;
      }
    }
  }

  /** What pause, resume, stop and restart have in common: they make no pending run active. */
  ghost predicate RowStep(s: System, s': System) {
    && TerminalKept(s.rows, s'.rows)
    && s'.exp == s.exp
    && (forall id :: id in s'.rows && IsActive(s'.rows[id]) ==> IsActive(s.rows[id]))
    && (forall id :: id in s'.running ==> id in s'.rows && s'.rows[id] == Running)
  }

  lemma RowStepKeepsInv(g: Graph, s: System, s': System)
    requires Inv(g, s) && RowStep(s, s')
    ensures Inv(g, s')
  {
    forall id | id in s'.rows && IsActive(s'.rows[id]) ensures DependenciesCompleted(g, s'.rows, id) {
      DependenciesStayCompleted(g, s.rows, s'.rows, id);
    }
    if s.exp == ExpFailed {
      var f :| f in s.rows && s.rows[f] == Failed;
      assert s'.rows[f] == Failed;
    }
  }

  lemma StopKeepsInv(g: Graph, s: System, id: RunId, status: Status, readOk: bool, finalizeOk: bool)
    requires Inv(g, s)
    ensures var s' := StopNext(s, id, status, readOk, finalizeOk).0; Inv(g, s') && TerminalKept(s.rows, s'.rows)
  {
    RowStepKeepsInv(g, s, StopNext(s, id, status, readOk, finalizeOk).0);
  }

  lemma PauseKeepsInv(g: Graph, s: System, id: RunId, readOk: bool, writeOk: bool)
    requires Inv(g, s)
    ensures var s' := PauseNext(s, id, readOk, writeOk).0; Inv(g, s') && TerminalKept(s.rows, s'.rows)
  {
    RowStepKeepsInv(g, s, PauseNext(s, id, readOk, writeOk).0);
  }

  lemma ResumeKeepsInv(g: Graph, s: System, id: RunId, env: StartEnv)
    requires Inv(g, s)
    ensures var s' := ResumeNext(s, id, env).0; Inv(g, s') && TerminalKept(s.rows, s'.rows)
  {
    RowStepKeepsInv(g, s, ResumeNext(s, id, env).0);
  }

  lemma RestartKeepsInv(g: Graph, s: System, env: RestartEnv)
    requires Inv(g, s)
    ensures var s' := RestartNext(s, env); Inv(g, s') && TerminalKept(s.rows, s'.rows)
  {
    RowStepKeepsInv(g, s, RestartNext(s, env));
  }

  /** Every enabled step keeps the invariant and every terminal row. */
  lemma StepKeepsInv(g: Graph, s: System, step: Step)
    requires Inv(g, s) && Enabled(g, s, step)
    ensures Inv(g, Next(s, step)) && TerminalKept(s.rows, Next(s, step).rows)
  {
    match step
    case StartExperimentStep(o) => AdvanceKeepsInv(g, s.(exp := ExpRunning), o);
    case AdvanceStep(o) => AdvanceKeepsInv(g, s.(advances := s.advances - 1), o);
    case StopStep(id, status, readOk, finalizeOk) => StopKeepsInv(g, s, id, status, readOk, finalizeOk);
    case AutoStopStep(id, readOk, finalizeOk) =>
      StopKeepsInv(g, s.(autoStops := s.autoStops - multiset{id}), id, Completed, readOk, finalizeOk);
    case PauseStep(id, readOk, writeOk) => PauseKeepsInv(g, s, id, readOk, writeOk);
    case ResumeStep(id, env) => ResumeKeepsInv(g, s, id, env);
    case RestartStep(env) => RestartKeepsInv(g, s, env);
  }

  ghost predicate Linked(g: Graph, s: System, step: Step, s': System) {
    Enabled(g, s, step) && s' == Next(s, step)
  }

  /** A run of the system: states and the steps between them. */
  ghost predicate IsTrace(g: Graph, ss: seq<System>, steps: seq<Step>) {
    && |ss| == |steps| + 1
    && Init(g, ss[0])
    && forall k: nat :: k < |steps| ==> LinkedAt(g, ss, steps, k)
  }

  ghost predicate LinkedAt(g: Graph, ss: seq<System>, steps: seq<Step>, k: nat)
    requires |ss| == |steps| + 1 && k < |steps|
  {
    Linked(g, ss[k], steps[k], ss[k + 1])
  }

  /**
   Safety over whole runs: at every point of every run a running or paused run has all its
   dependencies completed, the experiment verdict agrees with the rows, and a row that was
   terminal earlier still has that status.
  */
  lemma {:induction false} TraceIsSafe(g: Graph, ss: seq<System>, steps: seq<Step>, j: nat, k: nat)
    requires IsTrace(g, ss, steps) && j <= k < |ss|
    ensures Inv(g, ss[k]) && TerminalKept(ss[j].rows, ss[k].rows)
    decreases k
  {
    if k > 0 {
      TraceIsSafe(g, ss, steps, if j < k then j else k - 1, k - 1);
      assert LinkedAt(g, ss, steps, k - 1);
      StepKeepsInv(g, ss[k - 1], steps[k - 1]);
    }
  }

  lemma NothingIsDoomed(g: Graph, rows: Statuses)
    requires AllTerminal(rows)
    ensures DoomedRuns(g, rows) == {}
  {
    forall id | id in rows ensures !Doomed(g, rows, id) {
      if Doomed(g, rows, id) {
        DoomedIsPending(g, rows, id);
      }
    }
  }

  /** Once the experiment is finalized another advance changes nothing. */
  lemma AdvanceIsIdempotent(g: Graph, s: System, o: AdvanceOutcome)
    requires Inv(g, s) && Possible(g, s, o)
    requires s.exp == ExpCompleted || s.exp == ExpFailed
    ensures AdvanceNext(s, o) == s
  {
    if o.listed {
      NothingIsDoomed(g, s.rows);
      assert Mark(s.rows, o.marked) == s.rows;
      assert o.started == {};
      assert Launch(s.rows, {}) == s.rows;
      if s.exp == ExpCompleted {
        assert !AnyFailed(s.rows);
      }
    }
  }

  // ----- Progress -----

  ghost predicate Finalized(s: System) {
    && AllTerminal(s.rows)
    && s.exp == if AnyFailed(s.rows) then ExpFailed else ExpCompleted
  }

  /** On an acyclic graph pending runs cannot all wait on each other: one is ready, or waits on an active run. */
  lemma PendingRunsDoNotBlock(g: Graph, rows: Statuses) returns (sink: RunId)
    requires rows.Keys == g.Keys && DependenciesOk(g) && Acyclic(g)
    requires NothingToCascade(g, rows)
    requires exists id :: id in rows && rows[id] == Pending
    ensures AnyActive(rows) || Ready(g, rows, sink)
  {
    var waiting := set id | id in rows && rows[id] == Pending;
    var someone :| someone in rows && rows[someone] == Pending;
    assert someone in waiting;
    sink := SinkExists(g, waiting);
    if dep :| dep in g[sink].dependsOn && rows[dep] != Completed {
      assert DependencyOk(g, sink, dep);
      assert Edge(g, sink, dep) && dep !in waiting;
      assert IsActive(rows[dep]);
    }
  }

  /** Starting everything that is ready leaves a run active as long as some run is pending. */
  lemma LaunchingActivates(g: Graph, rows: Statuses, started: set<RunId>, pending: RunId)
    requires rows.Keys == g.Keys && DependenciesOk(g) && Acyclic(g)
    requires NothingToCascade(g, rows) && pending in rows && rows[pending] == Pending
    requires forall id :: Ready(g, rows, id) ==> id in started
    ensures AnyActive(Launch(rows, started))
  {
    var sink := PendingRunsDoNotBlock(g, rows);
    if active :| active in rows && IsActive(rows[active]) {
      assert IsActive(Launch(rows, started)[active]);
    } else {
      assert IsActive(Launch(rows, started)[sink]);
    }
  }

  /**
   After an advance without errors on an acyclic graph with every dependency present, either the
   experiment is finalized or some run is running or paused.
   */
  lemma CleanAdvanceProgresses(g: Graph, s: System, o: AdvanceOutcome)
    requires s.rows.Keys == g.Keys && DependenciesOk(g) && Acyclic(g)
    requires Possible(g, s, o) && Clean(g, s, o)
    ensures var s' := AdvanceNext(s, o);
            (s'.exp == s.exp && AnyActive(s'.rows)) || Finalized(s')
  {
    var cascaded := Mark(s.rows, o.marked);
    CascadeIsExact(g, s.rows, o.marked);
    if id :| id in cascaded && cascaded[id] == Pending {
      LaunchingActivates(g, cascaded, o.started, id);
    } else {
      assert Launch(cascaded, o.started) == cascaded;
    }
  }

  /** A running experiment with no advance under way has a run that is running or paused. */
  ghost predicate NoDeadlock(s: System) {
    s.exp == ExpRunning && s.advances == 0 ==> AnyActive(s.rows)
  }

  ghost predicate FaultFree(g: Graph, s: System, step: Step) {
    match step
    case StartExperimentStep(o) => Clean(g, s.(exp := ExpRunning), o)
    case AdvanceStep(o) => Clean(g, s, o)
    case RestartStep(_) => false
    case _ => true
  }

  lemma ActiveRunsStay(s: System, s': System)
    requires NoDeadlock(s) && s'.exp == s.exp
    requires s'.advances == 0 ==> s.advances == 0 && s.rows.Keys == s'.rows.Keys
                                  && forall id :: id in s.rows && IsActive(s.rows[id]) ==> IsActive(s'.rows[id])
    ensures NoDeadlock(s')
  {
    if s'.exp == ExpRunning && s'.advances == 0 {
      var id :| id in s.rows && IsActive(s.rows[id]);
      assert IsActive(s'.rows[id]);
    }
  }

  lemma StepKeepsNoDeadlock(g: Graph, s: System, step: Step)
    requires Inv(g, s) && NoDeadlock(s) && Enabled(g, s, step) && FaultFree(g, s, step)
    ensures NoDeadlock(Next(s, step))
  {
    var s' := Next(s, step);
    match step
    case StartExperimentStep(o) => CleanAdvanceProgresses(g, s.(exp := ExpRunning), o);
    case AdvanceStep(o) =>
      if s.exp == ExpRunning {
        CleanAdvanceProgresses(g, s.(advances := s.advances - 1), o);
      }
    case StopStep(_, _, _, _) => ActiveRunsStay(s, s');
    case AutoStopStep(_, _, _) => ActiveRunsStay(s, s');
    case PauseStep(_, _, _) => ActiveRunsStay(s, s');
    case ResumeStep(_, _) => ActiveRunsStay(s, s');
    case RestartStep(_) =>
  }

  ghost predicate FaultFreeTrace(g: Graph, ss: seq<System>, steps: seq<Step>) {
    IsTrace(g, ss, steps) && forall i :: 0 <= i < |steps| ==> FaultFree(g, ss[i], steps[i])
  }

  lemma LinkKeepsNoDeadlock(g: Graph, s: System, step: Step, s': System)
    requires Inv(g, s) && NoDeadlock(s) && Linked(g, s, step, s') && FaultFree(g, s, step)
    ensures Inv(g, s') && NoDeadlock(s')
  {
    StepKeepsInv(g, s, step);
    StepKeepsNoDeadlock(g, s, step);
  }

  lemma LinkAt(g: Graph, ss: seq<System>, steps: seq<Step>, k: nat)
    requires FaultFreeTrace(g, ss, steps) && k < |steps|
    ensures Linked(g, ss[k], steps[k], ss[k + 1]) && FaultFree(g, ss[k], steps[k])
  {
    assert LinkedAt(g, ss, steps, k);
  }

  lemma LinkAtKeepsNoDeadlock(g: Graph, ss: seq<System>, steps: seq<Step>, k: nat)
    requires FaultFreeTrace(g, ss, steps) && k < |steps|
    requires Inv(g, ss[k]) && NoDeadlock(ss[k])
    ensures Inv(g, ss[k + 1]) && NoDeadlock(ss[k + 1])
  {
    LinkAt(g, ss, steps, k);
    LinkKeepsNoDeadlock(g, ss[k], steps[k], ss[k + 1]);
  }

  /**
   The scheduler never deadlocks: in every run in which no advance meets a store or start error
   and the process does not restart, whatever is stopped, paused and resumed in whatever order.
   */
  lemma {:induction false} TraceNeverDeadlocks(g: Graph, ss: seq<System>, steps: seq<Step>, k: nat)
    requires FaultFreeTrace(g, ss, steps) && k < |ss|
    ensures Inv(g, ss[k]) && NoDeadlock(ss[k])
    decreases k
  {
    if k > 0 {
      TraceNeverDeadlocks(g, ss, steps, k - 1);
      LinkAtKeepsNoDeadlock(g, ss, steps, k - 1);
    }
  }

  // ----- How many stops an experiment takes -----

  /** The runs that have not reached a terminal status. */
  function Unfinished(rows: Statuses): set<RunId> {
    set id | id in rows && !IsTerminal(rows[id])
  }

  lemma UnfinishedShrinks(before: Statuses, after: Statuses)
    requires TerminalKept(before, after)
    ensures Unfinished(after) <= Unfinished(before)
    ensures |Unfinished(after)| <= |Unfinished(before)|
    ensures Unfinished(after) != Unfinished(before) ==> |Unfinished(after)| < |Unfinished(before)|
  {
    SubsetSize(Unfinished(after), Unfinished(before));
  }

  lemma SubsetSize(a: set<RunId>, b: set<RunId>)
    requires a <= b
    ensures |a| <= |b|
    ensures a != b ==> |a| < |b|
  {
    assert b == a + (b - a);
    assert a != b ==> b - a != {};
  }

  predicate IsEffectiveStop(step: Step, before: Statuses, after: Statuses) {
    (step.StopStep? || step.AutoStopStep?) && Unfinished(after) != Unfinished(before)
  }

  /** How many of the first n steps are stops that found their run unfinished and finished it. */
  function EffectiveStops(ss: seq<System>, steps: seq<Step>, n: nat): nat
    requires |ss| == |steps| + 1 && n <= |steps|
  {
    if n == 0 then 0
    else
      EffectiveStops(ss, steps, n - 1)
      + if IsEffectiveStop(steps[n - 1], ss[n - 1].rows, ss[n].rows) then 1 else 0
  }

  /** However runs are stopped, at most one stop per run takes effect, restarts and errors included. */
  lemma {:induction false} StopsAreBounded(g: Graph, ss: seq<System>, steps: seq<Step>, n: nat)
    requires IsTrace(g, ss, steps) && n <= |steps|
    ensures EffectiveStops(ss, steps, n) + |Unfinished(ss[n].rows)| <= |g|
    decreases n
  {
    if n == 0 {
      assert Unfinished(ss[0].rows) == g.Keys;
      assert |g.Keys| == |g|;
    } else {
      StopsAreBounded(g, ss, steps, n - 1);
      TraceIsSafe(g, ss, steps, n - 1, n);
      UnfinishedShrinks(ss[n - 1].rows, ss[n].rows);
    }
  }

  /** Stop an active run with either outcome, then run the advance that stop launched, without errors. */
  ghost predicate RoundBy(g: Graph, s: System, s': System, id: RunId, status: Status, o: AdvanceOutcome) {
    && id in s.rows && IsActive(s.rows[id]) && IsTerminal(status)
    && var stopped := StopNext(s, id, status, true, true).0;
       var launched := stopped.(advances := s.advances);
       Possible(g, launched, o) && Clean(g, launched, o) && s' == AdvanceNext(launched, o)
  }

  ghost predicate Round(g: Graph, s: System, s': System) {
    exists id, status, o :: RoundBy(g, s, s', id, status, o)
  }

  lemma StopFinishesOne(g: Graph, s: System, id: RunId, status: Status)
    requires Inv(g, s) && id in s.rows && IsActive(s.rows[id]) && IsTerminal(status)
    ensures var stopped := StopNext(s, id, status, true, true).0.(advances := s.advances);
            Inv(g, stopped) && |Unfinished(stopped.rows)| < |Unfinished(s.rows)|
  {
    var stopped := StopNext(s, id, status, true, true).0;
    StopKeepsInv(g, s, id, status, true, true);
    UnfinishedShrinks(s.rows, stopped.rows);
    assert id in Unfinished(s.rows) && id !in Unfinished(stopped.rows);
  }

  lemma AdvanceShrinksOrFinishes(g: Graph, s: System, o: AdvanceOutcome)
    requires Inv(g, s) && s.exp == ExpRunning && Possible(g, s, o) && Clean(g, s, o)
    ensures var s' := AdvanceNext(s, o);
            && Inv(g, s') && |Unfinished(s'.rows)| <= |Unfinished(s.rows)|
            && ((s'.exp == ExpRunning && AnyActive(s'.rows)) || Finalized(s'))
  {
    AdvanceKeepsInv(g, s, o);
    CleanAdvanceProgresses(g, s, o);
    UnfinishedShrinks(s.rows, AdvanceNext(s, o).rows);
  }

  lemma RoundFinishesOne(g: Graph, s: System, s': System)
    requires Inv(g, s) && s.exp == ExpRunning && Round(g, s, s')
    ensures Inv(g, s') && |Unfinished(s'.rows)| < |Unfinished(s.rows)|
    ensures (s'.exp == ExpRunning && AnyActive(s'.rows)) || Finalized(s')
  {
    var id, status, o :| RoundBy(g, s, s', id, status, o);
    StopFinishesOne(g, s, id, status);
    AdvanceShrinksOrFinishes(g, StopNext(s, id, status, true, true).0.(advances := s.advances), o);
  }

  /**
   A running experiment with n unfinished runs is finalized after at most n rounds, whichever run
   each round stops and with whichever outcome; and until then there is always a run to stop.
   */
  lemma {:induction false} RoundsFinish(g: Graph, ss: seq<System>)
    requires |ss| > 0 && Inv(g, ss[0]) && ss[0].exp == ExpRunning && AnyActive(ss[0].rows)
    requires forall k :: 0 <= k < |ss| - 1 ==> ss[k].exp == ExpRunning && Round(g, ss[k], ss[k + 1])
    ensures |ss| - 1 <= |Unfinished(ss[0].rows)|
    ensures var last := ss[|ss| - 1]; (last.exp == ExpRunning && AnyActive(last.rows)) || Finalized(last)
    decreases |ss|
  {
    if |ss| > 1 {
      assert Round(g, ss[0], ss[0 + 1]);
      RoundFinishesOne(g, ss[0], ss[1]);
      var tail := ss[1..];
      forall k | 0 <= k < |tail| - 1 ensures tail[k].exp == ExpRunning && Round(g, tail[k], tail[k + 1]) {
        assert ss[k + 1].exp == ExpRunning && Round(g, ss[k + 1], ss[k + 1 + 1]);
      }
      if |tail| > 1 {
        assert tail[0].exp == ExpRunning;
        RoundsFinish(g, tail);
      }
    }
  }

  /** A clean start of a planned experiment leaves it finalized or with a run to stop. */
  lemma CleanStart(g: Graph, planned: System, o: AdvanceOutcome, s: System)
    requires Init(g, planned) && s == Next(planned, StartExperimentStep(o))
    requires Enabled(g, planned, StartExperimentStep(o)) && FaultFree(g, planned, StartExperimentStep(o))
    ensures Inv(g, s) && |Unfinished(s.rows)| <= |g|
    ensures if s.exp == ExpRunning then AnyActive(s.rows) else Finalized(s)
  {
    var begun := planned.(exp := ExpRunning);
    assert Inv(g, begun);
    AdvanceShrinksOrFinishes(g, begun, o);
    SubsetSize(Unfinished(s.rows), g.Keys);
    assert |g.Keys| == |g|;
  }

  /**
   From start to finish: a planned experiment of n runs with a valid graph, started without errors,
   is finalized after at most n rounds; until then there is always a run to stop.
   */
  lemma ExperimentFinishes(g: Graph, planned: System, o: AdvanceOutcome, ss: seq<System>)
    requires Init(g, planned)
    requires Enabled(g, planned, StartExperimentStep(o)) && FaultFree(g, planned, StartExperimentStep(o))
    requires |ss| > 0 && ss[0] == Next(planned, StartExperimentStep(o))
    requires forall k :: 0 <= k < |ss| - 1 ==> ss[k].exp == ExpRunning && Round(g, ss[k], ss[k + 1])
    ensures |ss| - 1 <= |g|
    ensures var last := ss[|ss| - 1]; (last.exp == ExpRunning && AnyActive(last.rows)) || Finalized(last)
  {
    CleanStart(g, planned, o, ss[0]);
    if |ss| > 1 {
      assert Round(g, ss[0], ss[0 + 1]);
      RoundsFinish(g, ss);
    }
  }

  // ----- Where the code falls short of this -----

  /**
   A restart leaves a running experiment without an active run exactly when no run is paused and
   every running run is written as failed by Recover.
   */
  lemma RestartLeavesNothingActiveIff(g: Graph, s: System, env: RestartEnv)
    requires Inv(g, s) && s.exp == ExpRunning
    ensures !NoDeadlock(RestartNext(s, env)) <==>
              forall id :: id in s.rows && IsActive(s.rows[id]) ==>
                s.rows[id] == Running && env.listed && id in env.lost - env.unwritten
  {
    var s' := RestartNext(s, env);
    assert forall id :: id in s.rows ==> id in s'.rows;
    var givenUp := if env.listed then env.lost - env.unwritten else {};
    if id :| id in s.rows && IsActive(s.rows[id]) && !(s.rows[id] == Running && id in givenUp) {
      assert IsActive(s'.rows[id]);
    }
  }

  /** The process itself will still do something: a run has handles, or a goroutine has not run yet. */
  predicate Driven(s: System) {
    s.running != {} || s.advances > 0 || s.autoStops != multiset{}
  }

  predicate RunsByItself(step: Step) {
    step.AdvanceStep? || step.AutoStopStep?
  }

  /**
   Recover leaves nothing that drives the experiment exactly when the in-flight runs cannot be read, and
   then the process exits and leaves that to the next restart, or when it finds no running run whose
   attacks are alive.
   */
  lemma RestartLeavesNobodyDrivingIff(s: System, env: RestartEnv)
    ensures !Driven(RestartNext(s, env)) <==>
              !env.listed || forall id :: id in s.rows && s.rows[id] == Running ==> id in env.lost
  {
    var s' := RestartNext(s, env);
    if env.listed {
      if id :| id in s.rows && s.rows[id] == Running && id !in env.lost {
        assert id in s'.running;
      } else {
        assert s'.running == {};
        assert s'.running * env.undriven == {};
      }
    }
  }

  /**
   A process with nothing to do stays so until it is called: nothing runs by itself; and a call to
   stop a run launches an advance exactly when that run, active or pending, is unfinished.
   */
  lemma UndrivenUntilCalled(g: Graph, s: System, step: Step)
    requires !Driven(s) && Inv(g, s) && Enabled(g, s, step)
    ensures !RunsByItself(step)
    ensures step.StopStep? && IsTerminal(step.status) && step.readOk && step.finalizeOk ==>
              (Driven(Next(s, step)) <==> step.id in Unfinished(s.rows))
  {
  }

  /** A run that is active and was started or resumed with a watcher or poller: no auto-complete waits for it. */
  predicate HasDriver(s: System, id: RunId) {
    id in s.rows && IsActive(s.rows[id]) && s.autoStops[id] == 0
  }

  /**
   Nobody stops the run from outside and the process does not restart. A stop by the run's own watcher or
   poller runs in a context it cancels first, so its read fails.
   */
  predicate LeftToItself(step: Step, id: RunId) {
    match step
    case StopStep(x, _, readOk, _) => x == id ==> !readOk
    case ResumeStep(x, env) => x == id ==> env.driven
    case RestartStep(_) => false
    case _ => true
  }

  lemma DriverStays(g: Graph, s: System, step: Step, id: RunId)
    requires Inv(g, s) && Enabled(g, s, step) && HasDriver(s, id) && LeftToItself(step, id)
    ensures HasDriver(Next(s, step), id) && (s.exp == ExpRunning ==> Next(s, step).exp == ExpRunning)
  {
    var s' := Next(s, step);
    match step
    case StartExperimentStep(o) => AdvanceLeavesActive(g, s.(exp := ExpRunning), o, id);
    case AdvanceStep(o) => AdvanceLeavesActive(g, s.(advances := s.advances - 1), o, id);
    case _ => assert IsActive(s'.rows[id]);
  }

  lemma AdvanceLeavesActive(g: Graph, s: System, o: AdvanceOutcome, id: RunId)
    requires HasDriver(s, id) && Possible(g, s, o)
    ensures HasDriver(AdvanceNext(s, o), id) && AdvanceNext(s, o).exp == s.exp
  {
    if o.listed {
      var cascaded := Mark(s.rows, o.marked);
      if id in DoomedRuns(g, s.rows) {
        DoomedIsPending(g, s.rows, id);
      }
      assert cascaded[id] == s.rows[id] && !Ready(g, cascaded, id);
      assert !AllTerminal(cascaded);
    }
  }

  /**
   Left to itself, a run that has a driver is never finished, and its running experiment never
   finalized: every stop that its watcher or poller makes fails.
   */
  lemma {:induction false} DrivenRunsNeverFinish(g: Graph, ss: seq<System>, steps: seq<Step>, id: RunId, j: nat, k: nat)
    requires IsTrace(g, ss, steps) && j <= k < |ss|
    requires HasDriver(ss[j], id) && forall i :: j <= i < k ==> LeftToItself(steps[i], id)
    ensures HasDriver(ss[k], id) && (ss[j].exp == ExpRunning ==> ss[k].exp == ExpRunning)
    decreases k
  {
    if j < k {
      DrivenRunsNeverFinish(g, ss, steps, id, j, k - 1);
      TraceLink(g, ss, steps, k - 1);
      DriverStays(g, ss[k - 1], steps[k - 1], id);
    }
  }

  lemma TraceLink(g: Graph, ss: seq<System>, steps: seq<Step>, k: nat)
    requires IsTrace(g, ss, steps) && k < |steps|
    ensures Inv(g, ss[k]) && Linked(g, ss[k], steps[k], ss[k + 1])
  {
    TraceIsSafe(g, ss, steps, k, k);
    assert LinkedAt(g, ss, steps, k);
  }

  // ----- Runs without a driver -----

  /** The run is running only while an auto-complete waits for it. */
  predicate Queued(s: System, id: RunId) {
    id in s.rows && s.rows[id] == Running ==> s.autoStops[id] > 0
  }

  /** Whenever this step starts, resumes or recovers the run, it finds neither a watcher nor a poller for it. */
  predicate FindsNoDriver(step: Step, id: RunId) {
    match step
    case StartExperimentStep(o) => id in o.started ==> id in o.undriven
    case AdvanceStep(o) => id in o.started ==> id in o.undriven
    case ResumeStep(x, env) => x == id ==> !env.driven
    case RestartStep(env) => env.listed ==> id in env.lost || id in env.undriven
    case _ => true
  }

  /**
   The steps that take away the last auto-complete of a run that stays running: an auto-complete whose
   store calls fail, and a restart that cannot list the runs or cannot write a run it gives up.
   */
  predicate DropsAutoStop(s: System, step: Step, id: RunId) {
    match step
    case AutoStopStep(x, readOk, finalizeOk) => x == id && !(readOk && finalizeOk) && s.autoStops[id] == 1
    case RestartStep(env) => !env.listed || (id in env.lost && id in env.unwritten)
    case _ => false
  }

  lemma AdvanceQueues(g: Graph, s: System, o: AdvanceOutcome, id: RunId)
    requires Queued(s, id) && Possible(g, s, o) && (id in o.started ==> id in o.undriven)
    ensures Queued(AdvanceNext(s, o), id)
  {
    if o.listed && id in o.undriven {
      assert multiset(o.undriven)[id] == 1;
    }
  }

  lemma RestartQueuesIff(s: System, env: RestartEnv, id: RunId)
    requires id in s.rows && s.rows[id] == Running
    requires env.listed ==> id in env.lost || id in env.undriven
    ensures Queued(RestartNext(s, env), id) <==> !DropsAutoStop(s, RestartStep(env), id)
  {
    var s' := RestartNext(s, env);
    if env.listed && id !in env.lost {
      assert id in s'.running * env.undriven;
    }
  }

  lemma OtherStepsQueue(s: System, step: Step, id: RunId)
    requires Queued(s, id) && FindsNoDriver(step, id)
    requires step.StopStep? || step.AutoStopStep? || step.PauseStep? || step.ResumeStep?
    requires step.AutoStopStep? ==> step.id in s.autoStops
    ensures id in s.rows && s.rows[id] == Running ==>
              (Queued(Next(s, step), id) <==> !DropsAutoStop(s, step, id))
    ensures !(id in s.rows && s.rows[id] == Running) ==> Queued(Next(s, step), id)
  {
    if step.StopStep? {
      StopWritesTerminal(s, step.id, step.status, step.readOk, step.finalizeOk);
    }
  }

  /** One step of a run without a driver. */
  lemma QueueLostIff(g: Graph, s: System, step: Step, id: RunId)
    requires Enabled(g, s, step) && Queued(s, id) && FindsNoDriver(step, id)
    ensures id in s.rows && s.rows[id] == Running ==>
              (Queued(Next(s, step), id) <==> !DropsAutoStop(s, step, id))
    ensures !(id in s.rows && s.rows[id] == Running) ==> Queued(Next(s, step), id)
  {
    match step
    case StartExperimentStep(o) => AdvanceQueues(g, s.(exp := ExpRunning), o, id);
    case AdvanceStep(o) => AdvanceQueues(g, s.(advances := s.advances - 1), o, id);
    case RestartStep(env) =>
      if id in s.rows && s.rows[id] == Running {
        RestartQueuesIff(s, env, id);
      }
    case _ => OtherStepsQueue(s, step, id);
  }

  /**
   Over whole runs of the system, restarts included: as long as every start, resume and recovery of a run
   finds no driver for it, an auto-complete waits for it whenever it is running, until it is paused or
   terminal, unless an auto-complete or a restart meets a store error.
   */
  lemma {:induction false} UndrivenRunsAreQueued(g: Graph, ss: seq<System>, steps: seq<Step>, id: RunId, j: nat, k: nat)
    requires IsTrace(g, ss, steps) && j <= k < |ss|
    requires j == 0 || Queued(ss[j], id)
    requires forall i :: j <= i < k ==> FindsNoDriver(steps[i], id) && !DropsAutoStop(ss[i], steps[i], id)
    ensures Queued(ss[k], id)
    decreases k
  {
    if j < k {
      UndrivenRunsAreQueued(g, ss, steps, id, j, k - 1);
      TraceLink(g, ss, steps, k - 1);
      QueueLostIff(g, ss[k - 1], steps[k - 1], id);
    }
  }

  /** Two runs, the second waiting for the first. */
  function Chain(): Graph {
    map["a" := Run("a", "e", Baseline, [], []), "b" := Run("b", "e", Isolation, ["svc"], ["a"])]
  }

  lemma NoFailureNoDoom(g: Graph, rows: Statuses)
    requires !AnyFailed(rows)
    ensures DoomedRuns(g, rows) == {}
  {
  }

  lemma ChainIsValid()
    ensures DependenciesOk(Chain()) && Acyclic(Chain())
  {
    var order := ["a", "b"];
    assert order[..1] == ["a"];
    assert order[1] == "b" && "a" in order[..1];
    assert Settled(Chain(), order);
    assert NoRepeats(order);
    SettledOrderIsSound(Chain(), order);
  }

  function ChainPlanned(): System {
    System(ExpPlanned, map["a" := Pending, "b" := Pending], {}, 0, multiset{})
  }

  function ChainStarted(): System {
    System(ExpRunning, map["a" := Running, "b" := Pending], {"a"}, 0, multiset{})
  }

  /** The error-free start of the two runs starts the first and leaves the second waiting. */
  function StartChain(): Step {
    StartExperimentStep(AdvanceOutcome(true, {}, {"a"}, {}, true))
  }

  lemma ChainStarts()
    ensures IsTrace(Chain(), [ChainPlanned(), ChainStarted()], [StartChain()])
    ensures FaultFree(Chain(), ChainPlanned(), StartChain())
  {
    ChainIsValid();
    var g, s := Chain(), ChainPlanned();
    NoFailureNoDoom(g, s.rows);
    assert Mark(s.rows, {}) == s.rows;
    assert "a" in g["b"].dependsOn && !Ready(g, s.rows, "b");
    assert Launch(s.rows, {"a"}) == ChainStarted().rows;
    assert Next(s, StartChain()) == ChainStarted();
    assert Linked(g, s, StartChain(), ChainStarted());
  }

  lemma LostChain(unwritten: set<RunId>, rows: Statuses)
    requires rows == map["a" := if "a" in unwritten then Running else Failed, "b" := Pending]
    ensures var s := RestartNext(ChainStarted(), RestartEnv(true, {"a"}, unwritten, {}));
            s.exp == ExpRunning && s.rows == rows && s.advances == 0 && !Driven(s)
  {
    RestartLeavesNobodyDrivingIff(ChainStarted(), RestartEnv(true, {"a"}, unwritten, {}));
  }

  /**
   It happens after an error-free start: when the attacks of the running run are lost, the restart leaves
   no run active and nothing to act, with the other run pending; and when in addition the failed
   status could not be written, a run that looks running has nothing to act for it.
   */
  lemma RestartCanStrand()
    ensures IsTrace(Chain(), [ChainPlanned(), ChainStarted()], [StartChain()])
    ensures var s := RestartNext(ChainStarted(), RestartEnv(true, {"a"}, {}, {}));
            s.exp == ExpRunning && s.rows == map["a" := Failed, "b" := Pending] && !NoDeadlock(s) && !Driven(s)
    ensures var s := RestartNext(ChainStarted(), RestartEnv(true, {"a"}, {"a"}, {}));
            s.exp == ExpRunning && s.rows == ChainStarted().rows && NoDeadlock(s) && !Driven(s)
  {
    ChainStarts();
    LostChain({}, map["a" := Failed, "b" := Pending]);
    LostChain({"a"}, ChainStarted().rows);
    assert IsActive(ChainStarted().rows["a"]);
  }

  /** Starting the waiting run directly, right after an error-free start, breaks the safety invariant. */
  lemma DirectStartCanJumpTheQueue()
    ensures IsTrace(Chain(), [ChainPlanned(), ChainStarted()], [StartChain()])
    ensures var (s, err) := StartNext(ChainStarted(), "b", StartEnv(true, true, true, true));
            err.None? && s.rows == map["a" := Running, "b" := Running] && !Inv(Chain(), s)
  {
    ChainStarts();
    var s := StartNext(ChainStarted(), "b", StartEnv(true, true, true, true)).0;
    assert IsActive(s.rows["b"]) && "a" in Chain()["b"].dependsOn && s.rows["a"] != Completed;
  }

  /** Starting one run directly, past the scheduler, is safe exactly when its dependencies are completed. */
  lemma DirectStartIsSafeIff(g: Graph, s: System, id: RunId, driven: bool)
    requires Inv(g, s) && id in s.rows && s.rows[id] == Pending
    ensures Inv(g, StartNext(s, id, StartEnv(true, true, true, driven)).0) <==> Ready(g, s.rows, id)
  {
    var s' := StartNext(s, id, StartEnv(true, true, true, driven)).0;
    assert TerminalKept(s.rows, s'.rows);
    if Ready(g, s.rows, id) {
      forall x | x in s'.rows && IsActive(s'.rows[x]) ensures DependenciesCompleted(g, s'.rows, x) {
        DependenciesStayCompleted(g, s.rows, s'.rows, x);
      }
    } else {
      assert IsActive(s'.rows[id]);
    }
  }

  // ----- Planned experiments -----

  /** The steps of the machine, and runs started directly through the API, which the machine leaves out. */
  datatype AnyStep = Scheduled(step: Step) | DirectStart(id: RunId, env: StartEnv)

  function AnyNext(s: System, step: AnyStep): System {
    match step
    case Scheduled(inner) => Next(s, inner)
    case DirectStart(id, env) => StartNext(s, id, env).0
  }

  ghost predicate AnyLinkedAt(g: Graph, ss: seq<System>, steps: seq<AnyStep>, k: nat)
    requires |ss| == |steps| + 1 && k < |steps|
  {
    (steps[k].Scheduled? ==> Enabled(g, ss[k], steps[k].step)) && ss[k + 1] == AnyNext(ss[k], steps[k])
  }

  /** A run of the system in which runs may also be started directly. */
  ghost predicate IsAnyTrace(g: Graph, ss: seq<System>, steps: seq<AnyStep>) {
    && |ss| == |steps| + 1
    && Init(g, ss[0])
    && forall k: nat :: k < |steps| ==> AnyLinkedAt(g, ss, steps, k)
  }

  /** A stop that took effect, or a direct start that succeeded. */
  predicate Disturbs(s: System, step: AnyStep) {
    match step
    case Scheduled(inner) => IsEffectiveStop(inner, s.rows, Next(s, inner).rows)
    case DirectStart(id, env) => StartNext(s, id, env).1.None?
  }

  /** A planned experiment nobody has touched. */
  predicate Untouched(s: System) {
    && s.exp == ExpPlanned
    && (forall id :: id in s.rows ==> s.rows[id] == Pending)
    && s.running == {} && s.advances == 0 && s.autoStops == multiset{}
  }

  predicate AllPending(rows: Statuses) {
    forall id :: id in rows ==> rows[id] == Pending
  }

  lemma RestartStaysUntouched(s: System, env: RestartEnv)
    requires Untouched(s)
    ensures RestartNext(s, env) == s
  {
    if env.listed {
      var s' := RestartNext(s, env);
      assert s'.rows == s.rows && s'.running == {};
      assert {} * env.undriven == {};
    }
  }

  lemma StopStaysUntouched(s: System, id: RunId, status: Status, readOk: bool, finalizeOk: bool)
    requires Untouched(s)
    requires Unfinished(StopNext(s, id, status, readOk, finalizeOk).0.rows) == Unfinished(s.rows)
    ensures StopNext(s, id, status, readOk, finalizeOk).0 == s
  {
    StopWritesTerminal(s, id, status, readOk, finalizeOk);
  }

  lemma StartExperimentLeavesPlanned(s: System, o: AdvanceOutcome)
    ensures Next(s, StartExperimentStep(o)).exp != ExpPlanned
  {
  }

  lemma MachineStepStaysUntouched(g: Graph, s: System, step: Step)
    requires Untouched(s) && Enabled(g, s, step) && !IsEffectiveStop(step, s.rows, Next(s, step).rows)
    ensures Next(s, step).exp == ExpPlanned ==> Untouched(Next(s, step))
  {
    if step.RestartStep? {
      RestartStaysUntouched(s, step.restart);
    } else if step.StopStep? {
      StopStaysUntouched(s, step.id, step.status, step.readOk, step.finalizeOk);
    } else if step.StartExperimentStep? {
      StartExperimentLeavesPlanned(s, step.o);
    } else {
      assert Next(s, step) == s;
    }
  }

  /** A stop either leaves every row alone, or finishes its own run. */
  lemma StopWritesTerminal(s: System, id: RunId, status: Status, readOk: bool, finalizeOk: bool)
    ensures var rows := StopNext(s, id, status, readOk, finalizeOk).0.rows;
            || rows == s.rows
            || (id in s.rows && !IsTerminal(s.rows[id]) && IsTerminal(status) && rows == s.rows[id := status]
                && Unfinished(rows) != Unfinished(s.rows))
  {
    var rows := StopNext(s, id, status, readOk, finalizeOk).0.rows;
    if rows != s.rows {
      assert id in Unfinished(s.rows) && id !in Unfinished(rows);
    }
  }

  lemma NeverPendingAgain(s: System, step: AnyStep, id: RunId)
    requires id in s.rows && s.rows[id] != Pending
    ensures id in AnyNext(s, step).rows && AnyNext(s, step).rows[id] != Pending
  {
    if step.Scheduled? && step.step.StopStep? {
      StopWritesTerminal(s, step.step.id, step.step.status, step.step.readOk, step.step.finalizeOk);
    }
  }

  lemma DisturbedRowIsNotPending(s: System, step: AnyStep)
    requires Disturbs(s, step)
    ensures !AllPending(AnyNext(s, step).rows)
  {
    var rows := AnyNext(s, step).rows;
    match step
    case Scheduled(StopStep(id, status, readOk, finalizeOk)) =>
      StopWritesTerminal(s, id, status, readOk, finalizeOk);
      assert rows[id] != Pending;
    case Scheduled(AutoStopStep(id, readOk, finalizeOk)) =>
      StopWritesTerminal(s.(autoStops := s.autoStops - multiset{id}), id, Completed, readOk, finalizeOk);
      assert rows[id] != Pending;
    case DirectStart(id, env) => assert rows[id] == Running;
    case _ =>
  }

  /**
   A row that has left pending stays out of it, and a row that an effective stop or a direct start wrote has
   left it.
  */
  lemma PendingIsLeftForGood(s: System, step: AnyStep)
    ensures !AllPending(s.rows) ==> !AllPending(AnyNext(s, step).rows)
    ensures Disturbs(s, step) ==> !AllPending(AnyNext(s, step).rows)
  {
    if id :| id in s.rows && s.rows[id] != Pending {
      NeverPendingAgain(s, step, id);
    }
    if Disturbs(s, step) {
      DisturbedRowIsNotPending(s, step);
    }
  }

  lemma StaysPlanned(s: System, step: AnyStep)
    requires AnyNext(s, step).exp == ExpPlanned
    ensures s.exp == ExpPlanned
  {
  }

  lemma AnyStepStaysUntouched(g: Graph, s: System, step: AnyStep)
    requires Untouched(s) && (step.Scheduled? ==> Enabled(g, s, step.step)) && !Disturbs(s, step)
    ensures AnyNext(s, step).exp == ExpPlanned ==> Untouched(AnyNext(s, step))
  {
    if step.Scheduled? {
      MachineStepStaysUntouched(g, s, step.step);
    }
  }

  lemma {:induction false} PlannedUpTo(g: Graph, ss: seq<System>, steps: seq<AnyStep>, k: nat)
    requires IsAnyTrace(g, ss, steps) && k <= |steps| && ss[k].exp == ExpPlanned
    ensures AllPending(ss[k].rows) <==> forall i :: 0 <= i < k ==> !Disturbs(ss[i], steps[i])
    ensures AllPending(ss[k].rows) ==> Untouched(ss[k])
    decreases k
  {
    if k > 0 {
      assert AnyLinkedAt(g, ss, steps, k - 1);
      StaysPlanned(ss[k - 1], steps[k - 1]);
      PlannedUpTo(g, ss, steps, k - 1);
      PendingIsLeftForGood(ss[k - 1], steps[k - 1]);
      if AllPending(ss[k - 1].rows) && !Disturbs(ss[k - 1], steps[k - 1]) {
        AnyStepStaysUntouched(g, ss[k - 1], steps[k - 1]);
      }
    }
  }

  /**
   The graph check comes before any run of an experiment starts only if nobody stops or starts a run of
   the planned experiment: as long as it is planned, its rows are all pending exactly when no stop took
   effect and no direct start succeeded.
   */
  lemma PlannedMeansPendingIff(g: Graph, ss: seq<System>, steps: seq<AnyStep>, k: nat)
    requires IsAnyTrace(g, ss, steps) && k <= |steps| && ss[k].exp == ExpPlanned
    ensures AllPending(ss[k].rows) <==> forall i :: 0 <= i < k ==> !Disturbs(ss[i], steps[i])
  {
    PlannedUpTo(g, ss, steps, k);
  }

  /** A direct start leaves the experiment planned with a run running, whatever the run waits for. */
  lemma DirectStartOfAPlannedExperiment()
    ensures var started := ChainPlanned().(rows := map["a" := Pending, "b" := Running], running := {"b"});
            && IsAnyTrace(Chain(), [ChainPlanned(), started], [DirectStart("b", StartEnv(true, true, true, true))])
            && started.exp == ExpPlanned && !AllPending(started.rows)
  {
    var start := DirectStart("b", StartEnv(true, true, true, true));
    var started := ChainPlanned().(rows := map["a" := Pending, "b" := Running], running := {"b"});
    assert AnyNext(ChainPlanned(), start) == started;
    assert AnyLinkedAt(Chain(), [ChainPlanned(), started], [start], 0);
    assert started.rows["b"] == Running;
  }

  /** A graph the start check refuses: the third run waits for itself. */
  function Broken(): Graph {
    Chain()["c" := Run("c", "e", Isolation, [], ["c"])]
  }

  function BrokenAt(a: Status, b: Status, running: set<RunId>, advances: nat): System {
    System(ExpPlanned, map["a" := a, "b" := b, "c" := Pending], running, advances, multiset{})
  }

  lemma StopLaunches()
    ensures Linked(Broken(), BrokenAt(Pending, Pending, {}, 0), StopStep("a", Completed, true, true),
                   BrokenAt(Completed, Pending, {}, 1))
  {
  }

  lemma AdvanceStarts()
    ensures Linked(Broken(), BrokenAt(Completed, Pending, {}, 1),
        AdvanceStep(AdvanceOutcome(true, {}, {"b"}, {}, true)),
                   BrokenAt(Completed, Running, {"b"}, 0))
  {
    var s := BrokenAt(Completed, Pending, {}, 1);
    assert Mark(s.rows, {}) == s.rows && s.rows["c"] == Pending;
    assert Launch(s.rows, {"b"}) == BrokenAt(Completed, Running, {"b"}, 0).rows;
    assert Ready(Broken(), s.rows, "b");
  }

  /** Completing one run of the planned experiment starts the run behind it, although the graph is invalid. */
  lemma StopStartsAnUncheckedExperiment()
    ensures !Acyclic(Broken())
    ensures exists ss: seq<System>, steps: seq<Step> :: IsTrace(Broken(), ss, steps) && |steps| == 2
              && ss[2].exp == ExpPlanned && ss[2].rows == map["a" := Completed, "b" := Running, "c" := Pending]
  {
    EdgeReaches(Broken(), "c", "c");
    StopLaunches();
    AdvanceStarts();
    assert IsTrace(Broken(),
                   [BrokenAt(Pending, Pending, {}, 0), BrokenAt(Completed, Pending, {}, 1),
                       BrokenAt(Completed, Running, {"b"}, 0)],
                   [StopStep("a", Completed, true, true), AdvanceStep(AdvanceOutcome(true, {}, {"b"}, {}, true))]);
  }
}
