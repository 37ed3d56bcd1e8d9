/** The phase watcher of a run and the phase driver around it (internal/orchestrator/runner.go). */
module PhaseWatch {
  import opened Wrappers
  import opened Conditions
  import opened Scheduler

  /** What one tick of the watcher sees: the clock and the answer to the metric query. */
  datatype Tick = Failed(now: int) | Sampled(now: int, value: Value)

  datatype Condition = Condition(operator: string, threshold: real, window: int)

  predicate Holds(t: Tick, c: Condition) {
    t.Sampled? && Met(t.value, c.operator, c.threshold)
  }

  ghost predicate ClockForward(ticks: seq<Tick>) {
    forall i, j :: 0 <= i <= j < |ticks| ==> ticks[i].now <= ticks[j].now
  }

  /** The condition has held at every tick from i to j, and that stretch spans the window. */
  predicate HeldThrough(ticks: seq<Tick>, c: Condition, i: nat, j: nat)
    requires j < |ticks|
  {
    && i < j
    && (forall k :: i <= k <= j ==> Holds(ticks[k], c))
    && ticks[j].now - ticks[i].now >= c.window
  }

  ghost predicate Due(ticks: seq<Tick>, c: Condition, j: nat)
    requires j < |ticks|
  {
    exists i: nat :: HeldThrough(ticks, c, i, j)
  }

  /** Due: an earlier tick lies a window back or more, and from there on every query was answered and met. */
  lemma DueIff(ticks: seq<Tick>, c: Condition, j: nat)
    requires j < |ticks|
    ensures Due(ticks, c, j) <==>
              exists i :: 0 <= i < j && ticks[j].now - ticks[i].now >= c.window
                  && forall k :: i <= k <= j ==>
                       ticks[k].Sampled? && Met(ticks[k].value, c.operator, c.threshold)
  {
    if i :| 0 <= i < j && ticks[j].now - ticks[i].now >= c.window
            && forall k :: i <= k <= j ==> ticks[k].Sampled? && Met(ticks[k].value, c.operator, c.threshold) {
      assert HeldThrough(ticks, c, i, j);
    }
  }

  /**
   The watcher advances the phase at the first tick at which the condition is due, and at no other:
   after a query error or an unmet sample the whole window has to be held again.
  */
  method WatchPhase(ticks: seq<Tick>, c: Condition) returns (advancedAt: Option<nat>)
    requires ClockForward(ticks)
    ensures advancedAt.None? ==> forall j :: 0 <= j < |ticks| ==> !Due(ticks, c, j)
    ensures advancedAt.Some? ==>
              && advancedAt.value < |ticks|
              && Due(ticks, c, advancedAt.value)
              && forall j :: 0 <= j < advancedAt.value ==> !Due(ticks, c, j)
  {
    var condHeld := false;
    var condHeldSince := 0;
    ghost var since := 0;  // the tick at which the current stretch began
    for j := 0 to |ticks|
      invariant since <= j
      invariant condHeld ==> since < j && condHeldSince == ticks[since].now
                             && forall k :: since <= k < j ==> Holds(ticks[k], c)
      invariant condHeld && since > 0 ==> !Holds(ticks[since - 1], c)
      invariant !condHeld && j > 0 ==> !Holds(ticks[j - 1], c)
      invariant forall k :: 0 <= k < j ==> !Due(ticks, c, k)
    {
      var tick := ticks[j];
      match tick
      case Failed(_) =>
        condHeld, condHeldSince := false, 0;
      case Sampled(now, value) =>
        if Met(value, c.operator, c.threshold) {
          if !condHeld {
            condHeld, condHeldSince := true, now;
            since := j;
          } else if now - condHeldSince >= c.window {
            assert HeldThrough(ticks, c, since, j);
            return Some(j);
          } else {
            forall i: nat | i < j ensures !HeldThrough(ticks, c, i, j) {
              if i < since {
                assert !Holds(ticks[since - 1], c);
              }
            }
          }
        } else {
          condHeld, condHeldSince := false, 0;
        }
    }
    return None;
  }

  datatype Handles = Handles(watcher: Option<nat>, poller: Option<nat>)

  /** Each phase entered is the one before or the next one, beginning with phase 0. */
  ghost predicate Ladder(entered: seq<nat>) {
    && (entered != [] ==> entered[0] == 0)
    && forall k, l :: 0 <= k < l < |entered| && l == k + 1 ==> entered[l] == entered[k] || entered[l] == entered[k] + 1
  }

  /** One more phase keeps the ladder exactly when it is the one before or the next one. */
  lemma LadderGrows(entered: seq<nat>, phase: nat)
    ensures entered == [] ==> (Ladder(entered + [phase]) <==> phase == 0)
    ensures entered != [] ==>
              var last := entered[|entered| - 1];
              Ladder(entered + [phase]) <==> Ladder(entered) && (phase == last || phase == last + 1)
  {
    var longer := entered + [phase];
    if entered != [] {
      var n := |entered| - 1;
      assert longer[n] == entered[n] && longer[n + 1] == phase;
      if Ladder(longer) {
        forall k, l | 0 <= k < l < |entered| && l == k + 1
          ensures entered[l] == entered[k] || entered[l] == entered[k] + 1
        {
          assert longer[k] == entered[k] && longer[l] == entered[l];
        }
        assert longer[0] == entered[0];
      }
    }
  }

  /** How far the row's phase is below the phase entered last: its writes failed, and the code ignores those errors. */
  function BehindBy(entered: seq<nat>, row: nat): int {
    if entered == [] then 0 else entered[|entered| - 1] - row
  }

  /**
   The phases entered stay within the run's phases, and they climb one by one exactly when no phase
   entered was below the one before it.
  */
  ghost predicate EntriesSound(entered: seq<nat>, row: nat, status: Status, fellBack: bool, phases: nat) {
    && (forall k :: 0 <= k < |entered| ==> entered[k] == 0 || entered[k] < phases)
    && (row == 0 || row < phases)
    && (status == Pending ==> row == 0 && forall k :: 0 <= k < |entered| ==> entered[k] == 0)
    && (entered == [] ==> row == 0 && (status == Pending || IsTerminal(status)))
    && BehindBy(entered, row) >= 0
    && (Ladder(entered) <==> !fellBack)
  }

  lemma EntryKeepsSound(entered: seq<nat>, row: nat, status: Status, fellBack: bool, phases: nat, phase: nat, row': nat)
    requires EntriesSound(entered, row, status, fellBack, phases)
    requires (phase == 0 || phase < phases) && (row' == row || row' == phase) && row' <= phase
    requires if entered == [] then phase == 0 else phase <= entered[|entered| - 1] + 1
    requires status == Pending ==> phase == 0
    ensures EntriesSound(entered + [phase], row', status,
                         fellBack || (entered != [] && phase < entered[|entered| - 1]), phases)
  {
    LadderGrows(entered, phase);
  }

  /**
   One run: its row, its entry in the orchestrator's map of running runs, and the watcher and
   poller goroutines that have not returned and are not cancelled. Operations do not overlap.
  */
  class PhaseDriver {
    const phases: nat            // number of phase rule sets
    const hasCondition: bool
    var status: Status
    var currentPhase: nat
    var handles: Option<Handles>
    var watchers: map<nat, nat>  // live watcher -> current phase of the run value it works on
    var pollers: set<nat>
    var nextId: nat
    ghost var entered: seq<nat>  // the phases entered so far
    ghost var fellBack: bool     // some phase entered was below the one before it
    ghost var gap: nat           // how far the live watcher's phase is below the phase entered last

    ghost function Behind(): int
      reads this`entered, this`currentPhase
    {
      BehindBy(entered, currentPhase)
    }

    ghost predicate Valid()
      reads this
    {
      && (handles.Some? ==> status == Running)
      && (forall w :: w in watchers ==>
            && handles.Some? && handles.value.watcher == Some(w)
            && entered != [] && watchers[w] + gap == entered[|entered| - 1] && currentPhase <= watchers[w]
            && watchers[w] + 1 < phases && hasCondition && w < nextId)
      && (forall p :: p in pollers ==> handles.Some? && handles.value.poller == Some(p) && p < nextId)
      && EntriesOk()
    }

    ghost predicate EntriesOk()
      reads this`entered, this`currentPhase, this`status, this`fellBack
    {
      EntriesSound(entered, currentPhase, status, fellBack, phases)
    }

    /** At most one live watcher and one live poller, and they are the ones the handles can cancel. */
    lemma OneDriverEach()
      requires Valid()
      ensures forall w, w' :: w in watchers && w' in watchers ==> w == w'
      ensures forall p, p' :: p in pollers && p' in pollers ==> p == p'
      ensures watchers != map[] || pollers != {} ==> status == Running && handles.Some?
    {
      if watchers != map[] {
        var w :| w in watchers;
      }
    }

    constructor (phases: nat, hasCondition: bool)
      ensures Valid() && status == Pending && entered == [] && !fellBack
      ensures this.phases == phases && this.hasCondition == hasCondition && handles.None?
    {
      this.phases, this.hasCondition := phases, hasCondition;
      status, currentPhase, handles, watchers, pollers, nextId := Pending, 0, None, map[], {}, 0;
      entered, fellBack, gap := [], false, 0;
    }

    /** Spawn the goroutines StartRun and ResumeRun spawn, and register their cancel functions. */
    method Spawn(attacked: bool)
      requires Valid() && status == Running && handles.None?
      requires entered != []
      modifies this`handles, this`watchers, this`pollers, this`nextId, this`gap
      ensures Valid()
      ensures handles.Some?
      ensures currentPhase + 1 < phases && hasCondition <==> handles.value.watcher.Some?
      ensures attacked <==> handles.value.poller.Some?
      ensures pollers == if attacked then {handles.value.poller.value} else {}
      ensures watchers ==
          if handles.value.watcher.Some? then map[handles.value.watcher.value := currentPhase] else map[]
      ensures gap == Behind()
    {
      var watcher, poller := None, None;
      gap := Behind();
      assert watchers == map[] && pollers == {};
      if currentPhase + 1 < phases && hasCondition {
        watcher := Some(nextId);
        watchers := watchers[nextId := currentPhase];
        nextId := nextId + 1;
      }
      if attacked {
        poller := Some(nextId);
        pollers := {nextId};
        nextId := nextId + 1;
      }
      handles := Some(Handles(watcher, poller));
    }

    method StartRun(enterOk: bool, writeOk: bool, attacked: bool) returns (ok: bool)
      requires Valid()
      modifies this`status, this`handles, this`watchers, this`pollers, this`nextId, this`entered, this`gap
      ensures Valid()
      ensures ok <==> old(status) == Pending && enterOk && writeOk
      ensures ok ==> status == Running && entered == old(entered) + [0] && handles.Some?
      ensures ok ==> (watchers != map[] <==> currentPhase + 1 < phases && hasCondition)
      ensures ok ==> (pollers != {} <==> attacked) && watchers.Values <= {currentPhase}
      ensures !ok ==> status == old(status) && handles == old(handles)
      ensures entered == old(entered) || entered == old(entered) + [0]
    {
      if status != Pending || !enterOk {
        return false;
      }
      EntryKeepsSound(entered, currentPhase, status, fellBack, phases, 0, 0);
      entered := entered + [0];
      if !writeOk {
        return false;
      }
      status := Running;
      Spawn(attacked);
      return true;
    }

    method CancelAll()
      requires Valid()
      modifies this`handles, this`watchers, this`pollers
      ensures Valid() && handles.None? && watchers == map[] && pollers == {}
    {
      if handles.Some? {
        if handles.value.watcher.Some? {
          watchers := watchers - {handles.value.watcher.value};
        }
        if handles.value.poller.Some? {
          pollers := pollers - {handles.value.poller.value};
        }
      }
      handles := None;
    }

    method PauseRun(writeOk: bool) returns (ok: bool)
      requires Valid()
      modifies this`status, this`handles, this`watchers, this`pollers
      ensures Valid()
      ensures ok <==> old(status) == Running && writeOk
      ensures status == if ok then Paused else old(status)
      ensures old(status) == Running ==> handles.None? && watchers == map[] && pollers == {}
      ensures old(status) != Running ==>
                handles == old(handles) && watchers == old(watchers) && pollers == old(pollers)
    {
      if status != Running {
        return false;
      }
      CancelAll();
      if !writeOk {
        return false;
      }
      status := Paused;
      return true;
    }

    method ResumeRun(enterOk: bool, writeOk: bool, attacked: bool) returns (ok: bool)
      requires Valid()
      modifies this`status, this`handles, this`watchers, this`pollers, this`nextId, this`entered, this`fellBack,
          this`gap
      ensures Valid()
      ensures fellBack <==> old(fellBack) || (entered != old(entered) && old(Behind()) > 0)
      ensures ok ==> gap == 0
      ensures ok <==> old(status) == Paused && enterOk && writeOk
      ensures ok ==> status == Running && entered == old(entered) + [currentPhase]
      ensures ok ==> (watchers != map[] <==> currentPhase + 1 < phases && hasCondition)
      ensures ok ==> (pollers != {} <==> attacked) && watchers.Values <= {currentPhase}
      ensures !ok ==> status == old(status) && handles == old(handles)
      ensures entered == old(entered) || entered == old(entered) + [currentPhase]
    {
      if status != Paused || !enterOk {
        return false;
      }
      EntryKeepsSound(entered, currentPhase, status, fellBack, phases, currentPhase, currentPhase);
      fellBack := fellBack || Behind() > 0;
      entered := entered + [currentPhase];
      if !writeOk {
        return false;
      }
      status := Running;
      Spawn(attacked);
      return true;
    }

    /**
     A stop by the API (no caller here) or by the run's own watcher or poller, which passes its own
     context on: cancelling the run's goroutines cancels that context, so the row can then neither
     be read nor written.
    */
    method StopRun(want: Status, caller: Option<nat>, readOk: bool, finalizeOk: bool)
      requires Valid() && IsTerminal(want)
      requires caller.Some? ==> caller.value in watchers || caller.value in pollers
      modifies this`status, this`handles, this`watchers, this`pollers
      ensures Valid() && handles.None? && watchers == map[] && pollers == {}
      ensures status == if caller.Some? || !readOk || IsTerminal(old(status)) || !finalizeOk then old(status) else want
    {
      CancelAll();
      var cancelled := caller.Some? && caller.value !in watchers && caller.value !in pollers;
      if cancelled || !readOk {
        return;
      }
      if !IsTerminal(status) && finalizeOk {
        status := want;
      }
    }

    /**
     The poller found its attacks done or failed, or gave up: the row stays running, with nothing left to drive
     it.
    */
    method PollerStops(p: nat, want: Status)
      requires Valid() && p in pollers && IsTerminal(want)
      modifies this`status, this`handles, this`watchers, this`pollers
      ensures Valid() && status == Running && handles.None? && watchers == map[] && pollers == {}
    {
      StopRun(want, Some(p), true, true);
    }

    /** The process dies: its goroutines and the handle map are gone, the row is as it was last written. */
    method Crash()
      requires Valid()
      modifies this`handles, this`watchers, this`pollers
      ensures Valid() && handles.None? && watchers == map[] && pollers == {}
    {
      handles, watchers, pollers := None, map[], {};
    }

    /**
     Recover after a crash: a running run whose attacks are lost is written as failed, any other running
     run gets a watcher on the phase of the row, without entering it again.
    */
    method Recover(lost: bool, writeOk: bool, attacked: bool)
      requires Valid() && handles.None?
      modifies this`status, this`handles, this`watchers, this`pollers, this`nextId, this`gap
      ensures Valid()
      ensures status == if old(status) == Running && lost && writeOk then Scheduler.Failed else old(status)
      ensures handles.Some? <==> old(status) == Running && !lost
      ensures watchers != map[] <==> handles.Some? && currentPhase + 1 < phases && hasCondition
      ensures pollers != {} <==> handles.Some? && attacked
      ensures watchers.Values <= {currentPhase}
      ensures handles.Some? ==> gap == Behind()
    {
      if status != Running {
        return;
      }
      if lost {
        if writeOk {
          status := Scheduler.Failed;
        }
        return;
      }
      Spawn(attacked);
    }

    /** The finished watcher is replaced by one for the next phase, if that phase is not the last. */
    method Handover(nextPhase: nat)
      requires handles.Some? && status == Running && hasCondition && nextPhase < phases
      requires forall p :: p in pollers ==> handles.value.poller == Some(p) && p < nextId
      requires EntriesOk() && entered != [] && entered[|entered| - 1] == nextPhase
      requires currentPhase <= nextPhase
      modifies this`handles, this`watchers, this`nextId, this`gap
      ensures Valid() && gap == 0
      ensures forall w :: w in watchers ==> w >= old(nextId)
      ensures watchers != map[] <==> nextPhase + 1 < phases
      ensures watchers.Values <= {nextPhase}
    {
      gap := 0;
      if nextPhase + 1 < phases && hasCondition {
        handles := Some(handles.value.(watcher := Some(nextId)));
        watchers := map[nextId := nextPhase];
        nextId := nextId + 1;
        assert nextId - 1 in watchers;
      } else {
        watchers := map[];
      }
    }

    /** The next phase is entered and written to the row; an error of the write is ignored. */
    method EnterNext(nextPhase: nat, phaseWriteOk: bool)
      requires EntriesOk() && status == Running && entered != []
      requires currentPhase < nextPhase < phases && nextPhase + gap == entered[|entered| - 1] + 1
      modifies this`entered, this`fellBack, this`currentPhase, this`status
      ensures EntriesOk() && status == Running && entered == old(entered) + [nextPhase]
      ensures fellBack <==> old(fellBack) || gap >= 2
      ensures currentPhase == if phaseWriteOk then nextPhase else old(currentPhase)
    {
      EntryKeepsSound(entered, currentPhase, status, fellBack, phases, nextPhase,
                      if phaseWriteOk then nextPhase else currentPhase);
      fellBack := fellBack || gap >= 2;
      entered := entered + [nextPhase];
      if phaseWriteOk {
        currentPhase, status := nextPhase, Running;
      }
    }

    /**
     A live watcher found its condition due. It never runs past the last phase: a watcher exists
     only while there is a next phase. It hands over to a new watcher or leaves none behind. When
     the phase cannot be entered the run is meant to be stopped as failed, but its row stays running.
    */
    method AdvancePhase(w: nat, enterOk: bool, phaseWriteOk: bool)
      requires Valid() && w in watchers
      modifies this
      ensures Valid() && w !in watchers
      ensures enterOk ==> entered == old(entered) + [old(watchers[w]) + 1] && entered[|entered| - 1] < phases
      ensures enterOk ==> status == Running && pollers == old(pollers)
      ensures fellBack <==> old(fellBack) || (enterOk && old(gap) >= 2)
      ensures enterOk ==> gap == 0 && (phaseWriteOk <==> Behind() == 0)
      ensures enterOk ==> currentPhase == if phaseWriteOk then old(watchers[w]) + 1 else old(currentPhase)
      ensures enterOk ==> (watchers != map[] <==> old(watchers[w]) + 2 < phases)
      ensures watchers.Values <= {old(watchers[w]) + 1}
      ensures !enterOk ==> entered == old(entered) && status == Running
                           && handles.None? && watchers == map[] && pollers == {}
    {
      var nextPhase := watchers[w] + 1;
      assert nextPhase < phases;
      if !enterOk {
        StopRun(Scheduler.Failed, Some(w), true, true);
        return;
      }
      EnterNext(nextPhase, phaseWriteOk);
      Handover(nextPhase);
    }
  }

  /** It does happen: when the write of phase 1 is lost, a pause and a resume enter phase 0 again. */
  method LostPhaseWriteRepeatsAPhase() returns (d: PhaseDriver)
    ensures fresh(d) && d.Valid() && d.entered == [0, 1, 0] && !Ladder(d.entered)
  {
    d := new PhaseDriver(3, true);
    var ok := d.StartRun(true, true, false);
    var w :| w in d.watchers;
    d.AdvancePhase(w, true, false);
    ok := d.PauseRun(true);
    ok := d.ResumeRun(true, true, false);
    assert d.entered[1] == 1 && d.entered[2] == 0;
  }

  /** A run of four phases whose row has missed the writes of phases 1 and 2. */
  method TwoWritesLost() returns (d: PhaseDriver)
    ensures fresh(d) && d.Valid() && d.phases == 4 && d.hasCondition
    ensures d.status == Running && d.entered == [0, 1, 2] && d.currentPhase == 0
  {
    d := new PhaseDriver(4, true);
    var ok := d.StartRun(true, true, false);
    var w :| w in d.watchers;
    d.AdvancePhase(w, true, false);
    assert d.entered == [0, 1];
    w :| w in d.watchers;
    d.AdvancePhase(w, true, false);
  }

  /** It happens after a restart as well: the recovered watcher enters phase 1 again after phase 2. */
  method RestartRepeatsAPhase() returns (d: PhaseDriver)
    ensures fresh(d) && d.Valid() && d.entered == [0, 1, 2, 1] && !Ladder(d.entered)
  {
    d := TwoWritesLost();
    d.Crash();
    d.Recover(false, true, false);
    var w :| w in d.watchers;
    d.AdvancePhase(w, true, true);
    assert d.entered[2] == 2 && d.entered[3] == 1;
  }
}
