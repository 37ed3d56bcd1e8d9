/**
 The bounded fan-out (internal/atrocontrol/fanout.go) as a state machine over every schedule of its
 goroutines: the caller spawns targets in order and blocks on the semaphore; a goroutine makes its
 call, records the result under the mutex, and only then gives its semaphore slot back.
*/
module Fanout {

  datatype Stage = Waiting | Calling | Returned(ok: bool) | Recorded(ok: bool) | Finished(ok: bool)

  datatype State = State(stages: seq<Stage>, ok: seq<nat>, failed: seq<nat>)

  datatype Step = Spawn | Return(i: nat, ok: bool) | Record(i: nat) | Release(i: nat)

  predicate HoldsSlot(stage: Stage) {
    stage.Calling? || stage.Returned? || stage.Recorded?
  }

  function Slots(s: State): set<nat> {
    set i: nat | i < |s.stages| && HoldsSlot(s.stages[i])
  }

  function InFlight(s: State): set<nat> {
    set i: nat | i < |s.stages| && s.stages[i].Calling?
  }

  predicate Enabled(s: State, concurrency: nat, step: Step) {
    match step
    case Spawn => |Slots(s)| < concurrency && exists i :: 0 <= i < |s.stages| && s.stages[i].Waiting?
    case Return(i, _) => i < |s.stages| && s.stages[i].Calling?
    case Record(i) => i < |s.stages| && s.stages[i].Returned?
    case Release(i) => i < |s.stages| && s.stages[i].Recorded?
  }

  function FirstWaiting(stages: seq<Stage>): (i: nat)
    requires exists i :: 0 <= i < |stages| && stages[i].Waiting?
    ensures i < |stages| && stages[i].Waiting? && forall j :: 0 <= j < i ==> !stages[j].Waiting?
  {
    if stages[0].Waiting? then 0
    else
      assert exists i :: 0 <= i < |stages[1..]| && stages[1..][i].Waiting? by {
        var i :| 0 <= i < |stages| && stages[i].Waiting?;
        assert stages[1..][i - 1].Waiting?;
      }
      var k := FirstWaiting(stages[1..]);
      assert forall j :: 0 < j < k + 1 ==> stages[j] == stages[1..][j - 1];
      k + 1
  }

  function Next(s: State, concurrency: nat, step: Step): State
    requires Enabled(s, concurrency, step)
  {
    match step
    case Spawn => s.(stages := s.stages[FirstWaiting(s.stages) := Calling])
    case Return(i, ok) => s.(stages := s.stages[i := Returned(ok)])
    case Record(i) =>
      var ok := s.stages[i].ok;
      State(s.stages[i := Recorded(ok)], if ok then s.ok + [i] else s.ok, if ok then s.failed else s.failed + [i])
    case Release(i) => s.(stages := s.stages[i := Finished(s.stages[i].ok)])
  }

  function Start(n: nat): State {
    State(seq(n, _ => Waiting), [], [])
  }

  predicate IsRecorded(stage: Stage, ok: bool) {
    (stage.Recorded? || stage.Finished?) && stage.ok == ok
  }

  function RecordedTargets(stages: seq<Stage>, ok: bool): set<nat> {
    set i: nat | i < |stages| && IsRecorded(stages[i], ok)
  }

  /** The elements of the sequence are those of the set, each exactly once. */
  ghost predicate Lists(q: seq<nat>, all: set<nat>) {
    |q| == |all| && forall i :: i in q <==> i in all
  }

  lemma AppendOnce(q: seq<nat>, all: set<nat>, i: nat)
    requires Lists(q, all) && i !in all
    ensures Lists(q + [i], all + {i})
  {
  }

  ghost predicate Inv(s: State, concurrency: nat) {
    && |Slots(s)| <= concurrency
    && Lists(s.ok, RecordedTargets(s.stages, true))
    && Lists(s.failed, RecordedTargets(s.stages, false))
  }

  lemma SubsetSize(a: set<nat>, b: set<nat>)
    requires a <= b
    ensures |a| <= |b|
  {
    assert b == a + (b - a);
  }

  lemma StageEffect(s: State, i: nat, stage: Stage)
    requires i < |s.stages|
    ensures Slots(s.(stages := s.stages[i := stage])) == if HoldsSlot(stage) then Slots(s) + {i} else Slots(s) - {i}
    ensures forall ok :: RecordedTargets(s.stages[i := stage], ok) ==
                         if IsRecorded(stage, ok) then RecordedTargets(s.stages, ok) + {i}
                         else RecordedTargets(s.stages, ok) - {i}
  {
  }

  /** Recording keeps the slot and adds the target to the results of its own outcome only. */
  lemma RecordEffect(s: State, i: nat)
    requires i < |s.stages| && s.stages[i].Returned?
    ensures var ok, after := s.stages[i].ok, s.stages[i := Recorded(s.stages[i].ok)];
            && i !in RecordedTargets(s.stages, ok)
            && RecordedTargets(after, ok) == RecordedTargets(s.stages, ok) + {i}
            && RecordedTargets(after, !ok) == RecordedTargets(s.stages, !ok)
            && Slots(s.(stages := after)) == Slots(s)
  {
    StageEffect(s, i, Recorded(s.stages[i].ok));
    assert i in Slots(s) && Slots(s) + {i} == Slots(s);
    assert i !in RecordedTargets(s.stages, !s.stages[i].ok);
  }

  lemma RecordKeepsInv(s: State, concurrency: nat, i: nat)
    requires Inv(s, concurrency) && Enabled(s, concurrency, Record(i))
    ensures Inv(Next(s, concurrency, Record(i)), concurrency)
  {
    RecordEffect(s, i);
    if s.stages[i].ok {
      AppendOnce(s.ok, RecordedTargets(s.stages, true), i);
    } else {
      AppendOnce(s.failed, RecordedTargets(s.stages, false), i);
    }
  }

  lemma SameResults(s: State, i: nat, stage: Stage)
    requires i < |s.stages| && forall ok :: IsRecorded(stage, ok) == IsRecorded(s.stages[i], ok)
    ensures forall ok :: RecordedTargets(s.stages[i := stage], ok) == RecordedTargets(s.stages, ok)
  {
    StageEffect(s, i, stage);
    forall ok ensures RecordedTargets(s.stages[i := stage], ok) == RecordedTargets(s.stages, ok) {
      assert i in RecordedTargets(s.stages, ok) <==> IsRecorded(stage, ok);
    }
  }

  lemma StageMoves(s: State, concurrency: nat, i: nat, stage: Stage)
    requires Inv(s, concurrency) && i < |s.stages|
    requires forall ok :: IsRecorded(stage, ok) == IsRecorded(s.stages[i], ok)
    requires HoldsSlot(stage) ==> HoldsSlot(s.stages[i]) || |Slots(s)| < concurrency
    ensures Inv(s.(stages := s.stages[i := stage]), concurrency)
  {
    StageEffect(s, i, stage);
    SameResults(s, i, stage);
    if !HoldsSlot(stage) {
      SubsetSize(Slots(s) - {i}, Slots(s));
    } else if HoldsSlot(s.stages[i]) {
      assert Slots(s) + {i} == Slots(s);
    }
  }

  /** Never more calls in flight than the semaphore has slots; a result is recorded for each target at most once. */
  lemma StepKeepsInv(s: State, concurrency: nat, step: Step)
    requires Inv(s, concurrency) && Enabled(s, concurrency, step)
    ensures Inv(Next(s, concurrency, step), concurrency)
    ensures |InFlight(Next(s, concurrency, step))| <= concurrency
  {
    match step {
      case Spawn => StageMoves(s, concurrency, FirstWaiting(s.stages), Calling);
      case Return(i, ok) => StageMoves(s, concurrency, i, Returned(ok));
      case Record(i) => RecordKeepsInv(s, concurrency, i);
      case Release(i) => StageMoves(s, concurrency, i, Finished(s.stages[i].ok));
    }
    SubsetSize(InFlight(Next(s, concurrency, step)), Slots(Next(s, concurrency, step)));
  }

  predicate AllFinished(s: State) {
    forall i :: 0 <= i < |s.stages| ==> s.stages[i].Finished?
  }

  /** The schedule of a fan-out over n targets: states and the steps between them. */
  ghost predicate IsSchedule(n: nat, concurrency: nat, ss: seq<State>, steps: seq<Step>) {
    && |ss| == |steps| + 1
    && ss[0] == Start(n)
    && forall k :: 0 <= k < |steps| ==> Follows(ss[k], concurrency, steps[k], ss[k + 1])
  }

  predicate Follows(s: State, concurrency: nat, step: Step, s': State) {
    Enabled(s, concurrency, step) && s' == Next(s, concurrency, step)
  }

  lemma {:induction false} ScheduleKeepsInv(n: nat, concurrency: nat, ss: seq<State>, steps: seq<Step>, k: nat)
    requires IsSchedule(n, concurrency, ss, steps) && k < |ss|
    ensures |ss[k].stages| == n && Inv(ss[k], concurrency) && |InFlight(ss[k])| <= concurrency
    decreases k
  {
    if k == 0 {
      assert Slots(ss[0]) == {} && InFlight(ss[0]) == {};
      assert forall ok :: RecordedTargets(ss[0].stages, ok) == {};
    } else {
      ScheduleKeepsInv(n, concurrency, ss, steps, k - 1);
      assert Follows(ss[k - 1], concurrency, steps[k - 1], ss[k]);
      StepKeepsInv(ss[k - 1], concurrency, steps[k - 1]);
    }
  }

  predicate IsTarget(i: nat, n: nat) {
    i < n
  }

  function Targets(n: nat): set<nat> {
    set i: nat | i < n && IsTarget(i, n)
  }

  predicate HasOutcome(stage: Stage, ok: bool) {
    !stage.Waiting? && !stage.Calling? && stage.ok == ok
  }

  lemma {:induction false} OutcomesAreReturns(n: nat, concurrency: nat, ss: seq<State>, steps: seq<Step>, k: nat,
                                              i: nat, ok: bool)
    requires IsSchedule(n, concurrency, ss, steps) && k <= |steps| && i < n
    ensures |ss[k].stages| == n && (HasOutcome(ss[k].stages[i], ok) <==> Return(i, ok) in steps[..k])
    decreases k
  {
    if k > 0 {
      OutcomesAreReturns(n, concurrency, ss, steps, k - 1, i, ok);
      assert Follows(ss[k - 1], concurrency, steps[k - 1], ss[k]);
      assert steps[..k] == steps[..k - 1] + [steps[k - 1]];
    }
  }

  /**
   When the wait group is done, in whatever order calls returned: OK and Failed together hold every
   target exactly once, and OK holds exactly those whose call returned without error.
  */
  lemma ResultsPartitionTargets(n: nat, concurrency: nat, ss: seq<State>, steps: seq<Step>)
    requires IsSchedule(n, concurrency, ss, steps) && AllFinished(ss[|steps|])
    ensures var end := ss[|steps|];
            && Lists(end.ok + end.failed, Targets(n))
            && (forall i: nat :: i < n ==> (i in end.ok <==> Return(i, true) in steps))
            && (forall i: nat :: i < n ==> (i in end.failed <==> Return(i, false) in steps))
  {
    var end := ss[|steps|];
    ScheduleKeepsInv(n, concurrency, ss, steps, |steps|);
    var good, bad := RecordedTargets(end.stages, true), RecordedTargets(end.stages, false);
    assert good !! bad;
    assert good + bad == Targets(n) by {
      forall i: nat ensures i in good + bad <==> i in Targets(n) {
        if i < n {
          assert end.stages[i].Finished? && IsRecorded(end.stages[i], end.stages[i].ok);
        }
      }
    }
    assert steps[..|steps|] == steps;
    forall i: nat, ok | i < n
      ensures i in RecordedTargets(end.stages, ok) <==> Return(i, ok) in steps
    {
      OutcomesAreReturns(n, concurrency, ss, steps, |steps|, i, ok);
    }
  }

  ghost predicate Blocked(s: State, concurrency: nat) {
    !AllFinished(s) && forall step :: !Enabled(s, concurrency, step)
  }

  ghost predicate NeverBlocks(n: nat, concurrency: nat) {
    forall ss, steps :: IsSchedule(n, concurrency, ss, steps) ==> !Blocked(ss[|steps|], concurrency)
  }

  /**
   Some step is possible until everything is done, in every schedule, exactly when there is a slot or nothing to
   do.
  */
  lemma BlocksIffNoSlots(n: nat, concurrency: nat)
    ensures NeverBlocks(n, concurrency) <==> concurrency >= 1 || n == 0
  {
    if concurrency >= 1 || n == 0 {
      forall ss, steps | IsSchedule(n, concurrency, ss, steps)
        ensures !Blocked(ss[|steps|], concurrency)
      {
        ScheduleKeepsInv(n, concurrency, ss, steps, |steps|);
        if !AllFinished(ss[|steps|]) {
          var step := SomeStep(ss[|steps|], concurrency);
        }
      }
    } else {
      var ss, steps := [Start(n)], [];
      assert IsSchedule(n, concurrency, ss, steps);
      assert !ss[|steps|].stages[0].Finished?;
      assert Blocked(ss[|steps|], concurrency);
    }
  }

  lemma SomeStep(s: State, concurrency: nat) returns (step: Step)
    requires concurrency >= 1 && !AllFinished(s)
    ensures Enabled(s, concurrency, step)
  {
    var i :| 0 <= i < |s.stages| && !s.stages[i].Finished?;
    if Slots(s) != {} {
      var j :| j in Slots(s);
      match s.stages[j]
      case Calling => step := Return(j, true);
      case Returned(_) => step := Record(j);
      case Recorded(_) => step := Release(j);
      case _ =>
    } else {
      assert i !in Slots(s);
      step := Spawn;
    }
  }

  function StepsLeft(stage: Stage): nat {
    match stage
    case Waiting => 4
    case Calling => 3
    case Returned(_) => 2
    case Recorded(_) => 1
    case Finished(_) => 0
  }

  function TotalLeft(stages: seq<Stage>): nat {
    if stages == [] then 0 else TotalLeft(stages[..|stages| - 1]) + StepsLeft(stages[|stages| - 1])
  }

  lemma {:induction false} TotalAfterUpdate(stages: seq<Stage>, i: nat, stage: Stage)
    requires i < |stages|
    ensures TotalLeft(stages[i := stage]) + StepsLeft(stages[i]) == TotalLeft(stages) + StepsLeft(stage)
    decreases |stages|
  {
    var n := |stages| - 1;
    if i == n {
      assert stages[i := stage][..n] == stages[..n];
    } else {
      assert stages[i := stage][..n] == stages[..n][i := stage];
      TotalAfterUpdate(stages[..n], i, stage);
    }
  }

  lemma {:induction false} TotalAtStart(n: nat)
    ensures TotalLeft(Start(n).stages) == 4 * n
    decreases n
  {
    if n > 0 {
      assert Start(n).stages[..n - 1] == Start(n - 1).stages;
      TotalAtStart(n - 1);
    }
  }

  /** Every schedule is finite: four steps per target, no more. */
  lemma {:induction false} SchedulesEnd(n: nat, concurrency: nat, ss: seq<State>, steps: seq<Step>, k: nat)
    requires IsSchedule(n, concurrency, ss, steps) && k <= |steps|
    ensures k + TotalLeft(ss[k].stages) == 4 * n
    decreases k
  {
    if k == 0 {
      TotalAtStart(n);
    } else {
      SchedulesEnd(n, concurrency, ss, steps, k - 1);
      var s := ss[k - 1];
      assert Follows(s, concurrency, steps[k - 1], ss[k]);
      match steps[k - 1]
      case Spawn => TotalAfterUpdate(s.stages, FirstWaiting(s.stages), Calling);
      case Return(i, ok) => TotalAfterUpdate(s.stages, i, Returned(ok));
      case Record(i) => TotalAfterUpdate(s.stages, i, Recorded(s.stages[i].ok));
      case Release(i) => TotalAfterUpdate(s.stages, i, Finished(s.stages[i].ok));
    }
  }
}
