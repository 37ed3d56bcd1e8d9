/**
 Write-ahead attack ids: how a run's external Zeus attacks are started, stopped and
 recovered (internal/orchestrator/orchestrator.go, internal/store/experiment_repo.go).

 One value of type State is the run row's attack columns and status, the set of
 attacks that are live at Zeus for this run, and the program counter of the
 operation under way. Operations on the run do not overlap, but the process may
 crash between any two calls.
*/
module AttackIds {
  import opened Wrappers
  import opened Scheduler

  type AttackId = string

  /** Where the operation under way is; a crash goes back to Idle. */
  datatype Pc =
    | Idle
    | Starting                                // status is written, no attack id chosen yet
    | Persisted(id: AttackId)                 // AppendRunAttackID done, StartAttack not yet called
    | Launched(id: AttackId)                  // StartAttack acknowledged, UpdateRunZeusAttacks not yet called
    | Pausing(todo: seq<AttackId>)            // attacks still to stop, from the row as it was read
    | Stopping(want: Status, todo: seq<AttackId>, noneMissed: bool)  // no live attack has been missed so far

  datatype State = State(
    status: Status,
    primary: Option<AttackId>,     // zeus_attack_id
    ids: seq<AttackId>,            // zeus_attack_ids
    live: set<AttackId>,
    pc: Pc)

  /** How a StartAttack call can end: refused, started, started with the answer lost, or started under another id. */
  datatype LaunchResult = Refused | Acknowledged | AnswerLost | Renamed(other: AttackId)

  datatype Event =
    | BeginStart                              // StartRun has written status running
    | BeginResume                             // ResumeRun has written status running
    | NoAttack                                // no Zeus client, no target URL, or the experiment row was unreadable
    | Append(id: AttackId, ok: bool)
    | Launch(result: LaunchResult)
    | Record(ok: bool)                        // UpdateRunZeusAttacks
    | BeginPause
    | PauseStopOne(ok: bool)
    | FinishPause(ok: bool)
    | BeginStop(want: Status)
    | StopOne(ok: bool)
    | Finalize(ok: bool)
    | RecoverAsLost                           // Recover writes the run as failed: its attacks look lost
    | CascadeFail                             // advanceExperiment fails the pending run
    | AttackEnds(id: AttackId)                // an attack runs out by itself
    | Crash

  /** The ids an operation that reads the row will stop. */
  function Known(s: State): seq<AttackId> {
    if s.ids == [] && s.primary.Some? then [s.primary.value] else s.ids
  }

  /**
   The next StopAttack call fails although that attack is live. Zeus also refuses to stop an attack it
   does not know or that has ended: such a failure leaves nothing running.
  */
  predicate Misses(s: State, ok: bool)
    requires (s.pc.Pausing? || s.pc.Stopping?) && s.pc.todo != []
  {
    !ok && s.pc.todo[0] in s.live
  }

  predicate Enabled(s: State, e: Event) {
    match e
    case BeginStart => s.pc == Idle && s.status == Pending
    case BeginResume => s.pc == Idle && s.status == Paused
    case NoAttack => s.pc == Starting
    case Append(id, _) => s.pc == Starting && id !in s.ids && id !in s.live && s.primary != Some(id)
    case Launch(_) => s.pc.Persisted?
    case Record(_) => s.pc.Launched?
    case BeginPause => s.pc == Idle && s.status == Running
    case PauseStopOne(_) => s.pc.Pausing? && s.pc.todo != []
    case FinishPause(_) => s.pc.Pausing? && s.pc.todo == []
    case BeginStop(want) => s.pc == Idle && !IsTerminal(s.status) && IsTerminal(want)
    case StopOne(_) => s.pc.Stopping? && s.pc.todo != []
    case Finalize(_) => s.pc.Stopping? && s.pc.todo == []
    case RecoverAsLost => s.pc == Idle && s.status == Running
    case CascadeFail => s.pc == Idle && s.status == Pending
    case AttackEnds(id) => id in s.live
    case Crash => true
  }

  function Next(s: State, e: Event): State
    requires Enabled(s, e)
  {
    match e
    case BeginStart => s.(status := Running, pc := Starting)
    case BeginResume => s.(status := Running, pc := Starting)
    case NoAttack => s.(pc := Idle)
    case Append(id, ok) =>
      if ok then
        s.(ids := s.ids + [id], primary := if s.primary.Some? then s.primary else Some(id), pc := Persisted(id))
      else s.(pc := Idle)
    case Launch(result) =>
      (match result
       case Refused => s.(pc := Idle)
       case Acknowledged => s.(live := s.live + {s.pc.id}, pc := Launched(s.pc.id))
       case AnswerLost => s.(live := s.live + {s.pc.id}, pc := Idle)
       case Renamed(other) => s.(live := s.live + {other}, pc := Launched(other)))
    case Record(ok) =>
      if ok then s.(ids := [s.pc.id], primary := Some(s.pc.id), pc := Idle) else s.(pc := Idle)
    case BeginPause => s.(pc := Pausing(Known(s)))
    case PauseStopOne(ok) =>
      s.(live := if ok then s.live - {s.pc.todo[0]} else s.live, pc := Pausing(s.pc.todo[1..]))
    case FinishPause(ok) => s.(status := if ok then Paused else s.status, pc := Idle)
    case BeginStop(want) => s.(pc := Stopping(want, Known(s), true))
    case StopOne(ok) =>
      s.(live := if ok then s.live - {s.pc.todo[0]} else s.live,
         pc := Stopping(s.pc.want, s.pc.todo[1..], s.pc.noneMissed && !Misses(s, ok)))
    case Finalize(ok) => s.(status := if ok then s.pc.want else s.status, pc := Idle)
    case RecoverAsLost => s.(status := Failed)
    case CascadeFail => s.(status := Failed)
    case AttackEnds(id) => s.(live := s.live - {id})
    case Crash => s.(pc := Idle)
  }

  /** How many of its own calls an operation under way can still make. */
  function CallsLeft(pc: Pc): nat {
    match pc
    case Idle => 0
    case Starting => 3
    case Persisted(_) => 2
    case Launched(_) => 1
    case Pausing(todo) => |todo| + 1
    case Stopping(_, todo, _) => |todo| + 1
  }

  /** An operation ends whatever fails in it: each call leaves fewer, and while any are left one is possible. */
  lemma OperationsEnd(s: State, e: Event)
    requires Enabled(s, e) && s.pc != Idle
    ensures !e.AttackEnds? ==> CallsLeft(Next(s, e).pc) < CallsLeft(s.pc)
    ensures e.AttackEnds? ==> Next(s, e).pc == s.pc
    ensures exists next :: Enabled(s, next) && !next.AttackEnds? && !next.Crash?
  {
    var next := match s.pc
      case Starting => NoAttack
      case Persisted(_) => Launch(Refused)
      case Launched(_) => Record(false)
      case Pausing(todo) => if todo == [] then FinishPause(false) else PauseStopOne(false)
      case Stopping(_, todo, _) => if todo == [] then Finalize(false) else StopOne(false);
    assert Enabled(s, next);
  }

  /** Which calls change the status of the row, and to what. */
  lemma StatusChangesIff(s: State, e: Event)
    requires Enabled(s, e)
    ensures var before, after := s.status, Next(s, e).status;
            && (e == BeginStart || e == BeginResume ==> after == Running)
            && (e == FinishPause(true) ==> after == Paused)
            && (e == Finalize(true) ==> after == s.pc.want)
            && (e == RecoverAsLost || e == CascadeFail ==> after == Failed)
            && (after != before ==>
                  || e == BeginStart || e == BeginResume || e == FinishPause(true)
                  || e == Finalize(true) || e == RecoverAsLost || e == CascadeFail)
  {
  }

  /** An attack becomes live by a launch that started it, and ends by a stop that Zeus confirms or by itself. */
  lemma LiveChangesIff(s: State, e: Event, id: AttackId)
    requires Enabled(s, e)
    ensures id !in s.live && id in Next(s, e).live <==>
              && id !in s.live
              && (|| e == Launch(Renamed(id))
                  || ((e == Launch(Acknowledged) || e == Launch(AnswerLost)) && s.pc.id == id))
    ensures id in s.live && id !in Next(s, e).live <==>
              && id in s.live
              && (|| e == AttackEnds(id)
                  || ((e == StopOne(true) || e == PauseStopOne(true)) && s.pc.todo[0] == id))
  {
  }

  /**
   The two failures the protocol does not survive: a live attack a pause could not stop, and a Zeus that renames
   attacks.
  */
  predicate Tolerated(s: State, e: Event)
    requires Enabled(s, e)
  {
    && (e.PauseStopOne? ==> !Misses(s, e.ok))
    && !(e.Launch? && e.result.Renamed?)
  }

  /** Every live attack is on the persisted list. */
  predicate Covered(s: State) {
    forall id :: id in s.live ==> id in s.ids
  }

  ghost predicate Inv(s: State) {
    && Covered(s)
    && (s.status == Pending || s.status == Paused ==> s.live == {})
    && (s.pc == Starting ==> s.live == {} && s.status == Running)
    && (s.pc.Persisted? ==> s.live == {} && s.pc.id in s.ids && s.status == Running)
    && (s.pc.Launched? ==> s.live <= {s.pc.id} && s.pc.id in s.ids && s.status == Running)
    && (s.pc.Pausing? ==> s.status == Running && forall id :: id in s.live ==> id in s.pc.todo)
    && (s.pc.Stopping? ==> IsTerminal(s.pc.want))
    && (s.pc.Stopping? && s.pc.noneMissed ==> forall id :: id in s.live ==> id in s.pc.todo)
  }

  predicate Fresh(s: State) {
    s.status == Pending && s.primary.None? && s.ids == [] && s.live == {} && s.pc == Idle
  }

  lemma StepKeepsInv(s: State, e: Event)
    requires Inv(s) && Enabled(s, e) && Tolerated(s, e)
    ensures Inv(Next(s, e))
  {
    var s' := Next(s, e);
    match e
    case PauseStopOne(ok) =>
      assert s.pc.todo == [s.pc.todo[0]] + s.pc.todo[1..];
    case StopOne(ok) =>
      assert s.pc.todo == [s.pc.todo[0]] + s.pc.todo[1..];
    case Append(id, ok) =>
      assert ok ==> s'.ids[|s.ids|] == id;
    case Record(ok) =>
      assert ok ==> s'.ids[0] == s.pc.id;
    case FinishPause(ok) =>
      assert s.live == {};
    case _ =>
  }

  ghost predicate IsHistory(ss: seq<State>, es: seq<Event>) {
    && |ss| == |es| + 1
    && Fresh(ss[0])
    && forall k :: 0 <= k < |es| ==> Follows(ss[k], es[k], ss[k + 1])
  }

  predicate Follows(s: State, e: Event, s': State) {
    Enabled(s, e) && s' == Next(s, e)
  }

  /** A history without the two failures. */
  ghost predicate IsToleratedHistory(ss: seq<State>, es: seq<Event>) {
    IsHistory(ss, es) && forall k :: 0 <= k < |es| ==> Allowed(ss[k], es[k])
  }

  predicate Allowed(s: State, e: Event) {
    Enabled(s, e) && Tolerated(s, e)
  }

  /**
   At every point of every history, crashes included, an attack that is live at Zeus is on the
   run's persisted list.
  */
  lemma {:induction false} LiveAttacksArePersisted(ss: seq<State>, es: seq<Event>, k: nat)
    requires IsToleratedHistory(ss, es) && k < |ss|
    ensures Inv(ss[k])
    decreases k
  {
    if k > 0 {
      LiveAttacksArePersisted(ss, es, k - 1);
      assert Follows(ss[k - 1], es[k - 1], ss[k - 1 + 1]) && Allowed(ss[k - 1], es[k - 1]);
      StepKeepsInv(ss[k - 1], es[k - 1]);
    }
  }

  /** A stop that missed no live attack, whatever else Zeus answered, leaves nothing running when it finalizes. */
  lemma CleanStopLeavesNothingRunning(ss: seq<State>, es: seq<Event>, k: nat)
    requires IsToleratedHistory(ss, es) && k < |es|
    requires es[k] == Finalize(true) && ss[k].pc.Stopping? && ss[k].pc.noneMissed
    ensures IsTerminal(ss[k + 1].status) && ss[k + 1].status == ss[k].pc.want && ss[k + 1].live == {}
  {
    LiveAttacksArePersisted(ss, es, k);
    assert Follows(ss[k], es[k], ss[k + 1]);
  }

  /** The two steps that can make a row terminal while an attack is live: nobody will stop that attack any more. */
  predicate Abandons(s: State, e: Event) {
    || (e == RecoverAsLost && s.live != {})
    || (e == Finalize(true) && s.pc.Stopping? && !s.pc.noneMissed && s.live != {})
  }

  lemma AbandonedIff(s: State, e: Event)
    requires Inv(s) && Enabled(s, e) && Tolerated(s, e)
    ensures !IsTerminal(s.status) && IsTerminal(Next(s, e).status) ==> (Next(s, e).live != {} <==> Abandons(s, e))
    ensures IsTerminal(s.status) && s.pc == Idle ==>
              Next(s, e).pc == Idle && Next(s, e).status == s.status && Next(s, e).live <= s.live
    ensures IsTerminal(Next(s, e).status) ==> IsTerminal(s.status) || Next(s, e).pc == Idle
    ensures Abandons(s, e) ==> IsTerminal(Next(s, e).status)
  {
  }

  /** A terminal row can have a live attack only if such a step abandoned it; the row's ids still name it. */
  lemma {:induction false} TerminalRowsAreAbandonedOnly(ss: seq<State>, es: seq<Event>, k: nat)
    requires IsToleratedHistory(ss, es) && k < |ss| && IsTerminal(ss[k].status)
    ensures ss[k].pc == Idle
    ensures ss[k].live != {} ==> exists i :: 0 <= i < k && Abandons(ss[i], es[i]) && ss[k].live <= ss[i].live
    decreases k
  {
    if k > 0 {
      LiveAttacksArePersisted(ss, es, k - 1);
      assert Follows(ss[k - 1], es[k - 1], ss[k - 1 + 1]) && Allowed(ss[k - 1], es[k - 1]);
      AbandonedIff(ss[k - 1], es[k - 1]);
      if IsTerminal(ss[k - 1].status) {
        TerminalRowsAreAbandonedOnly(ss, es, k - 1);
      } else {
        assert ss[k].live <= ss[k - 1].live;
      }
    }
  }

  /** Recording the new attack while an old one is still live, or launching under an id that was not persisted. */
  predicate LosesCoverage(s: State, e: Event)
    requires Enabled(s, e)
  {
    || (e == Record(true) && exists id :: id in s.live && id != s.pc.id)
    || (e.Launch? && e.result.Renamed? && e.result.other !in s.ids)
  }

  /** Exactly these two steps can take a live attack off the persisted list. */
  lemma CoverageLostIff(s: State, e: Event)
    requires Covered(s) && Enabled(s, e)
    requires s.pc.Persisted? ==> s.pc.id in s.ids
    ensures !Covered(Next(s, e)) <==> LosesCoverage(s, e)
  {
    var s' := Next(s, e);
    match e
    case Record(ok) =>
      if ok {
        assert s'.ids[0] == s.pc.id;
        assert forall id :: id in s.live && id != s.pc.id ==> id in s'.live && id !in s'.ids;
      }
    case Launch(result) =>
      if result.Renamed? {
        assert result.other in s'.live;
      }
    case _ =>
  }

  // ----- What a failed stop during a pause costs -----

  /** The stops of a pause, oks[i] being the answer for the i-th attack to stop. */
  function PauseStops(s: State, oks: seq<bool>): (r: State)
    requires s.pc.Pausing? && |oks| == |s.pc.todo|
    ensures r.pc == Pausing([])
    ensures r.(live := s.live, pc := s.pc) == s
    ensures forall id :: id in r.live <==> id in s.live && forall i :: 0 <= i < |oks| && s.pc.todo[i] == id ==> !oks[i]
    decreases |oks|
  {
    if oks == [] then s
    else
      var one := Next(s, PauseStopOne(oks[0]));
      assert forall i :: 0 < i < |oks| ==> s.pc.todo[i] == one.pc.todo[i - 1] && oks[i] == oks[1..][i - 1];
      PauseStops(one, oks[1..])
  }

  /** The stops of a StopRun, oks[i] being the answer for the i-th attack to stop. */
  function StopAll(s: State, oks: seq<bool>): (r: State)
    requires s.pc.Stopping? && |oks| == |s.pc.todo|
    ensures r.pc.Stopping? && r.pc.want == s.pc.want && r.pc.todo == [] && r.ids == s.ids && r.primary == s.primary
    ensures forall id :: id in r.live <==> id in s.live && forall i :: 0 <= i < |oks| && s.pc.todo[i] == id ==> !oks[i]
    decreases |oks|
  {
    if oks == [] then s
    else
      var one := Next(s, StopOne(oks[0]));
      assert forall i :: 0 < i < |oks| ==> s.pc.todo[i] == one.pc.todo[i - 1] && oks[i] == oks[1..][i - 1];
      StopAll(one, oks[1..])
  }

  /** A whole StopRun. */
  function WholeStop(s: State, want: Status, oks: seq<bool>): State
    requires s.pc == Idle && !IsTerminal(s.status) && IsTerminal(want) && |oks| == |Known(s)|
  {
    Next(StopAll(Next(s, BeginStop(want)), oks), Finalize(true))
  }

  /**
   After a whole StopRun on a run whose live attacks are persisted, a live attack is left behind the
   terminal row exactly when some live attack had no successful stop.
  */
  lemma StopLeavesBehindIff(s: State, want: Status, oks: seq<bool>)
    requires Covered(s) && s.pc == Idle && !IsTerminal(s.status) && IsTerminal(want) && |oks| == |Known(s)|
    ensures var end := WholeStop(s, want, oks);
            && end.status == want
            && (end.live == {} <==>
                  forall id :: id in s.live ==> exists i :: 0 <= i < |oks| && Known(s)[i] == id && oks[i])
            && Covered(end)
  {
    var end := WholeStop(s, want, oks);
    if id :| id in s.live && forall i :: 0 <= i < |oks| && Known(s)[i] == id ==> !oks[i] {
      assert id in end.live;
    } else {
      forall id ensures id !in end.live {
        if id in s.live {
          var i :| 0 <= i < |oks| && Known(s)[i] == id && oks[i];
        }
      }
    }
  }

  /** A whole pause followed by a whole resume that starts the attack b; only stops during the pause may fail. */
  function PauseThenResume(s: State, oks: seq<bool>, b: AttackId): State
    requires s.pc == Idle && s.status == Running && |oks| == |Known(s)|
    requires b !in s.ids && b !in s.live && s.primary != Some(b)
  {
    var paused := Next(PauseStops(Next(s, BeginPause), oks), FinishPause(true));
    var persisted := Next(Next(paused, BeginResume), Append(b, true));
    Next(Next(persisted, Launch(Acknowledged)), Record(true))
  }

  /**
   After a pause and a resume every live attack is persisted exactly when the pause stopped every attack that
   was live.
  */
  lemma ResumeForgetsUnlessAllStopped(s: State, oks: seq<bool>, b: AttackId)
    requires Covered(s) && s.pc == Idle && s.status == Running && |oks| == |Known(s)|
    requires b !in s.ids && b !in s.live && s.primary != Some(b)
    ensures Covered(PauseThenResume(s, oks, b)) <==>
              forall id :: id in s.live ==> exists i :: 0 <= i < |oks| && Known(s)[i] == id && oks[i]
  {
    var end := PauseThenResume(s, oks, b);
    assert end.ids[0] == b;
    var left := PauseStops(Next(s, BeginPause), oks).live;
    assert end.live == left + {b};
    forall id | id in s.live && forall i :: 0 <= i < |oks| && Known(s)[i] == id ==> !oks[i]
      ensures id in end.live && id !in end.ids
    {
      assert id in left;
    }
  }

  /** A run that is running attack a, as it is after an undisturbed start. */
  function RunningA(pc: Pc): State {
    State(Running, Some("a"), ["a"], {"a"}, pc)
  }

  lemma StartOfA()
    ensures var created := State(Pending, None, [], {}, Idle);
            var chosen := State(Running, None, [], {}, Starting);
            var persisted := State(Running, Some("a"), ["a"], {}, Persisted("a"));
            && Follows(created, BeginStart, chosen)
            && Follows(chosen, Append("a", true), persisted)
            && Follows(persisted, Launch(Acknowledged), RunningA(Launched("a")))
            && Follows(RunningA(Launched("a")), Record(true), RunningA(Idle))
  {
  }

  lemma FailedPauseOfA()
    ensures Follows(RunningA(Idle), BeginPause, RunningA(Pausing(["a"])))
            && Follows(RunningA(Pausing(["a"])), PauseStopOne(false), RunningA(Pausing([])))
            && Follows(RunningA(Pausing([])), FinishPause(true), RunningA(Idle).(status := Paused))
  {
    assert ["a"][1..] == [];
  }

  lemma ResumeWithB()
    ensures var starting := RunningA(Starting);
            var persisted := State(Running, Some("a"), ["a", "b"], {"a"}, Persisted("b"));
            var launched := State(Running, Some("a"), ["a", "b"], {"a", "b"}, Launched("b"));
            && Follows(RunningA(Idle).(status := Paused), BeginResume, starting)
            && Follows(starting, Append("b", true), persisted)
            && Follows(persisted, Launch(Acknowledged), launched)
            && Follows(launched, Record(true), State(Running, Some("b"), ["b"], {"a", "b"}, Idle))
  {
    assert ["a"] + ["b"] == ["a", "b"];
  }

  /** It happens: attack a is started, a pause fails to stop it, and the resume that starts b forgets a. */
  lemma ResumeCanForget() returns (ss: seq<State>, es: seq<Event>)
    ensures IsHistory(ss, es) && ss[|es|].live == {"a", "b"} && ss[|es|].ids == ["b"] && !Covered(ss[|es|])
  {
    StartOfA();
    FailedPauseOfA();
    ResumeWithB();
    es := [BeginStart, Append("a", true), Launch(Acknowledged), Record(true),
           BeginPause, PauseStopOne(false), FinishPause(true),
           BeginResume, Append("b", true), Launch(Acknowledged), Record(true)];
    ss := [State(Pending, None, [], {}, Idle), State(Running, None, [], {}, Starting),
           State(Running, Some("a"), ["a"], {}, Persisted("a")), RunningA(Launched("a")), RunningA(Idle),
           RunningA(Pausing(["a"])), RunningA(Pausing([])), RunningA(Idle).(status := Paused),
           RunningA(Starting), State(Running, Some("a"), ["a", "b"], {"a"}, Persisted("b")),
           State(Running, Some("a"), ["a", "b"], {"a", "b"}, Launched("b")),
           State(Running, Some("b"), ["b"], {"a", "b"}, Idle)];
    assert |es| == 11 && |ss| == 12;
    assert "a" in ss[11].live && "a" !in ss[11].ids;
  }
}
