/**
 Operations on one run that overlap, interleaved at each store call and each use of the handle map
 (internal/orchestrator/orchestrator.go, internal/orchestrator/runner.go,
 internal/store/experiment_repo.go).

 A stopper cancels the registered goroutines, reads the row, gives up if it is terminal, then issues
 the conditional update, and launches an advance only if that update changed the row. A writer
 compares the row with the status it expects and later writes unconditionally: a pause, which cancels
 the registered goroutines in between, and the failure cascade, which does not. A starter, for a start
 or a resume, compares, writes "running", makes its Zeus call, spawns its watcher and only then
 registers it. A watcher enters the next phase, writes "running" with it, and hands over.
*/
module StopRace {
  import opened Wrappers
  import opened Scheduler

  type CallerId = nat

  datatype Progress = Called | Cancelled | Checked | Written | Spawned | Won | Returned(won: bool)

  datatype Caller =
    | Stopper(want: Status, pc: Progress)
    | Writer(expected: Status, write: Status, cancels: bool, pc: Progress)
    | Starter(expected: Status, later: nat, pc: Progress)  // later: the phases after the one it enters

  datatype WatchPc = Watching | Entered | Wrote | Done

  /** A watcher always has a next phase; more is the number of phases after that one. */
  datatype Watcher = Watcher(more: nat, cancelled: bool, pc: WatchPc)

  datatype Race = Race(
    row: Status,
    callers: map<CallerId, Caller>,
    launches: nat,
    entry: Option<CallerId>,          // the entry of the handle map: whose watcher it can cancel
    watchers: map<CallerId, Watcher>) // each under the starter whose line of watchers it belongs to

  /** One store call or one use of the handle map; ok says whether the store, or the phase entry, succeeded. */
  datatype Turn = CallerTurn(id: CallerId, ok: bool) | WatcherTurn(id: CallerId, ok: bool)

  function Move(s: Race, c: CallerId, pc: Progress): Race
    requires c in s.callers
  {
    s.(callers := s.callers[c := s.callers[c].(pc := pc)])
  }

  function CancelWatcher(s: Race): Race {
    if s.entry.Some? && s.entry.value in s.watchers
    then s.(watchers := s.watchers[s.entry.value := s.watchers[s.entry.value].(cancelled := true)])
    else s
  }

  /** Cancel whatever is registered and delete the entry. */
  function CancelAll(s: Race): Race {
    CancelWatcher(s).(entry := None)
  }

  function StopperStep(s: Race, c: CallerId, ok: bool): Race
    requires c in s.callers && s.callers[c].Stopper?
  {
    match s.callers[c].pc
    case Called => Move(CancelAll(s), c, Cancelled)
    case Cancelled => Move(s, c, if ok && !IsTerminal(s.row) then Checked else Returned(false))
    case Checked =>
      if ok && !IsTerminal(s.row) then Move(s.(row := s.callers[c].want), c, Won) else Move(s, c, Returned(false))
    case Won => Move(s.(launches := s.launches + 1), c, Returned(true))
    case _ => s
  }

  function WriterStep(s: Race, c: CallerId, ok: bool): Race
    requires c in s.callers && s.callers[c].Writer?
  {
    var w := s.callers[c];
    match w.pc
    case Called => Move(s, c, if ok && s.row == w.expected then Checked else Returned(false))
    case Checked =>
      if w.cancels then Move(CancelAll(s), c, Cancelled)
      else Move(if ok then s.(row := w.write) else s, c, Returned(ok))
    case Cancelled => Move(if ok then s.(row := w.write) else s, c, Returned(ok))
    case _ => s
  }

  function StarterStep(s: Race, c: CallerId, ok: bool): Race
    requires c in s.callers && s.callers[c].Starter?
  {
    var st := s.callers[c];
    match st.pc
    case Called => Move(s, c, if ok && s.row == st.expected then Checked else Returned(false))
    case Checked => if ok then Move(s.(row := Running), c, Written) else Move(s, c, Returned(false))
    case Written =>
      var spawned := if st.later == 0 then s
                     else s.(watchers := s.watchers[c := Watcher(st.later - 1, false, Watching)]);
      Move(spawned, c, Spawned)
    case Spawned => Move(s.(entry := Some(c)), c, Returned(true))
    case _ => s
  }

  function MoveWatcher(s: Race, w: CallerId, pc: WatchPc): Race
    requires w in s.watchers
  {
    s.(watchers := s.watchers[w := s.watchers[w].(pc := pc)])
  }

  /** A watcher whose phase cannot be entered stops the run with its own context, which that may cancel. */
  function WatcherStops(s: Race, w: CallerId): Race
    requires w in s.watchers
  {
    var cancelled := CancelAll(s);
    var stopped := if cancelled.watchers[w].cancelled || IsTerminal(s.row) then cancelled
                   else cancelled.(row := Failed, launches := s.launches + 1);
    MoveWatcher(stopped, w, Done)
  }

  function WatcherStep(s: Race, w: CallerId, ok: bool): Race
    requires w in s.watchers
  {
    var watcher := s.watchers[w];
    match watcher.pc
    case Watching =>
      if watcher.cancelled then MoveWatcher(s, w, Done)
      else if ok then MoveWatcher(s, w, Entered)
      else WatcherStops(s, w)
    case Entered =>
      MoveWatcher(if ok && !watcher.cancelled then s.(row := Running) else s, w, Wrote)
    case Wrote =>
      if watcher.more == 0 || s.entry.None? then MoveWatcher(s, w, Done)
      else
        var rebound := CancelWatcher(s);
        rebound.(entry := Some(w), watchers := rebound.watchers[w := Watcher(watcher.more - 1, false, Watching)])
    case Done => s
  }

  function Step(s: Race, turn: Turn): Race {
    match turn
    case CallerTurn(c, ok) =>
      if c !in s.callers then s
      else
        (match s.callers[c]
         case Stopper(_, _) => StopperStep(s, c, ok)
         case Writer(_, _, _, _) => WriterStep(s, c, ok)
         case Starter(_, _, _) => StarterStep(s, c, ok))
    case WatcherTurn(w, ok) => if w !in s.watchers then s else WatcherStep(s, w, ok)
  }

  function Play(s: Race, schedule: seq<Turn>): Race {
    if schedule == [] then s
    else
      var n := |schedule| - 1;
      Step(Play(s, schedule[..n]), schedule[n])
  }

  // ----- What one turn can do -----

  /** A caller writes the row only after its test of the row, and only with a store that answers. */
  lemma CallerTurnRow(s: Race, c: CallerId, ok: bool)
    requires c in s.callers
    ensures var caller := s.callers[c];
            Step(s, CallerTurn(c, ok)).row ==
              if !ok then s.row
              else if caller.Stopper? && caller.pc == Checked && !IsTerminal(s.row) then caller.want
              else if caller.Starter? && caller.pc == Checked then Running
              else if caller.Writer? && (caller.pc == Cancelled || (caller.pc == Checked && !caller.cancels))
              then caller.write
              else s.row
  {
  }

  /** A caller passes its test only if the store answered and the row is unfinished, or as it expects. */
  lemma TestPassedIff(s: Race, c: CallerId, ok: bool)
    requires c in s.callers && s.callers[c].pc == if s.callers[c].Stopper? then Cancelled else Called
    ensures var caller, after := s.callers[c], Step(s, CallerTurn(c, ok)).callers[c];
            && after == caller.(pc := after.pc) && (after.pc == Checked || after.pc == Returned(false))
            && (after.pc == Checked <==>
                  ok && if caller.Stopper? then !IsTerminal(s.row) else s.row == caller.expected)
  {
  }

  /** A watcher writes its phase unless it was cancelled, and stops the run only while it is not the registered one. */
  lemma WatcherTurnRow(s: Race, w: CallerId, ok: bool)
    requires w in s.watchers
    ensures var watcher, s' := s.watchers[w], Step(s, WatcherTurn(w, ok));
            var stops := && watcher.pc == Watching && !watcher.cancelled && !ok
                         && s.entry != Some(w) && !IsTerminal(s.row);
            && s'.row == (if stops then Failed
                          else if watcher.pc == Entered && ok && !watcher.cancelled then Running else s.row)
            && s'.launches == s.launches + (if stops then 1 else 0)
  {
  }

  /** How many turns a line of watchers can still take, over all phases it hands over to. */
  function TurnsLeft(watcher: Watcher): nat {
    4 * watcher.more + match watcher.pc
                       case Watching => 3
                       case Entered => 2
                       case Wrote => 1
                       case Done => 0
  }

  /** Each turn of a watcher takes one away; a start spawns a line of fewer turns than four for each later phase. */
  lemma WatcherLinesEnd(s: Race, w: CallerId, ok: bool)
    ensures w in s.watchers && s.watchers[w].pc != Done ==>
              var s' := Step(s, WatcherTurn(w, ok));
              && TurnsLeft(s'.watchers[w]) < TurnsLeft(s.watchers[w])
              && (s.watchers[w].pc == Wrote && s'.watchers[w].pc == Watching ==> s'.entry == Some(w))
    ensures w in s.callers && s.callers[w].Starter? && s.callers[w].pc == Written && s.callers[w].later > 0 ==>
              var s' := Step(s, CallerTurn(w, ok));
              w in s'.watchers && !s'.watchers[w].cancelled && s'.watchers[w].pc == Watching
              && TurnsLeft(s'.watchers[w]) < 4 * s.callers[w].later
  {
  }

  // ----- Watchers that can still do harm -----

  predicate Registering(s: Race, c: CallerId) {
    c in s.callers && s.callers[c].Starter? && (s.callers[c].pc == Written || s.callers[c].pc == Spawned)
  }

  /** The handle map has an entry for the run, or a starter will still make one. */
  ghost predicate EntryPossible(s: Race) {
    s.entry.Some? || exists c :: Registering(s, c)
  }

  /** The watcher can still write the row: it is not cancelled, or it will hand over to one that is not. */
  ghost predicate Threat(s: Race, w: CallerId) {
    && w in s.watchers
    && var watcher := s.watchers[w];
       || (!watcher.cancelled && (watcher.pc == Watching || watcher.pc == Entered))
       || (watcher.more > 0 && (watcher.pc == Entered || watcher.pc == Wrote) && EntryPossible(s))
  }

  ghost predicate Quiet(s: Race) {
    forall w :: !Threat(s, w)
  }

  lemma WatcherTurnStaysQuiet(s: Race, w: CallerId, ok: bool)
    requires Quiet(s)
    ensures var s' := Step(s, WatcherTurn(w, ok));
            Quiet(s') && s'.row == s.row && s'.callers == s.callers && s'.launches == s.launches && s'.entry == s.entry
  {
    var s' := Step(s, WatcherTurn(w, ok));
    assert !Threat(s, w);
    assert forall c :: Registering(s', c) <==> Registering(s, c);
    forall v ensures !Threat(s', v) {
      assert !Threat(s, v);
    }
  }

  /** Cancelling what is registered creates no threat. */
  lemma CancellingStaysQuiet(s: Race, s': Race)
    requires Quiet(s) && (s'.watchers == s.watchers || s'.watchers == CancelAll(s).watchers)
    requires EntryPossible(s') ==> EntryPossible(s)
    ensures Quiet(s')
  {
    forall v ensures !Threat(s', v) {
      assert !Threat(s, v);
    }
  }

  // ----- Only stoppers: one stop wins -----

  /**
   Any number of stoppers, none of which has done anything yet, on a run with at most one watcher,
   which is registered.
  */
  predicate OnlyStoppersCalled(s: Race) {
    && s.launches == 0
    && (forall c :: c in s.callers ==>
         s.callers[c].Stopper? && IsTerminal(s.callers[c].want) && s.callers[c].pc == Called)
    && OwnWatcherOnly(s) && (s.row == Running || forall w :: w in s.watchers ==> s.watchers[w].pc == Done)
  }

  predicate OwnWatcherOnly(s: Race) {
    forall w :: w in s.watchers ==> s.watchers[w].pc == Done || s.entry == Some(w)
  }

  predicate HasWon(s: Race, c: CallerId) {
    c in s.callers && (s.callers[c].pc == Won || s.callers[c].pc == Returned(true))
  }

  predicate HasLaunched(s: Race, c: CallerId) {
    c in s.callers && s.callers[c].pc == Returned(true)
  }

  ghost predicate AtMostOneWinner(s: Race) {
    forall c, d :: HasWon(s, c) && HasWon(s, d) ==> c == d
  }

  ghost predicate AllStoppers(s: Race) {
    forall c :: c in s.callers ==> s.callers[c].Stopper? && IsTerminal(s.callers[c].want)
  }

  ghost predicate NobodyMoved(s: Race) {
    forall c :: c in s.callers ==> s.callers[c].pc == Called
  }

  ghost predicate OutcomeOk(start: Status, s: Race) {
    && AtMostOneWinner(s)
    && (forall c :: HasWon(s, c) ==>
          s.callers[c].Stopper? && !IsTerminal(start) && s.row == s.callers[c].want)
    && ((forall c :: !HasWon(s, c)) ==> s.row == start)
    && s.launches == (if exists c :: HasLaunched(s, c) then 1 else 0)
    && (!IsTerminal(start) && !IsTerminal(s.row) ==> forall c :: !HasWon(s, c))
  }

  ghost predicate RaceInv(start: Status, s: Race) {
    && AllStoppers(s) && OutcomeOk(start, s)
    && (Quiet(s) || (NobodyMoved(s) && OwnWatcherOnly(s) && start == Running))
  }

  /** A turn of caller c changes nobody else's progress. */
  lemma OthersStay(s: Race, c: CallerId, ok: bool, d: CallerId)
    requires d != c
    ensures var s' := Step(s, CallerTurn(c, ok));
            && (HasWon(s', d) <==> HasWon(s, d)) && (HasLaunched(s', d) <==> HasLaunched(s, d))
            && (d in s.callers <==> d in s'.callers) && (d in s.callers ==> s'.callers[d] == s.callers[d])
  {
  }

  /** The only winner launches the advance, once. */
  lemma LaunchKeepsOutcome(start: Status, s: Race, c: CallerId, ok: bool)
    requires AllStoppers(s) && OutcomeOk(start, s) && HasWon(s, c)
    ensures OutcomeOk(start, Step(s, CallerTurn(c, ok)))
  {
    var s' := Step(s, CallerTurn(c, ok));
    forall d | d != c ensures (HasWon(s', d) <==> HasWon(s, d)) && (HasLaunched(s', d) <==> HasLaunched(s, d)) {
      OthersStay(s, c, ok, d);
    }
    assert HasLaunched(s', c) && HasWon(s', c);
    assert forall d :: HasLaunched(s, d) ==> HasWon(s, d);
  }

  /** A caller that has not won either changes only its own progress, or makes the first transition. */
  lemma TryKeepsOutcome(start: Status, s: Race, c: CallerId, ok: bool)
    requires AllStoppers(s) && OutcomeOk(start, s) && c in s.callers && !HasWon(s, c)
    ensures OutcomeOk(start, Step(s, CallerTurn(c, ok)))
  {
    var s' := Step(s, CallerTurn(c, ok));
    forall d | d != c ensures (HasWon(s', d) <==> HasWon(s, d)) && (HasLaunched(s', d) <==> HasLaunched(s, d)) {
      OthersStay(s, c, ok, d);
    }
    assert !HasLaunched(s', c) && !HasLaunched(s, c);
    if HasWon(s', c) {
      assert forall d :: !HasWon(s, d);
    }
  }

  /** The first step of any stopper leaves no watcher that can write. */
  lemma StopperQuiets(s: Race, c: CallerId, ok: bool)
    requires AllStoppers(s) && c in s.callers && (Quiet(s) || (NobodyMoved(s) && OwnWatcherOnly(s)))
    ensures Quiet(Step(s, CallerTurn(c, ok)))
  {
    var s' := Step(s, CallerTurn(c, ok));
    assert forall d :: !Registering(s', d) && !Registering(s, d);
    if Quiet(s) {
      CancellingStaysQuiet(s, s');
    }
  }

  lemma StoppersStay(s: Race, c: CallerId, ok: bool)
    requires AllStoppers(s) && c in s.callers
    ensures AllStoppers(Step(s, CallerTurn(c, ok)))
  {
  }

  lemma CallerKeepsRaceInv(start: Status, s: Race, c: CallerId, ok: bool)
    requires RaceInv(start, s) && c in s.callers
    ensures RaceInv(start, Step(s, CallerTurn(c, ok)))
  {
    StoppersStay(s, c, ok);
    StopperQuiets(s, c, ok);
    if HasWon(s, c) {
      LaunchKeepsOutcome(start, s, c, ok);
    } else {
      TryKeepsOutcome(start, s, c, ok);
    }
  }

  /** As long as nobody has called stop, the run's own watcher only writes the status the row has. */
  lemma OwnWatcherTurn(s: Race, w: CallerId, ok: bool)
    requires NobodyMoved(s) && OwnWatcherOnly(s) && s.row == Running
    ensures var s' := Step(s, WatcherTurn(w, ok));
            && s'.row == Running && s'.callers == s.callers && s'.launches == s.launches && OwnWatcherOnly(s')
  {
  }

  lemma SameCallersSameOutcome(start: Status, s: Race, s': Race)
    requires OutcomeOk(start, s) && s'.callers == s.callers && s'.row == s.row && s'.launches == s.launches
    ensures OutcomeOk(start, s')
  {
    assert forall c :: (HasWon(s', c) <==> HasWon(s, c)) && (HasLaunched(s', c) <==> HasLaunched(s, c));
  }

  lemma WatcherKeepsRaceInv(start: Status, s: Race, w: CallerId, ok: bool)
    requires RaceInv(start, s)
    ensures RaceInv(start, Step(s, WatcherTurn(w, ok)))
  {
    if Quiet(s) {
      WatcherTurnStaysQuiet(s, w, ok);
    } else {
      assert forall c :: !HasWon(s, c);
      OwnWatcherTurn(s, w, ok);
    }
    SameCallersSameOutcome(start, s, Step(s, WatcherTurn(w, ok)));
  }

  lemma StepKeepsRaceInv(start: Status, s: Race, turn: Turn)
    requires RaceInv(start, s)
    ensures RaceInv(start, Step(s, turn))
  {
    match turn
    case CallerTurn(c, ok) =>
      if c in s.callers {
        CallerKeepsRaceInv(start, s, c, ok);
      }
    case WatcherTurn(w, ok) => WatcherKeepsRaceInv(start, s, w, ok);
  }

  /**
   However many callers stop one run, whatever its watcher does, and however all their calls interleave
   and fail: at most one stop wins, the row then has the winner's status, and the scheduler is
   triggered at most once and only by the winner; without a winner the row is as it was.
  */
  lemma {:induction false} OneStopWins(s: Race, schedule: seq<Turn>)
    requires OnlyStoppersCalled(s)
    ensures RaceInv(s.row, Play(s, schedule))
    ensures Play(s, schedule).launches <= 1
    decreases |schedule|
  {
    if schedule == [] {
      assert forall c :: !HasWon(s, c) && !HasLaunched(s, c);
      if s.row != Running {
        assert forall c :: !Registering(s, c);
        assert Quiet(s);
      }
    } else {
      var n := |schedule| - 1;
      OneStopWins(s, schedule[..n]);
      StepKeepsRaceInv(s.row, Play(s, schedule[..n]), schedule[n]);
    }
  }

  predicate AllReturned(s: Race) {
    forall c :: c in s.callers ==> s.callers[c].pc.Returned?
  }

  /** A stopper that lost found the row terminal. */
  ghost predicate LosersSawTerminal(s: Race) {
    (exists c :: c in s.callers && s.callers[c].pc == Returned(false)) ==> IsTerminal(s.row)
  }

  lemma TurnKeepsLosers(start: Status, s: Race, turn: Turn)
    requires RaceInv(start, s) && LosersSawTerminal(s) && turn.ok
    ensures LosersSawTerminal(Step(s, turn))
  {
    var s' := Step(s, turn);
    if turn.WatcherTurn? {
      if Quiet(s) {
        WatcherTurnStaysQuiet(s, turn.id, turn.ok);
      } else {
        assert forall c :: !HasWon(s, c);
        OwnWatcherTurn(s, turn.id, turn.ok);
      }
    } else if c :| c in s'.callers && s'.callers[c].pc == Returned(false) {
      if c in s.callers && s.callers[c].pc == Returned(false) {
        assert IsTerminal(s.row);
      }
      assert IsTerminal(s.row) ==> IsTerminal(s'.row);
    }
  }

  lemma {:induction false} LosersLoseToAWinner(s: Race, schedule: seq<Turn>)
    requires OnlyStoppersCalled(s)
    requires forall k :: 0 <= k < |schedule| ==> schedule[k].ok
    ensures LosersSawTerminal(Play(s, schedule))
    decreases |schedule|
  {
    if schedule != [] {
      var n := |schedule| - 1;
      LosersLoseToAWinner(s, schedule[..n]);
      OneStopWins(s, schedule[..n]);
      TurnKeepsLosers(s.row, Play(s, schedule[..n]), schedule[n]);
    }
  }

  /** When nothing fails and everyone has returned, exactly one caller won and it triggered the scheduler. */
  lemma SomeoneWins(s: Race, schedule: seq<Turn>)
    requires OnlyStoppersCalled(s) && !IsTerminal(s.row) && s.callers != map[]
    requires forall k :: 0 <= k < |schedule| ==> schedule[k].ok
    requires AllReturned(Play(s, schedule))
    ensures Play(s, schedule).launches == 1
    ensures var end := Play(s, schedule);
            exists c :: HasLaunched(end, c) && end.callers[c].Stopper? && end.row == end.callers[c].want
  {
    var end := Play(s, schedule);
    OneStopWins(s, schedule);
    LosersLoseToAWinner(s, schedule);
    CallersStay(s, schedule);
    var c :| c in s.callers;
    if end.callers[c].pc == Returned(false) {
      assert IsTerminal(end.row);
      var w :| HasWon(end, w);
      assert HasLaunched(end, w);
    } else {
      assert HasLaunched(end, c);
    }
  }

  lemma StepKeepsCallers(s: Race, turn: Turn)
    ensures Step(s, turn).callers.Keys == s.callers.Keys
  {
    if turn.CallerTurn? && turn.id in s.callers {
      assert (s.callers.Keys + {turn.id}) == s.callers.Keys;
    }
  }

  lemma {:induction false} CallersStay(s: Race, schedule: seq<Turn>)
    ensures Play(s, schedule).callers.Keys == s.callers.Keys
    decreases |schedule|
  {
    if schedule != [] {
      var n := |schedule| - 1;
      CallersStay(s, schedule[..n]);
      StepKeepsCallers(Play(s, schedule[..n]), schedule[n]);
    }
  }

  // ----- Exactly when a terminal status is final -----

  /** Start and the cascade expect pending, pause expects running, resume paused: none of them a terminal status. */
  predicate WritersExpectUnfinished(s: Race) {
    forall c :: c in s.callers && !s.callers[c].Stopper? ==> !IsTerminal(s.callers[c].expected)
  }

  /** A writer or starter has already compared the row and is about to write another status. */
  predicate LateWriter(s: Race, c: CallerId) {
    && c in s.callers
    && ((s.callers[c].Writer? && (s.callers[c].pc == Checked || s.callers[c].pc == Cancelled)
         && s.callers[c].write != s.row)
        || (s.callers[c].Starter? && s.callers[c].pc == Checked))
  }

  /** A starter has written its status and has still to spawn its watcher, which nobody will have cancelled. */
  predicate LateSpawner(s: Race, c: CallerId) {
    c in s.callers && s.callers[c].Starter? && s.callers[c].pc == Written && s.callers[c].later > 0
  }

  ghost predicate NothingLate(s: Race) {
    (forall c :: !LateWriter(s, c) && !LateSpawner(s, c)) && Quiet(s)
  }

  ghost predicate AtRest(s: Race) {
    IsTerminal(s.row) && WritersExpectUnfinished(s) && NothingLate(s)
  }

  /**
   What a turn of a caller does to a race at rest: it may move on, cancel, or register a starter that has no
   watcher.
  */
  ghost predicate Harmless(s: Race, c: CallerId, s': Race) {
    && c in s.callers && c in s'.callers && s'.row == s.row
    && s'.callers == s.callers[c := s'.callers[c]]
    && (s'.callers[c].Stopper? <==> s.callers[c].Stopper?)
    && (!s.callers[c].Stopper? ==> s'.callers[c].expected == s.callers[c].expected)
    && (s'.watchers == s.watchers || s'.watchers == CancelAll(s).watchers)
    && (s'.entry == s.entry || s'.entry == None || Registering(s, c))
    && (Registering(s', c) ==> Registering(s, c))
    && !LateWriter(s', c) && !LateSpawner(s', c)
  }

  lemma HarmlessKeepsRest(s: Race, c: CallerId, s': Race)
    requires AtRest(s) && Harmless(s, c, s')
    ensures AtRest(s')
  {
    forall d ensures !LateWriter(s', d) && !LateSpawner(s', d) {
      assert !LateWriter(s, d) && !LateSpawner(s, d);
    }
    assert forall d :: Registering(s', d) ==> Registering(s, d);
    CancellingStaysQuiet(s, s');
  }

  lemma StopperIsHarmless(s: Race, c: CallerId, ok: bool)
    requires AtRest(s) && c in s.callers && s.callers[c].Stopper?
    ensures Harmless(s, c, StopperStep(s, c, ok))
  {
  }

  lemma WriterIsHarmless(s: Race, c: CallerId, ok: bool)
    requires AtRest(s) && c in s.callers && s.callers[c].Writer?
    ensures Harmless(s, c, WriterStep(s, c, ok))
  {
    assert !LateWriter(s, c);
  }

  lemma StarterIsHarmless(s: Race, c: CallerId, ok: bool)
    requires AtRest(s) && c in s.callers && s.callers[c].Starter?
    ensures Harmless(s, c, StarterStep(s, c, ok))
  {
    assert !LateWriter(s, c) && !LateSpawner(s, c);
  }

  lemma CallerTurnKeepsRest(s: Race, c: CallerId, ok: bool)
    requires AtRest(s) && c in s.callers
    ensures AtRest(Step(s, CallerTurn(c, ok))) && Step(s, CallerTurn(c, ok)).row == s.row
  {
    match s.callers[c] {
      case Stopper(_, _) => StopperIsHarmless(s, c, ok);
      case Writer(_, _, _, _) => WriterIsHarmless(s, c, ok);
      case Starter(_, _, _) => StarterIsHarmless(s, c, ok);
    }
    HarmlessKeepsRest(s, c, Step(s, CallerTurn(c, ok)));
  }

  lemma StepKeepsRest(s: Race, turn: Turn)
    requires AtRest(s)
    ensures AtRest(Step(s, turn)) && Step(s, turn).row == s.row
  {
    match turn
    case CallerTurn(c, ok) =>
      if c in s.callers {
        CallerTurnKeepsRest(s, c, ok);
      }
    case WatcherTurn(w, ok) =>
      WatcherTurnStaysQuiet(s, w, ok);
      var s' := Step(s, turn);
      forall d ensures !LateWriter(s', d) && !LateSpawner(s', d) {
        assert !LateWriter(s, d) && !LateSpawner(s, d);
      }
  }

  lemma {:induction false} RestStays(s: Race, schedule: seq<Turn>)
    requires AtRest(s)
    ensures AtRest(Play(s, schedule)) && Play(s, schedule).row == s.row
    decreases |schedule|
  {
    if schedule != [] {
      var n := |schedule| - 1;
      RestStays(s, schedule[..n]);
      StepKeepsRest(Play(s, schedule[..n]), schedule[n]);
    }
  }

  ghost predicate CanLose(s: Race, row: Status) {
    exists schedule :: Play(s, schedule).row != row
  }

  /** No schedule of turns changes the row. */
  ghost predicate StaysForEver(s: Race) {
    !CanLose(s, s.row)
  }

  lemma LostAlready(s: Race, row: Status)
    requires s.row != row
    ensures CanLose(s, row)
  {
    assert Play(s, []).row != row;
  }

  lemma {:induction false} PlayFirst(s: Race, turn: Turn, rest: seq<Turn>)
    ensures Play(s, [turn] + rest) == Play(Step(s, turn), rest)
    decreases |rest|
  {
    var all := [turn] + rest;
    if rest == [] {
      assert all[..0] == [];
    } else {
      var n := |rest| - 1;
      assert all[..n + 1] == [turn] + rest[..n];
      PlayFirst(s, turn, rest[..n]);
    }
  }

  lemma LostNext(s: Race, turn: Turn, row: Status)
    requires CanLose(Step(s, turn), row)
    ensures CanLose(s, row)
  {
    var rest :| Play(Step(s, turn), rest).row != row;
    PlayFirst(s, turn, rest);
    assert Play(s, [turn] + rest).row != row;
  }

  lemma LateWriterLoses(s: Race, c: CallerId)
    requires IsTerminal(s.row) && LateWriter(s, c)
    ensures CanLose(s, s.row)
  {
    var turn := CallerTurn(c, true);
    if s.callers[c].Writer? && s.callers[c].pc == Checked && s.callers[c].cancels {
      LostAlready(Step(Step(s, turn), turn), s.row);
      LostNext(Step(s, turn), turn, s.row);
    } else {
      LostAlready(Step(s, turn), s.row);
    }
    LostNext(s, turn, s.row);
  }

  lemma FreeWatcherLoses(s: Race, w: CallerId, row: Status)
    requires IsTerminal(row) && w in s.watchers && !s.watchers[w].cancelled
    requires s.watchers[w].pc == Watching || s.watchers[w].pc == Entered
    ensures CanLose(s, row)
  {
    var turn := WatcherTurn(w, true);
    if s.watchers[w].pc == Watching {
      LostAlready(Step(Step(s, turn), turn), row);
      LostNext(Step(s, turn), turn, row);
    } else {
      LostAlready(Step(s, turn), row);
    }
    LostNext(s, turn, row);
  }

  lemma LateSpawnerLoses(s: Race, c: CallerId)
    requires IsTerminal(s.row) && LateSpawner(s, c)
    ensures CanLose(s, s.row)
  {
    FreeWatcherLoses(Step(s, CallerTurn(c, true)), c, s.row);
    LostNext(s, CallerTurn(c, true), s.row);
  }

  /** A handover with an entry in place makes a fresh watcher, whoever was cancelled before. */
  lemma HandoverLoses(s: Race, w: CallerId, row: Status)
    requires IsTerminal(row) && w in s.watchers && s.watchers[w].pc == Wrote && s.watchers[w].more > 0 && s.entry.Some?
    ensures CanLose(s, row)
  {
    FreeWatcherLoses(Step(s, WatcherTurn(w, true)), w, row);
    LostNext(s, WatcherTurn(w, true), row);
  }

  lemma HandoverAfterRegistering(s: Race, w: CallerId, c: CallerId, row: Status)
    requires IsTerminal(row) && w in s.watchers && s.watchers[w].pc == Wrote && s.watchers[w].more > 0
    requires Registering(s, c) && !LateSpawner(s, c)
    ensures CanLose(s, row)
  {
    var turn := CallerTurn(c, true);
    if s.callers[c].pc == Written {
      var spawned := Step(s, turn);
      HandoverLoses(Step(spawned, turn), w, row);
      LostNext(spawned, turn, row);
    } else {
      HandoverLoses(Step(s, turn), w, row);
    }
    LostNext(s, turn, row);
  }

  lemma WroteThreatLoses(s: Race, w: CallerId, row: Status)
    requires IsTerminal(row) && w in s.watchers && s.watchers[w].pc == Wrote && s.watchers[w].more > 0
    requires EntryPossible(s) && forall c :: !LateSpawner(s, c)
    ensures CanLose(s, row)
  {
    if s.entry.Some? {
      HandoverLoses(s, w, row);
    } else {
      var c :| Registering(s, c);
      HandoverAfterRegistering(s, w, c, row);
    }
  }

  lemma ThreatLoses(s: Race, w: CallerId)
    requires IsTerminal(s.row) && Threat(s, w) && forall c :: !LateSpawner(s, c)
    ensures CanLose(s, s.row)
  {
    var watcher := s.watchers[w];
    if !watcher.cancelled && (watcher.pc == Watching || watcher.pc == Entered) {
      FreeWatcherLoses(s, w, s.row);
    } else if watcher.pc == Entered {
      var s' := Step(s, WatcherTurn(w, false));
      assert s'.callers == s.callers && s'.entry == s.entry;
      forall c ensures (Registering(s', c) <==> Registering(s, c)) && !LateSpawner(s', c) {
        assert !LateSpawner(s, c);
      }
      WroteThreatLoses(s', w, s.row);
      LostNext(s, WatcherTurn(w, false), s.row);
    } else {
      WroteThreatLoses(s, w, s.row);
    }
  }

  /**
   A terminal status is final, whatever the callers and watchers do from then on and however they
   interleave, exactly when at that moment no pause, resume, start or cascade has compared the row and
   has still to write, no start or resume has still to spawn a watcher, and no watcher is left that is
   uncancelled or can still hand over to an uncancelled one.
  */
  lemma TerminalIsFinalIff(s: Race)
    requires IsTerminal(s.row) && WritersExpectUnfinished(s)
    ensures StaysForEver(s) <==> NothingLate(s)
  {
    if NothingLate(s) {
      forall schedule ensures Play(s, schedule).row == s.row {
        RestStays(s, schedule);
      }
    } else {
      if c :| LateWriter(s, c) {
        LateWriterLoses(s, c);
      } else if c :| LateSpawner(s, c) {
        LateSpawnerLoses(s, c);
      } else {
        var w :| Threat(s, w);
        ThreatLoses(s, w);
      }
    }
  }

  // ----- It happens -----

  lemma PlayLast(s: Race, schedule: seq<Turn>, turn: Turn)
    ensures Play(s, schedule + [turn]) == Step(Play(s, schedule), turn)
  {
    assert (schedule + [turn])[..|schedule|] == schedule;
  }

  lemma PlayThree(s: Race, a: Turn, b: Turn, c: Turn)
    ensures Play(s, [a, b, c]) == Step(Step(Step(s, a), b), c)
  {
    assert [a] == [] + [a] && [a, b] == [a] + [b] && [a, b, c] == [a, b] + [c];
    PlayLast(s, [], a);
    PlayLast(s, [a], b);
    PlayLast(s, [a, b], c);
  }

  lemma PlayFour(s: Race, a: Turn, b: Turn, c: Turn, d: Turn)
    ensures Play(s, [a, b, c, d]) == Step(Step(Step(Step(s, a), b), c), d)
  {
    assert [a, b, c, d] == [a, b, c] + [d];
    PlayThree(s, a, b, c);
    PlayLast(s, [a, b, c], d);
  }

  function StopOf(c: CallerId): seq<Turn> {
    [CallerTurn(c, true), CallerTurn(c, true), CallerTurn(c, true)]
  }

  /** A pause that read "running" before a stop finished brings the completed run back. */
  lemma PauseCanReviveAStoppedRun()
    ensures var callers := map[0 := Writer(Running, Paused, true, Checked), 1 := Stopper(Completed, Called)];
            var stopped := Play(Race(Running, callers, 0, None, map[]), StopOf(1));
            stopped.row == Completed && Play(stopped, [CallerTurn(0, true), CallerTurn(0, true)]).row == Paused
  {
    var callers := map[0 := Writer(Running, Paused, true, Checked), 1 := Stopper(Completed, Called)];
    var s := Race(Running, callers, 0, None, map[]);
    var stop, pause := CallerTurn(1, true), CallerTurn(0, true);
    PlayThree(s, stop, stop, stop);
    var stopped := Play(s, StopOf(1));
    assert stopped.row == Completed && stopped.callers[0] == callers[0];
    assert [pause] == [] + [pause] && [pause, pause] == [pause] + [pause];
    PlayLast(stopped, [], pause);
    PlayLast(stopped, [pause], pause);
  }

  /**
   A start has written "running" and is inside its Zeus call while the run is stopped. Nobody is late to
   write then; but the start spawns and registers its watcher, and when its window has passed the phase
   write brings the completed run back.
  */
  lemma PhaseWriteRevivesAStoppedRun()
    ensures var callers := map[0 := Starter(Pending, 1, Written), 1 := Stopper(Completed, Called)];
            var stopped := Play(Race(Running, callers, 0, None, map[]), StopOf(1));
            && stopped.row == Completed && (forall c :: !LateWriter(stopped, c)) && stopped.watchers == map[]
            && Play(stopped, [CallerTurn(0, true), CallerTurn(0, true), WatcherTurn(0, true), WatcherTurn(0, true)]).row
               == Running
  {
    var callers := map[0 := Starter(Pending, 1, Written), 1 := Stopper(Completed, Called)];
    var s := Race(Running, callers, 0, None, map[]);
    var stop := CallerTurn(1, true);
    PlayThree(s, stop, stop, stop);
    var stopped := Play(s, StopOf(1));
    assert stopped.row == Completed && stopped.callers[0] == callers[0];
    PlayFour(stopped, CallerTurn(0, true), CallerTurn(0, true), WatcherTurn(0, true), WatcherTurn(0, true));
  }

  /**
   Two overlapping starts each spawned a watcher; the handle map only has the second. A stop cancels
   that one, and the first brings the completed run back.
  */
  lemma ForgottenWatcherRevivesAStoppedRun()
    ensures var watchers := map[0 := Watcher(0, false, Watching), 1 := Watcher(0, false, Watching)];
            var stopped := Play(Race(Running, map[2 := Stopper(Completed, Called)], 0, Some(1), watchers), StopOf(2));
            && stopped.row == Completed && (forall c :: !LateWriter(stopped, c) && !LateSpawner(stopped, c))
            && Step(Step(stopped, WatcherTurn(0, true)), WatcherTurn(0, true)).row == Running
  {
    var watchers := map[0 := Watcher(0, false, Watching), 1 := Watcher(0, false, Watching)];
    var s := Race(Running, map[2 := Stopper(Completed, Called)], 0, Some(1), watchers);
    var stop := CallerTurn(2, true);
    PlayThree(s, stop, stop, stop);
  }

  // ----- Exactly when a run is started at most once -----

  predicate IsStart(s: Race, c: CallerId) {
    c in s.callers && s.callers[c].Starter? && s.callers[c].expected == Pending
  }

  /** The start has written "running"; it goes on to start an attack. */
  predicate Started(s: Race, c: CallerId) {
    IsStart(s, c) && s.callers[c].pc in {Written, Spawned, Won, Returned(true)}
  }

  /** The start has passed the pending test, or can still pass it. */
  predicate MayStart(s: Race, c: CallerId) {
    Started(s, c) || (IsStart(s, c) && (s.callers[c].pc == Checked || (s.callers[c].pc == Called && s.row == Pending)))
  }

  ghost predicate AtMostOneMayStart(s: Race) {
    forall c, d :: MayStart(s, c) && MayStart(s, d) ==> c == d
  }

  predicate NothingWritesPending(s: Race) {
    forall c :: c in s.callers ==>
      && (s.callers[c].Stopper? ==> s.callers[c].want != Pending)
      && (s.callers[c].Writer? ==> s.callers[c].write != Pending)
  }

  ghost predicate TwoStarted(s: Race) {
    exists c, d :: c != d && Started(s, c) && Started(s, d)
  }

  ghost predicate CanStartTwice(s: Race) {
    exists schedule :: TwoStarted(Play(s, schedule))
  }

  lemma TwoStartedAreTwo(s: Race)
    ensures TwoStarted(s) ==> !AtMostOneMayStart(s)
  {
    if c, d :| c != d && Started(s, c) && Started(s, d) {
      assert MayStart(s, c) && MayStart(s, d);
    }
  }

  /** Nothing becomes a candidate: nobody goes back to Called, and no row goes back to pending. */
  ghost predicate NoNewStart(s: Race, s': Race) {
    && NothingWritesPending(s')
    && (s'.row == Pending ==> s.row == Pending)
    && forall c :: MayStart(s', c) ==> MayStart(s, c)
  }

  lemma CallerMakesNoStart(s: Race, c: CallerId, caller: Caller, s': Race)
    requires NothingWritesPending(s) && c in s.callers && s'.callers == s.callers[c := caller]
    requires caller.Stopper? <==> s.callers[c].Stopper?
    requires caller.Writer? <==> s.callers[c].Writer?
    requires caller.Stopper? ==> caller.want == s.callers[c].want
    requires caller.Writer? ==> caller.write == s.callers[c].write
    requires s'.row == Pending ==> s.row == Pending
    requires MayStart(s', c) ==> MayStart(s, c)
    ensures NoNewStart(s, s')
  {
    forall d | MayStart(s', d) ensures MayStart(s, d) {
      if d != c {
        assert s'.callers[d] == s.callers[d];
      }
    }
  }

  lemma StepMakesNoStart(s: Race, turn: Turn)
    requires NothingWritesPending(s)
    ensures NoNewStart(s, Step(s, turn))
  {
    var s' := Step(s, turn);
    if turn.WatcherTurn? {
      assert s'.callers == s.callers && (s'.row == Pending ==> s.row == Pending);
      assert forall c :: MayStart(s', c) ==> MayStart(s, c);
    } else if turn.id in s.callers {
      CallerTurnMakesNoStart(s, turn.id, turn.ok);
    }
  }

  lemma StopperMakesNoStart(s: Race, c: CallerId, ok: bool)
    requires NothingWritesPending(s) && c in s.callers && s.callers[c].Stopper?
    ensures NoNewStart(s, StopperStep(s, c, ok))
  {
    CallerMakesNoStart(s, c, StopperStep(s, c, ok).callers[c], StopperStep(s, c, ok));
  }

  lemma WriterMakesNoStart(s: Race, c: CallerId, ok: bool)
    requires NothingWritesPending(s) && c in s.callers && s.callers[c].Writer?
    ensures NoNewStart(s, WriterStep(s, c, ok))
  {
    CallerMakesNoStart(s, c, WriterStep(s, c, ok).callers[c], WriterStep(s, c, ok));
  }

  lemma StarterMakesNoStart(s: Race, c: CallerId, ok: bool)
    requires NothingWritesPending(s) && c in s.callers && s.callers[c].Starter?
    ensures NoNewStart(s, StarterStep(s, c, ok))
  {
    CallerMakesNoStart(s, c, StarterStep(s, c, ok).callers[c], StarterStep(s, c, ok));
  }

  lemma CallerTurnMakesNoStart(s: Race, c: CallerId, ok: bool)
    requires NothingWritesPending(s) && c in s.callers
    ensures NoNewStart(s, Step(s, CallerTurn(c, ok)))
  {
    match s.callers[c] {
      case Stopper(_, _) => StopperMakesNoStart(s, c, ok);
      case Writer(_, _, _, _) => WriterMakesNoStart(s, c, ok);
      case Starter(_, _, _) => StarterMakesNoStart(s, c, ok);
    }
  }

  lemma {:induction false} OneStartStays(s: Race, schedule: seq<Turn>)
    requires NothingWritesPending(s) && AtMostOneMayStart(s)
    ensures NothingWritesPending(Play(s, schedule)) && AtMostOneMayStart(Play(s, schedule))
    decreases |schedule|
  {
    if schedule != [] {
      var n := |schedule| - 1;
      OneStartStays(s, schedule[..n]);
      StepMakesNoStart(Play(s, schedule[..n]), schedule[n]);
    }
  }

  lemma TwiceNext(s: Race, turn: Turn)
    requires CanStartTwice(Step(s, turn))
    ensures CanStartTwice(s)
  {
    var rest :| TwoStarted(Play(Step(s, turn), rest));
    PlayFirst(s, turn, rest);
  }

  lemma BothPassedTheTest(s: Race, c: CallerId, d: CallerId)
    requires c != d && IsStart(s, c) && IsStart(s, d)
    requires Started(s, c) || s.callers[c].pc == Checked
    requires Started(s, d) || s.callers[d].pc == Checked
    ensures CanStartTwice(s)
  {
    if Started(s, c) && Started(s, d) {
      assert TwoStarted(Play(s, []));
    } else if !Started(s, c) {
      BothPassedTheTestOnce(Step(s, CallerTurn(c, true)), d, c);
      TwiceNext(s, CallerTurn(c, true));
    } else {
      BothPassedTheTestOnce(s, d, c);
    }
  }

  lemma BothPassedTheTestOnce(s: Race, c: CallerId, d: CallerId)
    requires c != d && IsStart(s, c) && Started(s, d)
    requires Started(s, c) || s.callers[c].pc == Checked
    ensures CanStartTwice(s)
  {
    if Started(s, c) {
      assert TwoStarted(Play(s, []));
    } else {
      assert Started(Step(s, CallerTurn(c, true)), c) && Started(Step(s, CallerTurn(c, true)), d);
      assert TwoStarted(Play(Step(s, CallerTurn(c, true)), []));
      TwiceNext(s, CallerTurn(c, true));
    }
  }

  lemma TwoCandidatesStartTwice(s: Race, c: CallerId, d: CallerId)
    requires c != d && MayStart(s, c) && MayStart(s, d)
    ensures CanStartTwice(s)
  {
    if s.callers[c].pc == Called {
      var s1 := Step(s, CallerTurn(c, true));
      if s.callers[d].pc == Called {
        BothPassedTheTest(Step(s1, CallerTurn(d, true)), c, d);
        TwiceNext(s1, CallerTurn(d, true));
      } else {
        BothPassedTheTest(s1, c, d);
      }
      TwiceNext(s, CallerTurn(c, true));
    } else if s.callers[d].pc == Called {
      BothPassedTheTest(Step(s, CallerTurn(d, true)), c, d);
      TwiceNext(s, CallerTurn(d, true));
    } else {
      BothPassedTheTest(s, c, d);
    }
  }

  /**
   StartRun compares and writes in two store calls. Whatever else goes on, a run is started at most once
   exactly when at most one start has passed the pending test or can still pass it; two overlapping
   advances, or an advance and a direct start, can start it twice, with two attacks.
  */
  lemma StartedOnceIff(s: Race)
    requires NothingWritesPending(s)
    ensures !CanStartTwice(s) <==> AtMostOneMayStart(s)
  {
    if AtMostOneMayStart(s) {
      forall schedule ensures !TwoStarted(Play(s, schedule)) {
        OneStartStays(s, schedule);
        TwoStartedAreTwo(Play(s, schedule));
      }
    } else {
      var c, d :| MayStart(s, c) && MayStart(s, d) && c != d;
      TwoCandidatesStartTwice(s, c, d);
    }
  }
}
