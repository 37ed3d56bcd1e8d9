/**
 What the default compatibility matrix says about two faults, in terms of their categories and types
 (internal/model/fault.go, internal/model/composition_validate.go).
*/
module CompatibilityTable {
  import opened Wrappers
  import opened Faults
  import opened CompositionTree
  import opened Incompatibility

  predicate Is(s: FaultSpec, category: string, faultType: string) {
    s.category == category && s.faultType == faultType
  }

  /** One of the two is the first fault and the other the second. */
  predicate Are(a: FaultSpec, b: FaultSpec, category1: string, type1: string, category2: string, type2: string) {
    || (Is(a, category1, type1) && Is(b, category2, type2))
    || (Is(a, category2, type2) && Is(b, category1, type1))
  }

  // ----- Type names -----

  lemma TypeNamesDiffer(s: FaultSpec, category: string, faultType: string)
    requires ValidSpec(s) && KnownType(category, faultType)
    ensures TypeName(s) == category + ":" + faultType <==> Is(s, category, faultType)
  {
    var a, b := TypeName(s), category + ":" + faultType;
    assert a[0] == s.category[0] && b[0] == category[0];
    if a == b {
      assert s.category == category;
      assert a[|category| + 1..] == s.faultType && b[|category| + 1..] == faultType;
    }
  }

  lemma KnownTypesAreNoWildcards(category: string, faultType: string)
    requires KnownType(category, faultType)
    ensures !HasWildcard(category + ":" + faultType)
  {
    var p := category + ":" + faultType;
    assert p[|p| - 1] == faultType[|faultType| - 1] && faultType[|faultType| - 1] != '*';
    assert |p| >= 2 ==> p[|p| - 2..][1] == p[|p| - 1];
  }

  /** A pattern without a wildcard matches exactly its own fault. */
  lemma MatchesOnlyItself(s: FaultSpec, category: string, faultType: string, pattern: string)
    requires ValidSpec(s) && KnownType(category, faultType) && pattern == category + ":" + faultType
    ensures MatchesType(TypeName(s), pattern) <==> Is(s, category, faultType)
  {
    TypeNamesDiffer(s, category, faultType);
    KnownTypesAreNoWildcards(category, faultType);
  }

  lemma MatchesAnyNetwork(s: FaultSpec)
    requires ValidSpec(s)
    ensures MatchesType(TypeName(s), "network:*") <==> s.category == "network"
  {
    var p := "network:*";
    assert p[|p| - 2..] == ":*" && p[..|p| - 2] == "network";
    assert TypeName(s)[0] == s.category[0];
    if s.category == "network" {
      assert "network" + ":" <= TypeName(s);
    }
  }

  // ----- One row of the matrix -----

  lemma PlainRow(a: FaultSpec, b: FaultSpec, rule: Constraint, category1: string, type1: string,
                 category2: string, type2: string)
    requires ValidSpec(a) && ValidSpec(b) && KnownType(category1, type1) && KnownType(category2, type2)
    requires rule.kind == "pair" && rule.scope == PARALLEL
    requires rule.subject == category1 + ":" + type1 && rule.counterpart == category2 + ":" + type2
    ensures MatchesPair(TypeName(a), TypeName(b), rule, PARALLEL) <==> Are(a, b, category1, type1, category2, type2)
    ensures !MatchesPair(TypeName(a), TypeName(b), rule, SEQUENTIAL)
  {
    MatchesOnlyItself(a, category1, type1, rule.subject);
    MatchesOnlyItself(b, category1, type1, rule.subject);
    MatchesOnlyItself(a, category2, type2, rule.counterpart);
    MatchesOnlyItself(b, category2, type2, rule.counterpart);
  }

  lemma BlackholeRow(a: FaultSpec, b: FaultSpec, rule: Constraint)
    requires ValidSpec(a) && ValidSpec(b) && rule.kind == "pair" && rule.scope == PARALLEL
    requires rule.subject == "network:blackhole" && rule.counterpart == "network:*"
    ensures MatchesPair(TypeName(a), TypeName(b), rule, PARALLEL) <==>
              && a.category == "network" && b.category == "network"
              && (a.faultType == "blackhole" || b.faultType == "blackhole")
    ensures !MatchesPair(TypeName(a), TypeName(b), rule, SEQUENTIAL)
  {
    assert rule.subject == "network" + ":" + "blackhole";
    MatchesOnlyItself(a, "network", "blackhole", rule.subject);
    MatchesOnlyItself(b, "network", "blackhole", rule.subject);
    MatchesAnyNetwork(a);
    MatchesAnyNetwork(b);
  }

  lemma SequentialRow(a: FaultSpec, b: FaultSpec, rule: Constraint)
    requires ValidSpec(a) && ValidSpec(b) && rule.kind == "pair" && rule.scope == SEQUENTIAL
    requires rule.subject == "inline:error" && rule.counterpart == "inline:latency"
    ensures !MatchesPair(TypeName(a), TypeName(b), rule, PARALLEL)
    ensures MatchesPair(TypeName(a), TypeName(b), rule, SEQUENTIAL) <==>
              Is(a, "inline", "error") && Is(b, "inline", "latency")
  {
    assert rule.subject == "inline" + ":" + "error" && rule.counterpart == "inline" + ":" + "latency";
    MatchesOnlyItself(a, "inline", "error", rule.subject);
    MatchesOnlyItself(b, "inline", "latency", rule.counterpart);
  }

  // ----- The nine pair rules -----

  function PairRules(): seq<Constraint> {
    PairsOf(DefaultConstraints())
  }

  lemma {:induction false} PairsOfConcat(a: seq<Constraint>, b: seq<Constraint>)
    ensures PairsOf(a + b) == PairsOf(a) + PairsOf(b)
    decreases |b|
  {
    if b == [] {
      assert a + b == a;
    } else {
      var n := |b| - 1;
      assert (a + b)[..|a| + n] == a + b[..n] && (a + b)[|a| + n] == b[n];
      PairsOfConcat(a, b[..n]);
    }
  }

  lemma {:induction false} AllPairs(all: seq<Constraint>)
    requires forall c :: c in all ==> c.kind == "pair"
    ensures PairsOf(all) == all
    decreases |all|
  {
    if all != [] {
      var n := |all| - 1;
      assert all == all[..n] + [all[n]];
      AllPairs(all[..n]);
    }
  }

  lemma {:induction false} NoPairs(all: seq<Constraint>)
    requires forall c :: c in all ==> c.kind != "pair"
    ensures PairsOf(all) == []
    decreases |all|
  {
    if all != [] {
      var n := |all| - 1;
      assert all == all[..n] + [all[n]];
      NoPairs(all[..n]);
    }
  }

  lemma NineRowsArePairs(k: nat)
    requires k < |DefaultConstraints()|
    ensures |DefaultConstraints()| == 12
    ensures DefaultConstraints()[k].kind == "pair" <==> k < 9
  {
  }

  lemma NinePairRules()
    ensures PairRules() == DefaultConstraints()[..9]
  {
    var all := DefaultConstraints();
    forall k: nat | k < |all|
      ensures |all| == 12 && (all[k].kind == "pair" <==> k < 9)
    {
      NineRowsArePairs(k);
    }
    AllPairs(all[..9]);
    NoPairs(all[9..]);
    PairsOfConcat(all[..9], all[9..]);
    assert all[..9] + all[9..] == all;
  }

  /** Whether row k of the matrix is about these two faults, in this order, in this mode. */
  predicate RowIsAbout(k: nat, a: FaultSpec, b: FaultSpec, mode: string)
    requires k < 9
  {
    if k == 5 then mode == SEQUENTIAL && Is(a, "inline", "error") && Is(b, "inline", "latency")
    else
      && mode == PARALLEL
      && match k
         case 0 => a.category == "network" && b.category == "network"
                   && (a.faultType == "blackhole" || b.faultType == "blackhole")
         case 1 => Are(a, b, "network", "drip", "network", "throttle")
         case 2 => Are(a, b, "network", "drip", "network", "latency")
         case 3 => Are(a, b, "inline", "hang", "network", "blackhole")
         case 4 => Are(a, b, "network", "retransmit_delay", "network", "rst")
         case 6 => Are(a, b, "inline", "error", "inline", "hang")
         case 7 => Are(a, b, "resource", "cpu", "resource", "memory")
         case _ => Are(a, b, "inline", "latency", "inline", "hang")
  }

  lemma DripAndThrottle(a: FaultSpec, b: FaultSpec, mode: string)
    requires ValidSpec(a) && ValidSpec(b) && (mode == PARALLEL || mode == SEQUENTIAL)
    ensures MatchesPair(TypeName(a), TypeName(b), DefaultConstraints()[1], mode) <==> RowIsAbout(1, a, b, mode)
  {
    assert "network:drip" == "network" + ":" + "drip" && "network:throttle" == "network" + ":" + "throttle";
    PlainRow(a, b, DefaultConstraints()[1], "network", "drip", "network", "throttle");
  }

  lemma DripAndLatency(a: FaultSpec, b: FaultSpec, mode: string)
    requires ValidSpec(a) && ValidSpec(b) && (mode == PARALLEL || mode == SEQUENTIAL)
    ensures MatchesPair(TypeName(a), TypeName(b), DefaultConstraints()[2], mode) <==> RowIsAbout(2, a, b, mode)
  {
    assert "network:drip" == "network" + ":" + "drip" && "network:latency" == "network" + ":" + "latency";
    PlainRow(a, b, DefaultConstraints()[2], "network", "drip", "network", "latency");
  }

  lemma HangAndBlackhole(a: FaultSpec, b: FaultSpec, mode: string)
    requires ValidSpec(a) && ValidSpec(b) && (mode == PARALLEL || mode == SEQUENTIAL)
    ensures MatchesPair(TypeName(a), TypeName(b), DefaultConstraints()[3], mode) <==> RowIsAbout(3, a, b, mode)
  {
    assert "inline:hang" == "inline" + ":" + "hang" && "network:blackhole" == "network" + ":" + "blackhole";
    PlainRow(a, b, DefaultConstraints()[3], "inline", "hang", "network", "blackhole");
  }

  lemma DelayAndResetNames()
    ensures "network:retransmit_delay" == "network" + ":" + "retransmit_delay"
    ensures "network:rst" == "network" + ":" + "rst"
  {
  }

  lemma DelayAndReset(a: FaultSpec, b: FaultSpec, mode: string)
    requires ValidSpec(a) && ValidSpec(b) && (mode == PARALLEL || mode == SEQUENTIAL)
    ensures MatchesPair(TypeName(a), TypeName(b), DefaultConstraints()[4], mode) <==> RowIsAbout(4, a, b, mode)
  {
    DelayAndResetNames();
    PlainRow(a, b, DefaultConstraints()[4], "network", "retransmit_delay", "network", "rst");
  }

  lemma ErrorAndHang(a: FaultSpec, b: FaultSpec, mode: string)
    requires ValidSpec(a) && ValidSpec(b) && (mode == PARALLEL || mode == SEQUENTIAL)
    ensures MatchesPair(TypeName(a), TypeName(b), DefaultConstraints()[6], mode) <==> RowIsAbout(6, a, b, mode)
  {
    assert "inline:error" == "inline" + ":" + "error" && "inline:hang" == "inline" + ":" + "hang";
    PlainRow(a, b, DefaultConstraints()[6], "inline", "error", "inline", "hang");
  }

  lemma CpuAndMemory(a: FaultSpec, b: FaultSpec, mode: string)
    requires ValidSpec(a) && ValidSpec(b) && (mode == PARALLEL || mode == SEQUENTIAL)
    ensures MatchesPair(TypeName(a), TypeName(b), DefaultConstraints()[7], mode) <==> RowIsAbout(7, a, b, mode)
  {
    assert "resource:cpu" == "resource" + ":" + "cpu" && "resource:memory" == "resource" + ":" + "memory";
    PlainRow(a, b, DefaultConstraints()[7], "resource", "cpu", "resource", "memory");
  }

  lemma LatencyAndHang(a: FaultSpec, b: FaultSpec, mode: string)
    requires ValidSpec(a) && ValidSpec(b) && (mode == PARALLEL || mode == SEQUENTIAL)
    ensures MatchesPair(TypeName(a), TypeName(b), DefaultConstraints()[8], mode) <==> RowIsAbout(8, a, b, mode)
  {
    assert "inline:latency" == "inline" + ":" + "latency" && "inline:hang" == "inline" + ":" + "hang";
    PlainRow(a, b, DefaultConstraints()[8], "inline", "latency", "inline", "hang");
  }

  lemma RowMatchesIff(k: nat, a: FaultSpec, b: FaultSpec, mode: string)
    requires k < 9 && ValidSpec(a) && ValidSpec(b) && (mode == PARALLEL || mode == SEQUENTIAL)
    ensures MatchesPair(TypeName(a), TypeName(b), DefaultConstraints()[k], mode) <==> RowIsAbout(k, a, b, mode)
  {
    match k
    case 0 => BlackholeRow(a, b, DefaultConstraints()[0]);
    case 1 => DripAndThrottle(a, b, mode);
    case 2 => DripAndLatency(a, b, mode);
    case 3 => HangAndBlackhole(a, b, mode);
    case 4 => DelayAndReset(a, b, mode);
    case 5 => SequentialRow(a, b, DefaultConstraints()[5]);
    case 6 => ErrorAndHang(a, b, mode);
    case 7 => CpuAndMemory(a, b, mode);
    case _ => LatencyAndHang(a, b, mode);
  }

  // ----- What is refused -----

  /** Two network faults of which one is a blackhole, or one a drip and the other a throttle or a latency. */
  predicate Incompatible(a: FaultSpec, b: FaultSpec) {
    && a.category == "network" && b.category == "network"
    && (|| a.faultType == "blackhole" || b.faultType == "blackhole"
        || (a.faultType == "drip" && (b.faultType == "throttle" || b.faultType == "latency"))
        || (b.faultType == "drip" && (a.faultType == "throttle" || a.faultType == "latency")))
  }

  lemma HardRows(k: nat)
    requires k < 9
    ensures DefaultConstraints()[k].severity == "hard" <==> k < 3
  {
  }

  /** Two faults are a hard pair exactly when they are incompatible and stand in parallel. */
  lemma HardPairIff(a: FaultSpec, b: FaultSpec, mode: string)
    requires ValidSpec(a) && ValidSpec(b) && (mode == PARALLEL || mode == SEQUENTIAL)
    ensures HardPair(TypeName(a), TypeName(b), PairRules(), mode) <==> mode == PARALLEL && Incompatible(a, b)
  {
    NinePairRules();
    var rules := PairRules();
    forall k: nat | k < 9
      ensures MatchesPair(TypeName(a), TypeName(b), rules[k], mode) <==> RowIsAbout(k, a, b, mode)
      ensures rules[k].severity == "hard" <==> k < 3
    {
      RowMatchesIff(k, a, b, mode);
      HardRows(k);
    }
    if mode == PARALLEL && Incompatible(a, b) {
      var k := if a.faultType == "blackhole" || b.faultType == "blackhole" then 0
               else if a.faultType == "throttle" || b.faultType == "throttle" then 1 else 2;
      assert RowIsAbout(k, a, b, mode) && MatchesPair(TypeName(a), TypeName(b), rules[k], mode);
    }
  }

  // ----- What is warned about -----

  /** The pairs with a warning: five kinds in parallel, one ordered kind in sequence. */
  predicate Discouraged(a: FaultSpec, b: FaultSpec, mode: string) {
    if mode == PARALLEL then
      || Are(a, b, "inline", "hang", "network", "blackhole")
      || Are(a, b, "network", "retransmit_delay", "network", "rst")
      || Are(a, b, "inline", "error", "inline", "hang")
      || Are(a, b, "resource", "cpu", "resource", "memory")
      || Are(a, b, "inline", "latency", "inline", "hang")
    else Is(a, "inline", "error") && Is(b, "inline", "latency")
  }

  function CountAbout(n: nat, a: FaultSpec, b: FaultSpec, mode: string): nat
    requires n <= 9
  {
    if n == 0 then 0 else CountAbout(n - 1, a, b, mode) + if RowIsAbout(n - 1, a, b, mode) then 1 else 0
  }

  lemma {:induction false} MatchesAreCounted(n: nat, a: FaultSpec, b: FaultSpec, mode: string)
    requires n <= 9 <= |PairRules()| && ValidSpec(a) && ValidSpec(b) && (mode == PARALLEL || mode == SEQUENTIAL)
    ensures MatchCount(TypeName(a), TypeName(b), PairRules()[..n], mode) == CountAbout(n, a, b, mode)
    decreases n
  {
    NinePairRules();
    if n > 0 {
      assert PairRules()[..n][..n - 1] == PairRules()[..n - 1];
      MatchesAreCounted(n - 1, a, b, mode);
      RowMatchesIff(n - 1, a, b, mode);
    }
  }

  lemma {:induction false} CountOfOne(n: nat, k: nat, a: FaultSpec, b: FaultSpec, mode: string)
    requires n <= 9 && k < 9 && forall j: nat :: j < 9 && j != k ==> !RowIsAbout(j, a, b, mode)
    ensures CountAbout(n, a, b, mode) == if k < n && RowIsAbout(k, a, b, mode) then 1 else 0
    decreases n
  {
    if n > 0 {
      CountOfOne(n - 1, k, a, b, mode);
    }
  }

  /** Two compatible faults get one warning if they are a discouraged pair, and none otherwise. */
  lemma WarningsOfPair(a: FaultSpec, b: FaultSpec, mode: string)
    requires ValidSpec(a) && ValidSpec(b) && (mode == PARALLEL || mode == SEQUENTIAL)
    requires mode == PARALLEL ==> !Incompatible(a, b)
    ensures MatchCount(TypeName(a), TypeName(b), PairRules(), mode) == if Discouraged(a, b, mode) then 1 else 0
  {
    NinePairRules();
    assert PairRules()[..9] == PairRules();
    MatchesAreCounted(9, a, b, mode);
    var k := if mode == SEQUENTIAL then 5
             else if Are(a, b, "inline", "hang", "network", "blackhole") then 3
             else if Are(a, b, "network", "retransmit_delay", "network", "rst") then 4
             else if Are(a, b, "inline", "error", "inline", "hang") then 6
             else if Are(a, b, "resource", "cpu", "resource", "memory") then 7
             else 8;
    forall j: nat | j < 9 && j != k ensures !RowIsAbout(j, a, b, mode) {
    }
    CountOfOne(9, k, a, b, mode);
  }

  // ----- Lists of leaves -----

  ghost predicate AllSpecsValid(leaves: seq<FaultSpec>) {
    forall i :: 0 <= i < |leaves| ==> ValidSpec(leaves[i])
  }

  predicate AnyIncompatible(leaves: seq<FaultSpec>) {
    exists i, j :: 0 <= i < j < |leaves| && Incompatible(leaves[i], leaves[j])
  }

  /** A list of leaves is refused exactly when it is parallel and some two of them are incompatible. */
  lemma AnyHardPairIff(leaves: seq<FaultSpec>, mode: string)
    requires AllSpecsValid(leaves) && (mode == PARALLEL || mode == SEQUENTIAL)
    ensures AnyHardPair(TypeNames(leaves), PairRules(), mode) <==> mode == PARALLEL && AnyIncompatible(leaves)
  {
    var names := TypeNames(leaves);
    forall i, j | 0 <= i < j < |leaves|
      ensures HardPair(names[i], names[j], PairRules(), mode) <==>
                mode == PARALLEL && Incompatible(leaves[i], leaves[j])
    {
      HardPairIff(leaves[i], leaves[j], mode);
    }
    if mode == PARALLEL && AnyIncompatible(leaves) {
      var i, j :| 0 <= i < j < |leaves| && Incompatible(leaves[i], leaves[j]);
      assert HardPair(names[i], names[j], PairRules(), mode);
    }
  }

  /** How many of the leaves are discouraged after the first one. */
  function DiscouragedWith(a: FaultSpec, leaves: seq<FaultSpec>, mode: string): nat {
    if leaves == [] then 0
    else
      var n := |leaves| - 1;
      DiscouragedWith(a, leaves[..n], mode) + if Discouraged(a, leaves[n], mode) then 1 else 0
  }

  /** How many ordered pairs of leaves are discouraged. */
  function DiscouragedPairs(leaves: seq<FaultSpec>, mode: string): nat {
    if leaves == [] then 0
    else DiscouragedWith(leaves[0], leaves[1..], mode) + DiscouragedPairs(leaves[1..], mode)
  }

  lemma {:induction false} RowCounts(a: FaultSpec, first: string, leaves: seq<FaultSpec>, names: seq<string>,
                                     rules: seq<Constraint>, mode: string)
    requires |names| == |leaves|
    requires forall i :: 0 <= i < |names| ==>
               MatchCount(first, names[i], rules, mode) == if Discouraged(a, leaves[i], mode) then 1 else 0
    ensures RowCount(first, names, rules, mode) == DiscouragedWith(a, leaves, mode)
    decreases |leaves|
  {
    if leaves != [] {
      var n := |leaves| - 1;
      RowCounts(a, first, leaves[..n], names[..n], rules, mode);
    }
  }

  lemma WarningsOfRow(a: FaultSpec, leaves: seq<FaultSpec>, mode: string)
    requires ValidSpec(a) && AllSpecsValid(leaves) && (mode == PARALLEL || mode == SEQUENTIAL)
    requires mode == PARALLEL ==> forall i :: 0 <= i < |leaves| ==> !Incompatible(a, leaves[i])
    ensures RowCount(TypeName(a), TypeNames(leaves), PairRules(), mode) == DiscouragedWith(a, leaves, mode)
  {
    var first, names, rules := TypeName(a), TypeNames(leaves), PairRules();
    forall i | 0 <= i < |names|
      ensures MatchCount(first, names[i], rules, mode) == if Discouraged(a, leaves[i], mode) then 1 else 0
    {
      WarningsOfPair(a, leaves[i], mode);
    }
    RowCounts(a, first, leaves, names, rules, mode);
  }

  /** An accepted list gets exactly one warning for every discouraged pair. */
  lemma {:induction false} WarningsOfLeaves(leaves: seq<FaultSpec>, mode: string)
    requires AllSpecsValid(leaves) && (mode == PARALLEL || mode == SEQUENTIAL)
    requires mode == PARALLEL ==> !AnyIncompatible(leaves)
    ensures PairCount(TypeNames(leaves), PairRules(), mode) == DiscouragedPairs(leaves, mode)
    decreases |leaves|
  {
    if leaves != [] {
      assert TypeNames(leaves)[1..] == TypeNames(leaves[1..]);
      WarningsOfRow(leaves[0], leaves[1..], mode);
      WarningsOfLeaves(leaves[1..], mode);
    }
  }
}
