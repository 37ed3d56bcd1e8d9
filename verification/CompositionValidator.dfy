/** The whole composition validator (internal/model/composition_validate.go). */
module CompositionValidator {
  import opened Wrappers
  import opened Faults
  import opened CompositionTree
  import opened CompatibilityTable
  import opened Incompatibility

  const MAX_DEPTH := 3

  function DirectionKey(direction: string): string {
    if direction == "" then "unspecified" else direction
  }

  predicate DirectionClashes(ms: seq<NetworkMember>) {
    exists i, j :: 0 <= i < j < |ms| && DirectionKey(ms[i].direction) == DirectionKey(ms[j].direction)
  }

  /** What the validator accepts, said without its loops. */
  predicate Accepts(c: Composition, specs: Specs, comps: Compositions) {
    && ValidComposition(c)
    && Fits(c, comps, MAX_DEPTH)
    && var network := NetworkMembers(c, specs, comps, MAX_DEPTH);
       var leaves := LeafSpecs(c, specs, comps, MAX_DEPTH);
       && (c.mode == PARALLEL ==> network.Ok? && !DirectionClashes(network.value))
       && leaves.Ok?
       && !AnyHardPair(TypeNames(leaves.value), PairsOf(DefaultConstraints()), c.mode)
  }

  ghost predicate AllValid(specs: Specs) {
    forall id :: id in specs ==> ValidSpec(specs[id])
  }

  /** Two network leaves that end up with the same direction, or both with none. */
  predicate SharedDirection(ms: seq<NetworkMember>) {
    exists i, j :: 0 <= i < j < |ms| && ms[i].direction == ms[j].direction
  }

  /** What the validator accepts, in terms of fault types and directions: no table, no type names. */
  predicate AcceptsByType(c: Composition, specs: Specs, comps: Compositions) {
    && ValidComposition(c)
    && Fits(c, comps, MAX_DEPTH)
    && var leaves := LeafSpecs(c, specs, comps, MAX_DEPTH);
       && leaves.Ok?
       && (c.mode == PARALLEL ==>
             && !AnyIncompatible(leaves.value)
             && var network := NetworkMembers(c, specs, comps, MAX_DEPTH);
                network.Ok? && !SharedDirection(network.value))
  }

  lemma {:induction false} LeavesAreValid(members: seq<Member>, specs: Specs, comps: Compositions, levels: nat)
    requires MembersFit(members, comps, levels) && AllValid(specs) && MemberLeaves(members, specs, comps, levels).Ok?
    ensures AllSpecsValid(MemberLeaves(members, specs, comps, levels).value)
    decreases levels, |members|
  {
    if members != [] {
      var m := members[0];
      assert m in members && members == [m] + members[1..];
      if m.faultSpecId == "" && m.childId != "" {
        assert LeafSpecs(comps[m.childId], specs, comps, levels - 1).Ok?;
        LeavesAreValid(comps[m.childId].members, specs, comps, levels - 1);
      }
      assert AllSpecsValid(OneLeaves(m, specs, comps, levels).value);
      LeavesAreValid(members[1..], specs, comps, levels);
    }
  }

  lemma ClashIsSharedDirection(ms: seq<NetworkMember>)
    requires forall i :: 0 <= i < |ms| ==> ValidDirection(ms[i].direction)
    ensures DirectionClashes(ms) <==> SharedDirection(ms)
  {
    forall i, j | 0 <= i < j < |ms|
      ensures DirectionKey(ms[i].direction) == DirectionKey(ms[j].direction) <==> ms[i].direction == ms[j].direction
    {
    }
    if SharedDirection(ms) {
      var i, j :| 0 <= i < j < |ms| && ms[i].direction == ms[j].direction;
      assert DirectionKey(ms[i].direction) == DirectionKey(ms[j].direction);
    }
  }

  /** Over valid specs and stored directions the verdict is about fault types and directions only. */
  lemma AcceptsIffByType(c: Composition, specs: Specs, comps: Compositions)
    requires AllValid(specs) && DirectionsValid(comps)
    ensures Accepts(c, specs, comps) <==> AcceptsByType(c, specs, comps)
  {
    if ValidComposition(c) && Fits(c, comps, MAX_DEPTH) && LeafSpecs(c, specs, comps, MAX_DEPTH).Ok? {
      LeavesAreValid(c.members, specs, comps, MAX_DEPTH);
      AnyHardPairIff(LeafSpecs(c, specs, comps, MAX_DEPTH).value, c.mode);
      if c.mode == PARALLEL {
        WalksAgreeOnNetwork(c.members, specs, comps, MAX_DEPTH);
        NetworkDirectionsAreValid(c.members, specs, comps, MAX_DEPTH);
        ClashIsSharedDirection(NetworkMembers(c, specs, comps, MAX_DEPTH).value);
      }
    }
  }

  /** How many of the members have the given direction key. */
  function KeyCount(ms: seq<NetworkMember>, key: string): nat {
    if ms == [] then 0
    else
      var n := |ms| - 1;
      KeyCount(ms[..n], key) + if DirectionKey(ms[n].direction) == key then 1 else 0
  }

  lemma {:induction false} CountedMeansPresent(ms: seq<NetworkMember>, key: string)
    ensures KeyCount(ms, key) > 0 <==> exists i :: 0 <= i < |ms| && DirectionKey(ms[i].direction) == key
    decreases |ms|
  {
    if ms != [] {
      var n := |ms| - 1;
      CountedMeansPresent(ms[..n], key);
      if i :| 0 <= i < |ms| && DirectionKey(ms[i].direction) == key {
        assert i < n ==> ms[..n][i] == ms[i];
      }
    }
  }

  /** A key is counted twice exactly when two different positions have it. */
  lemma {:induction false} CountedTwiceMeansClash(ms: seq<NetworkMember>, key: string)
    ensures KeyCount(ms, key) > 1 <==>
              exists i, j :: 0 <= i < j < |ms| && DirectionKey(ms[i].direction) == key
                  && DirectionKey(ms[j].direction) == key
    decreases |ms|
  {
    if ms != [] {
      var n := |ms| - 1;
      CountedTwiceMeansClash(ms[..n], key);
      CountedMeansPresent(ms[..n], key);
      if i, j :| 0 <= i < j < |ms| && DirectionKey(ms[i].direction) == key && DirectionKey(ms[j].direction) == key {
        assert ms[..n][i] == ms[i];
        if j < n {
          assert ms[..n][j] == ms[j];
          assert KeyCount(ms[..n], key) > 1;
        } else {
          assert KeyCount(ms[..n], key) > 0;
        }
      }
    }
  }

  /** Groups the network members by direction. */
  method GroupByDirection(ms: seq<NetworkMember>) returns (byDirection: map<string, seq<string>>)
    ensures forall d :: d in byDirection <==> KeyCount(ms, d) > 0
    ensures forall d :: d in byDirection ==> |byDirection[d]| == KeyCount(ms, d)
  {
    byDirection := map[];
    for i := 0 to |ms|
      invariant forall d :: d in byDirection <==> KeyCount(ms[..i], d) > 0
      invariant forall d :: d in byDirection ==> |byDirection[d]| == KeyCount(ms[..i], d)
    {
      assert ms[..i + 1][..i] == ms[..i];
      var d := DirectionKey(ms[i].direction);
      byDirection := byDirection[d := (if d in byDirection then byDirection[d] else []) + [ms[i].faultType]];
    }
    assert ms[..|ms|] == ms;
  }

  /** Looks for a direction with more than one network fault. */
  method CheckDirections(ms: seq<NetworkMember>) returns (clash: Option<string>)
    ensures clash.Some? <==> DirectionClashes(ms)
    ensures clash.Some? ==> KeyCount(ms, clash.value) > 1
  {
    var byDirection := GroupByDirection(ms);
    var left := byDirection.Keys;
    while left != {}
      invariant left <= byDirection.Keys
      invariant forall d :: d in byDirection && d !in left ==> KeyCount(ms, d) <= 1
      decreases |left|
    {
      var d :| d in left;
      if |byDirection[d]| > 1 {
        CountedTwiceMeansClash(ms, d);
        return Some(d);
      }
      left := left - {d};
    }
    forall i, j | 0 <= i < j < |ms| ensures DirectionKey(ms[i].direction) != DirectionKey(ms[j].direction) {
      CountedTwiceMeansClash(ms, DirectionKey(ms[i].direction));
    }
    return None;
  }

  /** The incompatibility check of a tree that fits: its leaves, and every pair of them against the default matrix. */
  method ValidateIncompatibilities(c: Composition, specs: Specs, comps: Compositions)
    returns (verdict: Result<Verdict, FaultError>)
    requires ValidComposition(c) && Fits(c, comps, MAX_DEPTH)
    ensures verdict.Ok? <==> LeafSpecs(c, specs, comps, MAX_DEPTH).Ok?
    ensures verdict.Ok? ==>
              var leaves := LeafSpecs(c, specs, comps, MAX_DEPTH).value;
              verdict.value.Hard? <==> AnyHardPair(TypeNames(leaves), PairRules(), c.mode)
    ensures verdict.Ok? && AllValid(specs) ==>
              var leaves := LeafSpecs(c, specs, comps, MAX_DEPTH).value;
              && (verdict.value.Hard? <==> c.mode == PARALLEL && AnyIncompatible(leaves))
              && (verdict.value.Compatible? ==> verdict.value.warnings == DiscouragedPairs(leaves, c.mode))
  {
    var leaves := CollectLeaves(c, specs, comps, MAX_DEPTH);
    if leaves.Err? {
      return Err(leaves.error);
    }
    var rules := DefaultIncompatibilities();
    var pairs := CheckPairs(leaves.value, rules, c.mode);
    ghost var found := LeafSpecs(c, specs, comps, MAX_DEPTH).value;
    if AllValid(specs) {
      LeavesAreValid(c.members, specs, comps, MAX_DEPTH);
      AnyHardPairIff(found, c.mode);
      if pairs.Compatible? {
        WarningsOfLeaves(found, c.mode);
      }
    }
    return Ok(pairs);
  }

  method ValidateComposition(c: Composition, specs: Specs, comps: Compositions) returns (err: Option<FaultError>)
    ensures err.None? <==> Accepts(c, specs, comps)
    ensures AllValid(specs) && DirectionsValid(comps) ==> (err.None? <==> AcceptsByType(c, specs, comps))
    ensures !ValidComposition(c) ==> err == Some(Malformed)
    ensures ValidComposition(c) && WalkDepth(c, comps, 1, MAX_DEPTH).Some? ==> err == WalkDepth(c, comps, 1, MAX_DEPTH)
  {
    if AllValid(specs) && DirectionsValid(comps) {
      AcceptsIffByType(c, specs, comps);
    }
    if !ValidComposition(c) {
      return Some(Malformed);
    }
    DepthCheckIsExact(c, comps, 1, MAX_DEPTH);
    err := WalkDepth(c, comps, 1, MAX_DEPTH);
    if err.Some? {
      return;
    }
    if c.mode == PARALLEL {
      var network := CollectNetworkMembers(c, specs, comps, MAX_DEPTH);
      if network.Err? {
        return Some(network.error);
      }
      var clash := CheckDirections(network.value);
      if clash.Some? {
        return Some(DirectionClash(clash.value));
      }
    }
    var verdict := ValidateIncompatibilities(c, specs, comps);
    if verdict.Err? {
      return Some(verdict.error);
    }
    if verdict.value.Hard? {
      return Some(HardIncompatibility(verdict.value.first, verdict.value.second));
    }
    return None;
  }

  // ----- What an accepted parallel composition looks like -----

  function NetworkOnly(specs: seq<FaultSpec>): seq<FaultSpec> {
    if specs == [] then []
    else (if specs[0].category == "network" then [specs[0]] else []) + NetworkOnly(specs[1..])
  }

  function FaultTypes(ms: seq<NetworkMember>): (r: seq<string>)
    ensures |r| == |ms|
    ensures forall i :: 0 <= i < |ms| ==> r[i] == ms[i].faultType
  {
    seq(|ms|, i requires 0 <= i < |ms| => ms[i].faultType)
  }

  lemma {:induction false} NetworkOnlyOfConcat(a: seq<FaultSpec>, b: seq<FaultSpec>)
    ensures NetworkOnly(a + b) == NetworkOnly(a) + NetworkOnly(b)
    decreases |a|
  {
    if a == [] {
      assert a + b == b;
    } else {
      assert (a + b)[1..] == a[1..] + b;
      NetworkOnlyOfConcat(a[1..], b);
    }
  }

  lemma AgreementJoins(n1: seq<NetworkMember>, n2: seq<NetworkMember>, l1: seq<FaultSpec>, l2: seq<FaultSpec>)
    requires FaultTypes(n1) == TypeNames(NetworkOnly(l1)) && FaultTypes(n2) == TypeNames(NetworkOnly(l2))
    ensures FaultTypes(n1 + n2) == TypeNames(NetworkOnly(l1 + l2))
  {
    NetworkOnlyOfConcat(l1, l2);
    TypeNamesOfConcat(NetworkOnly(l1), NetworkOnly(l2));
    assert FaultTypes(n1 + n2) == FaultTypes(n1) + FaultTypes(n2);
  }

  /** The two walks of the validator see the same network faults, in the same order. */
  lemma {:induction false} WalksAgreeOnNetwork(members: seq<Member>, specs: Specs, comps: Compositions, levels: nat)
    requires MembersFit(members, comps, levels)
    requires MemberLeaves(members, specs, comps, levels).Ok?
    ensures var network := NetworkOf(members, specs, comps, levels);
            network.Ok?
            && FaultTypes(network.value) == TypeNames(NetworkOnly(MemberLeaves(members, specs, comps, levels).value))
    decreases levels, |members|
  {
    if members != [] {
      assert members == [members[0]] + members[1..];
      WalksAgreeOnOne(members[0], specs, comps, levels);
      WalksAgreeOnNetwork(members[1..], specs, comps, levels);
      AgreementJoins(NetworkOfOne(members[0], specs, comps, levels).value,
                     NetworkOf(members[1..], specs, comps, levels).value,
                     OneLeaves(members[0], specs, comps, levels).value,
                     MemberLeaves(members[1..], specs, comps, levels).value);
    }
  }

  lemma {:induction false} WalksAgreeOnOne(m: Member, specs: Specs, comps: Compositions, levels: nat)
    requires MembersFit([m], comps, levels)
    requires OneLeaves(m, specs, comps, levels).Ok?
    ensures var network := NetworkOfOne(m, specs, comps, levels);
            network.Ok? && FaultTypes(network.value) == TypeNames(NetworkOnly(OneLeaves(m, specs, comps, levels).value))
    decreases levels, 0
  {
    assert m in [m];
    if m.faultSpecId == "" && m.childId != "" {
      var child := comps[m.childId];
      assert LeafSpecs(child, specs, comps, levels - 1) == MemberLeaves(child.members, specs, comps, levels - 1);
      WalksAgreeOnNetwork(child.members, specs, comps, levels - 1);
      assert NetworkMembers(child, specs, comps, levels - 1) == NetworkOf(child.members, specs, comps, levels - 1);
    } else if m.faultSpecId != "" {
      var spec := specs[m.faultSpecId];
      assert [spec][1..] == [];
    }
  }

  /** Every stored member direction is one the member check and the database accept. */
  predicate DirectionsValid(comps: Compositions) {
    forall id :: id in comps ==> forall m :: m in comps[id].members ==> ValidDirection(m.direction)
  }

  lemma {:induction false} NetworkDirectionsAreValid(members: seq<Member>, specs: Specs, comps: Compositions,
      levels: nat)
    requires MembersFit(members, comps, levels) && DirectionsValid(comps)
    requires forall m :: m in members ==> ValidDirection(m.direction)
    requires NetworkOf(members, specs, comps, levels).Ok?
    ensures forall n :: n in NetworkOf(members, specs, comps, levels).value ==> ValidDirection(n.direction)
    decreases levels, |members|
  {
    if members != [] {
      assert members == [members[0]] + members[1..];
      NetworkDirectionsOfOneAreValid(members[0], specs, comps, levels);
      NetworkDirectionsAreValid(members[1..], specs, comps, levels);
    }
  }

  lemma {:induction false} NetworkDirectionsOfOneAreValid(m: Member, specs: Specs, comps: Compositions, levels: nat)
    requires MembersFit([m], comps, levels) && DirectionsValid(comps) && ValidDirection(m.direction)
    requires NetworkOfOne(m, specs, comps, levels).Ok?
    ensures forall n :: n in NetworkOfOne(m, specs, comps, levels).value ==> ValidDirection(n.direction)
    decreases levels, 0
  {
    assert m in [m];
    if m.faultSpecId == "" && m.childId != "" {
      var child := comps[m.childId];
      assert NetworkMembers(child, specs, comps, levels - 1) == NetworkOf(child.members, specs, comps, levels - 1);
      NetworkDirectionsAreValid(child.members, specs, comps, levels - 1);
      var below := NetworkMembers(child, specs, comps, levels - 1).value;
      forall i | 0 <= i < |below| ensures ValidDirection(Inherit(below, m.direction)[i].direction) {
        assert below[i] in below;
      }
    }
  }

  lemma FourDirectionsClash(ms: seq<NetworkMember>)
    requires |ms| >= 4
    requires forall i :: 0 <= i < |ms| ==> ValidDirection(ms[i].direction)
    ensures DirectionClashes(ms)
  {
    var a, b, c, d := ms[0].direction, ms[1].direction, ms[2].direction, ms[3].direction;
    if a == b || a == c || a == d {
      assert DirectionKey(a) == DirectionKey(if a == b then b else if a == c then c else d);
    } else if b == c || b == d {
      assert DirectionKey(b) == DirectionKey(if b == c then c else d);
    } else {
      assert DirectionKey(c) == DirectionKey(d);
    }
  }

  lemma BlackholeRule()
    ensures exists k :: 0 <= k < |PairsOf(DefaultConstraints())|
              && PairsOf(DefaultConstraints())[k] ==
                  Constraint("pair", "network:blackhole", "network:*", PARALLEL, "hard")
  {
    var c := Constraint("pair", "network:blackhole", "network:*", PARALLEL, "hard");
    assert DefaultConstraints()[0] == c;
    PairsKeepEveryPair(DefaultConstraints(), c);
  }

  lemma NetworkMatchesWildcard(spec: FaultSpec)
    requires spec.category == "network"
    ensures MatchesType(TypeName(spec), "network:*")
  {
    var p := "network:*";
    assert p[|p| - 2..] == ":*";
    assert p[..|p| - 2] == "network";
    assert "network" + ":" <= TypeName(spec);
  }

  lemma BlackholeClashes(a: FaultSpec, b: FaultSpec)
    requires a.category == "network" && b.category == "network"
    requires a.faultType == "blackhole" || b.faultType == "blackhole"
    ensures HardPair(TypeName(a), TypeName(b), PairsOf(DefaultConstraints()), PARALLEL)
  {
    var rules := PairsOf(DefaultConstraints());
    BlackholeRule();
    var k :| 0 <= k < |rules| && rules[k] == Constraint("pair", "network:blackhole", "network:*", PARALLEL, "hard");
    NetworkMatchesWildcard(a);
    NetworkMatchesWildcard(b);
    assert "network" + ":" + "blackhole" == "network:blackhole";
    assert MatchesPair(TypeName(a), TypeName(b), rules[k], PARALLEL);
  }

  /**
   An accepted parallel composition has at most three network leaves, one per direction, and if one
   of its network leaves is a blackhole that is its only network leaf.
  */
  lemma AcceptedParallelIsNarrow(c: Composition, specs: Specs, comps: Compositions)
    requires Accepts(c, specs, comps) && c.mode == PARALLEL && DirectionsValid(comps)
    ensures var leaves := LeafSpecs(c, specs, comps, MAX_DEPTH).value;
            && |NetworkOnly(leaves)| <= 3
            && forall i, j ::
                 0 <= i < j < |leaves| && leaves[i].category == "network" && leaves[j].category == "network" ==>
                 leaves[i].faultType != "blackhole" && leaves[j].faultType != "blackhole"
  {
    var network := NetworkMembers(c, specs, comps, MAX_DEPTH).value;
    var leaves := LeafSpecs(c, specs, comps, MAX_DEPTH).value;
    WalksAgreeOnNetwork(c.members, specs, comps, MAX_DEPTH);
    NetworkDirectionsAreValid(c.members, specs, comps, MAX_DEPTH);
    if |network| >= 4 {
      FourDirectionsClash(network);
    }
    assert |FaultTypes(network)| == |TypeNames(NetworkOnly(leaves))|;
    var names := TypeNames(leaves);
    forall i, j | 0 <= i < j < |leaves| && leaves[i].category == "network" && leaves[j].category == "network"
      ensures leaves[i].faultType != "blackhole" && leaves[j].faultType != "blackhole"
    {
      var first, second := names[i], names[j];
      if leaves[i].faultType == "blackhole" || leaves[j].faultType == "blackhole" {
        BlackholeClashes(leaves[i], leaves[j]);
      }
    }
  }

  // ----- What the verdict depends on -----

  /** The same specs exist, each with the same category and fault type; everything else may differ. */
  ghost predicate SameTypes(specs: Specs, specs': Specs) {
    && specs.Keys == specs'.Keys
    && forall id :: id in specs ==>
         specs'[id].category == specs[id].category && specs'[id].faultType == specs[id].faultType
  }

  lemma {:induction false} LeafNamesKept(members: seq<Member>, specs: Specs, specs': Specs, comps: Compositions,
      levels: nat)
    requires MembersFit(members, comps, levels) && SameTypes(specs, specs')
    ensures NamesOf(MemberLeaves(members, specs, comps, levels)) ==
        NamesOf(MemberLeaves(members, specs', comps, levels))
    decreases levels, |members|
  {
    if members != [] {
      var m := members[0];
      assert m in members && members == [m] + members[1..];
      LeafNamesOfOneKept(m, specs, specs', comps, levels);
      LeafNamesKept(members[1..], specs, specs', comps, levels);
      if MemberLeaves(members, specs, comps, levels).Ok? {
        TypeNamesOfConcat(OneLeaves(m, specs, comps, levels).value,
            MemberLeaves(members[1..], specs, comps, levels).value);
        TypeNamesOfConcat(OneLeaves(m, specs', comps, levels).value,
            MemberLeaves(members[1..], specs', comps, levels).value);
      }
    }
  }

  lemma {:induction false} LeafNamesOfOneKept(m: Member, specs: Specs, specs': Specs, comps: Compositions, levels: nat)
    requires MembersFit([m], comps, levels) && SameTypes(specs, specs')
    ensures NamesOf(OneLeaves(m, specs, comps, levels)) == NamesOf(OneLeaves(m, specs', comps, levels))
    decreases levels, 0
  {
    assert m in [m];
    if m.faultSpecId == "" && m.childId != "" {
      LeafNamesKept(comps[m.childId].members, specs, specs', comps, levels - 1);
    } else if m.faultSpecId != "" && m.faultSpecId in specs {
      assert TypeNames([specs[m.faultSpecId]]) == TypeNames([specs'[m.faultSpecId]]);
    }
  }

  lemma {:induction false} NetworkKept(members: seq<Member>, specs: Specs, specs': Specs, comps: Compositions,
      levels: nat)
    requires MembersFit(members, comps, levels) && SameTypes(specs, specs')
    ensures NetworkOf(members, specs, comps, levels) == NetworkOf(members, specs', comps, levels)
    decreases levels, |members|
  {
    if members != [] {
      var m := members[0];
      assert m in members && members == [m] + members[1..];
      if m.faultSpecId == "" && m.childId != "" {
        NetworkKept(comps[m.childId].members, specs, specs', comps, levels - 1);
        assert NetworkMembers(comps[m.childId], specs, comps, levels - 1) ==
            NetworkMembers(comps[m.childId], specs', comps, levels - 1);
      }
      assert NetworkOfOne(m, specs, comps, levels) == NetworkOfOne(m, specs', comps, levels);
      NetworkKept(members[1..], specs, specs', comps, levels);
    }
  }

  /** The verdict on a composition depends on its specs only through their category and fault type. */
  lemma VerdictDependsOnTypes(c: Composition, specs: Specs, specs': Specs, comps: Compositions)
    requires SameTypes(specs, specs')
    ensures Accepts(c, specs, comps) <==> Accepts(c, specs', comps)
  {
    if ValidComposition(c) && Fits(c, comps, MAX_DEPTH) {
      LeafNamesKept(c.members, specs, specs', comps, MAX_DEPTH);
      NetworkKept(c.members, specs, specs', comps, MAX_DEPTH);
      assert NamesOf(LeafSpecs(c, specs, comps, MAX_DEPTH)) == NamesOf(LeafSpecs(c, specs', comps, MAX_DEPTH));
      assert NetworkMembers(c, specs, comps, MAX_DEPTH) == NetworkMembers(c, specs', comps, MAX_DEPTH);
    }
  }
}
