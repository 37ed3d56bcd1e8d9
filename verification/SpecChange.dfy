/**
 Which updates of a stored fault spec the stored compositions survive (internal/store/fault_repo.go).
 The repository validates the new spec by itself, not against the compositions that use it.
*/
module SpecChange {
  import opened Wrappers
  import opened Faults
  import opened CompositionTree
  import opened Incompatibility
  import opened CompositionValidator
  import opened FaultStore

  // ----- Hard pairs are pairs of network faults in parallel mode -----

  lemma HardRulesAreNetwork(c: Constraint)
    requires c in PairsOf(DefaultConstraints()) && c.severity == "hard"
    ensures c.scope == PARALLEL && |c.subject| > 2 && |c.counterpart| > 2
    ensures c.subject[0] == 'n' && c.counterpart[0] == 'n'
  {
    PairsKeepEveryPair(DefaultConstraints(), c);
  }

  lemma MatchKeepsFirstLetter(concrete: string, pattern: string)
    requires MatchesType(concrete, pattern) && |pattern| > 2
    ensures |concrete| > 0 && concrete[0] == pattern[0]
  {
  }

  lemma NetworkByFirstLetter(s: FaultSpec)
    requires ValidSpec(s)
    ensures |TypeName(s)| > 0 && (TypeName(s)[0] == 'n' ==> s.category == "network")
  {
    assert s.category == "inline" || s.category == "network" || s.category == "resource";
  }

  lemma HardPairsAreNetwork(a: FaultSpec, b: FaultSpec, mode: string)
    requires ValidSpec(a) && ValidSpec(b)
    requires HardPair(TypeName(a), TypeName(b), PairsOf(DefaultConstraints()), mode)
    requires mode == PARALLEL || mode == SEQUENTIAL
    ensures mode == PARALLEL && a.category == "network" && b.category == "network"
  {
    var rules := PairsOf(DefaultConstraints());
    var k :| 0 <= k < |rules| && MatchesPair(TypeName(a), TypeName(b), rules[k], mode) && rules[k].severity == "hard";
    HardRulesAreNetwork(rules[k]);
    NetworkByFirstLetter(a);
    NetworkByFirstLetter(b);
    if MatchesType(TypeName(a), rules[k].subject) && MatchesType(TypeName(b), rules[k].counterpart) {
      MatchKeepsFirstLetter(TypeName(a), rules[k].subject);
      MatchKeepsFirstLetter(TypeName(b), rules[k].counterpart);
    } else {
      MatchKeepsFirstLetter(TypeName(a), rules[k].counterpart);
      MatchKeepsFirstLetter(TypeName(b), rules[k].subject);
    }
  }

  // ----- The condition -----

  predicate HardBeside(s: FaultSpec, networkType: string) {
    HardPair(TypeName(s), "network:" + networkType, PairsOf(DefaultConstraints()), PARALLEL)
  }

  /**
   The new spec is no network fault, or both are and whatever network fault the new one must not
   stand beside, the old one must not stand beside either.
  */
  predicate SafeChange(was: FaultSpec, now: FaultSpec) {
    || now.category != "network"
    || (was.category == "network" && forall t :: t in NETWORK_TYPES && HardBeside(now, t) ==> HardBeside(was, t))
  }

  // ----- Safe changes keep every verdict -----

  predicate Changes(before: FaultSpec, after: FaultSpec, was: FaultSpec, now: FaultSpec) {
    after == before || (before == was && after == now)
  }

  /** Leaf by leaf the same specs, except that occurrences of the old one may have become the new one. */
  ghost predicate LeavesChange(before: seq<FaultSpec>, after: seq<FaultSpec>, was: FaultSpec, now: FaultSpec) {
    && |before| == |after|
    && forall i :: 0 <= i < |before| ==>
         Changes(before[i], after[i], was, now) && ValidSpec(before[i]) && ValidSpec(after[i])
  }

  lemma LeavesChangeJoin(a: seq<FaultSpec>, a': seq<FaultSpec>, b: seq<FaultSpec>, b': seq<FaultSpec>,
                         was: FaultSpec, now: FaultSpec)
    requires LeavesChange(a, a', was, now) && LeavesChange(b, b', was, now)
    ensures LeavesChange(a + b, a' + b', was, now)
  {
  }

  lemma {:induction false} LeavesAfterChange(members: seq<Member>, specs: Specs, comps: Compositions, levels: nat,
                                             id: Id, now: FaultSpec)
    requires MembersFit(members, comps, levels) && id in specs && AllValid(specs) && ValidSpec(now)
    requires MemberLeaves(members, specs, comps, levels).Ok?
    ensures MemberLeaves(members, specs[id := now], comps, levels).Ok?
    ensures LeavesChange(MemberLeaves(members, specs, comps, levels).value,
                         MemberLeaves(members, specs[id := now], comps, levels).value, specs[id], now)
    decreases levels, |members|
  {
    if members != [] {
      var m, specs' := members[0], specs[id := now];
      assert m in members && members == [m] + members[1..];
      LeavesOfOneAfterChange(m, specs, comps, levels, id, now);
      LeavesAfterChange(members[1..], specs, comps, levels, id, now);
      LeavesChangeJoin(OneLeaves(m, specs, comps, levels).value, OneLeaves(m, specs', comps, levels).value,
                       MemberLeaves(members[1..], specs, comps, levels).value,
                       MemberLeaves(members[1..], specs', comps, levels).value, specs[id], now);
    }
  }

  lemma {:induction false} LeavesOfOneAfterChange(m: Member, specs: Specs, comps: Compositions, levels: nat,
                                                  id: Id, now: FaultSpec)
    requires MembersFit([m], comps, levels) && id in specs && AllValid(specs) && ValidSpec(now)
    requires OneLeaves(m, specs, comps, levels).Ok?
    ensures OneLeaves(m, specs[id := now], comps, levels).Ok?
    ensures LeavesChange(OneLeaves(m, specs, comps, levels).value,
                         OneLeaves(m, specs[id := now], comps, levels).value, specs[id], now)
    decreases levels, 0
  {
    assert m in [m];
    if m.faultSpecId == "" && m.childId != "" {
      LeavesAfterChange(comps[m.childId].members, specs, comps, levels - 1, id, now);
    }
  }

  /** How many network leaves have exactly this direction. */
  function DirectionCount(ms: seq<NetworkMember>, direction: string): nat {
    if ms == [] then 0
    else DirectionCount(ms[1..], direction) + if ms[0].direction == direction then 1 else 0
  }

  lemma {:induction false} DirectionCountOfConcat(a: seq<NetworkMember>, b: seq<NetworkMember>, direction: string)
    ensures DirectionCount(a + b, direction) == DirectionCount(a, direction) + DirectionCount(b, direction)
    decreases |a|
  {
    if a == [] {
      assert a + b == b;
    } else {
      assert (a + b)[1..] == a[1..] + b;
      DirectionCountOfConcat(a[1..], b, direction);
    }
  }

  lemma {:induction false} DirectionCountOfInherit(ms: seq<NetworkMember>, inherited: string, direction: string)
    ensures DirectionCount(Inherit(ms, inherited), direction) ==
              if inherited == "" then DirectionCount(ms, direction)
              else if direction == "" then 0
              else if direction == inherited then DirectionCount(ms, direction) + DirectionCount(ms, "")
              else DirectionCount(ms, direction)
    decreases |ms|
  {
    if ms != [] {
      assert Inherit(ms, inherited)[1..] == Inherit(ms[1..], inherited);
      DirectionCountOfInherit(ms[1..], inherited, direction);
    }
  }

  lemma {:induction false} KeyCountByDirection(ms: seq<NetworkMember>, key: string)
    ensures KeyCount(ms, key) == if key == "unspecified" then DirectionCount(ms, "") + DirectionCount(ms, key)
                                 else if key == "" then 0
                                 else DirectionCount(ms, key)
    decreases |ms|
  {
    if ms != [] {
      var n := |ms| - 1;
      assert ms == ms[..n] + [ms[n]];
      KeyCountByDirection(ms[..n], key);
      DirectionCountOfConcat(ms[..n], [ms[n]], key);
      DirectionCountOfConcat(ms[..n], [ms[n]], "");
      assert [ms[n]][1..] == [];
    }
  }

  ghost predicate NoMoreDirections(after: seq<NetworkMember>, before: seq<NetworkMember>) {
    forall d :: DirectionCount(after, d) <= DirectionCount(before, d)
  }

  lemma NoMoreDirectionsJoin(a': seq<NetworkMember>, a: seq<NetworkMember>, b': seq<NetworkMember>,
      b: seq<NetworkMember>)
    requires NoMoreDirections(a', a) && NoMoreDirections(b', b)
    ensures NoMoreDirections(a' + b', a + b)
  {
    forall d ensures DirectionCount(a' + b', d) <= DirectionCount(a + b, d) {
      DirectionCountOfConcat(a', b', d);
      DirectionCountOfConcat(a, b, d);
    }
  }

  lemma NoMoreDirectionsInherit(a': seq<NetworkMember>, a: seq<NetworkMember>, inherited: string)
    requires NoMoreDirections(a', a)
    ensures NoMoreDirections(Inherit(a', inherited), Inherit(a, inherited))
  {
    forall d ensures DirectionCount(Inherit(a', inherited), d) <= DirectionCount(Inherit(a, inherited), d) {
      DirectionCountOfInherit(a', inherited, d);
      DirectionCountOfInherit(a, inherited, d);
    }
  }

  lemma NoNewClash(after: seq<NetworkMember>, before: seq<NetworkMember>)
    requires NoMoreDirections(after, before) && DirectionClashes(after)
    ensures DirectionClashes(before)
  {
    var i, j :| 0 <= i < j < |after| && DirectionKey(after[i].direction) == DirectionKey(after[j].direction);
    var key := DirectionKey(after[i].direction);
    CountedTwiceMeansClash(after, key);
    CountedTwiceMeansClash(before, key);
    KeyCountByDirection(after, key);
    KeyCountByDirection(before, key);
  }

  /** A spec that stays no network fault, stops being one, or stays one, brings no direction into the tree. */
  lemma {:induction false} NetworkAfterChange(members: seq<Member>, specs: Specs, comps: Compositions, levels: nat,
                                              id: Id, now: FaultSpec)
    requires MembersFit(members, comps, levels) && id in specs
    requires now.category != "network" || specs[id].category == "network"
    requires NetworkOf(members, specs, comps, levels).Ok?
    ensures NetworkOf(members, specs[id := now], comps, levels).Ok?
    ensures NoMoreDirections(NetworkOf(members, specs[id := now], comps, levels).value,
                             NetworkOf(members, specs, comps, levels).value)
    decreases levels, |members|
  {
    if members != [] {
      assert members[0] in members && members == [members[0]] + members[1..];
      NetworkOfOneAfterChange(members[0], specs, comps, levels, id, now);
      NetworkAfterChange(members[1..], specs, comps, levels, id, now);
      var specs' := specs[id := now];
      NoMoreDirectionsJoin(NetworkOfOne(members[0], specs', comps, levels).value,
                           NetworkOfOne(members[0], specs, comps, levels).value,
                           NetworkOf(members[1..], specs', comps, levels).value,
                           NetworkOf(members[1..], specs, comps, levels).value);
    }
  }

  lemma {:induction false} NetworkOfOneAfterChange(m: Member, specs: Specs, comps: Compositions, levels: nat,
                                                   id: Id, now: FaultSpec)
    requires MembersFit([m], comps, levels) && id in specs
    requires now.category != "network" || specs[id].category == "network"
    requires NetworkOfOne(m, specs, comps, levels).Ok?
    ensures NetworkOfOne(m, specs[id := now], comps, levels).Ok?
    ensures NoMoreDirections(NetworkOfOne(m, specs[id := now], comps, levels).value,
                             NetworkOfOne(m, specs, comps, levels).value)
    decreases levels, 0
  {
    assert m in [m];
    var specs' := specs[id := now];
    if m.faultSpecId == "" && m.childId != "" {
      var child := comps[m.childId];
      NetworkAfterChange(child.members, specs, comps, levels - 1, id, now);
      NoMoreDirectionsInherit(NetworkMembers(child, specs', comps, levels - 1).value,
                              NetworkMembers(child, specs, comps, levels - 1).value, m.direction);
    } else {
      var after, before := NetworkOfOne(m, specs', comps, levels).value, NetworkOfOne(m, specs, comps, levels).value;
      assert after == [] || (|after| == |before| == 1 && after[0].direction == before[0].direction);
      forall d ensures DirectionCount(after, d) <= DirectionCount(before, d) {
        if after != [] {
          assert after[1..] == [] && before[1..] == [];
        }
      }
    }
  }

  lemma HardBesideChanged(was: FaultSpec, now: FaultSpec, other: FaultSpec)
    requires ValidSpec(was) && ValidSpec(now) && ValidSpec(other) && SafeChange(was, now)
    requires HardPair(TypeName(now), TypeName(other), PairsOf(DefaultConstraints()), PARALLEL)
    ensures HardPair(TypeName(was), TypeName(other), PairsOf(DefaultConstraints()), PARALLEL)
  {
    HardPairsAreNetwork(now, other, PARALLEL);
    assert "network" + ":" == "network:";
    assert TypeName(other) == "network:" + other.faultType;
    assert HardBeside(now, other.faultType);
  }

  lemma HardPairWasHard(a: FaultSpec, b: FaultSpec, a': FaultSpec, b': FaultSpec, was: FaultSpec, now: FaultSpec)
    requires ValidSpec(a) && ValidSpec(b) && ValidSpec(a') && ValidSpec(b') && ValidSpec(was) && ValidSpec(now)
    requires Changes(a, a', was, now) && Changes(b, b', was, now) && SafeChange(was, now)
    requires HardPair(TypeName(a'), TypeName(b'), PairsOf(DefaultConstraints()), PARALLEL)
    ensures HardPair(TypeName(a), TypeName(b), PairsOf(DefaultConstraints()), PARALLEL)
  {
    var rules := PairsOf(DefaultConstraints());
    if a' != a {
      HardBesideChanged(was, now, b');
    }
    assert HardPair(TypeName(a), TypeName(b'), rules, PARALLEL);
    if b' != b {
      HardPairIsSymmetric(TypeName(a), TypeName(b'), rules);
      HardBesideChanged(was, now, a);
      HardPairIsSymmetric(TypeName(b), TypeName(a), rules);
    }
  }

  lemma NoNewHardPair(before: seq<FaultSpec>, after: seq<FaultSpec>, was: FaultSpec, now: FaultSpec, mode: string)
    requires LeavesChange(before, after, was, now) && ValidSpec(was) && ValidSpec(now) && SafeChange(was, now)
    requires mode == PARALLEL || mode == SEQUENTIAL
    requires AnyHardPair(TypeNames(after), PairsOf(DefaultConstraints()), mode)
    ensures AnyHardPair(TypeNames(before), PairsOf(DefaultConstraints()), mode)
  {
    var names, names', rules := TypeNames(before), TypeNames(after), PairsOf(DefaultConstraints());
    var i, j :| 0 <= i < j < |names'| && HardPair(names'[i], names'[j], rules, mode);
    HardPairsAreNetwork(after[i], after[j], mode);
    HardPairWasHard(before[i], before[j], after[i], after[j], was, now);
    assert HardPair(names[i], names[j], rules, mode);
  }

  lemma SafeChangeKeepsVerdict(c: Composition, specs: Specs, comps: Compositions, id: Id, now: FaultSpec)
    requires id in specs && AllValid(specs) && ValidSpec(now) && SafeChange(specs[id], now)
    requires Accepts(c, specs, comps)
    ensures Accepts(c, specs[id := now], comps)
  {
    var specs' := specs[id := now];
    LeavesAfterChange(c.members, specs, comps, MAX_DEPTH, id, now);
    var before, after := LeafSpecs(c, specs, comps, MAX_DEPTH).value, LeafSpecs(c, specs', comps, MAX_DEPTH).value;
    assert LeavesChange(before, after, specs[id], now);
    if AnyHardPair(TypeNames(after), PairsOf(DefaultConstraints()), c.mode) {
      NoNewHardPair(before, after, specs[id], now, c.mode);
    }
    if c.mode == PARALLEL {
      NetworkAfterChange(c.members, specs, comps, MAX_DEPTH, id, now);
      if DirectionClashes(NetworkMembers(c, specs', comps, MAX_DEPTH).value) {
        NoNewClash(NetworkMembers(c, specs', comps, MAX_DEPTH).value, NetworkMembers(c, specs, comps, MAX_DEPTH).value);
      }
    }
  }

  // ----- Unsafe changes break one -----

  lemma TwoLeaves(c: Composition, specs: Specs, comps: Compositions, a: Member, b: Member)
    requires c.members == [a, b] && a.faultSpecId in specs && b.faultSpecId in specs
    requires a.faultSpecId != "" && b.faultSpecId != "" && Fits(c, comps, MAX_DEPTH)
    ensures LeafSpecs(c, specs, comps, MAX_DEPTH) == Ok([specs[a.faultSpecId], specs[b.faultSpecId]])
  {
    assert c.members[1..] == [b] && [b][1..] == [];
    var x, y := specs[a.faultSpecId], specs[b.faultSpecId];
    assert MemberLeaves([b], specs, comps, MAX_DEPTH) == Append([y], MemberLeaves([], specs, comps, MAX_DEPTH));
    assert [y] + [] == [y] && [x] + [y] == [x, y];
    assert OneLeaves(a, specs, comps, MAX_DEPTH) == Ok([x]);
    assert MemberLeaves(c.members, specs, comps, MAX_DEPTH) == Append([x], MemberLeaves([b], specs, comps, MAX_DEPTH));
  }

  function NetworkPart(m: Member, s: FaultSpec): seq<NetworkMember> {
    if s.category == "network" then [NetworkMember(TypeName(s), m.direction)] else []
  }

  lemma TwoNetworkMembers(c: Composition, specs: Specs, comps: Compositions, a: Member, b: Member)
    requires c.members == [a, b] && a.faultSpecId in specs && b.faultSpecId in specs
    requires a.faultSpecId != "" && b.faultSpecId != "" && Fits(c, comps, MAX_DEPTH)
    ensures NetworkMembers(c, specs, comps, MAX_DEPTH)
         == Ok(NetworkPart(a, specs[a.faultSpecId]) + NetworkPart(b, specs[b.faultSpecId]))
  {
    assert c.members[1..] == [b] && [b][1..] == [];
    var x, y := NetworkPart(a, specs[a.faultSpecId]), NetworkPart(b, specs[b.faultSpecId]);
    assert NetworkOf([b], specs, comps, MAX_DEPTH) == Append(y, NetworkOf([], specs, comps, MAX_DEPTH));
    assert y + [] == y;
    assert NetworkOfOne(a, specs, comps, MAX_DEPTH) == Ok(x);
    assert NetworkOf(c.members, specs, comps, MAX_DEPTH) == Append(x, NetworkOf([b], specs, comps, MAX_DEPTH));
  }

  /** The verdict on a parallel composition of two specs. */
  lemma PairVerdict(c: Composition, specs: Specs, comps: Compositions, a: Member, b: Member)
    requires ValidComposition(c) && c.mode == PARALLEL && c.members == [a, b]
    requires a.faultSpecId != "" && b.faultSpecId != "" && a.faultSpecId in specs && b.faultSpecId in specs
    ensures var x, y := specs[a.faultSpecId], specs[b.faultSpecId];
            Accepts(c, specs, comps) <==>
              && !(x.category == "network" && y.category == "network" && a.direction == b.direction)
              && !HardPair(TypeName(x), TypeName(y), PairsOf(DefaultConstraints()), PARALLEL)
  {
    var x, y := specs[a.faultSpecId], specs[b.faultSpecId];
    assert a in c.members && b in c.members && ValidMember(a) && ValidMember(b);
    assert Fits(c, comps, MAX_DEPTH);
    TwoLeaves(c, specs, comps, a, b);
    TwoNetworkMembers(c, specs, comps, a, b);
    var names := TypeNames([x, y]);
    assert AnyHardPair(names, PairsOf(DefaultConstraints()), PARALLEL)
      <==> HardPair(names[0], names[1], PairsOf(DefaultConstraints()), PARALLEL);
    var ms := NetworkPart(a, x) + NetworkPart(b, y);
    if x.category == "network" && y.category == "network" {
      assert ms[0].direction == a.direction && ms[1].direction == b.direction;
      assert DirectionClashes(ms) <==> DirectionKey(ms[0].direction) == DirectionKey(ms[1].direction);
    } else {
      assert |ms| <= 1;
    }
  }

  /** The neighbour that an unsafe change offends, and the directions at which the two stand side by side before it. */
  function Neighbour(id: Id, networkType: string): FaultSpec {
    FaultSpec(id + "2", "neighbour", "network", networkType, "", None, "{}", Timing(0, 0, 0))
  }

  function Store(was: FaultSpec, networkType: string, direction: string, neighbourDirection: string): Db {
    var n := Neighbour(was.id, networkType);
    Db(map[was.id := was, n.id := n],
       map["c" := Composition("c", "c", PARALLEL, Timing(0, 0, 0),
                              [Member(was.id, "", direction), Member(n.id, "", neighbourDirection)])],
       map[])
  }

  lemma StoreIsSound(was: FaultSpec, networkType: string, direction: string, neighbourDirection: string)
    requires ValidSpec(was) && networkType in NETWORK_TYPES
    requires ValidDirection(direction) && ValidDirection(neighbourDirection)
    ensures Inv(Store(was, networkType, direction, neighbourDirection))
    ensures Neighbour(was.id, networkType).id != was.id
  {
    assert |Neighbour(was.id, networkType).id| == |was.id| + 1;
    var db := Store(was, networkType, direction, neighbourDirection);
    assert ValidSpec(Neighbour(was.id, networkType));
    assert CompositionSound(db.comps["c"], db.specs, db.comps);
  }

  ghost predicate Holds(db: Db, spec: FaultSpec) {
    Inv(db) && spec.id in db.specs && db.specs[spec.id] == spec
  }

  /** What the store shows about one change: accepted before, refused after. */
  ghost predicate Breaks(db: Db, was: FaultSpec, now: FaultSpec) {
    && Holds(db, was) && db.comps.Keys == {"c"} && |db.comps["c"].members| == 2
    && Accepts(db.comps["c"], db.specs, db.comps)
    && !Accepts(db.comps["c"], db.specs[now.id := now], db.comps)
  }

  lemma StoreVerdict(was: FaultSpec, spec: FaultSpec, t: string, d: string, n: string)
    requires ValidSpec(was) && spec.id == was.id && t in NETWORK_TYPES && ValidDirection(d) && ValidDirection(n)
    ensures var db := Store(was, t, d, n);
            Accepts(db.comps["c"], db.specs[spec.id := spec], db.comps) <==>
              !(spec.category == "network" && d == n) && !HardBeside(spec, t)
  {
    StoreIsSound(was, t, d, n);
    var db := Store(was, t, d, n);
    var c := db.comps["c"];
    assert "network" + ":" == "network:" && TypeName(Neighbour(was.id, t)) == "network:" + t;
    PairVerdict(c, db.specs[spec.id := spec], db.comps, c.members[0], c.members[1]);
  }

  /** Every unsafe change breaks a store with one composition of two specs. */
  lemma UnsafeChangeBreaks(was: FaultSpec, now: FaultSpec) returns (db: Db)
    requires ValidSpec(was) && ValidSpec(now) && was.id == now.id && !SafeChange(was, now)
    ensures Breaks(db, was, now)
  {
    var t, d, n := "latency", "", "";
    if was.category == "network" {
      t :| t in NETWORK_TYPES && HardBeside(now, t) && !HardBeside(was, t);
      d, n := "upstream", "downstream";
    } else {
      NonNetworkIsNeverHard(was, t);
    }
    db := Store(was, t, d, n);
    StoreIsSound(was, t, d, n);
    StoreVerdict(was, was, t, d, n);
    StoreVerdict(was, now, t, d, n);
    assert db.specs[was.id := was] == db.specs;
  }

  lemma NonNetworkIsNeverHard(s: FaultSpec, t: string)
    requires ValidSpec(s) && t in NETWORK_TYPES
    ensures HardBeside(s, t) ==> s.category == "network"
  {
    var n := Neighbour(s.id, t);
    assert "network" + ":" == "network:" && TypeName(n) == "network:" + t;
    if HardBeside(s, t) {
      HardPairsAreNetwork(s, n, PARALLEL);
    }
  }

  // ----- Exactly -----

  /** Every stored composition the validator accepts before the update is still accepted after it. */
  ghost predicate VerdictsSurvive(db: Db, now: FaultSpec) {
    var db' := Apply(db, UpdateSpec(now)).0;
    forall id :: id in db.comps && Accepts(db.comps[id], db.specs, db.comps) ==>
        Accepts(db'.comps[id], db'.specs, db'.comps)
  }

  lemma SameTypeSameVerdict(c: Composition, specs: Specs, comps: Compositions, now: FaultSpec)
    requires now.id in specs
    ensures Accepts(c, specs[now.id := AsStored(now)], comps) <==> Accepts(c, specs[now.id := now], comps)
  {
    VerdictDependsOnTypes(c, specs[now.id := AsStored(now)], specs[now.id := now], comps);
  }

  /**
   Updates are not checked against the compositions that use the spec. An update keeps the verdict on
   every accepted composition of every store exactly when the change of category and fault type is safe.
  */
  lemma SpecUpdateIsSafeIff(was: FaultSpec, now: FaultSpec)
    requires ValidSpec(was) && ValidSpec(now) && was.id == now.id
    ensures (forall db :: Holds(db, was) ==> VerdictsSurvive(db, now)) <==> SafeChange(was, now)
  {
    if SafeChange(was, now) {
      forall db | Holds(db, was) ensures VerdictsSurvive(db, now) {
        forall id | id in db.comps && Accepts(db.comps[id], db.specs, db.comps)
          ensures Accepts(db.comps[id], db.specs[now.id := AsStored(now)], db.comps)
        {
          SafeChangeKeepsVerdict(db.comps[id], db.specs, db.comps, was.id, now);
          SameTypeSameVerdict(db.comps[id], db.specs, db.comps, now);
        }
      }
    } else {
      var db := UnsafeChangeBreaks(was, now);
      SameTypeSameVerdict(db.comps["c"], db.specs, db.comps, now);
      assert !VerdictsSurvive(db, now);
    }
  }

  /** In particular, turning one of two specs of any accepted parallel pair of network faults into a blackhole. */
  lemma SpecUpdateBypassesValidation(db: Db, id: Id, a: Member, b: Member, blackhole: FaultSpec)
    requires Inv(db) && id in db.comps && Accepts(db.comps[id], db.specs, db.comps)
    requires db.comps[id].mode == PARALLEL && db.comps[id].members == [a, b]
    requires a.faultSpecId != b.faultSpecId && b.faultSpecId in db.specs
        && db.specs[b.faultSpecId].category == "network"
    requires a.faultSpecId != "" && b.faultSpecId != ""
    requires ValidSpec(blackhole) && blackhole.id == a.faultSpecId
    requires blackhole.category == "network" && blackhole.faultType == "blackhole"
    ensures var (db', err) := Apply(db, UpdateSpec(blackhole));
            err.None? && db'.comps == db.comps && !Accepts(db'.comps[id], db'.specs, db'.comps)
  {
    var c, specs' := db.comps[id], db.specs[blackhole.id := AsStored(blackhole)];
    assert a in c.members && b in c.members;
    AcceptedIsSound(c, db.specs, db.comps);
    BlackholeClashes(AsStored(blackhole), db.specs[b.faultSpecId]);
    PairVerdict(c, specs', db.comps, a, b);
  }

  /** A concrete case without a blackhole: an inline error becomes a reset beside a network fault. */
  lemma ErrorToResetBreaks() returns (db: Db, now: FaultSpec)
    ensures now.category == "network" && now.faultType == "rst" && Inv(db) && Apply(db, UpdateSpec(now)).1.None?
    ensures "s" in db.specs && db.specs["s"].category == "inline" && !VerdictsSurvive(db, now)
  {
    var was := FaultSpec("s", "s", "inline", "error", "", None, "{}", Timing(0, 0, 0));
    now := was.(category := "network", faultType := "rst");
    db := UnsafeChangeBreaks(was, now);
    SameTypeSameVerdict(db.comps["c"], db.specs, db.comps, now);
  }

  /** A spec update that keeps category and fault type keeps the verdict on every composition. */
  lemma SameTypeUpdateKeepsVerdicts(db: Db, spec: FaultSpec, c: Composition)
    requires ValidSpec(spec) && spec.id in db.specs
    requires spec.category == db.specs[spec.id].category && spec.faultType == db.specs[spec.id].faultType
    ensures Apply(db, UpdateSpec(spec)).1.None?
    ensures Accepts(c, Apply(db, UpdateSpec(spec)).0.specs, db.comps) <==> Accepts(c, db.specs, db.comps)
  {
    VerdictDependsOnTypes(c, db.specs, db.specs[spec.id := AsStored(spec)], db.comps);
  }
}
