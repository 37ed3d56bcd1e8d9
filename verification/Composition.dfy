/** Fault specs and compositions (internal/model/fault.go). The empty string stands for an unset reference. */
module Faults {
  import opened Wrappers

  type Id = string

  datatype Envelope = Envelope(target: string, direction: string, scope: real)

  datatype Timing = Timing(durationMs: int, rampUpMs: int, rampDownMs: int)

  datatype FaultSpec = FaultSpec(
    id: Id,
    name: string,
    category: string,
    faultType: string,
    host: string,
    network: Option<Envelope>,
    params: string,
    timing: Timing)

  datatype Member = Member(faultSpecId: Id, childId: Id, direction: string)

  datatype Composition = Composition(id: Id, name: string, mode: string, timing: Timing, members: seq<Member>)

  type Specs = map<Id, FaultSpec>
  type Compositions = map<Id, Composition>

  const PARALLEL := "parallel"
  const SEQUENTIAL := "sequential"

  datatype FaultError =
    | Malformed
    | TooDeep(id: Id)
    | SpecNotFound(id: Id)
    | CompositionNotFound(id: Id)
    | DirectionClash(direction: string)
    | HardIncompatibility(first: string, second: string)

  predicate ValidDirection(d: string) {
    d == "upstream" || d == "downstream" || d == ""
  }

  predicate ValidMember(m: Member) {
    && (m.faultSpecId == "") != (m.childId == "")
    && ValidDirection(m.direction)
  }

  predicate ValidComposition(c: Composition) {
    && c.id != "" && c.name != ""
    && (c.mode == PARALLEL || c.mode == SEQUENTIAL)
    && |c.members| >= 2
    && forall m :: m in c.members ==> ValidMember(m)
  }

  const NETWORK_TYPES := ["blackhole", "drip", "latency", "retransmit_delay", "rst", "throttle"]

  predicate KnownType(category: string, faultType: string) {
    match category
    case "inline" => faultType in ["error", "hang", "latency"]
    case "network" => faultType in NETWORK_TYPES
    case "resource" => faultType in ["cpu", "disk", "io", "memory"]
    case _ => false
  }

  predicate ValidHost(host: string, category: string) {
    match host
    case "" => true
    case "proxy" => category == "network"
    case "inline" => category == "network"
    case "process" => category != "network"
    case _ => false
  }

  predicate ValidSpec(s: FaultSpec) {
    && s.id != "" && s.name != ""
    && KnownType(s.category, s.faultType)
    && (s.category == "inline" && s.faultType == "hang" ==> s.timing.durationMs > 0)
    && s.params != "" && s.params != "null"
    && ValidHost(s.host, s.category)
    && (s.network.Some? ==>
          && s.category == "network"
          && ValidDirection(s.network.value.direction)
          && 0.0 <= s.network.value.scope <= 1.0)
  }

  /** "category:fault_type", the form in which incompatibility rules name a fault. */
  function TypeName(spec: FaultSpec): string {
    spec.category + ":" + spec.faultType
  }
}

/** The depth check and the two tree walks of the composition validator (internal/model/composition_validate.go). */
module CompositionTree {
  import opened Wrappers
  import opened Faults

  // ----- Depth -----

  /** The depth check: current counts from 1, and every child reference of every member is followed. */
  function WalkDepth(c: Composition, comps: Compositions, current: nat, max: nat): Option<FaultError>
    decreases if current > max then 0 else max + 1 - current, |c.members| + 1
  {
    if current > max then Some(TooDeep(c.id))
    else WalkMembers(c.members, comps, current, max)
  }

  function WalkMembers(members: seq<Member>, comps: Compositions, current: nat, max: nat): Option<FaultError>
    requires current <= max
    decreases max + 1 - current, |members|
  {
    if members == [] then None
    else
      var first := if members[0].childId == "" then None
                   else if members[0].childId !in comps then Some(CompositionNotFound(members[0].childId))
                   else WalkDepth(comps[members[0].childId], comps, current + 1, max);
      if first.Some? then first else WalkMembers(members[1..], comps, current, max)
  }

  /** The tree below c has at most the given number of levels, and no child reference dangles. */
  predicate Fits(c: Composition, comps: Compositions, levels: nat)
    decreases levels
  {
    && levels > 0
    && forall m :: m in c.members && m.childId != "" ==> m.childId in comps && Fits(comps[m.childId], comps, levels - 1)
  }

  lemma {:induction false} WalkMembersChecksEach(members: seq<Member>, comps: Compositions, current: nat, max: nat)
    requires current <= max
    ensures WalkMembers(members, comps, current, max).None? <==>
              forall m :: m in members && m.childId != "" ==>
                  m.childId in comps && Fits(comps[m.childId], comps, max - current)
    decreases max + 1 - current, |members|
  {
    if members != [] {
      assert members == [members[0]] + members[1..];
      WalkMembersChecksEach(members[1..], comps, current, max);
      var child := members[0].childId;
      if child != "" && child in comps {
        DepthCheckIsExact(comps[child], comps, current + 1, max);
      }
    }
  }

  /** The counter-passing check accepts exactly the trees that fit in the levels left. */
  lemma {:induction false} DepthCheckIsExact(c: Composition, comps: Compositions, current: nat, max: nat)
    requires current <= max + 1
    ensures WalkDepth(c, comps, current, max).None? <==> Fits(c, comps, max + 1 - current)
    decreases if current > max then 0 else max + 1 - current, |c.members| + 1
  {
    if current <= max {
      WalkMembersChecksEach(c.members, comps, current, max);
    }
  }

  /** A path of child references through the stored compositions, starting at c. */
  ghost predicate ChildPath(c: Composition, comps: Compositions, p: seq<Id>)
    decreases |p|
  {
    p == [] || (p[0] != "" && p[0] in comps && (exists m :: m in c.members && m.childId == p[0])
                && ChildPath(comps[p[0]], comps, p[1..]))
  }

  /**
   A tree that fits has no path longer than its levels allow, so it contains no cycle, whatever the other stored
   compositions are.
  */
  lemma {:induction false} FittingPathsAreShort(c: Composition, comps: Compositions, levels: nat, p: seq<Id>)
    requires Fits(c, comps, levels) && ChildPath(c, comps, p)
    ensures |p| < levels
    decreases levels
  {
    if p != [] {
      FittingPathsAreShort(comps[p[0]], comps, levels - 1, p[1..]);
    }
  }

  // ----- Leaves -----

  /**
   The leaf specs of a composition, in order. The walk has no depth guard of its own: a tree that
   fits in some number of levels, which is what a passed depth check says, is what makes it end.
  */
  function LeafSpecs(c: Composition, specs: Specs, comps: Compositions, ghost levels: nat)
    : Result<seq<FaultSpec>, FaultError>
    requires Fits(c, comps, levels)
    decreases levels, |c.members| + 1
  {
    MemberLeaves(c.members, specs, comps, levels)
  }

  ghost predicate MembersFit(members: seq<Member>, comps: Compositions, levels: nat) {
    levels > 0
    && forall m :: m in members && m.childId != "" ==> m.childId in comps && Fits(comps[m.childId], comps, levels - 1)
  }

  function MemberLeaves(members: seq<Member>, specs: Specs, comps: Compositions, ghost levels: nat)
    : Result<seq<FaultSpec>, FaultError>
    requires MembersFit(members, comps, levels)
    decreases levels, |members|
  {
    if members == [] then Ok([])
    else
      var first := OneLeaves(members[0], specs, comps, levels);
      if first.Err? then first
      else Append(first.value, MemberLeaves(members[1..], specs, comps, levels))
  }

  function OneLeaves(m: Member, specs: Specs, comps: Compositions, ghost levels: nat)
    : Result<seq<FaultSpec>, FaultError>
    requires MembersFit([m], comps, levels)
    decreases levels, 0
  {
    assert m in [m];
    if m.faultSpecId != "" then
      if m.faultSpecId in specs then Ok([specs[m.faultSpecId]]) else Err(SpecNotFound(m.faultSpecId))
    else if m.childId != "" then LeafSpecs(comps[m.childId], specs, comps, levels - 1)
    else Ok([])
  }

  function Append<T>(front: seq<T>, rest: Result<seq<T>, FaultError>): Result<seq<T>, FaultError> {
    if rest.Err? then rest else Ok(front + rest.value)
  }

  function TypeNames(specs: seq<FaultSpec>): (names: seq<string>)
    ensures |names| == |specs|
    ensures forall i :: 0 <= i < |specs| ==> names[i] == TypeName(specs[i])
  {
    if specs == [] then [] else [TypeName(specs[0])] + TypeNames(specs[1..])
  }

  function NamesOf(leaves: Result<seq<FaultSpec>, FaultError>): Result<seq<string>, FaultError> {
    if leaves.Err? then Err(leaves.error) else Ok(TypeNames(leaves.value))
  }

  lemma TypeNamesOfConcat(a: seq<FaultSpec>, b: seq<FaultSpec>)
    ensures TypeNames(a + b) == TypeNames(a) + TypeNames(b)
  {
    forall i | 0 <= i < |a + b| ensures TypeNames(a + b)[i] == (TypeNames(a) + TypeNames(b))[i] {
    }
  }

  /**
   Collects the type names of the leaves by appending member by member; what it returns is the leaf sequence of
   the tree.
  */
  method CollectLeaves(c: Composition, specs: Specs, comps: Compositions, ghost levels: nat)
    returns (r: Result<seq<string>, FaultError>)
    requires Fits(c, comps, levels)
    ensures r == NamesOf(LeafSpecs(c, specs, comps, levels))
    decreases levels
  {
    var result: seq<string> := [];
    ghost var front: seq<FaultSpec> := [];
    assert c.members[0..] == c.members;
    AppendNothing(MemberLeaves(c.members, specs, comps, levels));
    for i := 0 to |c.members|
      invariant result == TypeNames(front)
      invariant LeafSpecs(c, specs, comps, levels) == Append(front, MemberLeaves(c.members[i..], specs, comps, levels))
    {
      var m := c.members[i];
      assert c.members[i..][0] == m && c.members[i..][1..] == c.members[i + 1..];
      ghost var rest := MemberLeaves(c.members[i + 1..], specs, comps, levels);
      if m.faultSpecId != "" {
        if m.faultSpecId !in specs {
          return Err(SpecNotFound(m.faultSpecId));
        }
        var spec := specs[m.faultSpecId];
        TypeNamesOfConcat(front, [spec]);
        result := result + [TypeName(spec)];
        AppendTwice(front, [spec], rest);
        front := front + [spec];
      } else if m.childId != "" {
        var leaves := CollectLeaves(comps[m.childId], specs, comps, levels - 1);
        if leaves.Err? {
          return leaves;
        }
        ghost var below := LeafSpecs(comps[m.childId], specs, comps, levels - 1).value;
        TypeNamesOfConcat(front, below);
        result := result + leaves.value;
        AppendTwice(front, below, rest);
        front := front + below;
      } else {
        AppendTwice(front, [], rest);
        assert front + [] == front;
      }
    }
    assert c.members[|c.members|..] == [];
    assert front + [] == front;
    return Ok(result);
  }

  lemma AppendNothing<T>(rest: Result<seq<T>, FaultError>)
    ensures Append([], rest) == rest
  {
    if rest.Ok? {
      assert [] + rest.value == rest.value;
    }
  }

  lemma AppendTwice<T>(a: seq<T>, b: seq<T>, rest: Result<seq<T>, FaultError>)
    ensures Append(a, Append(b, rest)) == Append(a + b, rest)
  {
    if rest.Ok? {
      assert a + (b + rest.value) == a + b + rest.value;
    }
  }

  // ----- Network members and their directions -----

  datatype NetworkMember = NetworkMember(faultType: string, direction: string)

  /** Members that have no direction of their own take the given one. */
  function Inherit(ms: seq<NetworkMember>, direction: string): (r: seq<NetworkMember>)
    ensures |r| == |ms|
    ensures forall i :: 0 <= i < |ms| ==>
              r[i] == if ms[i].direction == "" && direction != "" then ms[i].(direction := direction) else ms[i]
  {
    seq(|ms|, i requires 0 <= i < |ms| =>
      if ms[i].direction == "" && direction != "" then ms[i].(direction := direction) else ms[i])
  }

  /** The network leaves of a composition with the directions they get on the way up. */
  function NetworkMembers(c: Composition, specs: Specs, comps: Compositions, ghost levels: nat)
    : Result<seq<NetworkMember>, FaultError>
    requires Fits(c, comps, levels)
    decreases levels, |c.members| + 1
  {
    NetworkOf(c.members, specs, comps, levels)
  }

  function NetworkOf(members: seq<Member>, specs: Specs, comps: Compositions, ghost levels: nat)
    : Result<seq<NetworkMember>, FaultError>
    requires MembersFit(members, comps, levels)
    decreases levels, |members|
  {
    if members == [] then Ok([])
    else
      var first := NetworkOfOne(members[0], specs, comps, levels);
      if first.Err? then first
      else Append(first.value, NetworkOf(members[1..], specs, comps, levels))
  }

  function NetworkOfOne(m: Member, specs: Specs, comps: Compositions, ghost levels: nat)
    : Result<seq<NetworkMember>, FaultError>
    requires MembersFit([m], comps, levels)
    decreases levels, 0
  {
    assert m in [m];
    if m.faultSpecId != "" then
      if m.faultSpecId !in specs then Err(SpecNotFound(m.faultSpecId))
      else if specs[m.faultSpecId].category == "network" then
        Ok([NetworkMember(TypeName(specs[m.faultSpecId]), m.direction)])
      else Ok([])
    else if m.childId != "" then
      var below := NetworkMembers(comps[m.childId], specs, comps, levels - 1);
      if below.Err? then below else Ok(Inherit(below.value, m.direction))
    else Ok([])
  }

  method CollectNetworkMembers(c: Composition, specs: Specs, comps: Compositions, ghost levels: nat)
    returns (r: Result<seq<NetworkMember>, FaultError>)
    requires Fits(c, comps, levels)
    ensures r == NetworkMembers(c, specs, comps, levels)
    decreases levels
  {
    var result: seq<NetworkMember> := [];
    assert c.members[0..] == c.members;
    AppendNothing(NetworkOf(c.members, specs, comps, levels));
    for i := 0 to |c.members|
      invariant NetworkMembers(c, specs, comps, levels) ==
          Append(result, NetworkOf(c.members[i..], specs, comps, levels))
    {
      var m := c.members[i];
      assert c.members[i..][0] == m && c.members[i..][1..] == c.members[i + 1..];
      ghost var rest := NetworkOf(c.members[i + 1..], specs, comps, levels);
      if m.faultSpecId != "" {
        if m.faultSpecId !in specs {
          return Err(SpecNotFound(m.faultSpecId));
        }
        var spec := specs[m.faultSpecId];
        if spec.category == "network" {
          AppendTwice(result, [NetworkMember(TypeName(spec), m.direction)], rest);
          result := result + [NetworkMember(TypeName(spec), m.direction)];
        } else {
          AppendTwice(result, [], rest);
          assert result + [] == result;
        }
      } else if m.childId != "" {
        var below := CollectNetworkMembers(comps[m.childId], specs, comps, levels - 1);
        if below.Err? {
          return below;
        }
        ghost var before := result;
        ghost var inherited := Inherit(below.value, m.direction);
        for j := 0 to |below.value|
          invariant result == before + inherited[..j]
        {
          var cm := below.value[j];
          if cm.direction == "" && m.direction != "" {
            cm := cm.(direction := m.direction);
          }
          result := result + [cm];
          assert inherited[..j + 1] == inherited[..j] + [cm];
        }
        assert inherited[..|below.value|] == inherited;
        AppendTwice(before, inherited, rest);
      } else {
        AppendTwice(result, [], rest);
        assert result + [] == result;
      }
    }
    assert c.members[|c.members|..] == [];
    assert result + [] == result;
    return Ok(result);
  }
}
