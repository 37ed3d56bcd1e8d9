/** Rules (internal/model/rule.go). */
module Rules {
  import opened Wrappers
  import opened Faults

  datatype CacheBox = CacheBox(mode: string, keyStrategy: string)

  datatype Action = Action(kind: string, faultSpecId: Id, faultCompId: Id, cacheBox: Option<CacheBox>)

  datatype Rule = Rule(
    id: Id,
    name: string,
    service: string,
    enabled: bool,
    priority: int,
    injectionPoint: string,
    action: Action,
    mode: string,
    startPolicy: string)

  predicate ValidCacheBox(c: CacheBox) {
    && c.mode in ["passthrough", "replay", "replay_with_delay"]
    && c.keyStrategy in ["exact", "exact_with_host", "exact_with_body"]
  }

  predicate ValidAction(a: Action) {
    match a.kind
    case "fault_spec" => a.faultSpecId != "" && a.faultCompId == "" && a.cacheBox.None?
    case "fault_composition" => a.faultCompId != "" && a.faultSpecId == "" && a.cacheBox.None?
    case "cachebox" => a.cacheBox.Some? && a.faultSpecId == "" && a.faultCompId == "" && ValidCacheBox(a.cacheBox.value)
    case _ => false
  }

  /** Rule.Validate: it fills in defaults before it checks them. */
  function ValidateRule(r: Rule): Option<Rule> {
    if r.id == "" || r.name == "" || r.service == "" || !ValidAction(r.action) then None
    else
      var r1 := if r.action.kind == "cachebox" && r.mode == "" then r.(mode := "inline") else r;
      if r1.mode != "inline" && r1.mode != "background" then None
      else
        var r2 := if r1.startPolicy == "" then r1.(startPolicy := "deduplicate_by_rule") else r1;
        if r2.startPolicy in ["deduplicate_by_rule", "always_start"] then Some(r2) else None
  }

  /** Only a cachebox rule may leave its mode out; any rule may leave its start policy out. */
  lemma RuleAcceptedIff(r: Rule)
    ensures ValidateRule(r).Some? <==>
              && r.id != "" && r.name != "" && r.service != "" && ValidAction(r.action)
              && (r.mode in ["inline", "background"] || (r.mode == "" && r.action.kind == "cachebox"))
              && r.startPolicy in ["", "deduplicate_by_rule", "always_start"]
  {
  }

  /** The stored row is the rule as given, with its mode and start policy filled in where they were left out. */
  predicate RuleStored(given: Rule, stored: Rule) {
    && stored == given.(mode := stored.mode, startPolicy := stored.startPolicy)
    && (given.mode != "" ==> stored.mode == given.mode) && (given.mode == "" ==> stored.mode == "inline")
    && (given.startPolicy != "" ==> stored.startPolicy == given.startPolicy)
    && (given.startPolicy == "" ==> stored.startPolicy == "deduplicate_by_rule")
  }

  /** Validation only fills in mode and start policy, and what it returns passes again unchanged. */
  lemma ValidatedRulesAreComplete(r: Rule)
    requires ValidateRule(r).Some?
    ensures var v := ValidateRule(r).value;
            && ValidateRule(v) == Some(v)
            && v == r.(mode := v.mode, startPolicy := v.startPolicy)
            && (r.mode != "" ==> v.mode == r.mode) && (r.startPolicy != "" ==> v.startPolicy == r.startPolicy)
            && v.mode in ["inline", "background"] && v.startPolicy in ["deduplicate_by_rule", "always_start"]
            && (r.mode == "" ==> r.action.kind == "cachebox")
  {
  }
}

/** Rules compiled to their wire form, with specs and composition trees inlined (internal/ruleconv/ruleconv.go). */
module RuleConv {
  import opened Wrappers
  import opened Faults
  import opened CompositionTree
  import opened Rules

  datatype CompiledFault = CompiledFault(category: string, faultType: string, timing: Timing, params: string,
                                         network: Option<CompiledEnvelope>)

  datatype CompiledEnvelope = CompiledEnvelope(host: string, envelope: Envelope)

  datatype CompiledMember = CompiledMember(direction: string, body: CompiledBody)

  datatype CompiledBody = NoBody | Fault(fault: CompiledFault) | Group(composition: CompiledComposition)

  datatype CompiledComposition = CompiledComposition(name: string, mode: string, timing: Timing,
                                                     members: seq<CompiledMember>)

  datatype Payload =
    | NoPayload
    | FaultPayload(fault: CompiledFault)
    | CompositionPayload(composition: CompiledComposition)
    | CacheBoxPayload(cacheBox: CacheBox)

  datatype CompiledRule = CompiledRule(name: string, injectionPoint: string, mode: string, priority: int,
                                       startPolicy: string, payload: Payload)

  const MAX_COMPOSITION_DEPTH := 3

  function CompileSpec(spec: FaultSpec): CompiledFault {
    CompiledFault(spec.category, spec.faultType, spec.timing, spec.params,
      if spec.category == "network" then
        Some(CompiledEnvelope(if spec.host == "" then "proxy" else spec.host,
                              if spec.network.Some? then spec.network.value else Envelope("", "", 0.0)))
      else None)
  }

  function ResolveSpec(id: Id, specs: Specs): Result<CompiledFault, FaultError> {
    if id in specs then Ok(CompileSpec(specs[id])) else Err(SpecNotFound(id))
  }

  /** The compiler's own recursion: depth counts from 0 and is checked before the lookup. */
  function Resolve(id: Id, specs: Specs, comps: Compositions, depth: nat): Result<CompiledComposition, FaultError>
    decreases if depth >= MAX_COMPOSITION_DEPTH then 0 else MAX_COMPOSITION_DEPTH - depth, 0, 0
  {
    if depth >= MAX_COMPOSITION_DEPTH then Err(TooDeep(id))
    else if id !in comps then Err(CompositionNotFound(id))
    else
      var c := comps[id];
      var members := ResolveMembers(c.members, specs, comps, depth);
      if members.Err? then Err(members.error)
      else Ok(CompiledComposition(c.name, c.mode, c.timing, members.value))
  }

  function ResolveMembers(members: seq<Member>, specs: Specs, comps: Compositions, depth: nat)
    : (r: Result<seq<CompiledMember>, FaultError>)
    requires depth < MAX_COMPOSITION_DEPTH
    ensures r.Ok? ==> |r.value| == |members|
    decreases MAX_COMPOSITION_DEPTH - depth - 1, 1, |members|
  {
    if members == [] then Ok([])
    else
      var first := ResolveMember(members[0], specs, comps, depth);
      if first.Err? then Err(first.error)
      else Append([first.value], ResolveMembers(members[1..], specs, comps, depth))
  }

  function ResolveMember(m: Member, specs: Specs, comps: Compositions, depth: nat): Result<CompiledMember, FaultError>
    requires depth < MAX_COMPOSITION_DEPTH
    decreases MAX_COMPOSITION_DEPTH - depth - 1, 1, 0
  {
    if m.faultSpecId != "" then
      var f := ResolveSpec(m.faultSpecId, specs);
      if f.Err? then Err(f.error) else Ok(CompiledMember(m.direction, Fault(f.value)))
    else if m.childId != "" then
      var child := Resolve(m.childId, specs, comps, depth + 1);
      if child.Err? then Err(child.error) else Ok(CompiledMember(m.direction, Group(child.value)))
    else Ok(CompiledMember(m.direction, NoBody))
  }

  // ----- What a compiled tree and a compiled rule say about the rows they come from -----

  /** Every field of the compiled fault is the spec's; a network fault without a host runs in the proxy. */
  predicate FaultMirrors(f: CompiledFault, s: FaultSpec) {
    && f.category == s.category && f.faultType == s.faultType && f.timing == s.timing && f.params == s.params
    && (f.network.Some? <==> s.category == "network")
    && (f.network.Some? ==>
          && f.network.value.host == (if s.host == "" then "proxy" else s.host)
          && (s.network.Some? ==> f.network.value.envelope == s.network.value)
          && (s.network.None? ==> f.network.value.envelope == Envelope("", "", 0.0)))
  }

  /** At every level the compiled node has the name, mode, timing and member directions of its stored row. */
  ghost predicate Mirrors(cc: CompiledComposition, id: Id, specs: Specs, comps: Compositions)
    decreases cc
  {
    && id in comps
    && cc.name == comps[id].name && cc.mode == comps[id].mode && cc.timing == comps[id].timing
    && |cc.members| == |comps[id].members|
    && forall i :: 0 <= i < |cc.members| ==> MemberMirrors(cc.members[i], comps[id].members[i], specs, comps)
  }

  ghost predicate MemberMirrors(cm: CompiledMember, m: Member, specs: Specs, comps: Compositions)
    decreases cm
  {
    && cm.direction == m.direction
    && if m.faultSpecId != "" then
         cm.body.Fault? && m.faultSpecId in specs && FaultMirrors(cm.body.fault, specs[m.faultSpecId])
       else if m.childId != "" then
         cm.body.Group? && Mirrors(cm.body.composition, m.childId, specs, comps)
       else cm.body.NoBody?
  }

  lemma {:induction false} CompilationMirrors(id: Id, specs: Specs, comps: Compositions, depth: nat)
    requires Resolve(id, specs, comps, depth).Ok?
    ensures Mirrors(Resolve(id, specs, comps, depth).value, id, specs, comps)
    decreases if depth >= MAX_COMPOSITION_DEPTH then 0 else MAX_COMPOSITION_DEPTH - depth, 0
  {
    MembersMirror(comps[id].members, specs, comps, depth);
  }

  lemma {:induction false} MembersMirror(members: seq<Member>, specs: Specs, comps: Compositions, depth: nat)
    requires depth < MAX_COMPOSITION_DEPTH && ResolveMembers(members, specs, comps, depth).Ok?
    ensures var compiled := ResolveMembers(members, specs, comps, depth).value;
            |compiled| == |members|
            && forall i :: 0 <= i < |members| ==> MemberMirrors(compiled[i], members[i], specs, comps)
    decreases MAX_COMPOSITION_DEPTH - depth - 1, 1, |members|
  {
    if members != [] {
      var compiled := ResolveMembers(members, specs, comps, depth).value;
      MemberMirrored(members[0], specs, comps, depth);
      MembersMirror(members[1..], specs, comps, depth);
      assert compiled[1..] == ResolveMembers(members[1..], specs, comps, depth).value;
      forall i | 0 <= i < |members| ensures MemberMirrors(compiled[i], members[i], specs, comps) {
        if i > 0 {
          assert compiled[i] == compiled[1..][i - 1] && members[i] == members[1..][i - 1];
        }
      }
    }
  }

  lemma {:induction false} MemberMirrored(m: Member, specs: Specs, comps: Compositions, depth: nat)
    requires depth < MAX_COMPOSITION_DEPTH && ResolveMember(m, specs, comps, depth).Ok?
    ensures MemberMirrors(ResolveMember(m, specs, comps, depth).value, m, specs, comps)
    decreases MAX_COMPOSITION_DEPTH - depth - 1, 1, 0
  {
    if m.faultSpecId == "" && m.childId != "" {
      CompilationMirrors(m.childId, specs, comps, depth + 1);
    }
  }

  /** A compiled rule has the fields of its rule and the one payload its action asks for. */
  ghost predicate RuleMirrors(cr: CompiledRule, r: Rule, specs: Specs, comps: Compositions) {
    && cr.name == r.name && cr.injectionPoint == r.injectionPoint && cr.mode == r.mode
    && cr.priority == r.priority && cr.startPolicy == r.startPolicy
    && match r.action.kind
       case "fault_spec" =>
         cr.payload.FaultPayload? && r.action.faultSpecId in specs
         && FaultMirrors(cr.payload.fault, specs[r.action.faultSpecId])
       case "fault_composition" =>
         cr.payload.CompositionPayload? && Mirrors(cr.payload.composition, r.action.faultCompId, specs, comps)
       case "cachebox" => cr.payload.CacheBoxPayload? && r.action.cacheBox == Some(cr.payload.cacheBox)
       case _ => cr.payload.NoPayload?
  }

  lemma CompiledRuleMirrors(r: Rule, specs: Specs, comps: Compositions)
    requires CompileRule(r, specs, comps).Ok?
    ensures RuleMirrors(CompileRule(r, specs, comps).value, r, specs, comps)
  {
    if r.action.kind == "fault_composition" {
      CompilationMirrors(r.action.faultCompId, specs, comps, 0);
    }
  }

  /** Fills the member slots of the compiled tree one by one. */
  method ResolveComposition(id: Id, specs: Specs, comps: Compositions, depth: nat)
    returns (r: Result<CompiledComposition, FaultError>)
    ensures r == Resolve(id, specs, comps, depth)
    ensures r.Ok? ==> Mirrors(r.value, id, specs, comps)
    decreases if depth >= MAX_COMPOSITION_DEPTH then 0 else MAX_COMPOSITION_DEPTH - depth
  {
    if depth >= MAX_COMPOSITION_DEPTH {
      return Err(TooDeep(id));
    }
    if id !in comps {
      return Err(CompositionNotFound(id));
    }
    var comp := comps[id];
    var members: seq<CompiledMember> := seq(|comp.members|, _ => CompiledMember("", NoBody));
    assert comp.members[0..] == comp.members && members[..0] == [];
    AppendNothing(ResolveMembers(comp.members, specs, comps, depth));
    for i := 0 to |comp.members|
      invariant |members| == |comp.members|
      invariant ResolveMembers(comp.members, specs, comps, depth)
             == Append(members[..i], ResolveMembers(comp.members[i..], specs, comps, depth))
    {
      var m := comp.members[i];
      assert comp.members[i..][0] == m && comp.members[i..][1..] == comp.members[i + 1..];
      var member := CompiledMember(m.direction, NoBody);
      if m.faultSpecId != "" {
        var f := ResolveSpec(m.faultSpecId, specs);
        if f.Err? {
          return Err(f.error);
        }
        member := member.(body := Fault(f.value));
      } else if m.childId != "" {
        var child := ResolveComposition(m.childId, specs, comps, depth + 1);
        if child.Err? {
          return Err(child.error);
        }
        member := member.(body := Group(child.value));
      }
      assert ResolveMember(m, specs, comps, depth) == Ok(member);
      AppendTwice(members[..i], [member], ResolveMembers(comp.members[i + 1..], specs, comps, depth));
      assert members[i := member][..i + 1] == members[..i] + [member];
      members := members[i := member];
    }
    assert comp.members[|comp.members|..] == [];
    assert members[..|comp.members|] + [] == members;
    CompilationMirrors(id, specs, comps, depth);
    return Ok(CompiledComposition(comp.name, comp.mode, comp.timing, members));
  }

  function CompileRule(r: Rule, specs: Specs, comps: Compositions): Result<CompiledRule, FaultError> {
    var cr := CompiledRule(r.name, r.injectionPoint, r.mode, r.priority, r.startPolicy, NoPayload);
    match r.action.kind
    case "fault_spec" =>
      var f := ResolveSpec(r.action.faultSpecId, specs);
      if f.Err? then Err(f.error) else Ok(cr.(payload := FaultPayload(f.value)))
    case "fault_composition" =>
      var c := Resolve(r.action.faultCompId, specs, comps, 0);
      if c.Err? then Err(c.error) else Ok(cr.(payload := CompositionPayload(c.value)))
    case "cachebox" =>
      if r.action.cacheBox.None? then Err(Malformed) else Ok(cr.(payload := CacheBoxPayload(r.action.cacheBox.value)))
    case _ => Ok(cr)
  }

  method CompileRules(rules: seq<Rule>, specs: Specs, comps: Compositions)
    returns (r: Result<seq<CompiledRule>, FaultError>)
    ensures r.Ok? <==> forall i :: 0 <= i < |rules| ==> CompileRule(rules[i], specs, comps).Ok?
    ensures r.Ok? ==> |r.value| == |rules|
                      && forall i :: 0 <= i < |rules| ==> CompileRule(rules[i], specs, comps) == Ok(r.value[i])
    ensures r.Ok? ==> forall i :: 0 <= i < |rules| ==> RuleMirrors(r.value[i], rules[i], specs, comps)
  {
    var out: seq<CompiledRule> := [];
    for i := 0 to |rules|
      invariant |out| == i
      invariant forall j :: 0 <= j < i ==> CompileRule(rules[j], specs, comps) == Ok(out[j])
    {
      var compiled := CompileRule(rules[i], specs, comps);
      if compiled.Err? {
        return Err(compiled.error);
      }
      out := out + [compiled.value];
    }
    forall i | 0 <= i < |rules| ensures RuleMirrors(out[i], rules[i], specs, comps) {
      CompiledRuleMirrors(rules[i], specs, comps);
    }
    return Ok(out);
  }

  // ----- Validator and compiler agree -----

  /**
   When the tree fits in the levels the compiler has left, the compiler succeeds exactly when the
   validator's leaf walk does.
  */
  lemma {:induction false} ResolvesIffLeavesResolve(id: Id, specs: Specs, comps: Compositions, depth: nat)
    requires depth < MAX_COMPOSITION_DEPTH && id in comps
    requires Fits(comps[id], comps, MAX_COMPOSITION_DEPTH - depth)
    ensures Resolve(id, specs, comps, depth).Ok? <==>
              LeafSpecs(comps[id], specs, comps, MAX_COMPOSITION_DEPTH - depth).Ok?
    decreases MAX_COMPOSITION_DEPTH - depth, 0
  {
    MembersResolveIffLeavesResolve(comps[id].members, specs, comps, depth);
  }

  lemma {:induction false} MembersResolveIffLeavesResolve(members: seq<Member>, specs: Specs, comps: Compositions,
      depth: nat)
    requires depth < MAX_COMPOSITION_DEPTH
    requires MembersFit(members, comps, MAX_COMPOSITION_DEPTH - depth)
    ensures ResolveMembers(members, specs, comps, depth).Ok? <==>
              MemberLeaves(members, specs, comps, MAX_COMPOSITION_DEPTH - depth).Ok?
    decreases MAX_COMPOSITION_DEPTH - depth - 1, 1, |members|
  {
    if members != [] {
      var m := members[0];
      assert members == [m] + members[1..];
      if m.faultSpecId == "" && m.childId != "" && depth + 1 < MAX_COMPOSITION_DEPTH {
        ResolvesIffLeavesResolve(m.childId, specs, comps, depth + 1);
      }
      MembersResolveIffLeavesResolve(members[1..], specs, comps, depth);
    }
  }

  /** No stored member sets both references; the database enforces it for every stored row. */
  predicate OneReferenceEach(comps: Compositions) {
    forall id :: id in comps ==> forall m :: m in comps[id].members ==> m.faultSpecId == "" || m.childId == ""
  }

  lemma {:induction false} ResolvedTreesFit(id: Id, specs: Specs, comps: Compositions, depth: nat)
    requires depth < MAX_COMPOSITION_DEPTH && OneReferenceEach(comps)
    requires Resolve(id, specs, comps, depth).Ok?
    ensures id in comps && Fits(comps[id], comps, MAX_COMPOSITION_DEPTH - depth)
    decreases MAX_COMPOSITION_DEPTH - depth
  {
    forall m | m in comps[id].members && m.childId != ""
      ensures m.childId in comps && Fits(comps[m.childId], comps, MAX_COMPOSITION_DEPTH - depth - 1)
    {
      EachMemberResolves(comps[id].members, specs, comps, depth, m);
      if depth + 1 < MAX_COMPOSITION_DEPTH {
        ResolvedTreesFit(m.childId, specs, comps, depth + 1);
      }
    }
  }

  lemma {:induction false} EachMemberResolves(members: seq<Member>, specs: Specs, comps: Compositions, depth: nat,
      m: Member)
    requires depth < MAX_COMPOSITION_DEPTH && m in members
    requires ResolveMembers(members, specs, comps, depth).Ok?
    ensures ResolveMember(m, specs, comps, depth).Ok?
    decreases |members|
  {
    if m != members[0] {
      EachMemberResolves(members[1..], specs, comps, depth, m);
    }
  }

  /**
   The validator's depth check (counting from 1) plus its leaf walk accept a stored composition
   exactly when the compiler (counting from 0) succeeds on it.
  */
  lemma ValidatorAndCompilerAgree(id: Id, specs: Specs, comps: Compositions)
    requires id in comps && OneReferenceEach(comps)
    ensures Resolve(id, specs, comps, 0).Ok? <==>
              && WalkDepth(comps[id], comps, 1, 3).None?
              && Fits(comps[id], comps, 3)
              && LeafSpecs(comps[id], specs, comps, 3).Ok?
  {
    DepthCheckIsExact(comps[id], comps, 1, 3);
    if Resolve(id, specs, comps, 0).Ok? {
      ResolvedTreesFit(id, specs, comps, 0);
    }
    if Fits(comps[id], comps, 3) {
      ResolvesIffLeavesResolve(id, specs, comps, 0);
    }
  }

  /** Without that rule on members the two disagree: the compiler never looks at a child that stands beside a spec. */
  lemma BothReferencesDisagree(specs: Specs, comps: Compositions, c: Composition)
    requires c.id in comps && comps[c.id] == c && c.members == [Member("s", "missing", "")]
    requires "s" in specs && "missing" !in comps
    ensures Resolve(c.id, specs, comps, 0).Ok? && WalkDepth(c, comps, 1, 3).Some?
  {
    var m := Member("s", "missing", "");
    assert c.members[1..] == [];
    assert ResolveMember(m, specs, comps, 0).Ok?;
    assert ResolveMembers(c.members, specs, comps, 0).Ok?;
    DepthCheckIsExact(c, comps, 1, 3);
    assert m in c.members;
  }

  // ----- Compilation preserves meaning -----

  function FaultType(f: CompiledFault): string {
    f.category + ":" + f.faultType
  }

  /** The faults of a compiled tree, in order. */
  function CompiledLeaves(c: CompiledComposition): seq<CompiledFault>
    decreases c, 0
  {
    CompiledLeavesOf(c.members)
  }

  function CompiledLeavesOf(members: seq<CompiledMember>): seq<CompiledFault>
    decreases members, 0
  {
    if members == [] then [] else CompiledLeavesOfOne(members[0]) + CompiledLeavesOf(members[1..])
  }

  function CompiledLeavesOfOne(m: CompiledMember): seq<CompiledFault>
    decreases m, 0
  {
    match m.body
    case NoBody => []
    case Fault(f) => [f]
    case Group(c) => CompiledLeaves(c)
  }

  function CompileAll(specs: seq<FaultSpec>): (r: seq<CompiledFault>)
    ensures |r| == |specs|
    ensures forall i :: 0 <= i < |specs| ==> r[i] == CompileSpec(specs[i])
  {
    seq(|specs|, i requires 0 <= i < |specs| => CompileSpec(specs[i]))
  }

  lemma CompileAllOfConcat(a: seq<FaultSpec>, b: seq<FaultSpec>)
    ensures CompileAll(a + b) == CompileAll(a) + CompileAll(b)
  {
  }

  /** The leaves of the compiled tree are the compiled leaves of the source tree, in the same order. */
  lemma {:induction false} CompilationKeepsLeaves(id: Id, specs: Specs, comps: Compositions, depth: nat)
    requires depth < MAX_COMPOSITION_DEPTH && id in comps
    requires Fits(comps[id], comps, MAX_COMPOSITION_DEPTH - depth)
    requires Resolve(id, specs, comps, depth).Ok?
    ensures var leaves := LeafSpecs(comps[id], specs, comps, MAX_COMPOSITION_DEPTH - depth);
            leaves.Ok? && CompiledLeaves(Resolve(id, specs, comps, depth).value) == CompileAll(leaves.value)
    decreases MAX_COMPOSITION_DEPTH - depth, 0
  {
    MembersKeepLeaves(comps[id].members, specs, comps, depth);
  }

  lemma {:induction false} MemberKeepsLeaves(m: Member, specs: Specs, comps: Compositions, depth: nat)
    requires depth < MAX_COMPOSITION_DEPTH && MembersFit([m], comps, MAX_COMPOSITION_DEPTH - depth)
    requires ResolveMember(m, specs, comps, depth).Ok?
    ensures var leaves := OneLeaves(m, specs, comps, MAX_COMPOSITION_DEPTH - depth);
            leaves.Ok? && CompiledLeavesOfOne(ResolveMember(m, specs, comps, depth).value) == CompileAll(leaves.value)
    decreases MAX_COMPOSITION_DEPTH - depth - 1, 1, 0
  {
    assert m in [m];
    if m.faultSpecId == "" && m.childId != "" {
      CompilationKeepsLeaves(m.childId, specs, comps, depth + 1);
    }
  }

  lemma {:induction false} MembersKeepLeaves(members: seq<Member>, specs: Specs, comps: Compositions, depth: nat)
    requires depth < MAX_COMPOSITION_DEPTH
    requires MembersFit(members, comps, MAX_COMPOSITION_DEPTH - depth)
    requires ResolveMembers(members, specs, comps, depth).Ok?
    ensures var leaves := MemberLeaves(members, specs, comps, MAX_COMPOSITION_DEPTH - depth);
            leaves.Ok? && CompiledLeavesOf(ResolveMembers(members, specs, comps, depth).value) ==
                CompileAll(leaves.value)
    decreases MAX_COMPOSITION_DEPTH - depth - 1, 1, |members|
  {
    if members != [] {
      var levels := MAX_COMPOSITION_DEPTH - depth;
      assert members == [members[0]] + members[1..];
      assert ResolveMembers(members, specs, comps, depth).value[1..] ==
          ResolveMembers(members[1..], specs, comps, depth).value;
      MemberKeepsLeaves(members[0], specs, comps, depth);
      MembersKeepLeaves(members[1..], specs, comps, depth);
      CompileAllOfConcat(OneLeaves(members[0], specs, comps, levels).value,
          MemberLeaves(members[1..], specs, comps, levels).value);
    }
  }

  /**
   The network faults of a compiled tree read top-down: a member without a direction takes the nearest one above
   it.
  */
  function TopDownNetwork(c: CompiledComposition, inherited: string): seq<NetworkMember>
    decreases c, 0
  {
    TopDownNetworkOf(c.members, inherited)
  }

  function TopDownNetworkOf(members: seq<CompiledMember>, inherited: string): seq<NetworkMember>
    decreases members, 0
  {
    if members == [] then []
    else
      TopDownNetworkOfOne(members[0], inherited) + TopDownNetworkOf(members[1..], inherited)
  }

  function TopDownNetworkOfOne(m: CompiledMember, inherited: string): seq<NetworkMember>
    decreases m, 0
  {
    var direction := if m.direction != "" then m.direction else inherited;
    match m.body
    case NoBody => []
    case Fault(f) => if f.category == "network" then [NetworkMember(FaultType(f), direction)] else []
    case Group(c) => TopDownNetwork(c, direction)
  }

  lemma InheritTwice(ms: seq<NetworkMember>, inner: string, outer: string)
    ensures Inherit(Inherit(ms, inner), outer) == Inherit(ms, if inner != "" then inner else outer)
  {
  }

  lemma InheritOfConcat(a: seq<NetworkMember>, b: seq<NetworkMember>, direction: string)
    ensures Inherit(a + b, direction) == Inherit(a, direction) + Inherit(b, direction)
  {
  }

  /**
   Reading directions top-down from the compiled tree gives what the validator's bottom-up rewriting
   gives on the source tree: the same network faults, in the same order, with the same directions.
  */
  lemma {:induction false} CompilationKeepsDirections(id: Id, specs: Specs, comps: Compositions, depth: nat,
      inherited: string)
    requires depth < MAX_COMPOSITION_DEPTH && id in comps
    requires Fits(comps[id], comps, MAX_COMPOSITION_DEPTH - depth)
    requires Resolve(id, specs, comps, depth).Ok?
    ensures var network := NetworkMembers(comps[id], specs, comps, MAX_COMPOSITION_DEPTH - depth);
            network.Ok?
            && TopDownNetwork(Resolve(id, specs, comps, depth).value, inherited) == Inherit(network.value, inherited)
    decreases MAX_COMPOSITION_DEPTH - depth, 0
  {
    MembersKeepDirections(comps[id].members, specs, comps, depth, inherited);
  }

  lemma {:induction false} MemberKeepsDirections(m: Member, specs: Specs, comps: Compositions, depth: nat,
      inherited: string)
    requires depth < MAX_COMPOSITION_DEPTH && MembersFit([m], comps, MAX_COMPOSITION_DEPTH - depth)
    requires ResolveMember(m, specs, comps, depth).Ok?
    ensures var network := NetworkOfOne(m, specs, comps, MAX_COMPOSITION_DEPTH - depth);
            network.Ok?
            && TopDownNetworkOfOne(ResolveMember(m, specs, comps, depth).value, inherited) ==
                Inherit(network.value, inherited)
    decreases MAX_COMPOSITION_DEPTH - depth - 1, 1, 0
  {
    assert m in [m];
    if m.faultSpecId == "" && m.childId != "" {
      var direction := if m.direction != "" then m.direction else inherited;
      CompilationKeepsDirections(m.childId, specs, comps, depth + 1, direction);
      InheritTwice(NetworkMembers(comps[m.childId], specs, comps, MAX_COMPOSITION_DEPTH - depth - 1).value,
                   m.direction, inherited);
    }
  }

  lemma {:induction false} MembersKeepDirections(members: seq<Member>, specs: Specs, comps: Compositions, depth: nat,
                                                 inherited: string)
    requires depth < MAX_COMPOSITION_DEPTH
    requires MembersFit(members, comps, MAX_COMPOSITION_DEPTH - depth)
    requires ResolveMembers(members, specs, comps, depth).Ok?
    ensures var network := NetworkOf(members, specs, comps, MAX_COMPOSITION_DEPTH - depth);
            network.Ok?
            && TopDownNetworkOf(ResolveMembers(members, specs, comps, depth).value, inherited)
               == Inherit(network.value, inherited)
    decreases MAX_COMPOSITION_DEPTH - depth - 1, 1, |members|
  {
    if members != [] {
      var levels := MAX_COMPOSITION_DEPTH - depth;
      assert members == [members[0]] + members[1..];
      assert ResolveMembers(members, specs, comps, depth).value[1..] ==
          ResolveMembers(members[1..], specs, comps, depth).value;
      MemberKeepsDirections(members[0], specs, comps, depth, inherited);
      MembersKeepDirections(members[1..], specs, comps, depth, inherited);
      InheritOfConcat(NetworkOfOne(members[0], specs, comps, levels).value,
                      NetworkOf(members[1..], specs, comps, levels).value, inherited);
    }
  }
}
