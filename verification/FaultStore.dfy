/**
 The stored fault vocabulary and rules with the database's keys (internal/store/fault_repo.go,
 internal/store/rule_repo.go, internal/db/migrations.go): primary keys, the references of
 composition members and rules, and the validation each write goes through.
*/
module FaultStore {
  import opened Wrappers
  import opened Faults
  import opened CompositionTree
  import opened CompositionValidator
  import opened Rules
  import opened RuleConv

  datatype Db = Db(specs: Specs, comps: Compositions, rules: map<Id, Rule>)

  datatype StoreError = Invalid | CheckFailed | Duplicate | NotFound | ForeignKey

  datatype Op =
    | CreateSpec(spec: FaultSpec)
    | UpdateSpec(spec: FaultSpec)
    | DeleteSpec(id: Id)
    | CreateComposition(comp: Composition)  // validated and inserted, nothing in between
    | InsertComposition(comp: Composition)  // inserted on the strength of an earlier validation
    | DeleteComposition(id: Id, pinned: bool)  // pinned: a fault config without a request of its own refers to it
    | CreateRule(rule: Rule)
    | UpdateRule(rule: Rule)
    | DeleteRule(id: Id)

  /** A network envelope with nothing set is stored as no envelope at all. */
  function AsStored(s: FaultSpec): FaultSpec {
    if s.network.Some? && s.network.value == Envelope("", "", 0.0) then s.(network := None) else s
  }

  /** Storing a spec changes neither whether it is valid nor what it compiles to. */
  lemma StoringKeepsMeaning(s: FaultSpec)
    requires ValidSpec(s)
    ensures ValidSpec(AsStored(s)) && CompileSpec(AsStored(s)) == CompileSpec(s)
    ensures AsStored(AsStored(s)) == AsStored(s)
  {
  }

  /** The database's own check on a rule row. */
  predicate ValidInjectionPoint(r: Rule) {
    r.injectionPoint in ["", "ingress", "egress", "transient", "custom"]
  }

  /** The foreign keys of a composition's member rows; its own row is already there when they are checked. */
  predicate KeysHold(db: Db, c: Composition) {
    forall m :: m in c.members ==>
      && (m.faultSpecId != "" ==> m.faultSpecId in db.specs)
      && (m.childId != "" ==> m.childId in db.comps || m.childId == c.id)
  }

  predicate SpecReferenced(db: Db, id: Id) {
    || (exists c :: c in db.comps && exists m :: m in db.comps[c].members && m.faultSpecId == id)
    || (exists r :: r in db.rules && db.rules[r].action.faultSpecId == id)
  }

  /** Rows that keep a composition from being deleted; its own member rows go with it. */
  predicate CompositionReferenced(db: Db, id: Id) {
    || (exists c :: c in db.comps && c != id && exists m :: m in db.comps[c].members && m.childId == id)
    || (exists r :: r in db.rules && db.rules[r].action.faultCompId == id)
  }

  predicate RuleReferencesExist(db: Db, r: Rule) {
    && (r.action.faultSpecId != "" ==> r.action.faultSpecId in db.specs)
    && (r.action.faultCompId != "" ==> r.action.faultCompId in db.comps)
  }

  /** The transaction that inserts a composition and its members. */
  function Insert(db: Db, c: Composition): (Db, Option<StoreError>) {
    if !ValidComposition(c) then (db, Some(Invalid))
    else if c.id in db.comps then (db, Some(Duplicate))
    else if !KeysHold(db, c) then (db, Some(ForeignKey))
    else (db.(comps := db.comps[c.id := c]), None)
  }

  function Apply(db: Db, op: Op): (Db, Option<StoreError>) {
    match op
    case CreateSpec(s) =>
      if !ValidSpec(s) then (db, Some(Invalid))
      else if s.id in db.specs then (db, Some(Duplicate))
      else (db.(specs := db.specs[s.id := AsStored(s)]), None)
    case UpdateSpec(s) =>
      if !ValidSpec(s) then (db, Some(Invalid))
      else if s.id !in db.specs then (db, Some(NotFound))
      else (db.(specs := db.specs[s.id := AsStored(s)]), None)
    case DeleteSpec(id) =>
      if id !in db.specs then (db, Some(NotFound))
      else if SpecReferenced(db, id) then (db, Some(ForeignKey))
      else (db.(specs := db.specs - {id}), None)
    case CreateComposition(c) =>
      if !Accepts(c, db.specs, db.comps) then (db, Some(Invalid))
      else Insert(db, c)
    case InsertComposition(c) => Insert(db, c)
    case DeleteComposition(id, pinned) =>
      if id !in db.comps then (db, Some(NotFound))
      else if CompositionReferenced(db, id) || pinned then (db, Some(ForeignKey))
      else (db.(comps := db.comps - {id}), None)
    case CreateRule(r) =>
      var valid := ValidateRule(r);
      if valid.None? then (db, Some(Invalid))
      else if !ValidInjectionPoint(r) then (db, Some(CheckFailed))
      else if r.id in db.rules then (db, Some(Duplicate))
      else if !RuleReferencesExist(db, r) then (db, Some(ForeignKey))
      else (db.(rules := db.rules[r.id := valid.value]), None)
    case UpdateRule(r) =>
      var valid := ValidateRule(r);
      if valid.None? then (db, Some(Invalid))
      else if r.id !in db.rules then (db, Some(NotFound))
      else if !ValidInjectionPoint(r) then (db, Some(CheckFailed))
      else if !RuleReferencesExist(db, r) then (db, Some(ForeignKey))
      else (db.(rules := db.rules[r.id := valid.value]), None)
    case DeleteRule(id) =>
      if id !in db.rules then (db, Some(NotFound))
      else (db.(rules := db.rules - {id}), None)
  }

  // ----- What a write leaves, and what refuses it -----

  /** The row read back is the spec as given; an envelope with nothing set is read back as none. */
  predicate SpecStored(given: FaultSpec, stored: FaultSpec) {
    && stored == given.(network := stored.network)
    && (given.network == Some(Envelope("", "", 0.0)) ==> stored.network.None?)
    && (given.network != Some(Envelope("", "", 0.0)) ==> stored.network == given.network)
  }

  /** After an accepted write the one row it is about reads back as written, or is gone; no other row changes. */
  ghost predicate ReadsBack(before: Db, op: Op, after: Db) {
    match op
    case CreateSpec(s) => SpecWritten(before, s, after) && s.id !in before.specs
    case UpdateSpec(s) => SpecWritten(before, s, after) && s.id in before.specs
    case DeleteSpec(id) =>
      && id in before.specs && id !in after.specs && OthersKept(before.specs, after.specs, id)
      && after.comps == before.comps && after.rules == before.rules
    case CreateComposition(c) => CompositionWritten(before, c, after)
    case InsertComposition(c) => CompositionWritten(before, c, after)
    case DeleteComposition(id, _) =>
      && id in before.comps && id !in after.comps && OthersKept(before.comps, after.comps, id)
      && after.specs == before.specs && after.rules == before.rules
    case CreateRule(r) => RuleWritten(before, r, after) && r.id !in before.rules
    case UpdateRule(r) => RuleWritten(before, r, after) && r.id in before.rules
    case DeleteRule(id) =>
      && id in before.rules && id !in after.rules && OthersKept(before.rules, after.rules, id)
      && after.specs == before.specs && after.comps == before.comps
  }

  ghost predicate SpecWritten(before: Db, s: FaultSpec, after: Db) {
    && s.id in after.specs && SpecStored(s, after.specs[s.id]) && OthersKept(before.specs, after.specs, s.id)
    && after.comps == before.comps && after.rules == before.rules
  }

  ghost predicate CompositionWritten(before: Db, c: Composition, after: Db) {
    && c.id !in before.comps && c.id in after.comps && after.comps[c.id] == c
    && OthersKept(before.comps, after.comps, c.id)
    && after.specs == before.specs && after.rules == before.rules
  }

  ghost predicate RuleWritten(before: Db, r: Rule, after: Db) {
    && r.id in after.rules && RuleStored(r, after.rules[r.id]) && OthersKept(before.rules, after.rules, r.id)
    && after.specs == before.specs && after.comps == before.comps
  }

  lemma SpecWritesReadBack(db: Db, op: Op)
    requires (op.CreateSpec? || op.UpdateSpec? || op.DeleteSpec?) && Apply(db, op).1.None?
    ensures ReadsBack(db, op, Apply(db, op).0)
  {
  }

  lemma CompositionWritesReadBack(db: Db, op: Op)
    requires op.CreateComposition? || op.InsertComposition? || op.DeleteComposition?
    requires Apply(db, op).1.None?
    ensures ReadsBack(db, op, Apply(db, op).0)
  {
  }

  lemma RuleWritesReadBack(db: Db, op: Op)
    requires (op.CreateRule? || op.UpdateRule? || op.DeleteRule?) && Apply(db, op).1.None?
    ensures ReadsBack(db, op, Apply(db, op).0)
  {
  }

  /** Every accepted write reads back; every refused one leaves the store as it was. */
  lemma WritesReadBack(db: Db, op: Op)
    ensures var (db', err) := Apply(db, op); if err.None? then ReadsBack(db, op, db') else db' == db
  {
    RefusedChangesNothing(db, op);
    if Apply(db, op).1.None? {
      if op.CreateSpec? || op.UpdateSpec? || op.DeleteSpec? {
        SpecWritesReadBack(db, op);
      } else if op.CreateRule? || op.UpdateRule? || op.DeleteRule? {
        RuleWritesReadBack(db, op);
      } else {
        CompositionWritesReadBack(db, op);
      }
    }
  }

  lemma SpecWritesAcceptedIff(db: Db, s: FaultSpec)
    ensures Apply(db, CreateSpec(s)).1.None? <==> ValidSpec(s) && s.id !in db.specs
    ensures Apply(db, UpdateSpec(s)).1.None? <==> ValidSpec(s) && s.id in db.specs
  {
  }

  /** An insert needs a new id and every spec and child its members name; a child may be the composition itself. */
  lemma InsertAcceptedIff(db: Db, c: Composition)
    ensures Apply(db, InsertComposition(c)).1.None? <==>
              && ValidComposition(c) && c.id !in db.comps
              && (forall m :: m in c.members && m.faultSpecId != "" ==> m.faultSpecId in db.specs)
              && (forall m :: m in c.members && m.childId != "" ==> m.childId in db.comps || m.childId == c.id)
    ensures Apply(db, CreateComposition(c)).1.None? <==>
              Accepts(c, db.specs, db.comps) && Apply(db, InsertComposition(c)).1.None?
  {
  }

  lemma RuleWritesAcceptedIff(db: Db, r: Rule)
    ensures var refers := && (r.action.faultSpecId != "" ==> r.action.faultSpecId in db.specs)
                          && (r.action.faultCompId != "" ==> r.action.faultCompId in db.comps);
            var fine := && ValidateRule(r).Some? && refers
                        && r.injectionPoint in ["", "ingress", "egress", "transient", "custom"];
            && (Apply(db, CreateRule(r)).1.None? <==> fine && r.id !in db.rules)
            && (Apply(db, UpdateRule(r)).1.None? <==> fine && r.id in db.rules)
  {
  }

  /** A stored row can be deleted exactly when nothing that is stored refers to it. */
  lemma DeletesRefusedIff(db: Db, id: Id, pinned: bool)
    ensures id in db.specs ==>
              (Apply(db, DeleteSpec(id)).1.None? <==>
                 && (forall c :: c in db.comps ==> forall m :: m in db.comps[c].members ==> m.faultSpecId != id)
                 && (forall r :: r in db.rules ==> db.rules[r].action.faultSpecId != id))
    ensures id in db.comps ==>
              (Apply(db, DeleteComposition(id, pinned)).1.None? <==>
                 && !pinned
                 && (forall c :: c in db.comps && c != id ==> forall m :: m in db.comps[c].members ==> m.childId != id)
                 && (forall r :: r in db.rules ==> db.rules[r].action.faultCompId != id))
    ensures Apply(db, DeleteRule(id)).1.None? <==> id in db.rules
  {
  }

  // ----- The invariant of the store -----

  predicate SpecsExist(members: seq<Member>, specs: Specs) {
    forall m :: m in members && m.faultSpecId != "" ==> m.faultSpecId in specs
  }

  predicate CompositionSound(c: Composition, specs: Specs, comps: Compositions) {
    ValidComposition(c) && SpecsExist(c.members, specs) && Fits(c, comps, MAX_DEPTH)
  }

  ghost predicate FaultsSound(specs: Specs, comps: Compositions) {
    && (forall id :: id in specs ==> specs[id].id == id && ValidSpec(specs[id]))
    && (forall id :: id in comps ==> comps[id].id == id && CompositionSound(comps[id], specs, comps))
  }

  ghost predicate Inv(db: Db) {
    && FaultsSound(db.specs, db.comps)
    && (forall id :: id in db.rules ==> ValidAction(db.rules[id].action) && RuleReferencesExist(db, db.rules[id]))
  }

  predicate AllSpecsExist(specs: Specs, comps: Compositions) {
    forall id :: id in comps ==> SpecsExist(comps[id].members, specs)
  }

  /** In a store without dangling spec references every leaf walk succeeds. */
  lemma {:induction false} LeavesExist(members: seq<Member>, specs: Specs, comps: Compositions, levels: nat)
    requires MembersFit(members, comps, levels) && SpecsExist(members, specs) && AllSpecsExist(specs, comps)
    ensures MemberLeaves(members, specs, comps, levels).Ok?
    decreases levels, |members|
  {
    if members != [] {
      var m := members[0];
      assert members == [m] + members[1..];
      if m.faultSpecId == "" && m.childId != "" {
        var child := comps[m.childId];
        LeavesExist(child.members, specs, comps, levels - 1);
        assert LeafSpecs(child, specs, comps, levels - 1).Ok?;
      }
      assert OneLeaves(m, specs, comps, levels).Ok?;
      LeavesExist(members[1..], specs, comps, levels);
    }
  }

  lemma {:induction false} LeavesOkMeansSpecsExist(members: seq<Member>, specs: Specs, comps: Compositions, levels: nat)
    requires MembersFit(members, comps, levels) && MemberLeaves(members, specs, comps, levels).Ok?
    ensures SpecsExist(members, specs)
    decreases |members|
  {
    if members != [] {
      assert members == [members[0]] + members[1..];
      LeavesOkMeansSpecsExist(members[1..], specs, comps, levels);
    }
  }

  /** Every stored composition and every stored rule compiles. */
  lemma StoredThingsCompile(db: Db)
    requires Inv(db)
    ensures forall id :: id in db.comps ==> Resolve(id, db.specs, db.comps, 0).Ok?
    ensures forall id :: id in db.rules ==> CompileRule(db.rules[id], db.specs, db.comps).Ok?
  {
    forall id | id in db.comps ensures Resolve(id, db.specs, db.comps, 0).Ok? {
      LeavesExist(db.comps[id].members, db.specs, db.comps, MAX_DEPTH);
      ResolvesIffLeavesResolve(id, db.specs, db.comps, 0);
    }
  }

  /** The faults a rule stands for in the store, in order. */
  function RuleSpecs(db: Db, r: Rule): seq<FaultSpec>
    requires Inv(db) && ValidAction(r.action) && RuleReferencesExist(db, r)
  {
    match r.action.kind
    case "fault_spec" => [db.specs[r.action.faultSpecId]]
    case "fault_composition" =>
      var leaves := LeafSpecs(db.comps[r.action.faultCompId], db.specs, db.comps, MAX_DEPTH);
      if leaves.Ok? then leaves.value else []
    case _ => []
  }

  /** The faults an SDK finds in the payload of a compiled rule, in order. */
  function PayloadFaults(p: Payload): seq<CompiledFault> {
    match p
    case FaultPayload(f) => [f]
    case CompositionPayload(c) => CompiledLeaves(c)
    case _ => []
  }

  predicate AllWellFormed(comps: Compositions) {
    forall id :: id in comps ==> ValidComposition(comps[id])
  }

  /** Every member contributes at least one fault, so a stored composition stands for at least two. */
  lemma {:induction false} MembersHaveLeaves(members: seq<Member>, specs: Specs, comps: Compositions, levels: nat)
    requires MembersFit(members, comps, levels) && AllWellFormed(comps)
    requires forall m :: m in members ==> ValidMember(m)
    requires MemberLeaves(members, specs, comps, levels).Ok?
    ensures |MemberLeaves(members, specs, comps, levels).value| >= |members|
    decreases levels, |members|
  {
    if members != [] {
      var m := members[0];
      assert m in members && members == [m] + members[1..];
      if m.faultSpecId == "" {
        var child := comps[m.childId];
        assert LeafSpecs(child, specs, comps, levels - 1) == MemberLeaves(child.members, specs, comps, levels - 1);
        MembersHaveLeaves(child.members, specs, comps, levels - 1);
      }
      MembersHaveLeaves(members[1..], specs, comps, levels);
    }
  }

  lemma CompositionRuleKeepsItsFaults(db: Db, r: Rule)
    requires Inv(db) && ValidAction(r.action) && RuleReferencesExist(db, r) && r.action.kind == "fault_composition"
    ensures CompileRule(r, db.specs, db.comps).Ok?
    ensures PayloadFaults(CompileRule(r, db.specs, db.comps).value.payload) == CompileAll(RuleSpecs(db, r))
    ensures |RuleSpecs(db, r)| >= 2
  {
    var c := db.comps[r.action.faultCompId];
    StoredThingsCompile(db);
    CompilationKeepsLeaves(r.action.faultCompId, db.specs, db.comps, 0);
    MembersHaveLeaves(c.members, db.specs, db.comps, MAX_DEPTH);
    assert LeafSpecs(c, db.specs, db.comps, MAX_DEPTH) == MemberLeaves(c.members, db.specs, db.comps, MAX_DEPTH);
  }

  /** An SDK gets exactly the faults of each stored rule, in order, or its cachebox configuration. */
  lemma StoredRulesKeepTheirFaults(db: Db, id: Id)
    requires Inv(db) && id in db.rules
    ensures var r := db.rules[id];
            var compiled := CompileRule(r, db.specs, db.comps);
            && compiled.Ok?
            && PayloadFaults(compiled.value.payload) == CompileAll(RuleSpecs(db, r))
            && (RuleSpecs(db, r) == [] <==> r.action.kind == "cachebox")
            && (compiled.value.payload.CacheBoxPayload? ==> r.action.cacheBox == Some(compiled.value.payload.cacheBox))
  {
    var r := db.rules[id];
    StoredThingsCompile(db);
    if r.action.kind == "fault_composition" {
      CompositionRuleKeepsItsFaults(db, r);
    }
  }

  lemma {:induction false} ChildPathsJoin(c: Composition, comps: Compositions, p: seq<Id>, q: seq<Id>)
    requires p != [] && ChildPath(c, comps, p)
    requires p[|p| - 1] in comps && ChildPath(comps[p[|p| - 1]], comps, q)
    ensures ChildPath(c, comps, p + q)
    decreases |p|
  {
    assert (p + q)[0] == p[0] && (p + q)[1..] == p[1..] + q;
    if |p| == 1 {
      assert p[1..] + q == q;
    } else {
      ChildPathsJoin(comps[p[0]], comps, p[1..], q);
    }
  }

  /** The stored composition graph is at most three levels deep and has no cycle. */
  lemma CompositionGraphIsShallow(db: Db, id: Id, p: seq<Id>)
    requires Inv(db) && id in db.comps && ChildPath(db.comps[id], db.comps, p)
    ensures |p| <= 2
    ensures p != [] ==> p[|p| - 1] != id
  {
    var c := db.comps[id];
    FittingPathsAreShort(c, db.comps, MAX_DEPTH, p);
    if p != [] && p[|p| - 1] == id {
      ChildPathsJoin(c, db.comps, p, p);
      ChildPathsJoin(c, db.comps, p, p + p);
      FittingPathsAreShort(c, db.comps, MAX_DEPTH, p + (p + p));
      assert false;
    }
  }

  // ----- Every write keeps the invariant -----

  /** More stored compositions never make a tree deeper. */
  lemma {:induction false} FitsInLargerStore(c: Composition, comps: Compositions, larger: Compositions, levels: nat)
    requires Fits(c, comps, levels)
    requires forall id :: id in comps ==> id in larger && larger[id] == comps[id]
    ensures Fits(c, larger, levels)
    decreases levels
  {
    forall m | m in c.members && m.childId != ""
      ensures m.childId in larger && Fits(larger[m.childId], larger, levels - 1)
    {
      FitsInLargerStore(comps[m.childId], comps, larger, levels - 1);
    }
  }

  predicate NoMemberRefersTo(c: Composition, id: Id) {
    forall m :: m in c.members ==> m.childId != id
  }

  /** Removing a composition nobody refers to leaves the other trees as they are. */
  lemma {:induction false} FitsWithout(c: Composition, comps: Compositions, id: Id, levels: nat)
    requires Fits(c, comps, levels) && id != ""
    requires NoMemberRefersTo(c, id) && forall x :: x in comps && x != id ==> NoMemberRefersTo(comps[x], id)
    ensures Fits(c, comps - {id}, levels)
    decreases levels
  {
    var smaller := comps - {id};
    forall m | m in c.members && m.childId != ""
      ensures m.childId in smaller && Fits(smaller[m.childId], smaller, levels - 1)
    {
      FitsWithout(comps[m.childId], comps, id, levels - 1);
    }
  }

  lemma CreateCompositionKeepsInv(db: Db, c: Composition)
    requires Inv(db) && c.id !in db.comps
    requires CompositionSound(c, db.specs, db.comps)
    ensures Inv(db.(comps := db.comps[c.id := c]))
  {
    var comps' := db.comps[c.id := c];
    forall id | id in comps' ensures comps'[id].id == id && CompositionSound(comps'[id], db.specs, comps') {
      FitsInLargerStore(comps'[id], db.comps, comps', MAX_DEPTH);
    }
  }

  lemma DeleteCompositionKeepsInv(db: Db, id: Id)
    requires Inv(db) && id in db.comps && !CompositionReferenced(db, id)
    ensures Inv(db.(comps := db.comps - {id}))
  {
    var comps' := db.comps - {id};
    assert id != "";
    forall x | x in db.comps && x != id ensures NoMemberRefersTo(db.comps[x], id) {
    }
    forall x | x in comps' ensures comps'[x].id == x && CompositionSound(comps'[x], db.specs, comps') {
      FitsWithout(db.comps[x], db.comps, id, MAX_DEPTH);
    }
  }

  lemma SpecChangeKeepsInv(db: Db, specs: Specs)
    requires Inv(db)
    requires forall id :: id in specs ==> specs[id].id == id && ValidSpec(specs[id])
    requires forall id :: id in db.specs && id !in specs ==> !SpecReferenced(db, id)
    ensures Inv(db.(specs := specs))
  {
    forall id | id in db.comps ensures SpecsExist(db.comps[id].members, specs) {
      forall m | m in db.comps[id].members && m.faultSpecId != "" ensures m.faultSpecId in specs {
        assert m.faultSpecId in db.specs;
      }
    }
  }

  lemma AcceptedIsSound(c: Composition, specs: Specs, comps: Compositions)
    requires Accepts(c, specs, comps)
    ensures CompositionSound(c, specs, comps)
    ensures forall rules :: KeysHold(Db(specs, comps, rules), c)
  {
    LeavesOkMeansSpecsExist(c.members, specs, comps, MAX_DEPTH);
  }

  lemma SpecWriteKeepsInv(db: Db, s: FaultSpec)
    requires Inv(db) && ValidSpec(s)
    ensures Inv(db.(specs := db.specs[s.id := AsStored(s)]))
  {
    StoringKeepsMeaning(s);
    SpecChangeKeepsInv(db, db.specs[s.id := AsStored(s)]);
  }

  lemma CompositionWriteKeepsInv(db: Db, op: Op)
    requires Inv(db) && (op.CreateComposition? || op.DeleteComposition?) && Apply(db, op).1.None?
    ensures Inv(Apply(db, op).0)
  {
    if op.CreateComposition? {
      AcceptedIsSound(op.comp, db.specs, db.comps);
      CreateCompositionKeepsInv(db, op.comp);
    } else {
      DeleteCompositionKeepsInv(db, op.id);
    }
  }

  lemma RuleWriteKeepsInv(db: Db, r: Rule)
    requires Inv(db) && ValidateRule(r).Some? && RuleReferencesExist(db, r)
    ensures Inv(db.(rules := db.rules[r.id := ValidateRule(r).value]))
  {
  }

  lemma SpecOpKeepsInv(db: Db, op: Op)
    requires Inv(db) && (op.CreateSpec? || op.UpdateSpec? || op.DeleteSpec?) && Apply(db, op).1.None?
    ensures Inv(Apply(db, op).0)
  {
    if op.DeleteSpec? {
      SpecChangeKeepsInv(db, db.specs - {op.id});
    } else {
      SpecWriteKeepsInv(db, op.spec);
    }
  }

  lemma RuleOpKeepsInv(db: Db, op: Op)
    requires Inv(db) && (op.CreateRule? || op.UpdateRule? || op.DeleteRule?) && Apply(db, op).1.None?
    ensures Inv(Apply(db, op).0)
  {
    if !op.DeleteRule? {
      RuleWriteKeepsInv(db, op.rule);
    }
  }

  lemma RefusedChangesNothing(db: Db, op: Op)
    ensures Apply(db, op).1.Some? ==> Apply(db, op).0 == db
  {
  }

  /** Every write but the late insert of a composition keeps the invariant, whether it is accepted or refused. */
  lemma ApplyKeepsInv(db: Db, op: Op)
    requires Inv(db) && !op.InsertComposition?
    ensures Inv(Apply(db, op).0)
  {
    RefusedChangesNothing(db, op);
    if Apply(db, op).1.None? {
      if op.CreateSpec? || op.UpdateSpec? || op.DeleteSpec? {
        SpecOpKeepsInv(db, op);
      } else if op.CreateComposition? || op.DeleteComposition? {
        CompositionWriteKeepsInv(db, op);
      } else {
        RuleOpKeepsInv(db, op);
      }
    }
  }

  function ApplyAll(db: Db, ops: seq<Op>): Db
    decreases |ops|
  {
    if ops == [] then db else ApplyAll(Apply(db, ops[0]).0, ops[1..])
  }

  // ----- Exactly how much validation the compiler needs -----

  /** A validated composition compiles as soon as the resolver knows it. */
  lemma ValidatedCompiles(c: Composition, specs: Specs, comps: Compositions)
    requires Accepts(c, specs, comps) && c.id in comps && comps[c.id] == c
    ensures Resolve(c.id, specs, comps, 0).Ok?
  {
    ResolvesIffLeavesResolve(c.id, specs, comps, 0);
  }

  lemma {:induction false} FitsOnlyUsesOldRows(c: Composition, comps: Compositions, added: Composition, levels: nat)
    requires Fits(c, comps[added.id := added], levels) && NoMemberRefersTo(c, added.id) && added.id !in comps
    requires forall x :: x in comps ==> NoMemberRefersTo(comps[x], added.id)
    ensures Fits(c, comps, levels)
    decreases levels
  {
    forall m | m in c.members && m.childId != ""
      ensures m.childId in comps && Fits(comps[m.childId], comps, levels - 1)
    {
      FitsOnlyUsesOldRows(comps[m.childId], comps, added, levels - 1);
    }
  }

  lemma {:induction false} SelfReferenceNeverFits(c: Composition, comps: Compositions, m: Member, levels: nat)
    requires c.id != "" && c.id in comps && comps[c.id] == c && m in c.members
    ensures m.childId == c.id ==> !Fits(c, comps, levels)
    decreases levels
  {
    if levels > 0 {
      SelfReferenceNeverFits(c, comps, m, levels - 1);
    }
  }

  lemma SoundAfterInsertMeansFits(db: Db, c: Composition)
    requires Inv(db) && c.id !in db.comps && ValidComposition(c) && KeysHold(db, c)
    requires Fits(c, db.comps[c.id := c], MAX_DEPTH)
    ensures Fits(c, db.comps, MAX_DEPTH)
  {
    var comps' := db.comps[c.id := c];
    forall m | m in c.members ensures m.childId != c.id {
      SelfReferenceNeverFits(c, comps', m, MAX_DEPTH);
    }
    forall x | x in db.comps ensures NoMemberRefersTo(db.comps[x], c.id) {
      forall m | m in db.comps[x].members ensures m.childId != c.id {
        assert m.childId != "" ==> m.childId in db.comps;
      }
    }
    FitsOnlyUsesOldRows(c, db.comps, c, MAX_DEPTH);
  }

  lemma UnfitInsertIsUnsound(db: Db, c: Composition)
    requires Inv(db) && c.id !in db.comps && ValidComposition(c) && KeysHold(db, c)
    requires !Fits(c, db.comps, MAX_DEPTH)
    ensures var comps' := db.comps[c.id := c];
            !CompositionSound(c, db.specs, comps') && Resolve(c.id, db.specs, comps', 0).Err?
  {
    var comps' := db.comps[c.id := c];
    if Fits(c, comps', MAX_DEPTH) {
      SoundAfterInsertMeansFits(db, c);
    }
    forall id | id in comps' ensures forall m :: m in comps'[id].members ==> m.faultSpecId == "" || m.childId == "" {
      assert ValidComposition(comps'[id]);
    }
    if Resolve(c.id, db.specs, comps', 0).Ok? {
      ResolvedTreesFit(c.id, db.specs, comps', 0);
    }
  }

  /**
   An insert the database accepts keeps the store sound exactly when, at that moment, the tree of the
   composition fits; and exactly then the inserted composition compiles.
  */
  lemma InsertIsSafeIff(db: Db, c: Composition)
    requires Inv(db) && Apply(db, InsertComposition(c)).1.None?
    ensures var db' := Apply(db, InsertComposition(c)).0;
            && (Inv(db') <==> Fits(c, db.comps, MAX_DEPTH))
            && (Resolve(c.id, db'.specs, db'.comps, 0).Ok? <==> Fits(c, db.comps, MAX_DEPTH))
  {
    var db' := Apply(db, InsertComposition(c)).0;
    if Fits(c, db.comps, MAX_DEPTH) {
      CreateCompositionKeepsInv(db, c);
      StoredThingsCompile(db');
    } else {
      UnfitInsertIsUnsound(db, c);
      assert db'.comps[c.id] == c;
    }
  }

  // ----- Histories -----

  /** The store is sound now and after every one of the writes. */
  ghost predicate StaysSound(db: Db, ops: seq<Op>)
    decreases |ops|
  {
    Inv(db) && (ops == [] || StaysSound(Apply(db, ops[0]).0, ops[1..]))
  }

  /** Every late insert the database accepts is of a tree that fits at that moment. */
  predicate InsertsFit(db: Db, ops: seq<Op>)
    decreases |ops|
  {
    ops == [] || (InsertFits(db, ops[0]) && InsertsFit(Apply(db, ops[0]).0, ops[1..]))
  }

  predicate InsertFits(db: Db, op: Op) {
    op.InsertComposition? && Apply(db, op).1.None? ==> Fits(op.comp, db.comps, MAX_DEPTH)
  }

  lemma WriteKeepsInvIff(db: Db, op: Op)
    requires Inv(db)
    ensures Inv(Apply(db, op).0) <==> InsertFits(db, op)
  {
    if !op.InsertComposition? {
      ApplyKeepsInv(db, op);
    } else if Apply(db, op).1.None? {
      InsertIsSafeIff(db, op.comp);
    }
  }

  lemma {:induction false} HistoryStaysSoundIff(db: Db, ops: seq<Op>)
    requires Inv(db)
    ensures StaysSound(db, ops) <==> InsertsFit(db, ops)
    ensures InsertsFit(db, ops) ==> Inv(ApplyAll(db, ops))
    decreases |ops|
  {
    if ops != [] {
      WriteKeepsInvIff(db, ops[0]);
      if InsertFits(db, ops[0]) {
        HistoryStaysSoundIff(Apply(db, ops[0]).0, ops[1..]);
      }
    }
  }

  lemma EmptyStoreIsSound()
    ensures Inv(Db(map[], map[], map[]))
  {
  }

  /**
   From an empty store, whatever is written, accepted or refused: the store is sound after every write
   exactly when every late insert fits at its moment; and then every stored composition and every
   stored rule compiles.
  */
  lemma EveryHistoryCompiles(ops: seq<Op>)
    ensures var empty := Db(map[], map[], map[]);
            var end := ApplyAll(empty, ops);
            && (StaysSound(empty, ops) <==> InsertsFit(empty, ops))
            && (InsertsFit(empty, ops) ==>
                  && (forall id :: id in end.comps ==> Resolve(id, end.specs, end.comps, 0).Ok?)
                  && (forall id :: id in end.rules ==> CompileRule(end.rules[id], end.specs, end.comps).Ok?))
  {
    var empty := Db(map[], map[], map[]);
    EmptyStoreIsSound();
    HistoryStaysSoundIff(empty, ops);
    if InsertsFit(empty, ops) {
      StoredThingsCompile(ApplyAll(empty, ops));
    }
  }

  // ----- The repositories -----

  /** The tables, changed one write at a time. */
  class FaultRepo {
    var specs: Specs
    var comps: Compositions
    var rules: map<Id, Rule>

    ghost function State(): Db
      reads this
    {
      Db(specs, comps, rules)
    }

    constructor ()
      ensures State() == Db(map[], map[], map[]) && Inv(State())
    {
      specs, comps, rules := map[], map[], map[];
    }

    method WriteSpec(spec: FaultSpec, update: bool) returns (err: Option<StoreError>)
      requires Inv(State())
      modifies this`specs
      ensures Inv(State())
      ensures (State(), err) == Apply(old(State()), if update then UpdateSpec(spec) else CreateSpec(spec))
    {
      ApplyKeepsInv(State(), if update then UpdateSpec(spec) else CreateSpec(spec));
      if !ValidSpec(spec) {
        return Some(Invalid);
      }
      if update != (spec.id in specs) {
        return Some(if update then NotFound else Duplicate);
      }
      specs := specs[spec.id := AsStored(spec)];
      return None;
    }

    method RemoveSpec(id: Id) returns (err: Option<StoreError>)
      requires Inv(State())
      modifies this`specs
      ensures Inv(State())
      ensures (State(), err) == Apply(old(State()), DeleteSpec(id))
    {
      ApplyKeepsInv(State(), DeleteSpec(id));
      if id !in specs {
        return Some(NotFound);
      }
      if SpecReferenced(Db(specs, comps, rules), id) {
        return Some(ForeignKey);
      }
      specs := specs - {id};
      return None;
    }

    /** The insert transaction; the store stays sound exactly when the tree fits. */
    method Insert(c: Composition) returns (err: Option<StoreError>)
      requires Inv(State())
      modifies this`comps
      ensures (State(), err) == Apply(old(State()), Op.InsertComposition(c))
      ensures Inv(State()) <==> (err.None? ==> Fits(c, old(comps), MAX_DEPTH))
    {
      WriteKeepsInvIff(State(), Op.InsertComposition(c));
      if !ValidComposition(c) {
        return Some(Invalid);
      }
      if c.id in comps {
        return Some(Duplicate);
      }
      if !KeysHold(Db(specs, comps, rules), c) {
        return Some(ForeignKey);
      }
      comps := comps[c.id := c];
      return None;
    }

    /** Validation against the current tables followed by the insert, with no other write in between. */
    method AddComposition(c: Composition) returns (err: Option<StoreError>, reason: Option<FaultError>)
      requires Inv(State())
      modifies this`comps
      ensures Inv(State())
      ensures (State(), err) == Apply(old(State()), Op.CreateComposition(c))
      ensures reason.Some? <==> err == Some(Invalid)
    {
      ApplyKeepsInv(State(), Op.CreateComposition(c));
      if Accepts(c, specs, comps) {
        AcceptedIsSound(c, specs, comps);
      }
      reason := ValidateComposition(c, specs, comps);
      if reason.Some? {
        return Some(Invalid), reason;
      }
      err := Insert(c);
    }

    /** The table of fault configs is not part of this model; pinned is its answer. */
    method RemoveComposition(id: Id, pinned: bool) returns (err: Option<StoreError>)
      requires Inv(State())
      modifies this`comps
      ensures Inv(State())
      ensures (State(), err) == Apply(old(State()), DeleteComposition(id, pinned))
    {
      ApplyKeepsInv(State(), DeleteComposition(id, pinned));
      if id !in comps {
        return Some(NotFound);
      }
      if CompositionReferenced(Db(specs, comps, rules), id) || pinned {
        return Some(ForeignKey);
      }
      comps := comps - {id};
      return None;
    }

    method WriteRule(r: Rule, update: bool) returns (err: Option<StoreError>)
      requires Inv(State())
      modifies this`rules
      ensures Inv(State())
      ensures (State(), err) == Apply(old(State()), if update then UpdateRule(r) else CreateRule(r))
    {
      ApplyKeepsInv(State(), if update then UpdateRule(r) else CreateRule(r));
      var valid := ValidateRule(r);
      if valid.None? {
        return Some(Invalid);
      }
      if update && r.id !in rules {
        return Some(NotFound);
      }
      if !ValidInjectionPoint(r) {
        return Some(CheckFailed);
      }
      if !update && r.id in rules {
        return Some(Duplicate);
      }
      if !RuleReferencesExist(Db(specs, comps, rules), r) {
        return Some(ForeignKey);
      }
      rules := rules[r.id := valid.value];
      return None;
    }

    method RemoveRule(id: Id) returns (err: Option<StoreError>)
      requires Inv(State())
      modifies this`rules
      ensures Inv(State())
      ensures (State(), err) == Apply(old(State()), DeleteRule(id))
    {
      ApplyKeepsInv(State(), DeleteRule(id));
      if id !in rules {
        return Some(NotFound);
      }
      rules := rules - {id};
      return None;
    }

    /** Compiling any selection of stored rules never fails. */
    method CompileStored(ids: seq<Id>) returns (out: seq<CompiledRule>)
      requires Inv(State()) && forall id :: id in ids ==> id in rules
      ensures |out| == |ids| && forall i :: 0 <= i < |ids| ==> CompileRule(rules[ids[i]], specs, comps) == Ok(out[i])
      ensures forall i :: 0 <= i < |ids| ==> RuleMirrors(out[i], rules[ids[i]], specs, comps)
    {
      StoredThingsCompile(State());
      var selected := seq(|ids|, i requires 0 <= i < |ids| && ids[i] in rules reads this => rules[ids[i]]);
      var compiled := CompileRules(selected, specs, comps);
      return compiled.value;
    }
  }
}
