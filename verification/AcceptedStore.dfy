/**
 Which histories of writes keep every stored composition acceptable (internal/store/fault_repo.go,
 internal/model/composition_validate.go).
*/
module AcceptedStore {
  import opened Wrappers
  import opened Faults
  import opened CompositionTree
  import opened Incompatibility
  import opened CompositionValidator
  import opened FaultStore
  import opened SpecChange

  // ----- A verdict only depends on the rows its tree uses -----

  ghost predicate Within<V>(small: map<Id, V>, large: map<Id, V>) {
    forall id :: id in small ==> id in large && large[id] == small[id]
  }

  lemma MembersFitInLarger(members: seq<Member>, comps: Compositions, comps': Compositions, levels: nat)
    requires MembersFit(members, comps, levels) && Within(comps, comps')
    ensures MembersFit(members, comps', levels)
  {
    forall m | m in members && m.childId != ""
      ensures m.childId in comps' && Fits(comps'[m.childId], comps', levels - 1)
    {
      FitsInLargerStore(comps[m.childId], comps, comps', levels - 1);
    }
  }

  lemma {:induction false} LeavesInLarger(members: seq<Member>, specs: Specs, comps: Compositions,
                                          specs': Specs, comps': Compositions, levels: nat)
    requires MembersFit(members, comps, levels) && MembersFit(members, comps', levels)
    requires Within(specs, specs') && Within(comps, comps')
    requires MemberLeaves(members, specs, comps, levels).Ok?
    ensures MemberLeaves(members, specs', comps', levels) == MemberLeaves(members, specs, comps, levels)
    decreases levels, |members|
  {
    if members != [] {
      var m := members[0];
      assert m in members && members == [m] + members[1..];
      if m.faultSpecId == "" && m.childId != "" {
        assert comps'[m.childId] == comps[m.childId] && Fits(comps'[m.childId], comps', levels - 1);
        assert LeafSpecs(comps[m.childId], specs, comps, levels - 1).Ok?;
        LeavesInLarger(comps[m.childId].members, specs, comps, specs', comps', levels - 1);
      }
      assert OneLeaves(m, specs', comps', levels) == OneLeaves(m, specs, comps, levels);
      LeavesInLarger(members[1..], specs, comps, specs', comps', levels);
    }
  }

  lemma {:induction false} NetworkInLarger(members: seq<Member>, specs: Specs, comps: Compositions,
                                           specs': Specs, comps': Compositions, levels: nat)
    requires MembersFit(members, comps, levels) && MembersFit(members, comps', levels)
    requires Within(specs, specs') && Within(comps, comps')
    requires NetworkOf(members, specs, comps, levels).Ok?
    ensures NetworkOf(members, specs', comps', levels) == NetworkOf(members, specs, comps, levels)
    decreases levels, |members|
  {
    if members != [] {
      var m := members[0];
      assert m in members && members == [m] + members[1..];
      if m.faultSpecId == "" && m.childId != "" {
        assert comps'[m.childId] == comps[m.childId] && Fits(comps'[m.childId], comps', levels - 1);
        assert NetworkMembers(comps[m.childId], specs, comps, levels - 1).Ok?;
        NetworkInLarger(comps[m.childId].members, specs, comps, specs', comps', levels - 1);
      }
      assert NetworkOfOne(m, specs', comps', levels) == NetworkOfOne(m, specs, comps, levels);
      NetworkInLarger(members[1..], specs, comps, specs', comps', levels);
    }
  }

  /** More stored specs and compositions never change the verdict on a tree whose rows are all there. */
  lemma VerdictInLarger(c: Composition, specs: Specs, comps: Compositions, specs': Specs, comps': Compositions)
    requires Fits(c, comps, MAX_DEPTH) && LeafSpecs(c, specs, comps, MAX_DEPTH).Ok?
    requires Within(specs, specs') && Within(comps, comps')
    ensures Accepts(c, specs', comps') <==> Accepts(c, specs, comps)
  {
    MembersFitInLarger(c.members, comps, comps', MAX_DEPTH);
    assert Fits(c, comps', MAX_DEPTH);
    LeavesInLarger(c.members, specs, comps, specs', comps', MAX_DEPTH);
    assert LeafSpecs(c, specs', comps', MAX_DEPTH) == LeafSpecs(c, specs, comps, MAX_DEPTH);
    WalksAgreeOnNetwork(c.members, specs, comps, MAX_DEPTH);
    NetworkInLarger(c.members, specs, comps, specs', comps', MAX_DEPTH);
    assert NetworkMembers(c, specs', comps', MAX_DEPTH) == NetworkMembers(c, specs, comps, MAX_DEPTH);
  }

  // ----- Writes -----

  ghost predicate AllAccepted(db: Db) {
    Inv(db) && forall id :: id in db.comps ==> Accepts(db.comps[id], db.specs, db.comps)
  }

  /** An update of a spec is a safe change, and an insert is of a composition the validator accepts at that moment. */
  predicate Careful(db: Db, op: Op) {
    match op
    case UpdateSpec(s) => s.id in db.specs ==> SafeChange(db.specs[s.id], s)
    case InsertComposition(c) => Accepts(c, db.specs, db.comps)
    case _ => true
  }

  lemma StoredVerdictInLarger(db: Db, specs': Specs, comps': Compositions, id: Id)
    requires Inv(db) && id in db.comps && Within(db.specs, specs') && Within(db.comps, comps')
    ensures Accepts(db.comps[id], specs', comps') <==> Accepts(db.comps[id], db.specs, db.comps)
  {
    LeavesExist(db.comps[id].members, db.specs, db.comps, MAX_DEPTH);
    VerdictInLarger(db.comps[id], db.specs, db.comps, specs', comps');
  }

  /** A write that only adds rows. */
  lemma GrowingKeepsAccepted(db: Db, db': Db)
    requires AllAccepted(db) && Inv(db') && Within(db.specs, db'.specs) && db'.comps == db.comps
    ensures AllAccepted(db')
  {
    forall id | id in db'.comps ensures Accepts(db'.comps[id], db'.specs, db'.comps) {
      StoredVerdictInLarger(db, db'.specs, db'.comps, id);
    }
  }

  /** A write that only removes rows, and leaves a sound store. */
  lemma ShrinkingKeepsAccepted(db: Db, db': Db)
    requires AllAccepted(db) && Inv(db') && Within(db'.specs, db.specs) && Within(db'.comps, db.comps)
    ensures AllAccepted(db')
  {
    forall id | id in db'.comps ensures Accepts(db'.comps[id], db'.specs, db'.comps) {
      StoredVerdictInLarger(db', db.specs, db.comps, id);
    }
  }

  lemma InsertKeepsAccepted(db: Db, c: Composition)
    requires AllAccepted(db) && c.id !in db.comps && Accepts(c, db.specs, db.comps)
    ensures AllAccepted(db.(comps := db.comps[c.id := c]))
  {
    AcceptedIsSound(c, db.specs, db.comps);
    CreateCompositionKeepsInv(db, c);
    var comps' := db.comps[c.id := c];
    forall id | id in comps' ensures Accepts(comps'[id], db.specs, comps') {
      if id == c.id {
        VerdictInLarger(c, db.specs, db.comps, db.specs, comps');
      } else {
        StoredVerdictInLarger(db, db.specs, comps', id);
      }
    }
  }

  lemma UpdateKeepsAccepted(db: Db, s: FaultSpec)
    requires AllAccepted(db) && ValidSpec(s) && s.id in db.specs && SafeChange(db.specs[s.id], s)
    ensures AllAccepted(db.(specs := db.specs[s.id := AsStored(s)]))
  {
    SpecWriteKeepsInv(db, s);
    forall id | id in db.comps ensures Accepts(db.comps[id], db.specs[s.id := AsStored(s)], db.comps) {
      SafeChangeKeepsVerdict(db.comps[id], db.specs, db.comps, s.id, s);
      SameTypeSameVerdict(db.comps[id], db.specs, db.comps, s);
    }
  }

  lemma SpecOpKeepsAccepted(db: Db, op: Op)
    requires AllAccepted(db) && Careful(db, op) && (op.CreateSpec? || op.UpdateSpec? || op.DeleteSpec?)
    requires Apply(db, op).1.None?
    ensures AllAccepted(Apply(db, op).0)
  {
    if op.UpdateSpec? {
      UpdateKeepsAccepted(db, op.spec);
    } else {
      ApplyKeepsInv(db, op);
      if op.CreateSpec? {
        GrowingKeepsAccepted(db, Apply(db, op).0);
      } else {
        ShrinkingKeepsAccepted(db, Apply(db, op).0);
      }
    }
  }

  lemma CompositionOpKeepsAccepted(db: Db, op: Op)
    requires AllAccepted(db) && Careful(db, op)
    requires op.CreateComposition? || op.InsertComposition? || op.DeleteComposition?
    requires Apply(db, op).1.None?
    ensures AllAccepted(Apply(db, op).0)
  {
    if op.DeleteComposition? {
      ApplyKeepsInv(db, op);
      ShrinkingKeepsAccepted(db, Apply(db, op).0);
    } else {
      InsertKeepsAccepted(db, op.comp);
    }
  }

  lemma CarefulWriteKeepsAccepted(db: Db, op: Op)
    requires AllAccepted(db) && Careful(db, op)
    ensures AllAccepted(Apply(db, op).0)
  {
    RefusedChangesNothing(db, op);
    if Apply(db, op).1.None? {
      if op.CreateSpec? || op.UpdateSpec? || op.DeleteSpec? {
        SpecOpKeepsAccepted(db, op);
      } else if op.CreateComposition? || op.InsertComposition? || op.DeleteComposition? {
        CompositionOpKeepsAccepted(db, op);
      } else {
        RuleOpKeepsInv(db, op);
        GrowingKeepsAccepted(db, Apply(db, op).0);
      }
    }
  }

  predicate CarefulHistory(db: Db, ops: seq<Op>)
    decreases |ops|
  {
    ops == [] || (Careful(db, ops[0]) && CarefulHistory(Apply(db, ops[0]).0, ops[1..]))
  }

  lemma {:induction false} CarefulHistoryKeepsAccepted(db: Db, ops: seq<Op>)
    requires AllAccepted(db) && CarefulHistory(db, ops)
    ensures AllAccepted(ApplyAll(db, ops))
    decreases |ops|
  {
    if ops != [] {
      CarefulWriteKeepsAccepted(db, ops[0]);
      CarefulHistoryKeepsAccepted(Apply(db, ops[0]).0, ops[1..]);
    }
  }

  /**
   From an empty store, if every spec update is a safe change and every late insert is of a composition
   that is accepted at its moment, then after every history every stored composition is still accepted;
   so every stored parallel composition has at most three network leaves, and only one if one of them
   is a blackhole.
  */
  lemma CarefulStoresStayAccepted(ops: seq<Op>, id: Id)
    requires CarefulHistory(Db(map[], map[], map[]), ops)
    ensures var end := ApplyAll(Db(map[], map[], map[]), ops);
            && AllAccepted(end)
            && (id in end.comps && end.comps[id].mode == PARALLEL ==>
                  var leaves := LeafSpecs(end.comps[id], end.specs, end.comps, MAX_DEPTH).value;
                  && |NetworkOnly(leaves)| <= 3
                  && forall i, j :: 0 <= i < j < |leaves|
                                    && leaves[i].category == "network" && leaves[j].category == "network" ==>
                       leaves[i].faultType != "blackhole" && leaves[j].faultType != "blackhole")
  {
    var empty := Db(map[], map[], map[]);
    EmptyStoreIsSound();
    CarefulHistoryKeepsAccepted(empty, ops);
    var end := ApplyAll(empty, ops);
    if id in end.comps && end.comps[id].mode == PARALLEL {
      DirectionsAreValid(end);
      AcceptedParallelIsNarrow(end.comps[id], end.specs, end.comps);
    }
  }

  lemma DirectionsAreValid(db: Db)
    requires Inv(db)
    ensures DirectionsValid(db.comps)
  {
    forall id | id in db.comps ensures forall m :: m in db.comps[id].members ==> ValidDirection(m.direction) {
      assert ValidComposition(db.comps[id]);
    }
  }
}
