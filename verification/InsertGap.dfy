/**
 A composition is validated before, not inside, the transaction that inserts it
 (internal/api/fault_handler.go). Other writes can come in between; this is a history in which they
 make the tree of a validated composition too deep.
*/
module InsertGap {
  import opened Wrappers
  import opened Faults
  import opened CompositionTree
  import opened Incompatibility
  import opened CompositionValidator
  import opened RuleConv
  import opened FaultStore
  import opened SpecChange

  const NO_TIMING := Timing(0, 0, 0)

  function Spec(): FaultSpec {
    FaultSpec("s", "s", "inline", "error", "", None, "{}", NO_TIMING)
  }

  /** A sequential group of the spec and either the spec again or a child. */
  function Group(id: Id, child: Id): Composition {
    Composition(id, id, SEQUENTIAL, NO_TIMING,
                [Member("s", "", ""), if child == "" then Member("s", "", "") else Member("", child, "")])
  }

  lemma GroupFitsIff(id: Id, child: Id, comps: Compositions, levels: nat)
    requires levels > 0
    ensures Fits(Group(id, child), comps, levels) <==>
              child == "" || (child in comps && Fits(comps[child], comps, levels - 1))
  {
    var g := Group(id, child);
    assert g.members[1] in g.members;
  }

  function StoreOf(comps: Compositions): Db {
    Db(map["s" := Spec()], comps, map[])
  }

  lemma SequentialIsNeverHard(specs: seq<FaultSpec>)
    requires forall i :: 0 <= i < |specs| ==> ValidSpec(specs[i])
    ensures !AnyHardPair(TypeNames(specs), PairsOf(DefaultConstraints()), SEQUENTIAL)
  {
    var names, rules := TypeNames(specs), PairsOf(DefaultConstraints());
    forall i, j | 0 <= i < j < |names| ensures !HardPair(names[i], names[j], rules, SEQUENTIAL) {
      if HardPair(names[i], names[j], rules, SEQUENTIAL) {
        HardPairsAreNetwork(specs[i], specs[j], SEQUENTIAL);
      }
    }
  }

  lemma GroupIsFine(comps: Compositions, id: Id, child: Id)
    requires Inv(StoreOf(comps)) && id != "" && Fits(Group(id, child), comps, MAX_DEPTH)
    ensures Accepts(Group(id, child), StoreOf(comps).specs, comps)
  {
    var db, g := StoreOf(comps), Group(id, child);
    LeavesExist(g.members, db.specs, comps, MAX_DEPTH);
    LeavesAfterChange(g.members, db.specs, comps, MAX_DEPTH, "s", Spec());
    SequentialIsNeverHard(LeafSpecs(g, db.specs, comps, MAX_DEPTH).value);
  }

  /** A group that fits is accepted and stored. */
  lemma GroupIsAccepted(comps: Compositions, id: Id, child: Id)
    requires Inv(StoreOf(comps)) && id != "" && Fits(Group(id, child), comps, MAX_DEPTH)
    ensures Accepts(Group(id, child), StoreOf(comps).specs, comps)
    ensures id !in comps ==>
              && Apply(StoreOf(comps), CreateComposition(Group(id, child))) ==
                  (StoreOf(comps[id := Group(id, child)]), None)
              && Inv(StoreOf(comps[id := Group(id, child)]))
  {
    var db, g := StoreOf(comps), Group(id, child);
    GroupIsFine(comps, id, child);
    AcceptedIsSound(g, db.specs, comps);
    if id !in comps {
      ApplyKeepsInv(db, CreateComposition(g));
    }
  }

  function NoGroups(): Compositions {
    map[]
  }

  function Before(): Compositions {
    map["x" := Group("x", "")]
  }

  function Z(): Compositions {
    map["z" := Group("z", "")]
  }

  function Y(): Compositions {
    Z()["y" := Group("y", "z")]
  }

  function After(): Compositions {
    Y()["x" := Group("x", "y")]
  }

  lemma BeforeGap()
    ensures var ops := [CreateSpec(Spec()), CreateComposition(Group("x", ""))];
            ApplyAll(Db(map[], map[], map[]), ops) == StoreOf(Before())
    ensures Inv(StoreOf(Before())) && Accepts(Group("c", "x"), StoreOf(Before()).specs, Before())
  {
    var empty := Db(map[], map[], map[]);
    EmptyStoreIsSound();
    assert ValidSpec(Spec());
    ApplyKeepsInv(empty, CreateSpec(Spec()));
    assert Apply(empty, CreateSpec(Spec())) == (StoreOf(map[]), None);
    GroupFitsIff("x", "", map[], MAX_DEPTH);
    GroupIsAccepted(map[], "x", "");
    assert NoGroups()["x" := Group("x", "")] == Before();
    var ops := [CreateSpec(Spec()), CreateComposition(Group("x", ""))];
    assert ops[1..] == [ops[1]] && [ops[1]][1..] == [];
    GroupFitsIff("x", "", Before(), 2);
    GroupFitsIff("c", "x", Before(), MAX_DEPTH);
    GroupIsAccepted(Before(), "c", "x");
  }

  function GapOps(): seq<Op> {
    [DeleteComposition("x", false), CreateComposition(Group("z", "")), CreateComposition(Group("y", "z")),
     CreateComposition(Group("x", "y"))]
  }

  lemma NobodyRefersToX()
    ensures !CompositionReferenced(StoreOf(Before()), "x")
  {
  }

  lemma DeleteX()
    ensures Apply(StoreOf(Before()), DeleteComposition("x", false)) == (StoreOf(NoGroups()), None)
        && Inv(StoreOf(NoGroups()))
  {
    BeforeGap();
    assert Before() - {"x"} == NoGroups();
    NobodyRefersToX();
    ApplyKeepsInv(StoreOf(Before()), DeleteComposition("x", false));
  }

  lemma CreateZ()
    ensures Apply(StoreOf(NoGroups()), CreateComposition(Group("z", ""))) == (StoreOf(Z()), None) && Inv(StoreOf(Z()))
  {
    DeleteX();
    GroupFitsIff("z", "", NoGroups(), MAX_DEPTH);
    GroupIsAccepted(NoGroups(), "z", "");
    assert NoGroups()["z" := Group("z", "")] == Z();
  }

  lemma CreateY()
    ensures Apply(StoreOf(Z()), CreateComposition(Group("y", "z"))) == (StoreOf(Y()), None) && Inv(StoreOf(Y()))
  {
    CreateZ();
    GroupFitsIff("z", "", Z(), 2);
    GroupFitsIff("y", "z", Z(), MAX_DEPTH);
    GroupIsAccepted(Z(), "y", "z");
  }

  lemma CreateX()
    ensures Apply(StoreOf(Y()), CreateComposition(Group("x", "y"))) == (StoreOf(After()), None) && Inv(StoreOf(After()))
  {
    CreateY();
    GroupFitsIff("z", "", Y(), 1);
    GroupFitsIff("y", "z", Y(), 2);
    GroupFitsIff("x", "y", Y(), MAX_DEPTH);
    GroupIsAccepted(Y(), "x", "y");
  }

  lemma FourWrites(db: Db, a: Op, b: Op, c: Op, d: Op)
    ensures ApplyAll(db, [a, b, c, d]) == Apply(Apply(Apply(Apply(db, a).0, b).0, c).0, d).0
  {
    assert [a, b, c, d][1..] == [b, c, d] && [b, c, d][1..] == [c, d] && [c, d][1..] == [d] && [d][1..] == [];
    assert ApplyAll(db, [a, b, c, d]) == ApplyAll(Apply(db, a).0, [b, c, d]);
    assert ApplyAll(Apply(db, a).0, [b, c, d]) == ApplyAll(Apply(Apply(db, a).0, b).0, [c, d]);
    assert ApplyAll(Apply(Apply(db, a).0, b).0, [c, d]) == ApplyAll(Apply(Apply(Apply(db, a).0, b).0, c).0, [d]);
  }

  lemma Gap()
    ensures ApplyAll(StoreOf(Before()), GapOps()) == StoreOf(After()) && Inv(StoreOf(After()))
  {
    DeleteX();
    CreateZ();
    CreateY();
    CreateX();
    FourWrites(StoreOf(Before()), DeleteComposition("x", false), CreateComposition(Group("z", "")),
               CreateComposition(Group("y", "z")), CreateComposition(Group("x", "y")));
  }

  lemma TooDeepNow()
    ensures !Fits(Group("c", "x"), After(), MAX_DEPTH) && "x" in After() && "c" !in After()
  {
    GroupFitsIff("y", "z", After(), 1);
    GroupFitsIff("x", "y", After(), 2);
    GroupFitsIff("c", "x", After(), MAX_DEPTH);
  }

  lemma KeysAreThere(comps: Compositions, id: Id, child: Id)
    requires id != "" && id !in comps && child in comps
    ensures Apply(StoreOf(comps), InsertComposition(Group(id, child))).1.None?
  {
    assert ValidComposition(Group(id, child));
  }

  /** The insert is accepted, the store is no longer sound, and the inserted composition does not compile. */
  ghost predicate InsertBreaks(db: Db, c: Composition) {
    var (end, err) := Apply(db, InsertComposition(c));
    err.None? && !Inv(end) && Resolve(c.id, end.specs, end.comps, 0).Err?
  }

  /** The database lets a group in whose child is there, however deep the child is. */
  lemma UnfitGroupGetsIn(comps: Compositions, id: Id, child: Id)
    requires Inv(StoreOf(comps)) && id != "" && id !in comps && child in comps
    requires !Fits(Group(id, child), comps, MAX_DEPTH)
    ensures InsertBreaks(StoreOf(comps), Group(id, child))
  {
    KeysAreThere(comps, id, child);
    InsertIsSafeIff(StoreOf(comps), Group(id, child));
  }

  /**
   Composition c over x is accepted; then x is deleted and created again over y over z, every write
   accepted; then c is inserted, every key of it in place, and does not compile.
  */
  lemma ValidatedInsertCanBreakTheStore()
    ensures var c := Group("c", "x");
            var before := ApplyAll(Db(map[], map[], map[]), [CreateSpec(Spec()), CreateComposition(Group("x", ""))]);
            var after := ApplyAll(before, GapOps());
            Accepts(c, before.specs, before.comps) && Inv(after) && InsertBreaks(after, c)
  {
    BeforeGap();
    Gap();
    TooDeepNow();
    UnfitGroupGetsIn(After(), "c", "x");
  }
}
