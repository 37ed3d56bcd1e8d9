/** The static part of an experiment run: what never changes once the row is created. */
module Runs {

  type RunId = string

  datatype RunType = Baseline | Isolation | Combination

  datatype Run = Run(
    id: RunId,
    experimentId: string,
    runType: RunType,
    frozenServices: seq<string>,
    dependsOn: seq<RunId>)
}

/**
 The run-dependency graph of an experiment and its start-time check
 (internal/model/experiment.go).
 */
module RunGraph {
  import opened Wrappers
  import opened Runs

  type Graph = map<RunId, Run>

  datatype GraphError =
    | DependencyCycle(id: RunId)
    | UnknownDependency(id: RunId, dep: RunId)
    | CrossExperiment(id: RunId, dep: RunId)
    | NoBaseline(id: RunId)

  // ----- What a valid graph is, said without any traversal -----

  predicate Edge(g: Graph, a: RunId, b: RunId) {
    a in g && b in g[a].dependsOn
  }

  ghost predicate IsPath(g: Graph, p: seq<RunId>) {
    && |p| > 0
    && forall i, j :: 0 <= i < j < |p| && j == i + 1 ==> Edge(g, p[i], p[j])
  }

  ghost predicate PathBetween(g: Graph, p: seq<RunId>, a: RunId, b: RunId) {
    IsPath(g, p) && |p| >= 2 && p[0] == a && p[|p| - 1] == b
  }

  /** b can be reached from a along one or more depends-on edges. */
  ghost predicate Reaches(g: Graph, a: RunId, b: RunId) {
    exists p :: PathBetween(g, p, a, b)
  }

  ghost predicate Acyclic(g: Graph) {
    forall id :: id in g ==> !Reaches(g, id, id)
  }

  predicate DependencyOk(g: Graph, id: RunId, dep: RunId)
    requires id in g
  {
    dep in g && g[dep].experimentId == g[id].experimentId
  }

  ghost predicate DependenciesOk(g: Graph) {
    forall id, dep :: id in g && dep in g[id].dependsOn ==> DependencyOk(g, id, dep)
  }

  predicate NeedsBaseline(r: Run) {
    r.runType != Baseline && |r.frozenServices| > 0
  }

  ghost predicate HasBaselineAncestor(g: Graph, id: RunId) {
    exists b :: b in g && g[b].runType == Baseline && Reaches(g, id, b)
  }

  /** The lookup table of a run list; a later row replaces an earlier one with the same id. */
  function ById(runs: seq<Run>): (g: Graph)
    ensures forall r :: r in runs ==> r.id in g
    ensures forall id :: id in g ==> g[id] in runs && g[id].id == id
  {
    if runs == [] then map[]
    else
      var n := |runs| - 1;
      assert runs == runs[..n] + [runs[n]];
      ById(runs[..n])[runs[n].id := runs[n]]
  }

  ghost predicate ValidRunGraph(runs: seq<Run>) {
    var g := ById(runs);
    && DependenciesOk(g)
    && Acyclic(g)
    && forall r :: r in runs && NeedsBaseline(r) ==> HasBaselineAncestor(g, r.id)
  }

  /** The error names an edge or a cycle that is really there. */
  ghost predicate GenuineInGraph(g: Graph, err: GraphError) {
    match err
    case DependencyCycle(id) => id in g && Reaches(g, id, id)
    case UnknownDependency(id, dep) => Edge(g, id, dep) && dep !in g
    case CrossExperiment(id, dep) => Edge(g, id, dep) && dep in g && g[dep].experimentId != g[id].experimentId
    case NoBaseline(_) => false
  }

  ghost predicate Genuine(runs: seq<Run>, err: GraphError) {
    match err
    case NoBaseline(id) =>
      exists r :: r in runs && r.id == id && NeedsBaseline(r) && !HasBaselineAncestor(ById(runs), id)
    case _ => GenuineInGraph(ById(runs), err)
  }

  lemma GenuineErrorsInvalidate(runs: seq<Run>, err: GraphError)
    requires Genuine(runs, err)
    ensures !ValidRunGraph(runs)
  {
    var g := ById(runs);
    match err
    case DependencyCycle(id) =>
    case UnknownDependency(id, dep) => assert id in g && dep in g[id].dependsOn && !DependencyOk(g, id, dep);
    case CrossExperiment(id, dep) => assert id in g && dep in g[id].dependsOn && !DependencyOk(g, id, dep);
    case NoBaseline(id) =>
  }

  // ----- Topological orders -----

  /** Every run in the order has only sound dependencies, all of them earlier in the order. */
  ghost predicate Settled(g: Graph, order: seq<RunId>) {
    && (forall k :: 0 <= k < |order| ==> order[k] in g)
    && forall k, dep :: 0 <= k < |order| && dep in g[order[k]].dependsOn ==>
         DependencyOk(g, order[k], dep) && dep in order[..k]
  }

  lemma SettledExtends(g: Graph, order: seq<RunId>, id: RunId)
    requires Settled(g, order) && id in g
    requires forall dep :: dep in g[id].dependsOn ==> DependencyOk(g, id, dep) && dep in order
    ensures Settled(g, order + [id])
  {
    var longer := order + [id];
    forall k, dep | 0 <= k < |longer| && dep in g[longer[k]].dependsOn
      ensures DependencyOk(g, longer[k], dep) && dep in longer[..k]
    {
      if k < |order| {
        assert longer[k] == order[k] && longer[..k] == order[..k];
      } else {
        assert longer[..k] == order;
      }
    }
  }

  /** A path out of the run at position k ends strictly before position k. */
  lemma PathDescends(g: Graph, order: seq<RunId>, k: nat, p: seq<RunId>)
    requires Settled(g, order) && k < |order|
    requires IsPath(g, p) && |p| >= 2 && p[0] == order[k]
    ensures p[|p| - 1] in order[..k]
    decreases |p|
  {
    assert Edge(g, p[0], p[1]);
    var j :| 0 <= j < k && order[j] == p[1];
    if |p| > 2 {
      var q := p[1..];
      assert forall a, b :: 0 <= a < b < |q| && b == a + 1 ==> q[a] == p[a + 1] && q[b] == p[b + 1];
      PathDescends(g, order, j, q);
      assert order[..j] <= order[..k];
    } else {
      assert order[..k][j] == p[1];
    }
  }

  ghost predicate NoRepeats(s: seq<RunId>) {
    forall i, j :: 0 <= i < j < |s| ==> s[i] != s[j]
  }

  lemma NotEarlier(order: seq<RunId>, k: nat)
    requires NoRepeats(order) && k < |order|
    ensures order[k] !in order[..k]
  {
    forall j | 0 <= j < k ensures order[..k][j] != order[k] {
      assert order[..k][j] == order[j];
    }
  }

  /** A graph whose runs can all be put in a settled order has sound dependencies and no cycle. */
  lemma SettledOrderIsSound(g: Graph, order: seq<RunId>)
    requires Settled(g, order) && NoRepeats(order)
    requires forall id :: id in g ==> id in order
    ensures DependenciesOk(g) && Acyclic(g)
  {
    forall id, dep | id in g && dep in g[id].dependsOn ensures DependencyOk(g, id, dep) {
      var k :| 0 <= k < |order| && order[k] == id;
    }
    forall id | id in g ensures !Reaches(g, id, id) {
      if Reaches(g, id, id) {
        var p :| PathBetween(g, p, id, id);
        var k :| 0 <= k < |order| && order[k] == id;
        NotEarlier(order, k);
        PathDescends(g, order, k, p);
      }
    }
  }

  // ----- Sinks: in an acyclic graph no set of runs can wait only on itself -----

  lemma NoRepeatsFits(p: seq<RunId>, s: set<RunId>)
    requires NoRepeats(p) && forall x :: x in p ==> x in s
    ensures |p| <= |s|
    decreases |p|
  {
    if p != [] {
      var n := |p| - 1;
      NotEarlier(p, n);
      forall x | x in p[..n] ensures x in s - {p[n]} {
      }
      NoRepeatsFits(p[..n], s - {p[n]});
    }
  }

  lemma FollowToSink(g: Graph, s: set<RunId>, p: seq<RunId>) returns (sink: RunId)
    requires Acyclic(g) && s <= g.Keys
    requires IsPath(g, p) && NoRepeats(p) && forall x :: x in p ==> x in s
    ensures sink in s && forall dep :: dep in g[sink].dependsOn ==> dep !in s
    decreases |s| - |p|
  {
    NoRepeatsFits(p, s);
    var last := p[|p| - 1];
    if forall dep :: dep in g[last].dependsOn ==> dep !in s {
      return last;
    }
    var dep :| dep in g[last].dependsOn && dep in s;
    PathExtends(g, p, dep);
    if dep in p {
      PathClosesCycle(g, p, dep);
      assert false;
    } else {
      NoRepeatsFits(p + [dep], s);
      sink := FollowToSink(g, s, p + [dep]);
    }
  }

  lemma SinkExists(g: Graph, s: set<RunId>) returns (sink: RunId)
    requires Acyclic(g) && s <= g.Keys && s != {}
    ensures sink in s && forall dep :: dep in g[sink].dependsOn ==> dep !in s
  {
    var start :| start in s;
    sink := FollowToSink(g, s, [start]);
  }

  // ----- The cycle check -----

  lemma PathExtends(g: Graph, p: seq<RunId>, id: RunId)
    requires IsPath(g, p) && Edge(g, p[|p| - 1], id)
    ensures IsPath(g, p + [id])
  {
  }

  /** Meeting a run that is already on the path closes a cycle. */
  lemma PathClosesCycle(g: Graph, stack: seq<RunId>, id: RunId)
    requires id in stack && IsPath(g, stack + [id])
    ensures Reaches(g, id, id)
  {
    var s :| 0 <= s < |stack| && stack[s] == id;
    var whole := stack + [id];
    var p := whole[s..];
    forall i, j | 0 <= i < j < |p| && j == i + 1 ensures Edge(g, p[i], p[j]) {
      assert p[i] == whole[s + i] && p[j] == whole[s + j];
    }
    assert PathBetween(g, p, id, id);
  }

  /** The two maps the depth-first search closes over, and the graph it walks. */
  class CycleCheck {
    const g: Graph
    var visited: set<RunId>
    var onPath: set<RunId>
    ghost var finished: seq<RunId>  // the visited runs, in the order they were finished

    ghost predicate Valid()
      reads this
    {
      && visited <= g.Keys
      && onPath <= g.Keys
      && visited !! onPath
      && (forall id :: id in visited <==> id in finished)
      && NoRepeats(finished)
      && Settled(g, finished)
    }

    constructor (g: Graph)
      ensures Valid() && this.g == g && visited == {} && onPath == {}
    {
      this.g := g;
      visited, onPath, finished := {}, {}, [];
    }

    method Dfs(id: RunId, ghost stack: seq<RunId>) returns (err: Option<GraphError>)
      requires Valid() && id in g
      requires forall x :: x in stack <==> x in onPath
      requires IsPath(g, stack + [id])
      modifies this
      ensures err.None? ==>
                Valid() && onPath == old(onPath) && old(visited) <= visited && id in visited
      ensures err.Some? ==> GenuineInGraph(g, err.value)
      decreases g.Keys - onPath
    {
      if id in onPath {
        PathClosesCycle(g, stack, id);
        return Some(DependencyCycle(id));
      }
      if id in visited {
        return None;
      }
      onPath := onPath + {id};
      var run := g[id];
      for k := 0 to |run.dependsOn|
        invariant Valid()
        invariant onPath == old(onPath) + {id}
        invariant old(visited) <= visited
        invariant forall j :: 0 <= j < k ==>
                    DependencyOk(g, id, run.dependsOn[j]) && run.dependsOn[j] in visited
      {
        var dep := run.dependsOn[k];
        assert Edge(g, id, dep);
        if dep !in g {
          return Some(UnknownDependency(id, dep));
        }
        if g[dep].experimentId != run.experimentId {
          return Some(CrossExperiment(id, dep));
        }
        PathExtends(g, stack + [id], dep);
        var inner := Dfs(dep, stack + [id]);
        if inner.Some? {
          return inner;
        }
      }
      SettledExtends(g, finished, id);
      onPath := onPath - {id};
      visited := visited + {id};
      finished := finished + [id];
      return None;
    }
  }

  // ----- The baseline check -----

  lemma EdgeReaches(g: Graph, a: RunId, b: RunId)
    requires Edge(g, a, b)
    ensures Reaches(g, a, b)
  {
    assert PathBetween(g, [a, b], a, b);
  }

  lemma EdgeThenReaches(g: Graph, a: RunId, b: RunId, c: RunId)
    requires Edge(g, a, b) && Reaches(g, b, c)
    ensures Reaches(g, a, c)
  {
    var p :| PathBetween(g, p, b, c);
    var q := [a] + p;
    forall i, j | 0 <= i < j < |q| && j == i + 1 ensures Edge(g, q[i], q[j]) {
      if i > 0 {
        assert q[i] == p[i - 1] && q[j] == p[j - 1];
      }
    }
    assert PathBetween(g, q, a, c);
  }

  /** A set closed under dependencies contains everything reachable from its members. */
  lemma ClosedContainsPath(g: Graph, closed: set<RunId>, p: seq<RunId>)
    requires IsPath(g, p) && p[0] in closed
    requires forall id, dep :: id in closed && Edge(g, id, dep) ==> dep in closed
    ensures p[|p| - 1] in closed
    decreases |p|
  {
    if |p| > 1 {
      var q := p[..|p| - 1];
      assert IsPath(g, q);
      ClosedContainsPath(g, closed, q);
      assert Edge(g, p[|p| - 2], p[|p| - 1]);
    }
  }

  class BaselineSearch {
    const g: Graph
    var seen: set<RunId>

    constructor (g: Graph)
      ensures this.g == g && seen == {}
    {
      this.g := g;
      seen := {};
    }

    /** True only for a baseline; false once everything newly seen is no baseline and leads nowhere new. */
    method Walk(cur: RunId) returns (found: bool)
      requires DependenciesOk(g) && cur in g && seen <= g.Keys
      modifies this
      ensures old(seen) <= seen <= g.Keys
      ensures found ==> g[cur].runType == Baseline || HasBaselineAncestor(g, cur)
      ensures !found ==> cur in seen
      ensures !found ==> forall id :: id in seen && id !in old(seen) ==>
                           g[id].runType != Baseline && forall dep :: dep in g[id].dependsOn ==> dep in seen
      decreases g.Keys - seen
    {
      if cur in seen {
        return false;
      }
      seen := seen + {cur};
      var r := g[cur];
      if r.runType == Baseline {
        return true;
      }
      for k := 0 to |r.dependsOn|
        invariant old(seen) + {cur} <= seen <= g.Keys
        invariant forall j :: 0 <= j < k ==> r.dependsOn[j] in seen
        invariant forall id :: id in seen && id !in old(seen) && id != cur ==>
                    g[id].runType != Baseline && forall dep :: dep in g[id].dependsOn ==> dep in seen
      {
        var dep := r.dependsOn[k];
        assert DependencyOk(g, cur, dep);
        var there := Walk(dep);
        if there {
          StepToBaseline(g, cur, dep);
          return true;
        }
      }
      return false;
    }
  }

  lemma StepToBaseline(g: Graph, id: RunId, dep: RunId)
    requires Edge(g, id, dep) && dep in g
    requires g[dep].runType == Baseline || HasBaselineAncestor(g, dep)
    ensures HasBaselineAncestor(g, id)
  {
    EdgeReaches(g, id, dep);
    if g[dep].runType != Baseline {
      var b :| b in g && g[b].runType == Baseline && Reaches(g, dep, b);
      EdgeThenReaches(g, id, dep, b);
    }
  }

  method FindBaselineAncestor(g: Graph, id: RunId) returns (found: bool)
    requires DependenciesOk(g) && id in g
    ensures found <==> HasBaselineAncestor(g, id)
  {
    var search := new BaselineSearch(g);
    var deps := g[id].dependsOn;
    for k := 0 to |deps|
      invariant search.g == g && search.seen <= g.Keys
      invariant forall j :: 0 <= j < k ==> deps[j] in search.seen
      invariant forall x :: x in search.seen ==>
                  g[x].runType != Baseline && forall dep :: dep in g[x].dependsOn ==> dep in search.seen
    {
      assert DependencyOk(g, id, deps[k]);
      var there := search.Walk(deps[k]);
      if there {
        StepToBaseline(g, id, deps[k]);
        return true;
      }
    }
    forall b | b in g && g[b].runType == Baseline ensures !Reaches(g, id, b) {
      if Reaches(g, id, b) {
        var p :| PathBetween(g, p, id, b);
        assert Edge(g, p[0], p[1]);
        var q := p[1..];
        forall i, j | 0 <= i < j < |q| && j == i + 1 ensures Edge(g, q[i], q[j]) {
          assert q[i] == p[i + 1] && q[j] == p[j + 1];
        }
        ClosedContainsPath(g, search.seen, q);
        assert false;
      }
    }
    return false;
  }

  method Index(runs: seq<Run>) returns (byId: Graph)
    ensures byId == ById(runs)
  {
    byId := map[];
    for k := 0 to |runs|
      invariant byId == ById(runs[..k])
    {
      assert runs[..k + 1][..k] == runs[..k];
      byId := byId[runs[k].id := runs[k]];
    }
    assert runs[..|runs|] == runs;
  }

  method CheckDependencies(g: Graph, runs: seq<Run>) returns (err: Option<GraphError>)
    requires forall r :: r in runs ==> r.id in g
    requires forall id :: id in g ==> exists r :: r in runs && r.id == id
    ensures err.None? ==> DependenciesOk(g) && Acyclic(g)
    ensures err.Some? ==> GenuineInGraph(g, err.value)
  {
    var check := new CycleCheck(g);
    for k := 0 to |runs|
      invariant check.Valid() && check.g == g && check.onPath == {}
      invariant forall j :: 0 <= j < k ==> runs[j].id in check.visited
    {
      assert [] + [runs[k].id] == [runs[k].id];
      err := check.Dfs(runs[k].id, []);
      if err.Some? {
        return;
      }
    }
    SettledOrderIsSound(g, check.finished);
    return None;
  }

  method CheckBaselines(g: Graph, runs: seq<Run>) returns (err: Option<GraphError>)
    requires DependenciesOk(g)
    requires forall r :: r in runs ==> r.id in g
    ensures err.None? <==> forall r :: r in runs && NeedsBaseline(r) ==> HasBaselineAncestor(g, r.id)
    ensures err.Some? ==> exists r :: r in runs && err == Some(NoBaseline(r.id)) && NeedsBaseline(r)
                                      && !HasBaselineAncestor(g, r.id)
  {
    for k := 0 to |runs|
      invariant forall j :: 0 <= j < k && NeedsBaseline(runs[j]) ==> HasBaselineAncestor(g, runs[j].id)
    {
      if NeedsBaseline(runs[k]) {
        var found := FindBaselineAncestor(g, runs[k].id);
        if !found {
          return Some(NoBaseline(runs[k].id));
        }
      }
    }
    return None;
  }

  /** The start-time check accepts exactly the valid graphs, and what it rejects it rejects for a real reason. */
  method ValidateRunGraph(runs: seq<Run>) returns (err: Option<GraphError>)
    ensures err.None? <==> ValidRunGraph(runs)
    ensures err.None? ==>
              forall r :: r in runs && r.runType != Baseline && r.frozenServices != [] ==>
                HasBaselineAncestor(ById(runs), r.id)
    ensures err.Some? ==> Genuine(runs, err.value)
    ensures err.Some? && err.value.NoBaseline? ==>
              exists r :: r in runs && r.id == err.value.id && r.runType != Baseline && r.frozenServices != []
                    && !HasBaselineAncestor(ById(runs), r.id)
  {
    var byId := Index(runs);
    err := CheckDependencies(byId, runs);
    if err.None? {
      err := CheckBaselines(byId, runs);
    }
    if err.Some? {
      GenuineErrorsInvalidate(runs, err.value);
    }
  }
}
