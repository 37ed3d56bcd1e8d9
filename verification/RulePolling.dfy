/**
 Version-tagged rule polling (internal/api/sdk_handler.go, internal/store/rule_repo.go).

 A rule mutation changes the rule table and increments the version in one transaction.
 A poll is two separate reads, the version and then the rows, and mutations may commit
 in between. Rows of one service are compared as a table; equal priorities have no
 defined order.
*/
module RulePolling {
  import opened Wrappers
  import opened Faults
  import opened Rules

  type Table = map<Id, Rule>
  type ClientId = nat

  /** One committed or rolled-back transaction on the rule store. */
  datatype Mutation =
    | Create(rule: Rule, committed: bool)
    | Update(rule: Rule, committed: bool)
    | Delete(id: Id, committed: bool)
    | Bump

  datatype Store = Store(rows: Table, version: nat)

  function Mutate(s: Store, m: Mutation): Store {
    match m
    case Create(r, committed) =>
      if ValidateRule(r).None? || r.id in s.rows || !committed then s
      else Store(s.rows[r.id := ValidateRule(r).value], s.version + 1)
    case Update(r, committed) =>
      if ValidateRule(r).None? || r.id !in s.rows || !committed then s
      else Store(s.rows[r.id := ValidateRule(r).value], s.version + 1)
    case Delete(id, committed) =>
      if id !in s.rows || !committed then s
      else Store(s.rows - {id}, s.version + 1)
    case Bump => Store(s.rows, s.version + 1)
  }

  /** The enabled rules of one service. */
  function ForService(rows: Table, service: string): Table {
    map id | id in rows && rows[id].service == service && rows[id].enabled :: rows[id]
  }

  /** What one mutation leaves in the table; every other row is as it was. */
  ghost predicate LeavesRow(before: Table, after: Table, m: Mutation) {
    match m
    case Create(r, _) =>
      && r.id !in before && r.id in after
      && RuleStored(r, after[r.id]) && OthersKept(before, after, r.id)
    case Update(r, _) =>
      && r.id in before && r.id in after
      && RuleStored(r, after[r.id]) && OthersKept(before, after, r.id)
    case Delete(id, _) => id in before && id !in after && OthersKept(before, after, id)
    case Bump => after == before
  }

  /** A mutation takes effect when its rule is valid, its id is free or taken as it needs, and it commits. */
  predicate TakesEffect(rows: Table, m: Mutation) {
    match m
    case Create(r, committed) => committed && ValidateRule(r).Some? && r.id !in rows
    case Update(r, committed) => committed && ValidateRule(r).Some? && r.id in rows
    case Delete(id, committed) => committed && id in rows
    case Bump => true
  }

  /** A mutation that takes effect bumps the version and leaves its row; any other leaves everything. */
  lemma MutationLeavesRow(s: Store, m: Mutation)
    ensures var s' := Mutate(s, m);
            if TakesEffect(s.rows, m) then s'.version == s.version + 1 && LeavesRow(s.rows, s'.rows, m)
            else s' == s
  {
  }

  datatype Response = NotModified | Rules(version: nat, rows: Table)

  /** A client holds the last version and rows it was sent; a poll under way has read a version and not yet the rows. */
  datatype Client = Client(service: string, version: nat, rows: Table, polling: Option<nat>)

  datatype World = World(store: Store, clients: map<ClientId, Client>)

  datatype Event =
    | Commit(m: Mutation)
    | Join(c: ClientId, service: string)  // a new or restarted SDK: no version, no rules
    | ReadVersion(c: ClientId)            // answers 304 at once when the versions agree
    | ReadRows(c: ClientId)               // answers 200
    | GiveUp(c: ClientId)                 // an error, or the answer is lost

  function Next(w: World, e: Event): World {
    match e
    case Commit(m) => w.(store := Mutate(w.store, m))
    case Join(c, service) => w.(clients := w.clients[c := Client(service, 0, map[], None)])
    case ReadVersion(c) =>
      if c !in w.clients || w.clients[c].polling.Some? || w.clients[c].version == w.store.version then w
      else w.(clients := w.clients[c := w.clients[c].(polling := Some(w.store.version))])
    case ReadRows(c) =>
      if c !in w.clients || w.clients[c].polling.None? then w
      else
        var cl := w.clients[c];
        w.(clients := w.clients[c := Client(cl.service, cl.polling.value, ForService(w.store.rows, cl.service), None)])
    case GiveUp(c) =>
      if c !in w.clients then w else w.(clients := w.clients[c := w.clients[c].(polling := None)])
  }

  /** The next ReadVersion of this client is answered 304. */
  predicate AnswersNotModified(w: World, c: ClientId) {
    c in w.clients && w.clients[c].polling.None? && w.clients[c].version == w.store.version
  }

  function CommitAll(w: World, ms: seq<Mutation>): World {
    if ms == [] then w else Next(CommitAll(w, ms[..|ms| - 1]), Commit(ms[|ms| - 1]))
  }

  lemma {:induction false} CommitsKeepClients(w: World, ms: seq<Mutation>)
    ensures CommitAll(w, ms).clients == w.clients && CommitAll(w, ms).store == MutateAll(w.store, ms)
    decreases |ms|
  {
    if ms != [] {
      CommitsKeepClients(w, ms[..|ms| - 1]);
    }
  }

  /**
   A poll from end to end, whatever commits between its two reads: a client whose version differs gets
   the version of the first read and exactly the enabled rows of its service at the second.
  */
  lemma PollDelivers(w: World, c: ClientId, ms: seq<Mutation>)
    requires c in w.clients && w.clients[c].polling.None? && w.clients[c].version != w.store.version
    ensures var w' := Next(CommitAll(Next(w, ReadVersion(c)), ms), ReadRows(c));
            && w'.store == MutateAll(w.store, ms) && c in w'.clients
            && var before, after, stored := w.clients[c], w'.clients[c], w'.store.rows;
               && after.version == w.store.version && after.service == before.service && after.polling.None?
               && (forall id :: id in after.rows <==>
                     id in stored && stored[id].service == before.service && stored[id].enabled)
               && (forall id :: id in after.rows ==> after.rows[id] == stored[id])
  {
    CommitsKeepClients(Next(w, ReadVersion(c)), ms);
  }

  /** Only its own events change a client, a poll under way keeps its version, and only commits change the store. */
  lemma EventsTouchOneClient(w: World, e: Event, c: ClientId)
    ensures !e.Commit? ==> Next(w, e).store == w.store
    ensures c in w.clients && (e.Commit? || e.c != c) ==>
              c in Next(w, e).clients && Next(w, e).clients[c] == w.clients[c]
    ensures e == ReadVersion(c) && c in w.clients && w.clients[c].polling.Some? ==> Next(w, e) == w
    ensures e == GiveUp(c) && c in w.clients ==>
              c in Next(w, e).clients && Next(w, e).clients[c] == w.clients[c].(polling := None)
    ensures e.Join? && e.c == c ==>
              c in Next(w, e).clients && Next(w, e).clients[c] == Client(e.service, 0, map[], None)
  {
  }

  /** The rule table at every version so far. */
  type History = seq<Table>

  function Extend(h: History, before: Store, after: Store): History {
    if after.version > before.version then h + [after.rows] else h
  }

  /** The rows are those of the service at some version that is not older than the tag. */
  ghost predicate SnapshotNotOlder(h: History, rows: Table, service: string, tag: nat) {
    exists v :: tag <= v < |h| && rows == ForService(h[v], service)
  }

  ghost predicate Inv(w: World, h: History) {
    && |h| == w.store.version + 1
    && h[0] == map[]
    && h[w.store.version] == w.store.rows
    && forall c :: c in w.clients ==> ClientOk(w.clients[c], h)
  }

  ghost predicate ClientOk(cl: Client, h: History) {
    && SnapshotNotOlder(h, cl.rows, cl.service, cl.version)
    && (cl.polling.Some? ==> cl.version < cl.polling.value < |h|)
  }

  lemma ClientStaysOk(cl: Client, h: History, h': History)
    requires ClientOk(cl, h) && h <= h'
    ensures ClientOk(cl, h')
  {
    var v :| cl.version <= v < |h| && cl.rows == ForService(h[v], cl.service);
    assert h'[v] == h[v];
  }

  lemma StepKeepsInv(w: World, h: History, e: Event)
    requires Inv(w, h)
    ensures Inv(Next(w, e), Extend(h, w.store, Next(w, e).store))
  {
    var w' := Next(w, e);
    var h' := Extend(h, w.store, w'.store);
    assert h <= h';
    forall c | c in w'.clients ensures ClientOk(w'.clients[c], h') {
      if c in w.clients {
        ClientStaysOk(w.clients[c], h, h');
      }
      match e
      case Commit(_) =>
      case Join(d, service) =>
        if c == d {
          assert ForService(h'[0], service) == map[];
        }
      case ReadVersion(d) =>
        if c == d {
          var v :| w.clients[c].version <= v < |h| && w.clients[c].rows == ForService(h[v], w.clients[c].service);
          assert w.clients[c].version <= w.store.version;
          assert h'[v] == h[v];
        }
      case ReadRows(d) =>
        if c == d && w.clients[c].polling.Some? {
          assert w'.clients[c].rows == ForService(h'[w.store.version], w.clients[c].service);
        }
      case GiveUp(_) =>
    }
  }

  /** A 304 is only ever sent to a client whose last-received rows are the current rows of its service. */
  lemma NotModifiedMeansCurrent(w: World, h: History, c: ClientId)
    requires Inv(w, h) && AnswersNotModified(w, c)
    ensures w.clients[c].rows == ForService(w.store.rows, w.clients[c].service)
  {
    var cl := w.clients[c];
    var v :| cl.version <= v < |h| && cl.rows == ForService(h[v], cl.service);
    assert v == w.store.version;
  }

  ghost predicate IsRun(ws: seq<World>, es: seq<Event>) {
    && |ws| == |es| + 1
    && ws[0] == World(Store(map[], 0), map[])
    && forall k :: 0 <= k < |es| ==> Follows(ws[k], es[k], ws[k + 1])
  }

  predicate Follows(w: World, e: Event, w': World) {
    w' == Next(w, e)
  }

  lemma {:induction false} RunHasHistory(ws: seq<World>, es: seq<Event>, k: nat) returns (h: History)
    requires IsRun(ws, es) && k < |ws|
    ensures Inv(ws[k], h)
    decreases k
  {
    if k == 0 {
      h := [map[]];
    } else {
      h := RunHasHistory(ws, es, k - 1);
      assert Follows(ws[k - 1], es[k - 1], ws[k]);
      StepKeepsInv(ws[k - 1], h, es[k - 1]);
      h := Extend(h, ws[k - 1].store, ws[k].store);
    }
  }

  /**
   From an empty store, under every interleaving of any number of polls and mutations: whenever a
   client is answered 304 it already holds the current rows of its service.
  */
  lemma EveryNotModifiedIsCurrent(ws: seq<World>, es: seq<Event>, k: nat, c: ClientId)
    requires IsRun(ws, es) && k < |ws| && AnswersNotModified(ws[k], c)
    ensures ws[k].clients[c].rows == ForService(ws[k].store.rows, ws[k].clients[c].service)
    ensures var held, stored, service := ws[k].clients[c].rows, ws[k].store.rows, ws[k].clients[c].service;
            && (forall id :: id in held <==> id in stored && stored[id].service == service && stored[id].enabled)
            && (forall id :: id in held ==> held[id] == stored[id])
  {
    var h := RunHasHistory(ws, es, k);
    NotModifiedMeansCurrent(ws[k], h, c);
  }

  /** Until it restarts, the versions a client is sent strictly increase, and the store never falls behind them. */
  lemma VersionsIncrease(ws: seq<World>, es: seq<Event>, k: nat, c: ClientId)
    requires IsRun(ws, es) && k < |es| && c in ws[k].clients
    requires !(es[k].Join? && es[k].c == c)
    ensures c in ws[k + 1].clients
    ensures ws[k].clients[c].version <= ws[k + 1].clients[c].version <= ws[k + 1].store.version
    ensures es[k] == ReadRows(c) && ws[k].clients[c].polling.Some? ==>
        ws[k].clients[c].version < ws[k + 1].clients[c].version
  {
    var h := RunHasHistory(ws, es, k);
    assert Follows(ws[k], es[k], ws[k + 1]);
    StepKeepsInv(ws[k], h, es[k]);
    assert ClientOk(ws[k].clients[c], h);
    assert ClientOk(ws[k + 1].clients[c], Extend(h, ws[k].store, ws[k + 1].store));
  }

  // ----- The repository and the handler -----

  class RuleServer {
    var rows: Table
    var version: nat

    ghost function State(): Store
      reads this
    {
      Store(rows, version)
    }

    constructor ()
      ensures State() == Store(map[], 0)
    {
      rows, version := map[], 0;
    }

    /** One transaction: the row change and the version bump commit together or not at all. */
    method Transact(m: Mutation) returns (changed: bool)
      modifies this
      ensures State() == Mutate(old(State()), m)
      ensures changed <==> version == old(version) + 1
      ensures changed <==> TakesEffect(old(rows), m)
      ensures !changed ==> State() == old(State())
      ensures changed ==> LeavesRow(old(rows), rows, m)
    {
      MutationLeavesRow(State(), m);
      match m {
      case Create(r, committed) =>
        var valid := ValidateRule(r);
        if valid.None? || r.id in rows || !committed {
          return false;
        }
        rows := rows[r.id := valid.value];
      case Update(r, committed) =>
        var valid := ValidateRule(r);
        if valid.None? || r.id !in rows || !committed {
          return false;
        }
        rows := rows[r.id := valid.value];
      case Delete(id, committed) =>
        if id !in rows || !committed {
          return false;
        }
        rows := rows - {id};
      case Bump =>
      }
      version := version + 1;
      return true;
    }

    /**
     The poll handler; between is whatever commits between its two reads. A 200 carries the version
     of the first read and the rows of the second, which is the tag and snapshot the clients above get.
    */
    method HandlePoll(service: string, requested: nat, between: seq<Mutation>) returns (r: Response)
      modifies this
      ensures r.NotModified? <==> requested == old(version)
      ensures r.NotModified? ==> State() == old(State())
      ensures r.Rules? ==> State() == MutateAll(old(State()), between)
      ensures r.Rules? ==> r.version == old(version) && r.version <= version && r.rows == ForService(rows, service)
      ensures r.Rules? ==>
                forall id :: id in r.rows <==> id in rows && rows[id].service == service && rows[id].enabled
      ensures r.Rules? ==> forall id :: id in r.rows ==> r.rows[id] == rows[id]
    {
      var currentVersion := version;
      if requested == currentVersion {
        return NotModified;
      }
      for i := 0 to |between|
        invariant State() == MutateAll(old(State()), between[..i])
        invariant currentVersion <= version
      {
        var _ := Transact(between[i]);
        assert between[..i + 1][..i] == between[..i];
      }
      assert between[..|between|] == between;
      return Rules(currentVersion, ForService(rows, service));
    }
  }

  function MutateAll(s: Store, ms: seq<Mutation>): Store {
    if ms == [] then s
    else Mutate(MutateAll(s, ms[..|ms| - 1]), ms[|ms| - 1])
  }
}
