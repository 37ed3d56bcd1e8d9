/**
 One subscriber's channel of the SSE broker (internal/api/sse_broker.go), over every history of
 non-blocking sends and receives.
*/
module EventChannel {

  datatype Event = Event(kind: string, data: string)

  datatype Op = Offer(event: Event) | Take

  /** What the reader has taken so far, and what is still buffered. */
  datatype Ends = Ends(received: seq<Event>, buffer: seq<Event>)

  const CAPACITY := 16

  function Play(ends: Ends, op: Op): Ends {
    match op
    case Offer(e) => if |ends.buffer| < CAPACITY then ends.(buffer := ends.buffer + [e]) else ends
    case Take => if ends.buffer == [] then ends else Ends(ends.received + [ends.buffer[0]], ends.buffer[1..])
  }

  function After(ops: seq<Op>): Ends {
    if ops == [] then Ends([], []) else Play(After(ops[..|ops| - 1]), ops[|ops| - 1])
  }

  lemma AfterOneMore(ops: seq<Op>, op: Op)
    ensures After(ops + [op]) == Play(After(ops), op)
  {
    assert (ops + [op])[..|ops|] == ops;
  }

  function Offers(ops: seq<Op>): seq<Event> {
    if ops == [] then []
    else
      var before := Offers(ops[..|ops| - 1]);
      if ops[|ops| - 1].Offer? then before + [ops[|ops| - 1].event] else before
  }

  /** The offered events that found fewer than CAPACITY events buffered. */
  function OffersWithRoom(ops: seq<Op>): seq<Event> {
    if ops == [] then []
    else
      var rest, op := ops[..|ops| - 1], ops[|ops| - 1];
      OffersWithRoom(rest) + if op.Offer? && |After(rest).buffer| < CAPACITY then [op.event] else []
  }

  /** How many offers found CAPACITY events buffered. */
  function OffersToFull(ops: seq<Op>): nat {
    if ops == [] then 0
    else
      var rest := ops[..|ops| - 1];
      OffersToFull(rest) + (if ops[|ops| - 1].Offer? && |After(rest).buffer| == CAPACITY then 1 else 0)
  }

  /** a can be obtained from b by leaving events out, without reordering. */
  ghost predicate Subsequence(a: seq<Event>, b: seq<Event>)
    decreases |b|
  {
    || a == []
    || (b != [] && a[|a| - 1] == b[|b| - 1] && Subsequence(a[..|a| - 1], b[..|b| - 1]))
    || (b != [] && Subsequence(a, b[..|b| - 1]))
  }

  lemma SubsequenceGrows(a: seq<Event>, b: seq<Event>, e: Event)
    requires Subsequence(a, b)
    ensures Subsequence(a + [e], b + [e]) && Subsequence(a, b + [e])
  {
    assert (a + [e])[..|a|] == a && (b + [e])[..|b|] == b;
  }

  lemma {:induction false} SubsequenceIsNoLonger(a: seq<Event>, b: seq<Event>)
    requires Subsequence(a, b)
    ensures |a| <= |b| && (|a| == |b| ==> a == b)
    decreases |b|
  {
    if a != [] {
      var a', b' := a[..|a| - 1], b[..|b| - 1];
      if a[|a| - 1] == b[|b| - 1] && Subsequence(a', b') {
        SubsequenceIsNoLonger(a', b');
        assert a == a' + [a[|a| - 1]] && b == b' + [b[|b| - 1]];
      } else {
        SubsequenceIsNoLonger(a, b');
      }
    }
  }

  function Kept(ends: Ends): seq<Event> {
    ends.received + ends.buffer
  }

  lemma PlayKeepsOrder(ends: Ends, op: Op, offers: seq<Event>)
    requires Subsequence(Kept(ends), offers)
    ensures Subsequence(Kept(Play(ends, op)), if op.Offer? then offers + [op.event] else offers)
  {
    match op
    case Offer(e) =>
      SubsequenceGrows(Kept(ends), offers, e);
      assert ends.received + (ends.buffer + [e]) == Kept(ends) + [e];
    case Take =>
      assert Kept(Play(ends, op)) == Kept(ends);
  }

  lemma {:induction false} OrderIsKept(ops: seq<Op>)
    ensures Subsequence(Kept(After(ops)), Offers(ops))
  {
    if ops != [] {
      OrderIsKept(ops[..|ops| - 1]);
      PlayKeepsOrder(After(ops[..|ops| - 1]), ops[|ops| - 1], Offers(ops[..|ops| - 1]));
    }
  }

  lemma {:induction false} EveryEventIsAccountedFor(ops: seq<Op>)
    ensures |After(ops).buffer| <= CAPACITY
    ensures |Kept(After(ops))| + OffersToFull(ops) == |Offers(ops)|
  {
    if ops != [] {
      EveryEventIsAccountedFor(ops[..|ops| - 1]);
    }
  }

  lemma {:induction false} KeptHadRoom(ops: seq<Op>)
    ensures Kept(After(ops)) == OffersWithRoom(ops)
  {
    if ops != [] {
      var rest, op := ops[..|ops| - 1], ops[|ops| - 1];
      KeptHadRoom(rest);
      var before := After(rest);
      match op
      case Offer(e) => assert before.received + (before.buffer + [e]) == Kept(before) + [e];
      case Take => assert Kept(After(ops)) == Kept(before);
    }
  }

  /**
   Conservation: received and buffered events are an order-preserving part of the offered ones, and
   the missing ones are exactly those offered while CAPACITY events were buffered.
  */
  lemma OnlyFullChannelsDrop(ops: seq<Op>)
    ensures |After(ops).buffer| <= CAPACITY
    ensures Kept(After(ops)) == OffersWithRoom(ops)
    ensures Subsequence(Kept(After(ops)), Offers(ops))
    ensures |Kept(After(ops))| + OffersToFull(ops) == |Offers(ops)|
  {
    KeptHadRoom(ops);
    OrderIsKept(ops);
    EveryEventIsAccountedFor(ops);
  }

  /** A channel nobody reads keeps the first sixteen events and no more. */
  lemma {:induction false} SixteenAreKept(ops: seq<Op>)
    requires forall i :: 0 <= i < |ops| ==> ops[i].Offer?
    ensures After(ops).received == [] && |After(ops).buffer| == if |ops| < 16 then |ops| else 16
    ensures |Offers(ops)| == |ops| && After(ops).buffer == Offers(ops)[..|After(ops).buffer|]
  {
    if ops != [] {
      var n := |ops| - 1;
      SixteenAreKept(ops[..n]);
      var before := After(ops[..n]).buffer;
      assert Offers(ops) == Offers(ops[..n]) + [ops[n].event];
      assert Offers(ops)[..|before|] == Offers(ops[..n])[..|before|];
    }
  }

  /** A reader that keeps up misses nothing. */
  lemma NothingDroppedWhileRoom(ops: seq<Op>)
    requires OffersToFull(ops) == 0
    ensures Kept(After(ops)) == Offers(ops)
  {
    OnlyFullChannelsDrop(ops);
    SubsequenceIsNoLonger(Kept(After(ops)), Offers(ops));
  }
}

/**
 The broker itself. Subscribe, Unsubscribe, Broadcast and ClientCount run under its lock; a reader
 receives from its own channel. Channels are numbered in the order they are made.
*/
module EventBroker {
  import opened Wrappers
  import opened EventChannel

  type Service = string
  type ChanId = nat

  /** A channel, the service it was made for, and every send and receive on it so far. */
  datatype Chan = Chan(service: Service, ends: Ends, closed: bool, history: seq<Op>)

  predicate Sound(chan: Chan) {
    chan.ends == After(chan.history)
  }

  /** The channel after one more send or receive. */
  function Done(chan: Chan, op: Op): (r: Chan)
    ensures Sound(chan) ==> Sound(r)
  {
    AfterOneMore(chan.history, op);
    chan.(ends := Play(chan.ends, op), history := chan.history + [op])
  }

  predicate Subscribed(clients: map<Service, set<ChanId>>, service: Service, ch: ChanId) {
    service in clients && ch in clients[service]
  }

  predicate Open(chans: map<ChanId, Chan>, ch: ChanId) {
    ch in chans && !chans[ch].closed
  }

  ghost function Subscribers(chans: map<ChanId, Chan>, service: Service): set<ChanId> {
    set ch | ch in chans && Open(chans, ch) && chans[ch].service == service
  }

  /** The subscriber sets hold exactly the open channels, each under its own service. */
  ghost predicate Wired(clients: map<Service, set<ChanId>>, chans: map<ChanId, Chan>) {
    && (forall s :: s in clients ==> clients[s] != {})
    && (forall s, ch :: Subscribed(clients, s, ch) <==> Open(chans, ch) && chans[ch].service == s)
  }

  lemma SameWiring(clients: map<Service, set<ChanId>>, chans: map<ChanId, Chan>, ch: ChanId, op: Op)
    requires Wired(clients, chans) && ch in chans
    ensures Wired(clients, chans[ch := Done(chans[ch], op)])
  {
    var chans' := chans[ch := Done(chans[ch], op)];
    assert forall c :: Open(chans', c) <==> Open(chans, c);
  }

  function Joined(clients: map<Service, set<ChanId>>, service: Service, ch: ChanId): map<Service, set<ChanId>> {
    clients[service := (if service in clients then clients[service] else {}) + {ch}]
  }

  function Left(clients: map<Service, set<ChanId>>, service: Service, ch: ChanId): map<Service, set<ChanId>>
    requires service in clients
  {
    var subs := clients[service] - {ch};
    if subs == {} then clients - {service} else clients[service := subs]
  }

  lemma JoiningWires(clients: map<Service, set<ChanId>>, chans: map<ChanId, Chan>, ch: ChanId, chan: Chan)
    requires Wired(clients, chans) && ch !in chans && !chan.closed
    ensures Wired(Joined(clients, chan.service, ch), chans[ch := chan])
  {
    var clients', chans' := Joined(clients, chan.service, ch), chans[ch := chan];
    assert forall s, c :: Subscribed(clients', s, c) <==> Subscribed(clients, s, c) || (s == chan.service && c == ch);
    assert forall c :: Open(chans', c) <==> Open(chans, c) || c == ch;
  }

  lemma LeavingWires(clients: map<Service, set<ChanId>>, chans: map<ChanId, Chan>, service: Service, ch: ChanId)
    requires Wired(clients, chans) && Subscribed(clients, service, ch)
    ensures Open(chans, ch) && chans[ch].service == service
    ensures Wired(Left(clients, service, ch), chans[ch := chans[ch].(closed := true)])
  {
    var clients', chans' := Left(clients, service, ch), chans[ch := chans[ch].(closed := true)];
    if clients[service] - {ch} == {} {
      assert clients[service] == {ch};
    }
    assert forall s, c :: Subscribed(clients', s, c) <==> Subscribed(clients, s, c) && !(s == service && c == ch);
    assert forall c :: Open(chans', c) <==> Open(chans, c) && c != ch;
  }

  lemma SubscribersAreListed(clients: map<Service, set<ChanId>>, chans: map<ChanId, Chan>, service: Service)
    requires Wired(clients, chans)
    ensures Subscribers(chans, service) == if service in clients then clients[service] else {}
  {
    forall ch ensures ch in Subscribers(chans, service) <==> Subscribed(clients, service, ch) {
    }
    if service in clients {
      forall ch ensures ch in clients[service] <==> Subscribed(clients, service, ch) {
      }
    }
  }

  /** The channels in `to` were each offered the event once; no other channel was touched. */
  ghost predicate Offered(before: map<ChanId, Chan>, chans: map<ChanId, Chan>, to: set<ChanId>, e: Event) {
    && before.Keys == chans.Keys
    && forall c :: c in chans ==> chans[c] == if c in to then Done(before[c], Offer(e)) else before[c]
  }

  lemma NothingOffered(chans: map<ChanId, Chan>, all: set<ChanId>, e: Event)
    ensures Offered(chans, chans, all - all, e)
  {
  }

  lemma OneMoreOffered(clients: map<Service, set<ChanId>>, before: map<ChanId, Chan>, chans: map<ChanId, Chan>,
                       service: Service, left: set<ChanId>, ch: ChanId, e: Event)
    requires Wired(clients, chans) && service in clients && ch in left && left <= clients[service]
    requires Offered(before, chans, clients[service] - left, e)
    ensures Open(chans, ch)
    ensures Offered(before, chans[ch := Done(chans[ch], Offer(e))], clients[service] - (left - {ch}), e)
  {
    assert Subscribed(clients, service, ch);
  }

  // ----- What each subscriber should have been told -----

  /** One broadcast; the ghost log of a broker holds them all, oldest first. */
  datatype Sent = Sent(service: Service, event: Event)

  /** The part of the log a subscriber was there for: from its subscription to its close, if it is closed. */
  datatype Span = Span(joined: nat, left: Option<nat>)

  /** The events broadcast to the service from one position of the log to another. */
  function BroadcastTo(sent: seq<Sent>, from: nat, until: nat, service: Service): seq<Event>
    requires from <= until <= |sent|
    decreases until
  {
    if from == until then []
    else
      BroadcastTo(sent, from, until - 1, service)
      + if sent[until - 1].service == service then [sent[until - 1].event] else []
  }

  function End(span: Span, sent: seq<Sent>): nat {
    if span.left.Some? then span.left.value else |sent|
  }

  /** The channel was offered exactly the broadcasts to its service while it was subscribed. */
  predicate ToldAll(chan: Chan, span: Span, sent: seq<Sent>) {
    && chan.closed == span.left.Some?
    && span.joined <= End(span, sent) <= |sent|
    && Offers(chan.history) == BroadcastTo(sent, span.joined, End(span, sent), chan.service)
  }

  ghost predicate AllTold(chans: map<ChanId, Chan>, spans: map<ChanId, Span>, sent: seq<Sent>) {
    chans.Keys == spans.Keys && forall ch :: ch in chans ==> ToldAll(chans[ch], spans[ch], sent)
  }

  lemma {:induction false} LongerLogSamePart(sent: seq<Sent>, more: Sent, from: nat, until: nat, service: Service)
    requires from <= until <= |sent|
    ensures BroadcastTo(sent + [more], from, until, service) == BroadcastTo(sent, from, until, service)
    decreases until
  {
    if from < until {
      LongerLogSamePart(sent, more, from, until - 1, service);
    }
  }

  lemma ToldOneMore(chan: Chan, span: Span, sent: seq<Sent>, more: Sent)
    requires ToldAll(chan, span, sent)
    ensures ToldAll(if !chan.closed && chan.service == more.service then Done(chan, Offer(more.event)) else chan,
                    span, sent + [more])
  {
    LongerLogSamePart(sent, more, span.joined, End(span, sent), chan.service);
    assert (chan.history + [Offer(more.event)])[..|chan.history|] == chan.history;
  }

  lemma BroadcastTellsAll(before: map<ChanId, Chan>, chans: map<ChanId, Chan>, spans: map<ChanId, Span>,
                          sent: seq<Sent>, more: Sent)
    requires AllTold(before, spans, sent) && Offered(before, chans, Subscribers(before, more.service), more.event)
    ensures AllTold(chans, spans, sent + [more])
  {
    forall ch | ch in chans ensures ToldAll(chans[ch], spans[ch], sent + [more]) {
      ToldOneMore(before[ch], spans[ch], sent, more);
    }
  }

  lemma TakingTellsNothing(chan: Chan, span: Span, sent: seq<Sent>)
    requires ToldAll(chan, span, sent)
    ensures ToldAll(Done(chan, Take), span, sent)
  {
    assert (chan.history + [Take])[..|chan.history|] == chan.history;
  }

  lemma JoiningTellsNothing(chans: map<ChanId, Chan>, spans: map<ChanId, Span>, sent: seq<Sent>, ch: ChanId,
      service: Service)
    requires AllTold(chans, spans, sent) && ch !in chans
    ensures AllTold(chans[ch := Chan(service, Ends([], []), false, [])], spans[ch := Span(|sent|, None)], sent)
  {
  }

  lemma LeavingTellsNothing(chans: map<ChanId, Chan>, spans: map<ChanId, Span>, sent: seq<Sent>, ch: ChanId)
    requires AllTold(chans, spans, sent) && Open(chans, ch)
    ensures AllTold(chans[ch := chans[ch].(closed := true)], spans[ch := spans[ch].(left := Some(|sent|))], sent)
  {
    assert ToldAll(chans[ch], spans[ch], sent);
  }

  class EventBroker {
    var clients: map<Service, set<ChanId>>
    var chans: map<ChanId, Chan>
    var nextId: nat
    ghost var sent: seq<Sent>            // every broadcast so far
    ghost var spans: map<ChanId, Span>

    /** Between calls, every channel has been offered exactly what it should have been. */
    ghost predicate Logged()
      reads this
    {
      AllTold(chans, spans, sent)
    }

    ghost predicate Valid()
      reads this
    {
      && Wired(clients, chans)
      && forall ch :: ch in chans ==> ch < nextId && Sound(chans[ch])
    }

    constructor ()
      ensures Valid() && Logged() && chans == map[] && sent == []
    {
      clients, chans, nextId := map[], map[], 0;
      sent, spans := [], map[];
    }

    method Subscribe(service: Service) returns (ch: ChanId)
      requires Valid() && Logged()
      modifies this
      ensures Valid() && Logged() && sent == old(sent) && ch !in old(chans)
      ensures spans == old(spans)[ch := Span(|sent|, None)]
      ensures chans == old(chans)[ch := Chan(service, Ends([], []), false, [])]
    {
      ch := nextId;
      JoiningWires(clients, chans, ch, Chan(service, Ends([], []), false, []));
      JoiningTellsNothing(chans, spans, sent, ch, service);
      nextId := nextId + 1;
      spans := spans[ch := Span(|sent|, None)];
      chans := chans[ch := Chan(service, Ends([], []), false, [])];
      clients := clients[service := (if service in clients then clients[service] else {}) + {ch}];
    }

    /** Closes the channel if it is subscribed to this service; otherwise, and a second time, does nothing. */
    method Unsubscribe(service: Service, ch: ChanId)
      requires Valid() && Logged()
      modifies this`clients, this`chans, this`spans
      ensures Valid() && Logged()
      ensures if old(ch in Subscribers(chans, service))
              then chans == old(chans)[ch := old(chans)[ch].(closed := true)]
                   && spans == old(spans)[ch := old(spans)[ch].(left := Some(|sent|))]
              else chans == old(chans) && clients == old(clients) && spans == old(spans)
    {
      SubscribersAreListed(clients, chans, service);
      if service !in clients || ch !in clients[service] {
        return;
      }
      LeavingWires(clients, chans, service, ch);
      LeavingTellsNothing(chans, spans, sent, ch);
      var subs := clients[service] - {ch};
      if subs == {} {
        clients := clients - {service};
      } else {
        clients := clients[service := subs];
      }
      assert !chans[ch].closed;  // never closed twice
      spans := spans[ch := spans[ch].(left := Some(|sent|))];
      chans := chans[ch := chans[ch].(closed := true)];
    }

    /** A non-blocking send, which panics on a closed channel: a full buffer drops the event. */
    method Send(ch: ChanId, e: Event)
      requires Valid() && Open(chans, ch)
      modifies this`chans
      ensures Valid() && chans == old(chans)[ch := Done(old(chans)[ch], Offer(e))]
    {
      var chan := chans[ch];
      SameWiring(clients, chans, ch, Offer(e));
      AfterOneMore(chan.history, Offer(e));
      if |chan.ends.buffer| < CAPACITY {
        chan := chan.(ends := chan.ends.(buffer := chan.ends.buffer + [e]));
      }
      chans := chans[ch := chan.(history := chan.history + [Offer(e)])];
    }

    /**
     Every subscriber of the service is offered the event, nobody else is touched, in whatever order they are
     visited.
    */
    method Broadcast(service: Service, e: Event)
      requires Valid() && Logged()
      modifies this`chans, this`sent
      ensures Valid() && Logged() && sent == old(sent) + [Sent(service, e)]
      ensures Offered(old(chans), chans, old(Subscribers(chans, service)), e)
    {
      SubscribersAreListed(clients, chans, service);
      if service in clients {
        SendToAll(service, e);
      }
      BroadcastTellsAll(old(chans), chans, spans, sent, Sent(service, e));
      sent := sent + [Sent(service, e)];
    }

    /** The loop over the subscriber set. */
    method SendToAll(service: Service, e: Event)
      requires Valid() && service in clients
      modifies this`chans
      ensures Valid() && Offered(old(chans), chans, clients[service], e)
    {
      ghost var before := chans;
      var left := clients[service];
      NothingOffered(chans, left, e);
      while left != {}
        invariant Valid() && service in clients && left <= clients[service]
        invariant Offered(before, chans, clients[service] - left, e)
        decreases |left|
      {
        var ch :| ch in left;
        OneMoreOffered(clients, before, chans, service, left, ch, e);
        Send(ch, e);  // never a send on a closed channel
        left := left - {ch};
      }
      assert clients[service] - left == clients[service];
    }

    /** A receive that does not block: the oldest event, or None once the channel is closed and drained. */
    method Receive(ch: ChanId) returns (e: Option<Event>)
      requires Valid() && Logged() && ch in chans && (chans[ch].ends.buffer != [] || chans[ch].closed)
      modifies this`chans
      ensures Valid() && Logged()
      ensures old(chans)[ch].ends.buffer == [] ==> e == None && chans == old(chans)
      ensures old(chans)[ch].ends.buffer != [] ==>
                e == Some(old(chans)[ch].ends.buffer[0]) && chans == old(chans)[ch := Done(old(chans)[ch], Take)]
    {
      var chan := chans[ch];
      if chan.ends.buffer == [] {
        return None;
      }
      e := Some(chan.ends.buffer[0]);
      SameWiring(clients, chans, ch, Take);
      TakingTellsNothing(chan, spans[ch], sent);
      chans := chans[ch := chan.(
        ends := Ends(chan.ends.received + [chan.ends.buffer[0]], chan.ends.buffer[1..]),
        history := chan.history + [Take])];
    }

    method ClientCount() returns (n: nat)
      requires Valid()
      ensures n == |set ch | ch in chans && Open(chans, ch)|
    {
      n := 0;
      var left := clients.Keys;
      ghost var counted: set<ChanId> := {};
      forall ch | Open(chans, ch) ensures chans[ch].service in left {
        assert Subscribed(clients, chans[ch].service, ch);
      }
      while left != {}
        invariant left <= clients.Keys
        invariant forall ch :: ch in counted <==> Open(chans, ch) && chans[ch].service !in left
        invariant n == |counted|
        decreases |left|
      {
        var s :| s in left;
        SubscribersAreListed(clients, chans, s);
        assert counted !! clients[s];
        n := n + |clients[s]|;
        left := left - {s};
        counted := counted + clients[s];
      }
      assert counted == set ch | ch in chans && Open(chans, ch);
    }
  }

  /**
   Whatever the broker did, what a reader has received and what is buffered for it is an
   order-preserving part of the broadcasts to its service between its subscription and its close, and
   the missing ones are exactly those that found its buffer full.
  */
  lemma EverySubscriberIsServed(broker: EventBroker, ch: ChanId)
    requires broker.Valid() && broker.Logged() && ch in broker.chans
    ensures ToldAll(broker.chans[ch], broker.spans[ch], broker.sent)
    ensures var chan, span := broker.chans[ch], broker.spans[ch];
            var due := BroadcastTo(broker.sent, span.joined, End(span, broker.sent), chan.service);
            && |chan.ends.buffer| <= CAPACITY
            && Kept(chan.ends) == OffersWithRoom(chan.history) && Offers(chan.history) == due
            && Subsequence(Kept(chan.ends), due)
            && |Kept(chan.ends)| + OffersToFull(chan.history) == |due|
  {
    OnlyFullChannelsDrop(broker.chans[ch].history);
  }
}
