/** The event router: a two-way subscription index and bounded, lossy, ordered delivery. */
module Router {

  type Id = string
  type ContextId = string

  const MAX_IDLE: int := 300_000_000_000    // five minutes in nanoseconds

  datatype Event = NoEvent | Event(id: string, context: ContextId)

  /** An event offered to a subscriber: its number among the routed events, and
      whether the subscriber's channel had room for it. */
  datatype Offer = Offer(number: nat, delivered: bool)

  /** A subscription.  The channel holds event numbers; `received` is what its reader
      has taken from it, and `history` every offer made to it. */
  datatype Subscription = Subscription(contexts: seq<ContextId>, channel: seq<nat>, received: seq<nat>,
                                       history: seq<Offer>, lastAccessed: int)

  type Subscriptions = map<Id, Subscription>
  type Index = map<ContextId, set<Id>>

  // ---------- what each operation does to the subscriptions ----------

  function NewSubscription(contexts: seq<ContextId>, now: int): Subscription {
    Subscription(contexts, [], [], [], now)
  }

  /** A non-blocking send. */
  function Send(s: Subscription, number: nat, capacity: nat, now: int): Subscription {
    if |s.channel| < capacity
    then s.(channel := s.channel + [number], history := s.history + [Offer(number, true)], lastAccessed := now)
    else s.(history := s.history + [Offer(number, false)])
  }

  /** Routing without any index: offer the event to everyone who lists its context. */
  function RouteToAll(subs: Subscriptions, e: Event, number: nat, capacity: nat, now: int): Subscriptions
    requires e.Event?
  {
    map id | id in subs :: if e.context in subs[id].contexts then Send(subs[id], number, capacity, now) else subs[id]
  }

  predicate Idle(s: Subscription, now: int) {
    now - s.lastAccessed > MAX_IDLE
  }

  function WithoutIdle(subs: Subscriptions, now: int): Subscriptions {
    map id | id in subs && !Idle(subs[id], now) :: subs[id]
  }

  /** An event is routed when there is one and it names a context. */
  predicate Routable(e: Event) {
    e.Event? && e.context != ""
  }

  // ---------- the index ----------

  ghost predicate Linked(index: Index, c: ContextId, id: Id) {
    c in index && id in index[c]
  }

  ghost predicate NoEmptySet(index: Index) {
    forall c :: c in index ==> index[c] != {}
  }

  /** A subscription is in a context's set exactly when it is registered and lists it. */
  ghost predicate Exact(subs: Subscriptions, index: Index) {
    forall c, id :: Linked(index, c, id) <==> id in subs && c in subs[id].contexts
  }

  function DropLink(index: Index, c: ContextId, id: Id): Index {
    if c !in index then index
    else if index[c] - {id} == {} then index - {c}
    else index[c := index[c] - {id}]
  }

  lemma DropLinkEffect(index: Index, c: ContextId, id: Id)
    requires NoEmptySet(index)
    ensures NoEmptySet(DropLink(index, c, id))
    ensures forall d, x :: Linked(DropLink(index, c, id), d, x) <==> Linked(index, d, x) && !(x == id && d == c)
  {
    forall d, x ensures Linked(DropLink(index, c, id), d, x) <==> Linked(index, d, x) && !(x == id && d == c) {
      if d == c && c in index && x != id {
        assert x in index[c] ==> x in index[c] - {id};
      }
    }
  }

  function AddLink(index: Index, c: ContextId, id: Id): Index {
    index[c := (if c in index then index[c] else {}) + {id}]
  }

  lemma AddLinkEffect(index: Index, c: ContextId, id: Id)
    requires NoEmptySet(index)
    ensures NoEmptySet(AddLink(index, c, id))
    ensures forall d, x :: Linked(AddLink(index, c, id), d, x) <==> Linked(index, d, x) || (x == id && d == c)
  {
    var index1 := AddLink(index, c, id);
    assert id in index1[c];
    forall d, x ensures Linked(index1, d, x) <==> Linked(index, d, x) || (x == id && d == c) {
      if d == c {
        assert x in index1[c] <==> (c in index && x in index[c]) || x == id;
      }
    }
  }

  class EventRouter {
    const capacity: nat
    var subscriptions: Subscriptions
    var contextSubs: Index
    var routed: nat          // number of events routed so far

    constructor (capacity: nat)
      ensures Valid() && subscriptions == map[] && routed == 0 && this.capacity == capacity
    {
      this.capacity, subscriptions, contextSubs, routed := capacity, map[], map[], 0;
    }

    ghost predicate Valid()
      reads this
    {
      Exact(subscriptions, contextSubs) && NoEmptySet(contextSubs)
    }

    method AddToContexts(id: Id, contexts: seq<ContextId>)
      requires NoEmptySet(contextSubs)
      modifies this`contextSubs
      ensures NoEmptySet(contextSubs)
      ensures forall c, x :: Linked(contextSubs, c, x) <==> Linked(old(contextSubs), c, x) || (x == id && c in contexts)
    {
      for i := 0 to |contexts|
        invariant NoEmptySet(contextSubs)
        invariant forall c, x :: Linked(contextSubs, c, x) <==> Linked(old(contextSubs), c, x) || (x == id && c in contexts[..i])
      {
        assert contexts[..i + 1] == contexts[..i] + [contexts[i]];
        AddLinkEffect(contextSubs, contexts[i], id);
        ghost var linked := AddLink(contextSubs, contexts[i], id);
        if contexts[i] !in contextSubs {
          contextSubs := contextSubs[contexts[i] := {}];
        }
        contextSubs := contextSubs[contexts[i] := contextSubs[contexts[i]] + {id}];
        assert contextSubs == linked;
      }
      assert contexts[..|contexts|] == contexts;
    }

    method RemoveFromContexts(id: Id, contexts: seq<ContextId>)
      requires NoEmptySet(contextSubs)
      modifies this`contextSubs
      ensures NoEmptySet(contextSubs)
      ensures forall c, x :: Linked(contextSubs, c, x) <==> Linked(old(contextSubs), c, x) && !(x == id && c in contexts)
    {
      for i := 0 to |contexts|
        invariant NoEmptySet(contextSubs)
        invariant forall c, x :: Linked(contextSubs, c, x) <==> Linked(old(contextSubs), c, x) && !(x == id && c in contexts[..i])
      {
        assert contexts[..i + 1] == contexts[..i] + [contexts[i]];
        DropLinkEffect(contextSubs, contexts[i], id);
        if contexts[i] in contextSubs {
          var rest := contextSubs[contexts[i]] - {id};
          if rest == {} {
            contextSubs := contextSubs - {contexts[i]};
          } else {
            contextSubs := contextSubs[contexts[i] := rest];
          }
        }
      }
      assert contexts[..|contexts|] == contexts;
    }

    method Subscribe(id: Id, contexts: seq<ContextId>, now: int)
      requires Valid() && id !in subscriptions
      modifies this`subscriptions, this`contextSubs
      ensures Valid() && subscriptions == old(subscriptions)[id := NewSubscription(contexts, now)]
    {
      subscriptions := subscriptions[id := NewSubscription(contexts, now)];
      AddToContexts(id, contexts);
    }

    method Unsubscribe(id: Id)
      requires Valid()
      modifies this`subscriptions, this`contextSubs
      ensures Valid() && subscriptions == old(subscriptions) - {id}
    {
      if id !in subscriptions {
        return;
      }
      RemoveFromContexts(id, subscriptions[id].contexts);
      subscriptions := subscriptions - {id};
    }

    method UpdateSubscription(id: Id, contexts: seq<ContextId>, now: int) returns (found: bool)
      requires Valid()
      modifies this`subscriptions, this`contextSubs
      ensures Valid() && found == (id in old(subscriptions))
      ensures subscriptions == if found then old(subscriptions)[id := old(subscriptions)[id].(contexts := contexts, lastAccessed := now)] else old(subscriptions)
    {
      if id !in subscriptions {
        return false;
      }
      RemoveFromContexts(id, subscriptions[id].contexts);
      subscriptions := subscriptions[id := subscriptions[id].(contexts := contexts)];
      AddToContexts(id, contexts);
      subscriptions := subscriptions[id := subscriptions[id].(lastAccessed := now)];
      return true;
    }

    /** Routing through the index offers the event to exactly those who list its context. */
    method RouteEvent(e: Event, now: int)
      requires Valid()
      modifies this`subscriptions, this`routed
      ensures Valid()
      ensures routed == if Routable(e) then old(routed) + 1 else old(routed)
      ensures subscriptions == if Routable(e) then RouteToAll(old(subscriptions), e, old(routed), capacity, now) else old(subscriptions)
    {
      if e.NoEvent? || e.context == "" {
        return;
      }
      var number := routed;
      routed := routed + 1;
      var ids := if e.context in contextSubs then contextSubs[e.context] else {};
      SameListing(subscriptions, contextSubs, e.context, ids);
      ghost var before := subscriptions;
      var todo := ids;
      while todo != {}
        invariant todo <= ids && subscriptions.Keys == before.Keys && routed == number + 1
        invariant forall id :: id in before ==>
          subscriptions[id] == if id in ids && id !in todo then Send(before[id], number, capacity, now) else before[id]
        decreases |todo|
      {
        var id :| id in todo;
        todo := todo - {id};
        if id in subscriptions {
          subscriptions := subscriptions[id := Send(subscriptions[id], number, capacity, now)];
        }
      }
      KeepsContexts(before, subscriptions, contextSubs, e, number, capacity, now);
    }

    /** A subscriber takes the oldest event from its channel. */
    method Receive(id: Id) returns (number: nat)
      requires Valid() && id in subscriptions && subscriptions[id].channel != []
      modifies this`subscriptions
      ensures Valid() && number == old(subscriptions)[id].channel[0]
      ensures subscriptions == old(subscriptions)[id := Taken(old(subscriptions)[id])]
    {
      number := subscriptions[id].channel[0];
      subscriptions := subscriptions[id := Taken(subscriptions[id])];
    }

    method PerformCleanup(now: int)
      requires Valid()
      modifies this`subscriptions, this`contextSubs
      ensures Valid() && subscriptions == WithoutIdle(old(subscriptions), now)
    {
      var toRemove := set id | id in subscriptions && Idle(subscriptions[id], now);
      ghost var idle := toRemove;
      while toRemove != {}
        invariant Valid() && toRemove <= idle
        invariant subscriptions == old(subscriptions) - (idle - toRemove)
        decreases |toRemove|
      {
        var id :| id in toRemove;
        Unsubscribe(id);
        toRemove := toRemove - {id};
      }
      assert subscriptions == old(subscriptions) - idle;
    }

    method Shutdown()
      modifies this`subscriptions, this`contextSubs
      ensures Valid() && subscriptions == map[] && contextSubs == map[]
    {
      subscriptions, contextSubs := map[], map[];
    }

    /** Any run of operations from a new router, with fresh subscription ids: the index stays
        exact throughout, and the subscriptions evolve as `Run` says. */
    method Perform(ops: seq<Op>)
      requires Valid() && subscriptions == map[] && routed == 0 && FreshIds(ops)
      modifies this
      ensures Valid() && World(subscriptions, routed) == Run(capacity, ops)
    {
      hide RouteToAll, WithoutIdle, NewSubscription, Taken, Routable, Exact, NoEmptySet;
      for i := 0 to |ops|
        invariant Valid() && World(subscriptions, routed) == Run(capacity, ops[..i])
        invariant forall id :: id in subscriptions ==> SubscribedIn(ops[..i], id)
      {
        assert ops[..i + 1][..i] == ops[..i] && ops[..i + 1][i] == ops[i];
        forall id ensures SubscribedIn(ops[..i], id) || (ops[i].Subscribed? && ops[i].id == id) ==> SubscribedIn(ops[..i + 1], id) {
          SubscribedLater(ops, i, id);
        }
        OneOperation(ops, i);
      }
      assert ops[..|ops|] == ops;
    }

    method OneOperation(ops: seq<Op>, i: nat)
      requires Valid() && i < |ops| && FreshIds(ops)
      requires forall id :: id in subscriptions ==> SubscribedIn(ops[..i], id)
      modifies this
      ensures Valid() && World(subscriptions, routed) == Step(capacity, old(World(subscriptions, routed)), ops[i])
      ensures forall id :: id in subscriptions ==> id in old(subscriptions) || (ops[i].Subscribed? && ops[i].id == id)
    {
      match ops[i] {
        case Subscribed(id, contexts, now) => Subscribe(id, contexts, now);
        case Unsubscribed(id) => Unsubscribe(id);
        case Changed(id, contexts, now) => var _ := UpdateSubscription(id, contexts, now);
        case Routed(e, now) => RouteEvent(e, now);
        case Took(id) =>
          if id in subscriptions && subscriptions[id].channel != [] {
            var _ := Receive(id);
          }
        case Cleaned(now) => PerformCleanup(now);
        case Stopped => Shutdown();
      }
    }
  }

  function Taken(s: Subscription): Subscription
    requires s.channel != []
  {
    s.(channel := s.channel[1..], received := s.received + [s.channel[0]])
  }

  lemma SameListing(subs: Subscriptions, index: Index, c: ContextId, ids: set<Id>)
    requires Exact(subs, index) && ids == if c in index then index[c] else {}
    ensures forall id :: id in ids <==> id in subs && c in subs[id].contexts
  {
    forall id ensures id in ids <==> id in subs && c in subs[id].contexts {
      assert Linked(index, c, id) <==> id in ids;
    }
  }

  lemma KeepsContexts(before: Subscriptions, after: Subscriptions, index: Index, e: Event, number: nat, capacity: nat, now: int)
    requires e.Event? && Exact(before, index) && after.Keys == before.Keys
    requires forall id :: id in before ==> after[id] == if e.context in before[id].contexts then Send(before[id], number, capacity, now) else before[id]
    ensures Exact(after, index) && after == RouteToAll(before, e, number, capacity, now)
  {
    forall c, id ensures Linked(index, c, id) <==> id in after && c in after[id].contexts {
      assert Linked(index, c, id) <==> id in before && c in before[id].contexts;
    }
  }

  /** The index is a function of the subscriptions. */
  lemma IndexDetermined(subs: Subscriptions, a: Index, b: Index)
    requires Exact(subs, a) && NoEmptySet(a) && Exact(subs, b) && NoEmptySet(b)
    ensures a == b
  {
    forall c, id ensures Linked(a, c, id) <==> Linked(b, c, id) {
    }
    forall c ensures c in a <==> c in b {
      if c in a {
        var id :| id in a[c];
        assert Linked(a, c, id);
      }
      if c in b {
        var id :| id in b[c];
        assert Linked(b, c, id);
      }
    }
    forall c | c in a ensures a[c] == b[c] {
      forall id ensures id in a[c] <==> id in b[c] {
        assert Linked(a, c, id) <==> Linked(b, c, id);
      }
    }
  }

  // ---------- whole runs ----------

  datatype Op =
    | Subscribed(id: Id, contexts: seq<ContextId>, now: int)
    | Unsubscribed(id: Id)
    | Changed(id: Id, contexts: seq<ContextId>, now: int)
    | Routed(event: Event, now: int)
    | Took(id: Id)
    | Cleaned(now: int)
    | Stopped

  datatype World = World(subs: Subscriptions, routed: nat)

  /** No subscription id is given out twice. */
  ghost predicate FreshIds(ops: seq<Op>) {
    forall i, j :: 0 <= i < j < |ops| && ops[i].Subscribed? && ops[j].Subscribed? ==> ops[i].id != ops[j].id
  }

  ghost predicate SubscribedIn(ops: seq<Op>, id: Id) {
    exists i :: 0 <= i < |ops| && ops[i].Subscribed? && ops[i].id == id
  }

  lemma SubscribedLater(ops: seq<Op>, n: nat, id: Id)
    requires n < |ops|
    ensures SubscribedIn(ops[..n], id) || (ops[n].Subscribed? && ops[n].id == id) ==> SubscribedIn(ops[..n + 1], id)
  {
    if SubscribedIn(ops[..n], id) {
      var i :| 0 <= i < n && ops[..n][i].Subscribed? && ops[..n][i].id == id;
      assert ops[..n + 1][i] == ops[i];
    } else if ops[n].Subscribed? && ops[n].id == id {
      assert ops[..n + 1][n] == ops[n];
    }
  }

  /** The effect of each operation, as the contracts of `EventRouter` state it. */
  function Step(capacity: nat, w: World, op: Op): World {
    match op
    case Subscribed(id, contexts, now) => w.(subs := w.subs[id := NewSubscription(contexts, now)])
    case Unsubscribed(id) => w.(subs := w.subs - {id})
    case Changed(id, contexts, now) =>
      if id in w.subs then w.(subs := w.subs[id := w.subs[id].(contexts := contexts, lastAccessed := now)]) else w
    case Routed(e, now) =>
      if Routable(e) then World(RouteToAll(w.subs, e, w.routed, capacity, now), w.routed + 1) else w
    case Took(id) => if id in w.subs && w.subs[id].channel != [] then w.(subs := w.subs[id := Taken(w.subs[id])]) else w
    case Cleaned(now) => w.(subs := WithoutIdle(w.subs, now))
    case Stopped => w.(subs := map[])
  }

  function Run(capacity: nat, ops: seq<Op>): World {
    if ops == [] then World(map[], 0) else Step(capacity, Run(capacity, ops[..|ops| - 1]), ops[|ops| - 1])
  }

  // ----- what a subscriber should be offered, read off the operations alone -----

  function RoutedCount(ops: seq<Op>): nat {
    if ops == [] then 0
    else
      var op := ops[|ops| - 1];
      RoutedCount(ops[..|ops| - 1]) + (if op.Routed? && op.event.Event? && op.event.context != "" then 1 else 0)
  }

  function ContextsOf(ops: seq<Op>, id: Id): seq<ContextId> {
    if ops == [] then []
    else
      match ops[|ops| - 1]
      case Subscribed(i, contexts, _) => if i == id then contexts else ContextsOf(ops[..|ops| - 1], id)
      case Changed(i, contexts, _) => if i == id then contexts else ContextsOf(ops[..|ops| - 1], id)
      case _ => ContextsOf(ops[..|ops| - 1], id)
  }

  /** The numbers of the events routed, since `id` last subscribed, to a context it listed then. */
  function Wanted(ops: seq<Op>, id: Id): seq<nat> {
    if ops == [] then []
    else
      var before := ops[..|ops| - 1];
      match ops[|ops| - 1]
      case Subscribed(i, _, _) => if i == id then [] else Wanted(before, id)
      case Routed(e, _) =>
        if e.Event? && e.context != "" && e.context in ContextsOf(before, id) then Wanted(before, id) + [RoutedCount(before)] else Wanted(before, id)
      case _ => Wanted(before, id)
  }

  function Numbers(history: seq<Offer>): seq<nat> {
    if history == [] then [] else Numbers(history[..|history| - 1]) + [history[|history| - 1].number]
  }

  function Deliveries(history: seq<Offer>): seq<nat> {
    if history == [] then []
    else
      var last := history[|history| - 1];
      Deliveries(history[..|history| - 1]) + (if last.delivered then [last.number] else [])
  }

  ghost predicate Increasing(s: seq<nat>) {
    forall i, j :: 0 <= i < j < |s| ==> s[i] < s[j]
  }

  ghost predicate Faithful(capacity: nat, ops: seq<Op>, id: Id, s: Subscription) {
    && s.contexts == ContextsOf(ops, id)
    && Numbers(s.history) == Wanted(ops, id)
    && s.received + s.channel == Deliveries(s.history)
    && |s.channel| <= capacity
  }

  lemma SendFaithful(s: Subscription, number: nat, capacity: nat, now: int)
    requires s.received + s.channel == Deliveries(s.history) && |s.channel| <= capacity
    ensures var t := Send(s, number, capacity, now);
      && Numbers(t.history) == Numbers(s.history) + [number]
      && t.received + t.channel == Deliveries(t.history) && |t.channel| <= capacity
      && (t.received + t.channel == s.received + s.channel + [number] <==> |s.channel| < capacity)
  {
    var t := Send(s, number, capacity, now);
    var last := t.history[|t.history| - 1];
    assert t.history[..|t.history| - 1] == s.history;
    assert t.received + t.channel == s.received + s.channel + (if last.delivered then [number] else []);
  }

  lemma {:induction false} RunFaithful(capacity: nat, ops: seq<Op>, id: Id)
    requires id in Run(capacity, ops).subs
    ensures Faithful(capacity, ops, id, Run(capacity, ops).subs[id])
    ensures Run(capacity, ops).routed == RoutedCount(ops)
  {
    CountsRouted(capacity, ops);
    var before, op := ops[..|ops| - 1], ops[|ops| - 1];
    CountsRouted(capacity, before);
    var w, w1 := Run(capacity, before), Run(capacity, ops);
    if op.Subscribed? && op.id == id {
    } else {
      RunFaithful(capacity, before, id);
      var s := w.subs[id];
      hide Run, Numbers, Deliveries;
      if op.Routed? && Routable(op.event) && op.event.context in s.contexts {
        SendFaithful(s, w.routed, capacity, op.now);
      } else if op.Took? && op.id == id && s.channel != [] {
        assert s.received + [s.channel[0]] + s.channel[1..] == s.received + s.channel;
      }
    }
  }

  lemma {:induction false} CountsRouted(capacity: nat, ops: seq<Op>)
    ensures Run(capacity, ops).routed == RoutedCount(ops)
  {
    if ops != [] {
      CountsRouted(capacity, ops[..|ops| - 1]);
    }
  }

  lemma {:induction false} WantedIncreasing(ops: seq<Op>, id: Id)
    ensures Increasing(Wanted(ops, id))
    ensures forall i :: 0 <= i < |Wanted(ops, id)| ==> Wanted(ops, id)[i] < RoutedCount(ops)
  {
    if ops != [] {
      WantedIncreasing(ops[..|ops| - 1], id);
    }
  }

  lemma {:induction false} DeliveriesIncreasing(h: seq<Offer>)
    requires Increasing(Numbers(h))
    ensures Increasing(Deliveries(h))
    ensures forall x :: x in Deliveries(h) ==> x in Numbers(h)
  {
    if h != [] {
      var n := |h| - 1;
      var before, all := Numbers(h[..n]), Numbers(h);
      assert all[..|all| - 1] == before;
      assert Increasing(before);
      DeliveriesIncreasing(h[..n]);
      forall x | x in Deliveries(h[..n]) ensures x < h[n].number && x in all {
        var i :| 0 <= i < |before| && before[i] == x;
        assert all[i] == x && all[|all| - 1] == h[n].number;
      }
      var d := Deliveries(h[..n]);
      forall i | 0 <= i < |d| ensures d[i] < h[n].number {
        assert d[i] in d;
      }
      assert all[|all| - 1] == h[n].number;
    }
  }

  /** Delivery over every run of the router's operations: each subscriber has been
      offered exactly the events routed to the contexts it listed at the time, and what
      its channel carried is an in-order, duplicate-free selection of them. */
  lemma DeliveryIsOrdered(capacity: nat, ops: seq<Op>, id: Id)
    requires id in Run(capacity, ops).subs
    ensures var s := Run(capacity, ops).subs[id];
      && Numbers(s.history) == Wanted(ops, id) && Increasing(Wanted(ops, id))
      && s.received + s.channel == Deliveries(s.history) && Increasing(s.received + s.channel)
      && |s.channel| <= capacity
  {
    hide Run, Wanted, Numbers, Deliveries;
    RunFaithful(capacity, ops, id);
    WantedIncreasing(ops, id);
    DeliveriesIncreasing(Run(capacity, ops).subs[id].history);
  }

  /** An event is lost to a subscriber that lists its context exactly when the
      subscriber's channel is full at that moment. */
  lemma LostOnlyWhenFull(capacity: nat, ops: seq<Op>, id: Id, e: Event, now: int)
    requires id in Run(capacity, ops).subs && e.Event? && e.context != ""
    requires e.context in Run(capacity, ops).subs[id].contexts
    ensures var w := Run(capacity, ops);
      var s, t := w.subs[id], Step(capacity, w, Routed(e, now)).subs[id];
      && (t.received + t.channel == s.received + s.channel + [w.routed] <==> |s.channel| < capacity)
      && (t.received + t.channel == s.received + s.channel <==> |s.channel| == capacity)
  {
    hide Run;
    RunFaithful(capacity, ops, id);
    var w := Run(capacity, ops);
    SendFaithful(w.subs[id], w.routed, capacity, now);
  }

  /** Delivery from the event itself, after every run: an event that names a context is appended,
      under the next number, to the channel of every subscription that lists the context and has
      room, and changes no other channel; an absent event or one without a context changes nothing. */
  lemma RoutingDelivers(capacity: nat, ops: seq<Op>, e: Event, now: int)
    ensures var w := Run(capacity, ops);
      var w1 := Step(capacity, w, Routed(e, now));
      if e.Event? && e.context != "" then
        && w1.routed == RoutedCount(ops) + 1 && w1.subs.Keys == w.subs.Keys
        && forall id :: id in w.subs ==>
             && w1.subs[id].contexts == w.subs[id].contexts && w1.subs[id].received == w.subs[id].received
             && w1.subs[id].channel == w.subs[id].channel +
                  (if e.context in ContextsOf(ops, id) && |w.subs[id].channel| < capacity then [RoutedCount(ops)] else [])
      else w1 == w
  {
    CountsRouted(capacity, ops);
    var w := Run(capacity, ops);
    forall id | id in w.subs ensures w.subs[id].contexts == ContextsOf(ops, id) {
      RunFaithful(capacity, ops, id);
    }
    hide Run, RoutedCount, ContextsOf;
  }

  // ---------- idle subscriptions ----------

  /** When a subscription was last subscribed, changed or sent an event that it had room for. */
  ghost function LastTouched(capacity: nat, ops: seq<Op>, id: Id): int {
    if ops == [] then 0
    else
      var before := ops[..|ops| - 1];
      match ops[|ops| - 1]
      case Subscribed(i, _, now) => if i == id then now else LastTouched(capacity, before, id)
      case Changed(i, _, now) => if i == id then now else LastTouched(capacity, before, id)
      case Routed(e, now) =>
        var w := Run(capacity, before);
        if e.Event? && e.context != "" && id in w.subs && e.context in w.subs[id].contexts && |w.subs[id].channel| < capacity then now
        else LastTouched(capacity, before, id)
      case _ => LastTouched(capacity, before, id)
  }

  lemma {:induction false} LastAccessIsLastTouch(capacity: nat, ops: seq<Op>, id: Id)
    requires id in Run(capacity, ops).subs
    ensures Run(capacity, ops).subs[id].lastAccessed == LastTouched(capacity, ops, id)
  {
    var before, op := ops[..|ops| - 1], ops[|ops| - 1];
    if !(op.Subscribed? && op.id == id) {
      LastAccessIsLastTouch(capacity, before, id);
    }
  }

  /** A cleanup removes a registered subscription if and only if it was last touched more than
      five minutes before, and leaves the others as they are. */
  lemma CleanupExactly(capacity: nat, ops: seq<Op>, now: int, id: Id)
    requires id in Run(capacity, ops).subs
    ensures var w1 := Run(capacity, ops + [Cleaned(now)]);
      && (id in w1.subs <==> now - LastTouched(capacity, ops, id) <= 300_000_000_000)
      && (id in w1.subs ==> w1.subs[id] == Run(capacity, ops).subs[id])
  {
    LastAccessIsLastTouch(capacity, ops, id);
    assert (ops + [Cleaned(now)])[..|ops|] == ops;
  }

  /** Whether a subscription is registered, read off the operations. */
  ghost function Registered(capacity: nat, ops: seq<Op>, id: Id): bool {
    ops != [] &&
    var before := ops[..|ops| - 1];
    match ops[|ops| - 1]
    case Subscribed(i, _, _) => i == id || Registered(capacity, before, id)
    case Unsubscribed(i) => i != id && Registered(capacity, before, id)
    case Cleaned(now) => Registered(capacity, before, id) && now - LastTouched(capacity, before, id) <= 300_000_000_000
    case Stopped => false
    case _ => Registered(capacity, before, id)
  }

  /** After every run exactly those are registered who subscribed and have not since
      unsubscribed, been idle at a cleanup, or met a shutdown. */
  lemma {:induction false} RegisteredExactly(capacity: nat, ops: seq<Op>, id: Id)
    ensures id in Run(capacity, ops).subs <==> Registered(capacity, ops, id)
  {
    if ops != [] {
      var before, op := ops[..|ops| - 1], ops[|ops| - 1];
      RegisteredExactly(capacity, before, id);
      if op.Cleaned? && id in Run(capacity, before).subs {
        LastAccessIsLastTouch(capacity, before, id);
      }
      hide LastTouched;
    }
  }
}
