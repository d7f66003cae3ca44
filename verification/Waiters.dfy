/** The hand-off of freed locks to waiting requests, under its own mutex. */
module Waiters {

  type Path = string
  type RequestId = nat

  /** A waiting request with the history of what happened to it.
      `buffered`: results in its one-slot channel; `signals`: results ever sent;
      `dropped`: sends that met a full channel; `left`: times it was taken out of
      the map; `handed`: given to an acquiring goroutine; `sending`: that goroutine
      has not delivered yet; `cancelled`: its cancel channel is closed. */
  datatype Request = Request(path: Path, deadline: int, buffered: nat, signals: nat, dropped: nat,
                             left: nat, handed: bool, sending: bool, cancelled: bool)

  datatype State = State(waiting: map<Path, RequestId>, requests: map<RequestId, Request>)

  datatype Event =
    | Register(id: RequestId, path: Path, deadline: int)
    | Notify(path: Path)
    | Check(now: int, free: set<Path>)
    | Deliver(id: RequestId, giveUp: bool)
    | Receive(id: RequestId)
    | Finish(id: RequestId)

  const START: State := State(map[], map[])

  // ---------- the steps ----------

  function NewRequest(path: Path, deadline: int): Request {
    Request(path, deadline, 0, 0, 0, 0, false, false, false)
  }

  /** A non-blocking send on the one-slot result channel. */
  function Signal(q: Request): Request {
    if q.buffered == 0 then q.(buffered := 1, signals := q.signals + 1) else q.(dropped := q.dropped + 1)
  }

  function Leave(q: Request): Request {
    q.(left := q.left + 1)
  }

  function HandOver(q: Request): Request {
    q.(handed := true, sending := true)
  }

  predicate IsWaiting(s: State, id: RequestId) {
    id in s.requests && s.requests[id].path in s.waiting && s.waiting[s.requests[id].path] == id
  }

  /** What `checkWaitingRequests` does to one request; `free` are the paths for which
      it found no lock in the table when it looked. */
  function Checked(s: State, id: RequestId, now: int, free: set<Path>): Request
    requires id in s.requests
  {
    var q := s.requests[id];
    if !IsWaiting(s, id) then q
    else if now > q.deadline then Signal(Leave(q))
    else if q.path in free then HandOver(Leave(q))
    else q
  }

  ghost predicate Stays(s: State, path: Path, now: int, free: set<Path>) {
    && path in s.waiting && path !in free
    && (s.waiting[path] in s.requests ==> now <= s.requests[s.waiting[path]].deadline)
  }

  ghost predicate Enabled(s: State, e: Event) {
    match e
    case Register(id, _, _) => id !in s.requests
    case Notify(_) => true
    case Check(_, _) => true
    case Deliver(id, giveUp) =>
      // the goroutine's select: the result channel has room, or the cancel channel is closed
      id in s.requests && s.requests[id].sending && (if giveUp then s.requests[id].cancelled else s.requests[id].buffered == 0)
    case Receive(id) => id in s.requests && s.requests[id].buffered > 0
    case Finish(id) => id in s.requests
  }

  ghost function Apply(s: State, e: Event): State {
    match e
    case Register(id, path, deadline) =>
      // the map has one slot per path: an earlier request is displaced
      var rs := if path in s.waiting && s.waiting[path] in s.requests
                then s.requests[s.waiting[path] := Leave(s.requests[s.waiting[path]])] else s.requests;
      State(s.waiting[path := id], rs[id := NewRequest(path, deadline)])
    case Notify(path) =>
      if path in s.waiting && s.waiting[path] in s.requests then
        var id := s.waiting[path];
        State(s.waiting - {path}, s.requests[id := Signal(Leave(s.requests[id]))])
      else s
    case Check(now, free) =>
      State(map p | p in s.waiting && Stays(s, p, now, free) :: s.waiting[p],
            map id | id in s.requests :: Checked(s, id, now, free))
    case Deliver(id, giveUp) =>
      if id !in s.requests then s
      else if giveUp then s.(requests := s.requests[id := s.requests[id].(sending := false)])
      else s.(requests := s.requests[id := Signal(s.requests[id]).(sending := false)])
    case Receive(id) =>
      if id in s.requests && s.requests[id].buffered > 0
      then s.(requests := s.requests[id := s.requests[id].(buffered := s.requests[id].buffered - 1)]) else s
    case Finish(id) =>
      if IsWaiting(s, id)
      then State(s.waiting - {s.requests[id].path}, s.requests[id := Leave(s.requests[id]).(cancelled := true)]) else s
  }

  ghost predicate Legal(s: State, es: seq<Event>)
    decreases |es|
  {
    es == [] || (Enabled(s, es[0]) && Legal(Apply(s, es[0]), es[1..]))
  }

  ghost function Run(s: State, es: seq<Event>): State
    decreases |es|
  {
    if es == [] then s else Run(Apply(s, es[0]), es[1..])
  }

  // ---------- the table ----------

  class WaiterTable {
    var waiting: map<Path, RequestId>
    var requests: map<RequestId, Request>

    constructor ()
      ensures Contents() == START
    {
      waiting, requests := map[], map[];
    }

    ghost function Contents(): State
      reads this
    {
      State(waiting, requests)
    }

    /** Every slot of the map names a request for that path. */
    ghost predicate Valid()
      reads this
    {
      Slotted(Contents())
    }

    method RegisterRequest(id: RequestId, path: Path, deadline: int)
      requires Valid() && id !in requests
      modifies this
      ensures Valid() && Contents() == Apply(old(Contents()), Register(id, path, deadline))
    {
      if path in waiting {
        requests := requests[waiting[path] := Leave(requests[waiting[path]])];
      }
      requests := requests[id := NewRequest(path, deadline)];
      waiting := waiting[path := id];
    }

    method NotifyWaiting(path: Path)
      requires Valid()
      modifies this
      ensures Valid() && Contents() == Apply(old(Contents()), Notify(path))
    {
      if path !in waiting {
        return;
      }
      var id := waiting[path];
      waiting := waiting - {path};
      requests := requests[id := Signal(Leave(requests[id]))];
    }

    /** `checkWaitingRequests`: sort the waiting paths into timed out and acquirable,
        then take both kinds out of the map. */
    method CheckWaiting(now: int, free: set<Path>)
      requires Valid()
      modifies this
      ensures Valid() && Contents() == Apply(old(Contents()), Check(now, free))
    {
      hide TakeAll, Apply;
      var timedOut, tryAcquire := Classify(waiting, requests, now, free);
      ghost var s := Contents();
      TakeOut(timedOut, false);
      CheckedMatches(s, now, free, timedOut, tryAcquire);
      TakeOut(tryAcquire, true);
    }

    /** Take the given paths out of the map, and signal their requests or hand them over. */
    method TakeOut(paths: set<Path>, hand: bool)
      requires Valid() && paths <= waiting.Keys
      modifies this
      ensures Valid() && Contents() == TakeAll(old(Contents()), paths, hand)
    {
      hide TakeAll, TakeOne, Signal;
      ghost var s := Contents();
      TakeNone(s, hand);
      var todo := paths;
      assert paths - todo == {};
      while todo != {}
        invariant todo <= paths && Contents() == TakeAll(s, paths - todo, hand)
        decreases |todo|
      {
        var p :| p in todo;
        TakeAllAdd(s, paths - todo, p, hand);
        assert paths - (todo - {p}) == (paths - todo) + {p};
        var id := waiting[p];
        waiting := waiting - {p};
        var q := Leave(requests[id]);
        requests := requests[id := if hand then HandOver(q) else Signal(q)];
        todo := todo - {p};
      }
      assert paths - todo == paths;
      TakeAllValid(s, paths, hand);
    }

    /** The deferred clean-up of a waiter that is done. */
    method FinishRequest(id: RequestId)
      requires Valid() && id in requests
      modifies this
      ensures Valid() && Contents() == Apply(old(Contents()), Finish(id))
    {
      var path := requests[id].path;
      if path in waiting && waiting[path] == id {
        waiting := waiting - {path};
        requests := requests[id := Leave(requests[id]).(cancelled := true)];
      }
    }
  }

  ghost predicate Slotted(s: State) {
    forall p :: p in s.waiting ==> s.waiting[p] in s.requests && s.requests[s.waiting[p]].path == p
  }

  /** The first loop of `checkWaitingRequests`, in whatever order the map iterates. */
  method Classify(waiting: map<Path, RequestId>, requests: map<RequestId, Request>, now: int, free: set<Path>)
    returns (timedOut: set<Path>, tryAcquire: set<Path>)
    requires Slotted(State(waiting, requests))
    ensures forall p :: p in timedOut <==> p in waiting && now > requests[waiting[p]].deadline
    ensures forall p :: p in tryAcquire <==> p in waiting && now <= requests[waiting[p]].deadline && p in free
  {
    timedOut, tryAcquire := {}, {};
    var todo := waiting.Keys;
    while todo != {}
      invariant todo <= waiting.Keys
      invariant forall p :: p in timedOut <==> p in waiting && p !in todo && now > requests[waiting[p]].deadline
      invariant forall p :: p in tryAcquire <==> p in waiting && p !in todo && now <= requests[waiting[p]].deadline && p in free
      decreases |todo|
    {
      var p :| p in todo;
      if now > requests[waiting[p]].deadline {
        timedOut := timedOut + {p};
      } else if p in free {
        tryAcquire := tryAcquire + {p};
      }
      todo := todo - {p};
    }
  }

  function Taken(q: Request, hand: bool): Request {
    if hand then HandOver(Leave(q)) else Signal(Leave(q))
  }

  ghost function TakeOne(s: State, p: Path, hand: bool): State
    requires p in s.waiting && s.waiting[p] in s.requests
  {
    State(s.waiting - {p}, s.requests[s.waiting[p] := Taken(s.requests[s.waiting[p]], hand)])
  }

  ghost function TakeAll(s: State, paths: set<Path>, hand: bool): State {
    State(s.waiting - paths,
          map id | id in s.requests ::
            if IsWaiting(s, id) && s.requests[id].path in paths then Taken(s.requests[id], hand) else s.requests[id])
  }

  lemma TakeNone(s: State, hand: bool)
    ensures TakeAll(s, {}, hand) == s
  {
    assert s.waiting - {} == s.waiting;
  }

  lemma TakeAllAdd(s: State, done: set<Path>, p: Path, hand: bool)
    requires Slotted(s) && p in s.waiting && p !in done
    ensures var t := TakeAll(s, done, hand);
      && p in t.waiting && t.waiting[p] in t.requests && t.requests[t.waiting[p]] == s.requests[s.waiting[p]]
      && TakeAll(s, done + {p}, hand) == State(t.waiting - {p}, t.requests[t.waiting[p] := Taken(t.requests[t.waiting[p]], hand)])
  {
    hide Taken;
    var t, u := TakeAll(s, done, hand), TakeAll(s, done + {p}, hand);
    assert u.waiting == t.waiting - {p};
    assert u.requests == t.requests[t.waiting[p] := Taken(t.requests[t.waiting[p]], hand)];
  }

  lemma TakeAllValid(s: State, paths: set<Path>, hand: bool)
    requires Slotted(s)
    ensures Slotted(TakeAll(s, paths, hand))
  {
  }

  lemma CheckedMatches(s: State, now: int, free: set<Path>, timedOut: set<Path>, tryAcquire: set<Path>)
    requires Slotted(s)
    requires forall p :: p in timedOut <==> p in s.waiting && now > s.requests[s.waiting[p]].deadline
    requires forall p :: p in tryAcquire <==> p in s.waiting && now <= s.requests[s.waiting[p]].deadline && p in free
    ensures timedOut <= s.waiting.Keys && tryAcquire <= TakeAll(s, timedOut, false).waiting.Keys
    ensures TakeAll(TakeAll(s, timedOut, false), tryAcquire, true) == Apply(s, Check(now, free))
  {
    hide HandOver, Signal, Leave;
    var mid := TakeAll(s, timedOut, false);
    var end, goal := TakeAll(mid, tryAcquire, true), Apply(s, Check(now, free));
    assert end.waiting == goal.waiting;
    assert end.requests.Keys == goal.requests.Keys;
    forall id | id in s.requests ensures end.requests[id] == goal.requests[id] {
      KeepsPath(s.requests[id]);
    }
    assert end.requests == goal.requests;
  }

  lemma KeepsPath(q: Request)
    ensures forall hand :: Taken(q, hand).path == q.path
  {
  }

  // ---------- what every step keeps ----------

  ghost predicate RequestOk(s: State, id: RequestId)
    requires id in s.requests
  {
    var q := s.requests[id];
    && q.left <= 1 && q.signals <= 1 && q.buffered <= q.signals && q.dropped == 0
    && (IsWaiting(s, id) ==> q.left == 0 && q.signals == 0 && !q.handed && !q.cancelled)
    && (q.sending ==> q.handed && q.signals == 0)
    && (q.cancelled ==> !q.handed && q.signals == 0)
    && (q.handed ==> q.left == 1)
  }

  ghost predicate Inv(s: State) {
    Slotted(s) && forall id :: id in s.requests ==> RequestOk(s, id)
  }

  lemma StepInv(s: State, e: Event)
    requires Inv(s) && Enabled(s, e)
    ensures Inv(Apply(s, e))
  {
    assert Slotted(Apply(s, e));
    forall id | id in Apply(s, e).requests ensures RequestOk(Apply(s, e), id) {
      hide Apply, RequestOk, Enabled;
      RequestStep(s, e, id);
    }
  }

  lemma RequestStep(s: State, e: Event, id: RequestId)
    requires Inv(s) && Enabled(s, e) && id in Apply(s, e).requests
    ensures RequestOk(Apply(s, e), id)
  {
    if id in s.requests {
      assert RequestOk(s, id);
    }
  }

  lemma {:induction false} RunInv(s: State, es: seq<Event>)
    requires Inv(s) && Legal(s, es)
    ensures Inv(Run(s, es))
    decreases |es|
  {
    if es != [] {
      StepInv(s, es[0]);
      hide Inv, Apply, Enabled;
      RunInv(Apply(s, es[0]), es[1..]);
    }
  }

  /** The hand-off is linear.  In every interleaving each request leaves the map at most
      once and is signalled at most once, so its one-slot channel never overflows and no
      send takes the drop branch; the cancel channel is never closed for a request that
      was handed to an acquiring goroutine, and that goroutine's send never waits. */
  lemma HandOffIsLinear(es: seq<Event>, id: RequestId)
    requires Legal(START, es) && id in Run(START, es).requests
    ensures var s, q := Run(START, es), Run(START, es).requests[id];
      && q.left <= 1 && q.signals <= 1 && q.buffered <= 1 && q.dropped == 0
      && (IsWaiting(s, id) ==> q.left == 0 && q.signals == 0)
      && !(q.cancelled && q.handed)
      && (q.sending ==> Enabled(s, Deliver(id, false)) && !Enabled(s, Deliver(id, true)))
  {
    RunInv(START, es);
    assert RequestOk(Run(START, es), id);
  }

  // ---------- displaced requests ----------

  /** Out of the map, not handed over, never signalled: displaced by a later request
      for the same path, or finished. */
  ghost predicate Forgotten(s: State, id: RequestId) {
    id in s.requests && !IsWaiting(s, id) && !s.requests[id].handed && s.requests[id].signals == 0
  }

  lemma ForgottenStep(s: State, e: Event, id: RequestId)
    requires Inv(s) && Enabled(s, e) && Forgotten(s, id)
    ensures Forgotten(Apply(s, e), id)
  {
    assert RequestOk(s, id);
  }

  /** A second request for a path displaces the first, which then gets no signal in any
      continuation: only its own deadline ends its wait. */
  lemma {:induction false} DisplacedIsNeverSignalled(s: State, es: seq<Event>, id: RequestId)
    requires Inv(s) && Legal(s, es) && Forgotten(s, id)
    ensures Forgotten(Run(s, es), id)
    decreases |es|
  {
    if es != [] {
      StepInv(s, es[0]);
      ForgottenStep(s, es[0], id);
      hide Inv, Apply, Enabled, Forgotten;
      DisplacedIsNeverSignalled(Apply(s, es[0]), es[1..], id);
    }
  }

  lemma RegisteringDisplaces(s: State, first: RequestId, second: RequestId, deadline: int)
    requires Inv(s) && IsWaiting(s, first) && second !in s.requests
    ensures Forgotten(Apply(s, Register(second, s.requests[first].path, deadline)), first)
  {
    assert RequestOk(s, first);
  }

  // ---------- nobody is forgotten ----------

  /** What becomes of a waiting request at each step: a notification and a timeout put a result
      into its channel, a free path hands it to a goroutine that can deliver, a later request
      for its path displaces it, its own end cancels it; anything else leaves it as it is. */
  lemma WaitingStep(s: State, e: Event, id: RequestId)
    requires Inv(s) && Enabled(s, e) && IsWaiting(s, id)
    ensures var q, s1 := s.requests[id], Apply(s, e);
      && id in s1.requests
      && var q1 := s1.requests[id];
         if e == Notify(q.path) || (e.Check? && e.now > q.deadline) then
           !IsWaiting(s1, id) && q1.buffered == 1 && q1.signals == 1 && Enabled(s1, Receive(id))
         else if e.Check? && q.path in e.free then
           !IsWaiting(s1, id) && q1.sending && Enabled(s1, Deliver(id, false))
         else if e.Register? && e.path == q.path then
           !IsWaiting(s1, id) && q1.signals == 0 && q1.buffered == 0 && !q1.sending
         else if e == Finish(id) then
           !IsWaiting(s1, id) && q1.cancelled
         else IsWaiting(s1, id) && q1 == q
  {
    hide Slotted;
    assert RequestOk(s, id);
    WaitingIsSlotted(s, id);
  }

  lemma WaitingIsSlotted(s: State, id: RequestId)
    requires Inv(s) && IsWaiting(s, id)
    ensures forall p :: p in s.waiting && s.waiting[p] == id ==> p == s.requests[id].path
  {
  }

  /** A goroutine's delivery reaches the waiter. */
  lemma DeliverStep(s: State, id: RequestId)
    requires Inv(s) && id in s.requests && s.requests[id].sending
    ensures var s1 := Apply(s, Deliver(id, false));
      && Enabled(s, Deliver(id, false)) && id in s1.requests
      && s1.requests[id].buffered == 1 && s1.requests[id].signals == 1 && !s1.requests[id].sending && Enabled(s1, Receive(id))
  {
    assert RequestOk(s, id);
  }

  /** Registering puts the request into its path's slot, unsignalled. */
  lemma RegisterStep(s: State, id: RequestId, path: Path, deadline: int)
    requires Inv(s) && id !in s.requests
    ensures var s1 := Apply(s, Register(id, path, deadline));
      && IsWaiting(s1, id) && s1.requests[id].path == path && s1.requests[id].deadline == deadline
      && s1.requests[id].signals == 0 && s1.requests[id].buffered == 0
  {
  }

  /** A request out of the map has been signalled, is about to be, was cancelled by its own
      waiter, or was displaced by a later request for its path. */
  ghost predicate Answered(es: seq<Event>, id: RequestId, q: Request) {
    q.signals == 1 || q.sending || q.cancelled || DisplacedIn(es, id, q.path)
  }

  ghost predicate RegisteredIn(es: seq<Event>, id: RequestId, path: Path) {
    exists i :: 0 <= i < |es| && es[i].Register? && es[i].id == id && es[i].path == path
  }

  ghost predicate DisplacedIn(es: seq<Event>, id: RequestId, path: Path) {
    exists i, j :: 0 <= i < j < |es| && es[i].Register? && es[i].id == id && es[i].path == path && es[j].Register? && es[j].path == path
  }

  ghost predicate Remembered(s: State, es: seq<Event>, id: RequestId)
    requires id in s.requests
  {
    var q := s.requests[id];
    RegisteredIn(es, id, q.path) && (IsWaiting(s, id) || Answered(es, id, q))
  }

  lemma EventsGrow(es: seq<Event>, e: Event, id: RequestId, path: Path)
    ensures RegisteredIn(es, id, path) ==> RegisteredIn(es + [e], id, path)
    ensures DisplacedIn(es, id, path) ==> DisplacedIn(es + [e], id, path)
    ensures e.Register? && e.path == path && RegisteredIn(es, id, path) ==> DisplacedIn(es + [e], id, path)
    ensures e.Register? && e.id == id && e.path == path ==> RegisteredIn(es + [e], id, path)
  {
    var more := es + [e];
    assert forall i :: 0 <= i < |es| ==> more[i] == es[i];
    assert more[|es|] == e;
    if DisplacedIn(es, id, path) {
      var i, j :| 0 <= i < j < |es| && es[i].Register? && es[i].id == id && es[i].path == path && es[j].Register? && es[j].path == path;
      assert more[i] == es[i] && more[j] == es[j];
    }
    if RegisteredIn(es, id, path) {
      var i :| 0 <= i < |es| && es[i].Register? && es[i].id == id && es[i].path == path;
      assert more[i] == es[i];
    }
  }

  lemma RememberedStep(s: State, es: seq<Event>, e: Event, id: RequestId)
    requires Inv(s) && Enabled(s, e) && id in Apply(s, e).requests
    requires id in s.requests ==> Remembered(s, es, id)
    ensures Remembered(Apply(s, e), es + [e], id)
  {
    var s1 := Apply(s, e);
    EventsGrow(es, e, id, s1.requests[id].path);
    if id !in s.requests {
      NewRequestOrigin(s, e, id);
    } else if IsWaiting(s, id) {
      WaitingStep(s, e, id);
      KeepsItsPath(s, e, id);
    } else {
      LeftStep(s, e, id);
    }
  }

  lemma NewRequestOrigin(s: State, e: Event, id: RequestId)
    requires id !in s.requests && id in Apply(s, e).requests
    ensures e.Register? && e.id == id && Apply(s, e).requests[id] == NewRequest(e.path, e.deadline) && IsWaiting(Apply(s, e), id)
  {
  }

  lemma KeepsItsPath(s: State, e: Event, id: RequestId)
    requires Enabled(s, e) && id in s.requests
    ensures id in Apply(s, e).requests && Apply(s, e).requests[id].path == s.requests[id].path
  {
  }

  /** A request out of the map stays answered. */
  lemma LeftStep(s: State, e: Event, id: RequestId)
    requires Inv(s) && Enabled(s, e) && id in s.requests && !IsWaiting(s, id)
    ensures var s1 := Apply(s, e);
      && id in s1.requests && s1.requests[id].path == s.requests[id].path
      && (s.requests[id].signals == 1 ==> s1.requests[id].signals == 1)
      && (s.requests[id].cancelled ==> s1.requests[id].cancelled)
      && (s.requests[id].sending ==> s1.requests[id].sending || s1.requests[id].signals == 1)
  {
    assert RequestOk(s, id);
  }

  lemma {:induction false} RunSnoc(s: State, es: seq<Event>, e: Event)
    ensures Run(s, es + [e]) == Apply(Run(s, es), e)
    ensures Legal(s, es + [e]) <==> Legal(s, es) && Enabled(Run(s, es), e)
    decreases |es|
  {
    hide Apply, Enabled;
    if es == [] {
      assert es + [e] == [e] && [e][1..] == [];
      assert Run(s, [e]) == Run(Apply(s, e), []);
    } else {
      assert (es + [e])[0] == es[0] && (es + [e])[1..] == es[1..] + [e];
      RunSnoc(Apply(s, es[0]), es[1..], e);
    }
  }

  /** No lost wake-up, over every run: a request that is out of the map has been signalled, is
      about to be, was cancelled by its own waiter, or was displaced by a later request. */
  lemma {:induction false} NobodyIsForgotten(es: seq<Event>, id: RequestId)
    requires Legal(START, es) && id in Run(START, es).requests
    ensures IsWaiting(Run(START, es), id) || Answered(es, id, Run(START, es).requests[id])
    ensures Remembered(Run(START, es), es, id)
  {
    if es != [] {
      var before, e := es[..|es| - 1], es[|es| - 1];
      assert es == before + [e];
      RunSnoc(START, before, e);
      RunInv(START, before);
      hide Run, Legal, Inv, Apply, Enabled, Remembered;
      var s := Run(START, before);
      if id in s.requests {
        NobodyIsForgotten(before, id);
      }
      RememberedStep(s, before, e, id);
      RememberedMeans(Run(START, es), es, id);
    }
  }

  lemma RememberedMeans(s: State, es: seq<Event>, id: RequestId)
    requires id in s.requests && Remembered(s, es, id)
    ensures IsWaiting(s, id) || Answered(es, id, s.requests[id])
  {
  }
}
