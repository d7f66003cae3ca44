/** Sorted multi-lock acquisition and the waits-for graph. */
module Deadlock {
  import opened Lex
  import opened EnhancedLocks

  /** A running `AcquireMultipleLocks` call: the sorted paths, the ids acquired so far
      (one per path, in order), and whether its `AcquireLock` for the next path is waiting. */
  datatype Call = Call(want: seq<Path>, ttl: int, ids: seq<nat>, blocked: bool)

  /** What a waiting `AcquireLock` asks for. */
  datatype Request = Request(agent: Agent, path: Path, ttl: int)

  /** The lock table, the running calls, the waiting requests (one slot per path), and the
      requests handed to goroutines that have not tried to acquire yet. */
  datatype State = State(table: Table, nextId: nat, calls: map<Agent, Call>, waiting: map<Path, Request>, handed: multiset<Request>)

  /** `Attempt` is the first try for a path, or the retry of a waiting call after a signal. */
  datatype Event =
    | Begin(agent: Agent, resources: seq<Path>, ttl: int)
    | Attempt(agent: Agent, checkTime: int, setTime: int)
    | Notify(path: Path)
    | HandOver(path: Path)
    | HandedAcquire(request: Request, checkTime: int, setTime: int)
    | Vanish(path: Path)
    | Fail(agent: Agent)
    | Done(agent: Agent)

  const START: State := State(Table(map[], map[]), 0, map[], map[], multiset{})

  /** The rollback loop: release each acquired path with its id. */
  function ReleaseAll(t: Table, agent: Agent, paths: seq<Path>, ids: seq<nat>): Table
    requires |ids| <= |paths|
    decreases |ids|
  {
    if ids == [] then t
    else ReleaseAll(Release(t, paths[0], agent, ids[0]).0, agent, paths[1..], ids[1..])
  }

  ghost predicate CallFormed(c: Call, nextId: nat) {
    && |c.ids| <= |c.want| && Ascending(c.want) && (c.blocked ==> |c.ids| < |c.want|)
    && forall i :: 0 <= i < |c.ids| ==> c.ids[i] < nextId
  }

  ghost predicate Formed(s: State) {
    && (forall a :: a in s.calls ==> CallFormed(s.calls[a], s.nextId))
    && (forall p :: p in s.table.locks ==> s.table.locks[p].id < s.nextId)
  }

  ghost predicate Enabled(s: State, e: Event) {
    match e
    case Begin(a, resources, _) => a !in s.calls && resources != []
    case Attempt(a, _, _) => a in s.calls && |s.calls[a].ids| < |s.calls[a].want|
    case Notify(p) => p in s.waiting
    case HandOver(p) => p in s.waiting && p !in s.table.locks
    case HandedAcquire(r, _, _) => r in s.handed
    case Vanish(p) => p in s.table.locks
    case Fail(a) => a in s.calls && s.calls[a].blocked
    case Done(a) => a in s.calls && |s.calls[a].ids| == |s.calls[a].want|
  }

  /** The path a call asks for next. */
  ghost function Next(c: Call): Path
    requires |c.ids| < |c.want|
  {
    c.want[|c.ids|]
  }

  /** A request that is done waiting leaves its slot, unless another one has taken it. */
  ghost function Unregister(waiting: map<Path, Request>, a: Agent): map<Path, Request> {
    map p | p in waiting && waiting[p].agent != a :: waiting[p]
  }

  ghost function EndCall(s: State, a: Agent): State
    requires a in s.calls && |s.calls[a].ids| <= |s.calls[a].want|
  {
    s.(table := ReleaseAll(s.table, a, s.calls[a].want, s.calls[a].ids), calls := s.calls - {a}, waiting := Unregister(s.waiting, a))
  }

  ghost function Apply(cfg: Config, s: State, e: Event): State
    requires Formed(s) && Enabled(s, e)
  {
    match e
    case Begin(a, resources, ttl) => s.(calls := s.calls[a := Call(SortStrings(resources), ttl, [], false)])
    case Attempt(a, checkTime, setTime) =>
      var c := s.calls[a];
      var (t, r) := TryAcquire(cfg, s.table, Next(c), a, c.ttl, checkTime, setTime, s.nextId);
      (match r
       case Acquired(h) =>
         State(t, s.nextId + 1, s.calls[a := Call(c.want, c.ttl, c.ids + [h.id], false)], Unregister(s.waiting, a), s.handed)
       case Contended(_) =>
         if c.blocked then EndCall(s, a)
         else s.(calls := s.calls[a := c.(blocked := true)], waiting := s.waiting[Next(c) := Request(a, Next(c), c.ttl)])
       case LimitReached => EndCall(s, a))
    case Notify(p) => s.(waiting := s.waiting - {p})
    case HandOver(p) => s.(waiting := s.waiting - {p}, handed := s.handed + multiset{s.waiting[p]})
    case HandedAcquire(r, checkTime, setTime) =>
      s.(table := TryAcquire(cfg, s.table, r.path, r.agent, r.ttl, checkTime, setTime, s.nextId).0, nextId := s.nextId + 1,
         handed := s.handed - multiset{r})
    case Vanish(p) => s.(table := Remove(s.table, p, s.table.locks[p].agent))
    case Fail(a) => EndCall(s, a)
    case Done(a) => EndCall(s, a)
  }

  // ---------- the waits-for graph ----------

  /** Agent `a` is blocked on a path that agent `b` holds. */
  ghost predicate WaitsFor(s: State, a: Agent, b: Agent) {
    && a != b && a in s.calls && s.calls[a].blocked && |s.calls[a].ids| < |s.calls[a].want|
    && Next(s.calls[a]) in s.table.locks && s.table.locks[Next(s.calls[a])].agent == b
  }

  ghost predicate IsCycle(s: State, agents: seq<Agent>) {
    && agents != []
    && (forall i :: 0 <= i < |agents| - 1 ==> WaitsFor(s, agents[i], agents[i + 1]))
    && WaitsFor(s, agents[|agents| - 1], agents[0])
  }

  /** A held lock is accounted for by its holder's running call: it was acquired by it,
      or it was just acquired on its behalf for the path it waits for. */
  ghost predicate Accounted(s: State, p: Path)
    requires p in s.table.locks
  {
    var h := s.table.locks[p];
    h.agent in s.calls && (var c := s.calls[h.agent]; AcquiredBy(c, p, h.id) || AwaitedBy(c, p))
  }

  ghost predicate AcquiredBy(c: Call, p: Path, id: nat) {
    exists i :: 0 <= i < |c.ids| && i < |c.want| && c.want[i] == p && c.ids[i] == id
  }

  ghost predicate AwaitedBy(c: Call, p: Path) {
    c.blocked && |c.ids| < |c.want| && c.want[|c.ids|] == p
  }

  ghost predicate Tidy(s: State) {
    forall p :: p in s.table.locks ==> Accounted(s, p)
  }

  /** In a tidy state each agent waits for a path above every path it holds, so an
      edge of the graph leads to an agent that waits for a higher path. */
  lemma WaitsUpwards(s: State, a: Agent, b: Agent, c: Agent)
    requires Formed(s) && Tidy(s) && WaitsFor(s, a, b) && WaitsFor(s, b, c)
    ensures Less(Next(s.calls[a]), Next(s.calls[b]))
  {
    var p, q := Next(s.calls[a]), Next(s.calls[b]);
    assert Accounted(s, p);
    var cb := s.calls[b];
    assert p != q;
    var i :| 0 <= i < |cb.ids| && i < |cb.want| && cb.want[i] == p;
    assert Leq(cb.want[i], cb.want[|cb.ids|]);
  }

  lemma {:induction false} ClimbsAlong(s: State, agents: seq<Agent>, k: nat)
    requires Formed(s) && Tidy(s) && IsCycle(s, agents) && 0 < k < |agents|
    ensures agents[0] in s.calls && |s.calls[agents[0]].ids| < |s.calls[agents[0]].want|
    ensures agents[k] in s.calls && |s.calls[agents[k]].ids| < |s.calls[agents[k]].want|
    ensures Less(Next(s.calls[agents[0]]), Next(s.calls[agents[k]]))
  {
    var after := if k + 1 < |agents| then agents[k + 1] else agents[0];
    assert WaitsFor(s, agents[k - 1], agents[k]) && WaitsFor(s, agents[k], after);
    WaitsUpwards(s, agents[k - 1], agents[k], after);
    if k > 1 {
      ClimbsAlong(s, agents, k - 1);
      LessTransitive(Next(s.calls[agents[0]]), Next(s.calls[agents[k - 1]]), Next(s.calls[agents[k]]));
    }
  }

  /** No deadlock, for any number of agents: a tidy state has no waits-for cycle. */
  lemma NoCycle(s: State, agents: seq<Agent>)
    requires Formed(s) && Tidy(s)
    ensures !IsCycle(s, agents)
  {
    if IsCycle(s, agents) {
      var n := |agents| - 1;
      assert n > 0;
      ClimbsAlong(s, agents, n);
      assert WaitsFor(s, agents[0], agents[1]);
      WaitsUpwards(s, agents[n], agents[0], agents[1]);
      LessAsymmetric(Next(s.calls[agents[0]]), Next(s.calls[agents[n]]));
    }
  }

  // ---------- which steps keep the state tidy ----------

  /** The step leaves a lock that no running call accounts for: a call ends while a
      lock acquired on its behalf is still unclaimed, or a request is served for an
      agent that is no longer waiting for that path. */
  ghost predicate Orphans(cfg: Config, s: State, e: Event)
    requires Formed(s) && Enabled(s, e)
  {
    match e
    case Attempt(a, _, _) => AtLimit(cfg, s.table, a) && Unclaimed(s, a)
    case HandedAcquire(r, checkTime, _) =>
      && !AtLimit(cfg, s.table, r.agent) && !Live(s.table, r.path, checkTime)
      && !(r.agent in s.calls && AwaitedBy(s.calls[r.agent], r.path))
    case Fail(a) => Unclaimed(s, a)
    case _ => false
  }

  /** The agent holds the path it waits for, under an id its call has not been given. */
  ghost predicate Unclaimed(s: State, a: Agent)
    requires a in s.calls && |s.calls[a].ids| < |s.calls[a].want|
  {
    var c := s.calls[a];
    Next(c) in s.table.locks && s.table.locks[Next(c)].agent == a && !AcquiredBy(c, Next(c), s.table.locks[Next(c)].id)
  }

  /** What the release loop leaves: everything except the agent's locks it has ids for. */
  lemma {:induction false} ReleaseAllEffect(t: Table, agent: Agent, paths: seq<Path>, ids: seq<nat>, p: Path)
    requires |ids| <= |paths|
    ensures var r := ReleaseAll(t, agent, paths, ids);
      && (p in r.locks ==> p in t.locks && r.locks[p] == t.locks[p])
      && (p in t.locks ==>
            (p in r.locks <==> !(t.locks[p].agent == agent && exists i :: 0 <= i < |ids| && paths[i] == p && ids[i] == t.locks[p].id)))
    decreases |ids|
  {
    if ids != [] {
      var t1 := Release(t, paths[0], agent, ids[0]).0;
      ReleaseAllEffect(t1, agent, paths[1..], ids[1..], p);
      if p in t.locks {
        var here := t.locks[p].agent == agent && paths[0] == p && ids[0] == t.locks[p].id;
        if here {
          assert p !in t1.locks;
        } else {
          assert p in t1.locks && t1.locks[p] == t.locks[p];
          if i :| 0 <= i < |ids| && paths[i] == p && ids[i] == t.locks[p].id && t.locks[p].agent == agent {
            assert paths[1..][i - 1] == p && ids[1..][i - 1] == ids[i];
          }
          if i :| 0 <= i < |ids[1..]| && paths[1..][i] == p && ids[1..][i] == t.locks[p].id {
            assert paths[i + 1] == p && ids[i + 1] == t.locks[p].id;
          }
        }
      }
    }
  }

  lemma EndCallTidy(s: State, a: Agent)
    requires Formed(s) && Tidy(s) && a in s.calls
    ensures Tidy(EndCall(s, a)) <==> !(|s.calls[a].ids| < |s.calls[a].want| && s.calls[a].blocked && Unclaimed(s, a))
  {
    var c, s1 := s.calls[a], EndCall(s, a);
    forall p | p in s.table.locks
      ensures p in s1.table.locks <==> !(s.table.locks[p].agent == a && AcquiredBy(c, p, s.table.locks[p].id))
    {
      ReleaseAllEffect(s.table, a, c.want, c.ids, p);
    }
    forall p | p in s1.table.locks ensures p in s.table.locks && s1.table.locks[p] == s.table.locks[p] {
      ReleaseAllEffect(s.table, a, c.want, c.ids, p);
    }
    hide EndCall, AcquiredBy;
    if |c.ids| < |c.want| && c.blocked && Unclaimed(s, a) {
      assert !Accounted(s1, Next(c));
    } else {
      forall p | p in s1.table.locks ensures Accounted(s1, p) {
        assert Accounted(s, p);
      }
    }
  }

  lemma TryAcquireIds(cfg: Config, t: Table, path: Path, agent: Agent, ttl: int, c: int, w: int, newId: nat)
    requires forall p :: p in t.locks ==> t.locks[p].id < newId
    ensures var (t1, r) := TryAcquire(cfg, t, path, agent, ttl, c, w, newId);
      && (forall p :: p in t1.locks ==> t1.locks[p].id < newId + 1)
      && (r.Acquired? ==> r.handle.id < newId + 1)
  {
  }

  /** The calls keep their shape at every step. */
  lemma StepFormed(cfg: Config, s: State, e: Event)
    requires Formed(s) && Enabled(s, e)
    ensures Formed(Apply(cfg, s, e))
  {
    hide TryAcquire, ReleaseAll, Ascending;
    match e {
      case Begin(_, resources, _) => SortAscending(resources);
      case Attempt(a, c, w) =>
        TryAcquireIds(cfg, s.table, Next(s.calls[a]), a, s.calls[a].ttl, c, w, s.nextId);
        EndCallFormed(s, a);
      case HandedAcquire(r, c, w) => TryAcquireIds(cfg, s.table, r.path, r.agent, r.ttl, c, w, s.nextId);
      case Fail(a) => EndCallFormed(s, a);
      case Done(a) => EndCallFormed(s, a);
      case _ =>
    }
  }

  lemma EndCallFormed(s: State, a: Agent)
    requires Formed(s) && a in s.calls
    ensures Formed(EndCall(s, a))
  {
    var s1 := EndCall(s, a);
    forall p | p in s1.table.locks ensures s1.table.locks[p].id < s1.nextId {
      ReleaseAllEffect(s.table, a, s.calls[a].want, s.calls[a].ids, p);
    }
  }

  /** The retry of a waiting call finds the path taken again. */
  ghost predicate Refused(s: State, a: Agent, checkTime: int)
    requires a in s.calls && |s.calls[a].ids| < |s.calls[a].want|
  {
    var c := s.calls[a];
    c.blocked && Live(s.table, Next(c), checkTime) && s.table.locks[Next(c)].agent != a
  }

  lemma AttemptTidy(cfg: Config, s: State, e: Event)
    requires Formed(s) && Tidy(s) && Enabled(s, e) && e.Attempt? && !AtLimit(cfg, s.table, e.agent)
    requires !Refused(s, e.agent, e.checkTime)
    ensures Tidy(Apply(cfg, s, e))
  {
    var a, c, s1 := e.agent, s.calls[e.agent], Apply(cfg, s, e);
    forall p | p in s1.table.locks ensures Accounted(s1, p) {
      var c1 := s1.calls[a];
      if p == Next(c) && s1.table.locks[p].agent == a && c1.ids != c.ids {
        assert c1.want[|c.ids|] == p && c1.ids[|c.ids|] == s1.table.locks[p].id;
      } else {
        assert Accounted(s, p);
        if s.table.locks[p].agent == a && AcquiredBy(c, p, s.table.locks[p].id) {
          var i :| 0 <= i < |c.ids| && i < |c.want| && c.want[i] == p && c.ids[i] == s.table.locks[p].id;
          assert c1.want[i] == p && c1.ids[i] == c.ids[i];
        }
      }
    }
  }

  lemma HandedTidy(cfg: Config, s: State, e: Event)
    requires Formed(s) && Tidy(s) && Enabled(s, e) && e.HandedAcquire?
    ensures Tidy(Apply(cfg, s, e)) <==> !Orphans(cfg, s, e)
  {
    var s1 := Apply(cfg, s, e);
    if Orphans(cfg, s, e) {
      var r := e.request;
      assert s1.table.locks[r.path] == Handle(s.nextId, r.agent, e.setTime + EffectiveTtl(cfg, r.ttl));
      assert r.agent in s.calls ==> CallFormed(s.calls[r.agent], s.nextId);
      assert !Accounted(s1, r.path);
    } else {
      hide AcquiredBy, Formed;
      forall p | p in s1.table.locks ensures Accounted(s1, p) {
        if p in s.table.locks {
          assert Accounted(s, p);
        }
      }
    }
  }

  /** Exactly the steps that orphan a lock make a tidy state untidy. */
  lemma TidyStep(cfg: Config, s: State, e: Event)
    requires Formed(s) && Tidy(s) && Enabled(s, e)
    ensures Tidy(Apply(cfg, s, e)) <==> !Orphans(cfg, s, e)
  {
    match e {
      case Attempt(a, checkTime, _) =>
        if AtLimit(cfg, s.table, a) {
          EndCallTidy(s, a);
          UnclaimedIsBlocked(s, a);
        } else if Refused(s, a, checkTime) {
          EndCallTidy(s, a);
        } else {
          AttemptTidy(cfg, s, e);
        }
      case HandedAcquire(_, _, _) => HandedTidy(cfg, s, e);
      case Fail(a) => EndCallTidy(s, a);
      case Done(a) => EndCallTidy(s, a);
      case _ =>
        var s1 := Apply(cfg, s, e);
        forall p | p in s1.table.locks ensures Accounted(s1, p) {
          assert Accounted(s, p);
        }
    }
  }

  lemma UnclaimedIsBlocked(s: State, a: Agent)
    requires Formed(s) && Tidy(s) && a in s.calls && |s.calls[a].ids| < |s.calls[a].want|
    ensures Unclaimed(s, a) ==> s.calls[a].blocked
  {
    if Unclaimed(s, a) {
      assert Accounted(s, Next(s.calls[a]));
    }
  }

  // ---------- runs ----------

  ghost predicate Legal(cfg: Config, s: State, es: seq<Event>)
    requires Formed(s)
    decreases |es|
  {
    es == [] || (Enabled(s, es[0]) && (StepFormed(cfg, s, es[0]); Legal(cfg, Apply(cfg, s, es[0]), es[1..])))
  }

  ghost function Run(cfg: Config, s: State, es: seq<Event>): (r: State)
    requires Formed(s) && Legal(cfg, s, es)
    ensures Formed(r)
    decreases |es|
  {
    if es == [] then s else (StepFormed(cfg, s, es[0]); Run(cfg, Apply(cfg, s, es[0]), es[1..]))
  }

  ghost predicate NoOrphans(cfg: Config, s: State, es: seq<Event>)
    requires Formed(s) && Legal(cfg, s, es)
    decreases |es|
  {
    es == [] || (!Orphans(cfg, s, es[0]) && (StepFormed(cfg, s, es[0]); NoOrphans(cfg, Apply(cfg, s, es[0]), es[1..])))
  }

  lemma {:induction false} TidyAlong(cfg: Config, s: State, es: seq<Event>)
    requires Formed(s) && Tidy(s) && Legal(cfg, s, es) && NoOrphans(cfg, s, es)
    ensures Tidy(Run(cfg, s, es))
    decreases |es|
  {
    if es != [] {
      StepFormed(cfg, s, es[0]);
      TidyStep(cfg, s, es[0]);
      hide Tidy, Formed, Orphans, Enabled, Apply;
      TidyAlong(cfg, Apply(cfg, s, es[0]), es[1..]);
    }
  }

  /** Deadlock freedom over whole runs: with any number of agents, each holding only
      locks of its single running call, the waits-for graph never has a cycle. */
  lemma DeadlockFree(cfg: Config, es: seq<Event>, agents: seq<Agent>)
    requires Legal(cfg, START, es) && NoOrphans(cfg, START, es)
    ensures !IsCycle(Run(cfg, START, es), agents)
  {
    hide Legal, NoOrphans, Run;
    TidyAlong(cfg, START, es);
    NoCycle(Run(cfg, START, es), agents);
  }

  // ---------- the waiting requests ----------

  /** Every slot holds the request of a running call that waits for that path. */
  ghost predicate Registered(s: State) {
    forall p :: p in s.waiting ==> SlotFilled(s, p)
  }

  ghost predicate SlotFilled(s: State, p: Path)
    requires p in s.waiting
  {
    var r := s.waiting[p];
    r.path == p && r.agent in s.calls && AwaitedBy(s.calls[r.agent], p) && s.calls[r.agent].ttl == r.ttl
  }

  lemma RegisteredStep(cfg: Config, s: State, e: Event)
    requires Formed(s) && Registered(s) && Enabled(s, e)
    ensures Registered(Apply(cfg, s, e))
  {
    hide TryAcquire, ReleaseAll, Formed;
    var s1 := Apply(cfg, s, e);
    forall p | p in s1.waiting ensures SlotFilled(s1, p) {
      if p in s.waiting {
        assert SlotFilled(s, p);
      }
    }
  }

  /** In every run a request is handed over only for an agent that is waiting for the path
      at that moment, and only while nobody holds the path. */
  lemma {:induction false} HandedWhileWaiting(cfg: Config, s: State, es: seq<Event>, p: Path)
    requires Formed(s) && Registered(s) && Legal(cfg, s, es) && Enabled(Run(cfg, s, es), HandOver(p))
    ensures var s1 := Run(cfg, s, es);
      var r := s1.waiting[p];
      r.agent in s1.calls && AwaitedBy(s1.calls[r.agent], p) && p !in s1.table.locks && r in Apply(cfg, s1, HandOver(p)).handed
    decreases |es|
  {
    if es != [] {
      StepFormed(cfg, s, es[0]);
      RegisteredStep(cfg, s, es[0]);
      hide Registered, Formed, Apply;
      HandedWhileWaiting(cfg, Apply(cfg, s, es[0]), es[1..], p);
    } else {
      assert SlotFilled(s, p);
    }
  }

  // ---------- an orphaned lock can close a cycle ----------

  ghost predicate Reaches(cfg: Config, s: State, es: seq<Event>, goal: State) {
    Formed(s) && Legal(cfg, s, es) && Run(cfg, s, es) == goal
  }

  lemma ReachNothing(cfg: Config, s: State)
    requires Formed(s)
    ensures Reaches(cfg, s, [], s)
  {
  }

  lemma ReachStep(cfg: Config, s: State, e: Event, es: seq<Event>, goal: State)
    requires Formed(s) && Enabled(s, e) && Reaches(cfg, Apply(cfg, s, e), es, goal)
    ensures Reaches(cfg, s, [e] + es, goal)
  {
    hide Formed, Enabled, Apply;
    StepFormed(cfg, s, e);
    assert ([e] + es)[0] == e && ([e] + es)[1..] == es;
  }

  lemma SortedTwo()
    ensures SortStrings(["x", "y"]) == ["x", "y"] && SortStrings(["x"]) == ["x"]
    ensures Ascending(["x", "y"]) && Ascending(["x"])
  {
    assert ["x", "y"][1..] == ["y"] && ["y"][1..] == [] && ["x"][1..] == [];
  }

  // ----- the states of the run below: first "a" is left with "y" outside any call -----

  ghost function Held(p: Path, id: nat, a: Agent): Table {
    Table(map[p := Handle(id, a, 60)], map[a := {p}])
  }

  ghost function CallFor(p: Path, ids: seq<nat>, blocked: bool): Call { Call([p], 60, ids, blocked) }

  ghost function RequestOf(a: Agent, p: Path): Request { Request(a, p, 60) }

  ghost function S1(): State { State(Table(map[], map[]), 0, map["c" := CallFor("y", [], false)], map[], multiset{}) }
  ghost function S2(): State { State(Held("y", 0, "c"), 1, map["c" := CallFor("y", [0], false)], map[], multiset{}) }
  ghost function S3(): State {
    State(Held("y", 0, "c"), 1, map["c" := CallFor("y", [0], false), "a" := CallFor("y", [], false)], map[], multiset{})
  }
  ghost function S4(): State {
    State(Held("y", 0, "c"), 1, map["c" := CallFor("y", [0], false), "a" := CallFor("y", [], true)], map["y" := RequestOf("a", "y")], multiset{})
  }
  ghost function S5(): State { State(Table(map[], map[]), 1, map["a" := CallFor("y", [], true)], map["y" := RequestOf("a", "y")], multiset{}) }
  ghost function S6(): State { State(Table(map[], map[]), 1, map["a" := CallFor("y", [], true)], map[], multiset{RequestOf("a", "y")}) }
  ghost function S7(): State { State(Table(map[], map[]), 1, map[], map[], multiset{RequestOf("a", "y")}) }
  ghost function S8(): State { State(Held("y", 1, "a"), 2, map[], map[], multiset{}) }

  // ----- then "b" and "a" wait for each other -----

  ghost function CallOfB(ids: seq<nat>, blocked: bool): Call { Call(["x", "y"], 60, ids, blocked) }

  ghost function Crossed(): Table {
    Table(map["y" := Handle(1, "a", 60), "x" := Handle(2, "b", 60)], map["a" := {"y"}, "b" := {"x"}])
  }

  ghost function S9(): State { State(Held("y", 1, "a"), 2, map["b" := CallOfB([], false)], map[], multiset{}) }
  ghost function S10(): State { State(Crossed(), 3, map["b" := CallOfB([2], false)], map[], multiset{}) }
  ghost function S11(): State { State(Crossed(), 3, map["b" := CallOfB([2], true)], map["y" := RequestOf("b", "y")], multiset{}) }
  ghost function S12(): State {
    State(Crossed(), 3, map["b" := CallOfB([2], true), "a" := CallFor("x", [], false)], map["y" := RequestOf("b", "y")], multiset{})
  }
  ghost function S13(): State {
    State(Crossed(), 3, map["b" := CallOfB([2], true), "a" := CallFor("x", [], true)],
          map["y" := RequestOf("b", "y"), "x" := RequestOf("a", "x")], multiset{})
  }

  ghost predicate Leads(cfg: Config, s: State, e: Event, t: State) {
    Formed(s) && Enabled(s, e) && Apply(cfg, s, e) == t
  }

  lemma Singles()
    ensures forall p: Path :: SortStrings([p]) == [p] && Ascending([p])
  {
    forall p: Path ensures SortStrings([p]) == [p] && Ascending([p]) {
      assert [p][1..] == [];
    }
  }

  lemma CTakesY(cfg: Config)
    ensures Leads(cfg, START, Begin("c", ["y"], 60), S1()) && Leads(cfg, S1(), Attempt("c", 0, 0), S2())
  {
    hide Ascending, SortStrings;
    Singles();
    var none: set<Path>, ids: seq<nat> := {}, [];
    assert none + {"y"} == {"y"} && ids + [0] == [0];
    assert Unregister(map[], "c") == map[];
  }

  lemma AWaitsForY(cfg: Config)
    ensures Leads(cfg, S2(), Begin("a", ["y"], 60), S3()) && Leads(cfg, S3(), Attempt("a", 0, 0), S4())
  {
    hide Ascending, SortStrings;
    Singles();
  }

  lemma CReleasesY(cfg: Config)
    ensures Leads(cfg, S4(), Done("c"), S5())
  {
    hide Ascending, SortStrings;
    Singles();
    assert [0][1..] == [] && ["y"][1..] == [];
    assert Unregister(S4().waiting, "c") == S4().waiting;
    assert S4().calls - {"c"} == S5().calls;
  }

  lemma AIsHandedY(cfg: Config)
    ensures Leads(cfg, S5(), HandOver("y"), S6()) && Leads(cfg, S6(), Fail("a"), S7())
  {
    hide Ascending, SortStrings;
    Singles();
    assert Unregister(map[], "a") == map[];
  }

  lemma AHoldsY(cfg: Config)
    ensures Leads(cfg, S7(), HandedAcquire(RequestOf("a", "y"), 0, 0), S8())
    ensures Orphans(cfg, S7(), HandedAcquire(RequestOf("a", "y"), 0, 0))
  {
    hide Ascending, SortStrings;
    var none: set<Path> := {};
    assert none + {"y"} == {"y"};
  }

  lemma BTakesX(cfg: Config)
    ensures Leads(cfg, S8(), Begin("b", ["x", "y"], 60), S9()) && Leads(cfg, S9(), Attempt("b", 0, 0), S10())
  {
    hide Ascending, SortStrings;
    SortedTwo();
    var none: set<Path>, ids: seq<nat> := {}, [];
    assert none + {"x"} == {"x"} && ids + [2] == [2];
    assert Unregister(map[], "b") == map[];
  }

  lemma BWaitsForY(cfg: Config)
    requires cfg.maxLocks != 1
    ensures Leads(cfg, S10(), Attempt("b", 0, 0), S11())
  {
    hide Ascending, SortStrings;
    SortedTwo();
  }

  lemma AWaitsForX(cfg: Config)
    requires cfg.maxLocks != 1
    ensures Leads(cfg, S11(), Begin("a", ["x"], 60), S12()) && Leads(cfg, S12(), Attempt("a", 0, 0), S13())
  {
    hide Ascending, SortStrings;
    SortedTwo();
    Singles();
  }

  lemma TheyWaitForEachOther()
    ensures Formed(S13()) && IsCycle(S13(), ["a", "b"])
  {
    hide Ascending, SortStrings;
    SortedTwo();
  }

  ghost function OrphaningRun(): seq<Event> {
    [Begin("c", ["y"], 60)] + ([Attempt("c", 0, 0)] + ([Begin("a", ["y"], 60)] + ([Attempt("a", 0, 0)] + OrphaningEvents())))
  }

  ghost function OrphaningEvents(): seq<Event> {
    [Done("c")] + ([HandOver("y")] + ([Fail("a")] + ([HandedAcquire(RequestOf("a", "y"), 0, 0)] + CrossingEvents())))
  }

  ghost function CrossingEvents(): seq<Event> {
    [Begin("b", ["x", "y"], 60)] + ([Attempt("b", 0, 0)] + ([Attempt("b", 0, 0)] + ([Begin("a", ["x"], 60)] + ([Attempt("a", 0, 0)] + []))))
  }

  lemma ReachBy(cfg: Config, s: State, e: Event, t: State, es: seq<Event>, goal: State)
    requires Leads(cfg, s, e, t) && Reaches(cfg, t, es, goal)
    ensures Reaches(cfg, s, [e] + es, goal)
  {
    hide Formed, Enabled, Apply, Reaches;
    ReachStep(cfg, s, e, es, goal);
  }

  lemma Crosses(cfg: Config)
    requires cfg.maxLocks != 1
    ensures Reaches(cfg, S8(), CrossingEvents(), S13())
  {
    BTakesX(cfg);
    BWaitsForY(cfg);
    AWaitsForX(cfg);
    TheyWaitForEachOther();
    hide Leads, Reaches, Formed, S8, S9, S10, S11, S12, S13;
    ReachNothing(cfg, S13());
    ReachBy(cfg, S12(), Attempt("a", 0, 0), S13(), [], S13());
    var r4 := [Attempt("a", 0, 0)] + [];
    ReachBy(cfg, S11(), Begin("a", ["x"], 60), S12(), r4, S13());
    var r3 := [Begin("a", ["x"], 60)] + r4;
    ReachBy(cfg, S10(), Attempt("b", 0, 0), S11(), r3, S13());
    var r2 := [Attempt("b", 0, 0)] + r3;
    ReachBy(cfg, S9(), Attempt("b", 0, 0), S10(), r2, S13());
    ReachBy(cfg, S8(), Begin("b", ["x", "y"], 60), S9(), [Attempt("b", 0, 0)] + r2, S13());
  }

  lemma LeavesAnOrphan(cfg: Config)
    requires cfg.maxLocks != 1
    ensures Reaches(cfg, S4(), OrphaningEvents(), S13())
  {
    CReleasesY(cfg);
    AIsHandedY(cfg);
    AHoldsY(cfg);
    Crosses(cfg);
    hide Leads, Reaches, Formed, S4, S5, S6, S7, S8, S13, CrossingEvents;
    var acquire := HandedAcquire(RequestOf("a", "y"), 0, 0);
    ReachBy(cfg, S7(), acquire, S8(), CrossingEvents(), S13());
    var r3 := [acquire] + CrossingEvents();
    ReachBy(cfg, S6(), Fail("a"), S7(), r3, S13());
    var r2 := [Fail("a")] + r3;
    ReachBy(cfg, S5(), HandOver("y"), S6(), r2, S13());
    ReachBy(cfg, S4(), Done("c"), S5(), [HandOver("y")] + r2, S13());
  }

  /** The run: "c" takes "y", "a" waits for it, "c" releases it, the waiting request of "a"
      is handed to a goroutine, "a" gives up, and the goroutine then takes "y" for "a", outside
      any call.  Now "b" takes "x" and waits for "y", while "a", in a new call, waits for "x".
      (With a limit of one lock per agent "a" could not ask for "x" while it holds "y".) */
  lemma OrphanClosesACycle(cfg: Config)
    requires cfg.maxLocks != 1
    ensures Legal(cfg, START, OrphaningRun()) && IsCycle(Run(cfg, START, OrphaningRun()), ["a", "b"])
  {
    CTakesY(cfg);
    AWaitsForY(cfg);
    LeavesAnOrphan(cfg);
    TheyWaitForEachOther();
    hide Leads, IsCycle, Formed, S1, S2, S3, S4, S13, OrphaningEvents, Legal, Run;
    ReachBy(cfg, S3(), Attempt("a", 0, 0), S4(), OrphaningEvents(), S13());
    var r3 := [Attempt("a", 0, 0)] + OrphaningEvents();
    ReachBy(cfg, S2(), Begin("a", ["y"], 60), S3(), r3, S13());
    var r2 := [Begin("a", ["y"], 60)] + r3;
    ReachBy(cfg, S1(), Attempt("c", 0, 0), S2(), r2, S13());
    ReachBy(cfg, START, Begin("c", ["y"], 60), S1(), [Attempt("c", 0, 0)] + r2, S13());
  }
}
