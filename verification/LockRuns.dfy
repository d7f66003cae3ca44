/** Safety of the enhanced lock manager over every interleaving of its critical
    sections, its pending persistence goroutines and its pending cleanups. */
module LockRuns {
  import opened EnhancedLocks

  /** A persistence goroutine started for a new lock. */
  datatype Ticket = Ticket(path: Path, agent: Agent, id: nat)

  /** A cleanup between its read scan and its write pass. */
  datatype Scan = Scan(cutoff: int, seen: seq<Seen>)

  datatype State = State(table: Table, now: int, nextId: nat, tickets: set<Ticket>, scans: set<Scan>)

  /** One atomic step.  Times are clock readings; the clock never goes back. */
  datatype Event =
    | Acquire(path: Path, agent: Agent, ttl: int, checkTime: int, setTime: int)
    | Free(path: Path, agent: Agent, id: nat)
    | Prolong(path: Path, agent: Agent, id: nat, checkTime: int, setTime: int, extension: int)
    | PersistOk(ticket: Ticket)
    | PersistFailed(ticket: Ticket)
    | CleanupRead(cutoff: int, seen: seq<Seen>)
    | CleanupWrite(scan: Scan)
    | Tick(time: int)

  const START: State := State(Table(map[], map[]), 0, 0, {}, {})

  ghost predicate Enabled(s: State, e: Event) {
    match e
    case Acquire(_, _, _, checkTime, setTime) => s.now <= checkTime <= setTime
    case Free(_, _, _) => true
    case Prolong(_, _, _, checkTime, setTime, _) => s.now <= checkTime <= setTime
    case PersistOk(t) => t in s.tickets
    case PersistFailed(t) => t in s.tickets
    case CleanupRead(cutoff, seen) => cutoff <= s.now && ScanOf(s.table.locks, cutoff, seen)
    case CleanupWrite(scan) => scan in s.scans
    case Tick(time) => s.now <= time
  }

  /** Whether an acquisition at this state creates a new lock. */
  ghost predicate Creates(cfg: Config, s: State, e: Event) {
    e.Acquire? && !AtLimit(cfg, s.table, e.agent) && !Live(s.table, e.path, e.checkTime)
  }

  ghost function Apply(cfg: Config, s: State, e: Event): State {
    match e
    case Acquire(path, agent, ttl, checkTime, setTime) =>
      var t := TryAcquire(cfg, s.table, path, agent, ttl, checkTime, setTime, s.nextId).0;
      if Creates(cfg, s, e) then
        State(t, setTime, s.nextId + 1, s.tickets + {Ticket(path, agent, s.nextId)}, s.scans)
      else s.(table := t, now := setTime)
    case Free(path, agent, id) => s.(table := Release(s.table, path, agent, id).0)
    case Prolong(path, agent, id, checkTime, setTime, extension) =>
      s.(table := Extend(s.table, path, agent, id, checkTime, setTime, extension).0, now := setTime)
    case PersistOk(t) => s.(tickets := s.tickets - {t})
    case PersistFailed(t) => s.(table := Rollback(s.table, t.path, t.agent, t.id), tickets := s.tickets - {t})
    case CleanupRead(cutoff, seen) => s.(scans := s.scans + {Scan(cutoff, seen)})
    case CleanupWrite(scan) => s.(table := Sweep(s.table, scan.cutoff, scan.seen), scans := s.scans - {scan})
    case Tick(time) => s.(now := time)
  }

  ghost predicate Legal(cfg: Config, s: State, es: seq<Event>)
    decreases |es|
  {
    es == [] || (Enabled(s, es[0]) && Legal(cfg, Apply(cfg, s, es[0]), es[1..]))
  }

  ghost function Run(cfg: Config, s: State, es: seq<Event>): State
    decreases |es|
  {
    if es == [] then s else Run(cfg, Apply(cfg, s, es[0]), es[1..])
  }

  // ---------- what every step keeps ----------

  /** Each held path is in its holder's set, and no stored set is empty. */
  ghost predicate Indexed(t: Table) {
    && (forall p :: p in t.locks ==> t.locks[p].agent in t.index && p in t.index[t.locks[p].agent])
    && (forall a :: a in t.index ==> t.index[a] != {})
  }

  ghost predicate WithinLimit(cfg: Config, t: Table) {
    cfg.maxLocks > 0 ==> forall a :: a in t.index ==> |t.index[a]| <= cfg.maxLocks
  }

  ghost predicate IdsFresh(s: State) {
    && (forall p :: p in s.table.locks ==> s.table.locks[p].id < s.nextId)
    && (forall p, q :: p in s.table.locks && q in s.table.locks && s.table.locks[p].id == s.table.locks[q].id ==> p == q)
    && (forall k :: k in s.tickets ==> k.id < s.nextId)
    && (forall k, p :: k in s.tickets && p in s.table.locks && s.table.locks[p].id == k.id ==>
          p == k.path && s.table.locks[p].agent == k.agent)
  }

  ghost predicate CutoffsPast(s: State) {
    forall c :: c in s.scans ==> c.cutoff <= s.now
  }

  ghost predicate Inv(cfg: Config, s: State) {
    Indexed(s.table) && WithinLimit(cfg, s.table) && IdsFresh(s) && CutoffsPast(s)
  }

  // ----- index and limit -----

  lemma RemoveIndexed(cfg: Config, t: Table, path: Path, agent: Agent)
    requires Indexed(t) && WithinLimit(cfg, t)
    ensures Indexed(Remove(t, path, agent)) && WithinLimit(cfg, Remove(t, path, agent))
  {
    var r := Remove(t, path, agent);
    forall a | a in r.index ensures a in t.index && r.index[a] <= t.index[a] && r.index[a] != {} {
    }
    if cfg.maxLocks > 0 {
      forall a | a in r.index ensures |r.index[a]| <= cfg.maxLocks {
        SubsetSize(r.index[a], t.index[a]);
      }
    }
  }

  lemma SubsetSize<T>(a: set<T>, b: set<T>)
    requires a <= b
    ensures |a| <= |b|
  {
    assert b == a + (b - a);
  }

  lemma AcquireIndexed(cfg: Config, t: Table, path: Path, agent: Agent, ttl: int, c: int, w: int, newId: nat)
    requires Indexed(t) && WithinLimit(cfg, t)
    ensures var r := TryAcquire(cfg, t, path, agent, ttl, c, w, newId).0; Indexed(r) && WithinLimit(cfg, r)
  {
    if !AtLimit(cfg, t, agent) && !Live(t, path, c) {
      AddIndexed(cfg, t, path, agent, Handle(newId, agent, w + EffectiveTtl(cfg, ttl)));
    }
  }

  lemma AddIndexed(cfg: Config, t: Table, path: Path, agent: Agent, h: Handle)
    requires Indexed(t) && WithinLimit(cfg, t) && !AtLimit(cfg, t, agent) && h.agent == agent
    ensures var r := Table(t.locks[path := h], AddToIndex(t.index, agent, path)); Indexed(r) && WithinLimit(cfg, r)
  {
    var mine := if agent in t.index then t.index[agent] else {};
    assert |mine + {path}| <= |mine| + 1;
  }

  lemma {:induction false} SweepIndexed(cfg: Config, t: Table, cutoff: int, seen: seq<Seen>)
    requires Indexed(t) && WithinLimit(cfg, t)
    ensures var r := Sweep(t, cutoff, seen); Indexed(r) && WithinLimit(cfg, r)
    decreases |seen|
  {
    hide Indexed, WithinLimit;
    if seen != [] {
      RemoveIndexed(cfg, t, seen[0].path, seen[0].agent);
      SweepIndexed(cfg, SweepOne(t, cutoff, seen[0]), cutoff, seen[1..]);
    }
  }

  lemma StepIndexed(cfg: Config, s: State, e: Event)
    requires Indexed(s.table) && WithinLimit(cfg, s.table)
    ensures Indexed(Apply(cfg, s, e).table) && WithinLimit(cfg, Apply(cfg, s, e).table)
  {
    match e
    case Acquire(path, agent, ttl, c, w) => AcquireIndexed(cfg, s.table, path, agent, ttl, c, w, s.nextId);
    case Free(path, agent, id) => RemoveIndexed(cfg, s.table, path, agent);
    case PersistFailed(t) => RemoveIndexed(cfg, s.table, t.path, t.agent);
    case CleanupWrite(scan) => SweepIndexed(cfg, s.table, scan.cutoff, scan.seen);
    case _ =>
  }

  // ----- what a sweep does to the locks -----

  lemma {:induction false} SweepEffect(t: Table, cutoff: int, seen: seq<Seen>)
    ensures var r := Sweep(t, cutoff, seen);
      && (forall p :: p in r.locks ==> p in t.locks && r.locks[p] == t.locks[p])
      && (forall p :: p in t.locks && p !in r.locks ==> t.locks[p].expiry < cutoff && exists i :: 0 <= i < |seen| && seen[i].path == p)
    decreases |seen|
  {
    if seen != [] {
      var t1 := SweepOne(t, cutoff, seen[0]);
      SweepEffect(t1, cutoff, seen[1..]);
      var r := Sweep(t, cutoff, seen);
      forall p | p in t.locks && p !in r.locks
        ensures t.locks[p].expiry < cutoff && exists i :: 0 <= i < |seen| && seen[i].path == p
      {
        if p in t1.locks {
          var i :| 0 <= i < |seen[1..]| && seen[1..][i].path == p;
          assert seen[i + 1].path == p;
        } else {
          assert seen[0].path == p;
        }
      }
    }
  }

  // ----- the lock at one path -----

  /** The step frees lock `id` by its own id: a release by its holder, or the
      rollback of its own persistence goroutine. */
  ghost predicate Frees(s: State, e: Event, p: Path, id: nat) {
    || (e.Free? && e.path == p && e.id == id && p in s.table.locks && s.table.locks[p].id == id && s.table.locks[p].agent == e.agent)
    || (e.PersistFailed? && e.ticket.id == id)
  }

  ghost predicate Holds(s: State, p: Path, id: nat) {
    p in s.table.locks && s.table.locks[p].id == id
  }

  /** What one step does to the lock at a path: it stays with its id and holder, or
      it goes because it was freed by its id or because it had expired. */
  lemma LockStep(cfg: Config, s: State, e: Event, p: Path)
    requires Inv(cfg, s) && Enabled(s, e) && p in s.table.locks
    ensures var s1, h := Apply(cfg, s, e), s.table.locks[p];
      || (Holds(s1, p, h.id) && s1.table.locks[p].agent == h.agent)
      || ((Frees(s, e, p, h.id) || h.expiry <= s1.now) && (p in s1.table.locks ==> s1.table.locks[p].id == s.nextId))
  {
    hide Indexed, WithinLimit;
    if e.CleanupWrite? {
      SweepEffect(s.table, e.scan.cutoff, e.scan.seen);
    }
  }

  /** A lock that appears at a free path has a fresh id, and only an acquisition makes one. */
  lemma NewLockStep(cfg: Config, s: State, e: Event, p: Path)
    requires p !in s.table.locks && p in Apply(cfg, s, e).table.locks
    ensures Creates(cfg, s, e) && e.path == p
    ensures Apply(cfg, s, e).table.locks[p] == Handle(s.nextId, e.agent, e.setTime + EffectiveTtl(cfg, e.ttl))
  {
    if e.CleanupWrite? {
      SweepEffect(s.table, e.scan.cutoff, e.scan.seen);
    }
  }

  /** Where the lock at a path comes from: it was there before, or it was just created. */
  lemma LockOrigin(cfg: Config, s: State, e: Event, p: Path)
    requires p in Apply(cfg, s, e).table.locks
    ensures var h := Apply(cfg, s, e).table.locks[p];
      || (p in s.table.locks && s.table.locks[p].id == h.id && s.table.locks[p].agent == h.agent)
      || (Creates(cfg, s, e) && e.path == p && h.id == s.nextId && h.agent == e.agent)
  {
    if e.CleanupWrite? {
      SweepEffect(s.table, e.scan.cutoff, e.scan.seen);
    }
  }

  lemma TicketsStep(cfg: Config, s: State, e: Event)
    requires CutoffsPast(s) && Enabled(s, e)
    ensures var s1 := Apply(cfg, s, e);
      && s1.nextId == (if Creates(cfg, s, e) then s.nextId + 1 else s.nextId)
      && s1.tickets <= s.tickets + (if Creates(cfg, s, e) then {Ticket(e.path, e.agent, s.nextId)} else {})
      && s.now <= s1.now && CutoffsPast(s1)
  {
    hide TryAcquire, Release, Extend, Rollback, Sweep;
  }

  lemma StepFresh(cfg: Config, s: State, e: Event)
    requires Inv(cfg, s) && Enabled(s, e)
    ensures IdsFresh(Apply(cfg, s, e)) && CutoffsPast(Apply(cfg, s, e))
  {
    hide Indexed, WithinLimit, Apply, Enabled, Creates, CutoffsPast;
    TicketsStep(cfg, s, e);
    var s1 := Apply(cfg, s, e);
    forall p | p in s1.table.locks
      ensures var h := s1.table.locks[p];
        || (p in s.table.locks && s.table.locks[p].id == h.id && s.table.locks[p].agent == h.agent)
        || (Creates(cfg, s, e) && e.Acquire? && e.path == p && h.id == s.nextId && h.agent == e.agent)
    {
      LockOrigin(cfg, s, e, p);
      CreatesAcquires(cfg, s, e);
    }
  }

  lemma CreatesAcquires(cfg: Config, s: State, e: Event)
    ensures Creates(cfg, s, e) ==> e.Acquire?
  {
  }

  lemma StepInv(cfg: Config, s: State, e: Event)
    requires Inv(cfg, s) && Enabled(s, e)
    ensures Inv(cfg, Apply(cfg, s, e))
  {
    hide Indexed, WithinLimit, IdsFresh, CutoffsPast, Apply;
    StepIndexed(cfg, s, e);
    StepFresh(cfg, s, e);
  }

  lemma {:induction false} RunInv(cfg: Config, s: State, es: seq<Event>)
    requires Inv(cfg, s) && Legal(cfg, s, es)
    ensures Inv(cfg, Run(cfg, s, es))
    decreases |es|
  {
    if es != [] {
      StepInv(cfg, s, es[0]);
      hide Inv, Enabled, Apply;
      RunInv(cfg, Apply(cfg, s, es[0]), es[1..]);
    }
  }

  // ---------- the manager itself ----------

  /** A new manager that executes any legal run of events has the table that the run says. */
  method Perform(m: LockManager, es: seq<Event>)
    requires m.Contents() == START.table && Legal(m.cfg, START, es)
    modifies m
    ensures m.Contents() == Run(m.cfg, START, es).table
  {
    hide Inv, Enabled, Apply, TryAcquire, Release, Extend, Rollback, Sweep;
    ghost var s := START;
    var nextId := 0;
    StartInv(m.cfg);
    assert es[0..] == es;
    for i := 0 to |es|
      invariant m.Contents() == s.table && nextId == s.nextId && Inv(m.cfg, s)
      invariant Legal(m.cfg, s, es[i..]) && Run(m.cfg, START, es) == Run(m.cfg, s, es[i..])
    {
      assert es[i..][0] == es[i] && es[i..][1..] == es[i + 1..];
      StepInv(m.cfg, s, es[i]);
      nextId := Execute(m, es[i], nextId, s);
      s := Apply(m.cfg, s, es[i]);
    }
  }

  /** One event on the manager.  An id counts as used once a new lock carries it. */
  method Execute(m: LockManager, e: Event, nextId0: nat, ghost s: State) returns (nextId: nat)
    requires m.Contents() == s.table && nextId0 == s.nextId && Inv(m.cfg, s)
    modifies m
    ensures m.Contents() == Apply(m.cfg, s, e).table && nextId == Apply(m.cfg, s, e).nextId
  {
    hide Indexed, WithinLimit, CutoffsPast;
    nextId := nextId0;
    match e {
      case Acquire(path, agent, ttl, checkTime, setTime) =>
        var r := m.TryAcquireLock(path, agent, ttl, checkTime, setTime, nextId);
        if r.Acquired? && r.handle.id == nextId {
          nextId := nextId + 1;
        }
      case Free(path, agent, id) => var _ := m.ReleaseLock(path, agent, id);
      case Prolong(path, agent, id, checkTime, setTime, extension) =>
        var _ := m.ExtendLock(path, agent, id, checkTime, setTime, extension);
      case PersistOk(_) =>
      case PersistFailed(ticket) => m.RollbackLock(ticket.path, ticket.agent, ticket.id);
      case CleanupRead(cutoff, _) => var _ := m.CleanupScan(cutoff);
      case CleanupWrite(scan) => m.CleanupSweep(scan.cutoff, scan.seen);
      case Tick(_) =>
    }
  }

  // ---------- agent index and limit ----------

  ghost function HeldBy(t: Table, a: Agent): set<Path> {
    set p | p in t.locks && t.locks[p].agent == a
  }

  /** In every reachable state each held path is in its holder's set, no stored set
      is empty, and with a positive limit no agent holds more locks than that,
      despite the stale entries that takeovers leave behind. */
  lemma AgentLimit(cfg: Config, es: seq<Event>)
    requires Legal(cfg, START, es)
    ensures var t := Run(cfg, START, es).table;
      && Indexed(t) && WithinLimit(cfg, t)
      && (cfg.maxLocks > 0 ==> forall a :: |HeldBy(t, a)| <= cfg.maxLocks)
  {
    RunInv(cfg, START, es);
    var t := Run(cfg, START, es).table;
    if cfg.maxLocks > 0 {
      forall a ensures |HeldBy(t, a)| <= cfg.maxLocks {
        if a in t.index {
          SubsetSize(HeldBy(t, a), t.index[a]);
        } else {
          assert HeldBy(t, a) == {};
        }
      }
    }
  }

  // ---------- stale ids ----------

  ghost predicate Dead(s: State, id: nat) {
    id < s.nextId && forall p :: p in s.table.locks ==> s.table.locks[p].id != id
  }

  ghost predicate UsesId(e: Event, id: nat) {
    (e.Free? && e.id == id) || (e.Prolong? && e.id == id) || (e.PersistFailed? && e.ticket.id == id)
  }

  lemma DeadStep(cfg: Config, s: State, e: Event, id: nat)
    requires Inv(cfg, s) && Enabled(s, e) && Dead(s, id)
    ensures Dead(Apply(cfg, s, e), id)
    ensures UsesId(e, id) ==> Apply(cfg, s, e).table == s.table
  {
    var s1 := Apply(cfg, s, e);
    forall p | p in s1.table.locks ensures s1.table.locks[p].id != id {
      hide Inv, Apply, Enabled;
      if p in s.table.locks {
        LockStep(cfg, s, e, p);
      } else {
        NewLockStep(cfg, s, e, p);
      }
    }
  }

  lemma {:induction false} DeadForever(cfg: Config, s: State, es: seq<Event>, id: nat)
    requires Inv(cfg, s) && Legal(cfg, s, es) && Dead(s, id)
    ensures Inv(cfg, Run(cfg, s, es)) && Dead(Run(cfg, s, es), id)
    decreases |es|
  {
    if es != [] {
      StepInv(cfg, s, es[0]);
      DeadStep(cfg, s, es[0], id);
      hide Inv, Enabled, Apply, Dead;
      DeadForever(cfg, Apply(cfg, s, es[0]), es[1..], id);
    }
  }

  /** Once an id has left the table it never comes back, and no later release,
      extension or rollback that uses it touches whatever is in the table then. */
  lemma StaleIdsAreDead(cfg: Config, s: State, es: seq<Event>, e: Event, id: nat)
    requires Inv(cfg, s) && Legal(cfg, s, es) && Dead(s, id)
    requires Enabled(Run(cfg, s, es), e) && UsesId(e, id)
    ensures Dead(Run(cfg, s, es), id)
    ensures Apply(cfg, Run(cfg, s, es), e).table == Run(cfg, s, es).table
  {
    hide Legal, Run, Apply, Inv, Enabled;
    DeadForever(cfg, s, es, id);
    DeadStep(cfg, Run(cfg, s, es), e, id);
  }

  /** An id leaves the table for good, by whatever step it leaves. */
  lemma LeavingIsDying(cfg: Config, s: State, e: Event, p: Path)
    requires Inv(cfg, s) && Enabled(s, e) && p in s.table.locks
    requires !Holds(Apply(cfg, s, e), p, s.table.locks[p].id)
    ensures Dead(Apply(cfg, s, e), s.table.locks[p].id)
  {
    var id := s.table.locks[p].id;
    var s1 := Apply(cfg, s, e);
    forall q | q in s1.table.locks ensures s1.table.locks[q].id != id {
      hide Apply, Enabled;
      if q in s.table.locks {
        LockStep(cfg, s, e, q);
      } else {
        NewLockStep(cfg, s, e, q);
      }
    }
  }

  // ---------- exclusive grants ----------

  /** Lock `id` is never freed by its id along the run. */
  ghost predicate NeverFreed(cfg: Config, s: State, es: seq<Event>, p: Path, id: nat)
    decreases |es|
  {
    es == [] || (!Frees(s, es[0], p, id) && NeverFreed(cfg, Apply(cfg, s, es[0]), es[1..], p, id))
  }

  /** The expiry of lock `id` as last set while it was in the table. */
  ghost function CurrentExpiry(cfg: Config, s: State, es: seq<Event>, p: Path, id: nat): int
    requires Holds(s, p, id)
    decreases |es|
  {
    if es != [] && Holds(Apply(cfg, s, es[0]), p, id) then CurrentExpiry(cfg, Apply(cfg, s, es[0]), es[1..], p, id)
    else s.table.locks[p].expiry
  }

  ghost predicate GrantsTo(cfg: Config, s: State, e: Event, p: Path, b: Agent) {
    e.Acquire? && e.path == p && e.agent == b
    && TryAcquire(cfg, s.table, p, b, e.ttl, e.checkTime, e.setTime, s.nextId).1.Acquired?
  }

  lemma {:induction false} ClockNeverGoesBack(cfg: Config, s: State, es: seq<Event>)
    requires Inv(cfg, s) && Legal(cfg, s, es)
    ensures s.now <= Run(cfg, s, es).now
    decreases |es|
  {
    if es != [] {
      TicketsStep(cfg, s, es[0]);
      StepInv(cfg, s, es[0]);
      hide Inv, Enabled, Apply;
      ClockNeverGoesBack(cfg, Apply(cfg, s, es[0]), es[1..]);
    }
  }

  /** A lock that is never freed by its id stays with its holder until its current expiry. */
  lemma {:induction false} KeptUntilExpiry(cfg: Config, s: State, es: seq<Event>, p: Path)
    requires Inv(cfg, s) && Legal(cfg, s, es) && p in s.table.locks
    requires NeverFreed(cfg, s, es, p, s.table.locks[p].id)
    ensures var s1, h := Run(cfg, s, es), s.table.locks[p];
      var until := CurrentExpiry(cfg, s, es, p, h.id);
      || (Holds(s1, p, h.id) && s1.table.locks[p].agent == h.agent && s1.table.locks[p].expiry == until)
      || until <= s1.now
    decreases |es|
  {
    if es != [] {
      var h, s1 := s.table.locks[p], Apply(cfg, s, es[0]);
      StepInv(cfg, s, es[0]);
      LockStep(cfg, s, es[0], p);
      hide Inv, Enabled, Apply, Frees;
      if Holds(s1, p, h.id) {
        KeptUntilExpiry(cfg, s1, es[1..], p);
      } else {
        ClockNeverGoesBack(cfg, s1, es[1..]);
      }
    }
  }

  /** Exclusion over whole runs.  Take any reachable state in which `a` holds `p`, and
      any continuation.  If a later step grants `p` to another agent, then `a`'s lock
      was freed by its own id on the way, or the grant's clock reading is not before
      that lock's current expiry. */
  lemma ExclusiveGrants(cfg: Config, before: seq<Event>, after: seq<Event>, e: Event, p: Path, b: Agent)
    requires Legal(cfg, START, before)
    requires var s := Run(cfg, START, before);
      && p in s.table.locks && s.table.locks[p].agent != b
      && Legal(cfg, s, after) && Enabled(Run(cfg, s, after), e)
      && GrantsTo(cfg, Run(cfg, s, after), e, p, b)
      && NeverFreed(cfg, s, after, p, s.table.locks[p].id)
    ensures var s := Run(cfg, START, before);
      CurrentExpiry(cfg, s, after, p, s.table.locks[p].id) <= e.checkTime
  {
    hide Legal, Run, NeverFreed, CurrentExpiry;
    StartInv(cfg);
    RunInv(cfg, START, before);
    var s := Run(cfg, START, before);
    KeptUntilExpiry(cfg, s, after, p);
  }

  lemma StartInv(cfg: Config)
    ensures Inv(cfg, START)
  {
  }

  // ---------- two-phase cleanup ----------

  /** Whatever is expired at a scanned path is the very lock the scan saw. */
  ghost predicate ScansMatch(s: State) {
    forall c :: c in s.scans ==> ScanMatches(s.table.locks, c)
  }

  ghost predicate ScanMatches(locks: map<Path, Handle>, c: Scan) {
    forall i :: 0 <= i < |c.seen| ==> SeenMatches(locks, c.cutoff, c.seen[i])
  }

  ghost predicate SeenMatches(locks: map<Path, Handle>, cutoff: int, x: Seen) {
    x.path in locks && locks[x.path].expiry < cutoff ==> locks[x.path].id == x.id && locks[x.path].agent == x.agent
  }

  /** The step puts an expiry before the cutoff at a scanned path, on a lock other than the one
      seen: a takeover, or an extension of a later lock, by a negative enough TTL. */
  ghost predicate Backdates(cfg: Config, s: State, e: Event, cutoff: int, x: Seen) {
    match e
    case Acquire(path, agent, ttl, checkTime, setTime) =>
      && path == x.path && !AtLimit(cfg, s.table, agent) && setTime + EffectiveTtl(cfg, ttl) < cutoff
      && (Live(s.table, path, checkTime) ==> s.table.locks[path].agent == agent && !IsSeen(s.table.locks[path], x))
    case Prolong(path, agent, id, checkTime, setTime, extension) =>
      && path == x.path && Extend(s.table, path, agent, id, checkTime, setTime, extension).1.Extended?
      && setTime + extension < cutoff && !IsSeen(s.table.locks[path], x)
    case _ => false
  }

  ghost predicate IsSeen(h: Handle, x: Seen) {
    h.id == x.id && h.agent == x.agent
  }

  /** Exactly the steps that backdate bring an expired lock other than the one seen to a scanned path. */
  lemma SeenStep(cfg: Config, s: State, e: Event, cutoff: int, x: Seen)
    requires Enabled(s, e) && cutoff <= s.now && SeenMatches(s.table.locks, cutoff, x) && x.id < s.nextId
    ensures SeenMatches(Apply(cfg, s, e).table.locks, cutoff, x) <==> !Backdates(cfg, s, e, cutoff, x)
  {
    if e.CleanupWrite? {
      SweepEffect(s.table, e.scan.cutoff, e.scan.seen);
    }
  }

  /** The pending scans hold entries with ids already given out, one per path. */
  ghost predicate ScansFormed(s: State) {
    forall c :: c in s.scans ==> ScanFormed(c, s.nextId)
  }

  ghost predicate ScanFormed(c: Scan, nextId: nat) {
    && (forall i :: 0 <= i < |c.seen| ==> c.seen[i].id < nextId)
    && (forall i, j :: 0 <= i < |c.seen| && 0 <= j < |c.seen| && c.seen[i].path == c.seen[j].path ==> c.seen[i] == c.seen[j])
  }

  lemma ScansFormedStep(cfg: Config, s: State, e: Event)
    requires Inv(cfg, s) && ScansFormed(s) && Enabled(s, e)
    ensures ScansFormed(Apply(cfg, s, e))
  {
    TicketsStep(cfg, s, e);
    hide Indexed, WithinLimit, TryAcquire, Release, Extend, Rollback, Sweep;
    forall c | c in Apply(cfg, s, e).scans ensures ScanFormed(c, Apply(cfg, s, e).nextId) {
      if c in s.scans {
        assert ScanFormed(c, s.nextId);
      }
    }
  }

  ghost predicate BackdatesAny(cfg: Config, s: State, e: Event) {
    exists c, i :: c in s.scans && 0 <= i < |c.seen| && Backdates(cfg, s, e, c.cutoff, c.seen[i])
  }

  /** One step keeps the pending scans matching if and only if it backdates none of their locks. */
  lemma ScansStep(cfg: Config, s: State, e: Event)
    requires CutoffsPast(s) && ScansFormed(s) && Enabled(s, e) && ScansMatch(s)
    ensures ScansMatch(Apply(cfg, s, e)) <==> !BackdatesAny(cfg, s, e)
  {
    var s1 := Apply(cfg, s, e);
    forall c, i | c in s.scans && 0 <= i < |c.seen|
      ensures SeenMatches(s1.table.locks, c.cutoff, c.seen[i]) <==> !Backdates(cfg, s, e, c.cutoff, c.seen[i])
    {
      assert ScanFormed(c, s.nextId) && ScanMatches(s.table.locks, c);
      hide Apply, Enabled, SeenMatches, Backdates;
      SeenStep(cfg, s, e, c.cutoff, c.seen[i]);
    }
    ScansAfter(cfg, s, e);
    hide Apply, Enabled, SeenMatches, Backdates;
    if BackdatesAny(cfg, s, e) {
      var c, i :| c in s.scans && 0 <= i < |c.seen| && Backdates(cfg, s, e, c.cutoff, c.seen[i]);
      BackdatingKeepsScans(cfg, s, e, c.cutoff, c.seen[i]);
      assert c in s1.scans && !ScanMatches(s1.table.locks, c);
    } else {
      forall c | c in s1.scans ensures ScanMatches(s1.table.locks, c) {
      }
    }
  }

  /** A new scan matches the table it was made from. */
  lemma ScansAfter(cfg: Config, s: State, e: Event)
    requires Enabled(s, e)
    ensures forall c :: c in Apply(cfg, s, e).scans ==> c in s.scans || ScanMatches(Apply(cfg, s, e).table.locks, c)
  {
  }

  lemma BackdatingKeepsScans(cfg: Config, s: State, e: Event, cutoff: int, x: Seen)
    requires Backdates(cfg, s, e, cutoff, x)
    ensures Apply(cfg, s, e).scans == s.scans
  {
  }

  // ----- whole runs -----

  ghost predicate NeverBackdates(cfg: Config, s: State, es: seq<Event>)
    decreases |es|
  {
    es == [] || (!BackdatesAny(cfg, s, es[0]) && NeverBackdates(cfg, Apply(cfg, s, es[0]), es[1..]))
  }

  ghost predicate MatchThroughout(cfg: Config, s: State, es: seq<Event>)
    decreases |es|
  {
    ScansMatch(s) && (es == [] || MatchThroughout(cfg, Apply(cfg, s, es[0]), es[1..]))
  }

  /** The pending scans match the table throughout a run if and only if no step of it backdates. */
  lemma {:induction false} MatchThroughoutExactly(cfg: Config, s: State, es: seq<Event>)
    requires Inv(cfg, s) && ScansFormed(s) && ScansMatch(s) && Legal(cfg, s, es)
    ensures MatchThroughout(cfg, s, es) <==> NeverBackdates(cfg, s, es)
    ensures Inv(cfg, Run(cfg, s, es)) && ScansFormed(Run(cfg, s, es))
    decreases |es|
  {
    if es != [] {
      var s1 := Apply(cfg, s, es[0]);
      StepInv(cfg, s, es[0]);
      ScansFormedStep(cfg, s, es[0]);
      ScansStep(cfg, s, es[0]);
      RunFormed(cfg, s1, es[1..]);
      hide Inv, Enabled, Apply, ScansMatch, ScansFormed, BackdatesAny;
      if ScansMatch(s1) {
        MatchThroughoutExactly(cfg, s1, es[1..]);
      }
    }
  }

  lemma {:induction false} RunFormed(cfg: Config, s: State, es: seq<Event>)
    requires Inv(cfg, s) && ScansFormed(s) && Legal(cfg, s, es)
    ensures Inv(cfg, Run(cfg, s, es)) && ScansFormed(Run(cfg, s, es))
    decreases |es|
  {
    if es != [] {
      StepInv(cfg, s, es[0]);
      ScansFormedStep(cfg, s, es[0]);
      hide Inv, Enabled, Apply, ScansFormed;
      RunFormed(cfg, Apply(cfg, s, es[0]), es[1..]);
    }
  }

  lemma {:induction false} MatchAtTheEnd(cfg: Config, s: State, es: seq<Event>)
    requires MatchThroughout(cfg, s, es)
    ensures ScansMatch(Run(cfg, s, es))
    decreases |es|
  {
    hide Apply, ScansMatch;
    if es != [] {
      MatchAtTheEnd(cfg, Apply(cfg, s, es[0]), es[1..]);
    }
  }

  /** A caller's side of it: no TTL and no extension is negative. */
  ghost predicate Forward(cfg: Config, e: Event) {
    (e.Acquire? ==> EffectiveTtl(cfg, e.ttl) >= 0) && (e.Prolong? ==> e.extension >= 0)
  }

  lemma {:induction false} ForwardNeverBackdates(cfg: Config, s: State, es: seq<Event>)
    requires Inv(cfg, s) && Legal(cfg, s, es) && forall i :: 0 <= i < |es| ==> Forward(cfg, es[i])
    ensures NeverBackdates(cfg, s, es)
    decreases |es|
  {
    if es != [] {
      assert Forward(cfg, es[0]);
      ForwardStep(cfg, s, es[0]);
      StepInv(cfg, s, es[0]);
      hide Inv, Enabled, Apply, Forward, BackdatesAny;
      forall i | 0 <= i < |es[1..]| ensures Forward(cfg, es[1..][i]) {
        assert es[1..][i] == es[i + 1];
      }
      ForwardNeverBackdates(cfg, Apply(cfg, s, es[0]), es[1..]);
    }
  }

  lemma ForwardStep(cfg: Config, s: State, e: Event)
    requires CutoffsPast(s) && Enabled(s, e) && Forward(cfg, e)
    ensures !BackdatesAny(cfg, s, e)
  {
  }

  /** The write pass as it would be with the holder read afresh from the table. */
  ghost function HolderSweep(t: Table, cutoff: int, seen: seq<Seen>): Table
    decreases |seen|
  {
    if seen == [] then t
    else
      var p := seen[0].path;
      HolderSweep(if p in t.locks && t.locks[p].expiry < cutoff then Remove(t, p, t.locks[p].agent) else t, cutoff, seen[1..])
  }

  lemma {:induction false} SweepUsesTheHolder(t: Table, c: Scan)
    requires ScanMatches(t.locks, c)
    ensures Sweep(t, c.cutoff, c.seen) == HolderSweep(t, c.cutoff, c.seen)
    decreases |c.seen|
  {
    if c.seen != [] {
      var x, t1, rest := c.seen[0], SweepOne(t, c.cutoff, c.seen[0]), Scan(c.cutoff, c.seen[1..]);
      assert SeenMatches(t.locks, c.cutoff, x);
      forall i | 0 <= i < |rest.seen| ensures SeenMatches(t1.locks, c.cutoff, rest.seen[i]) {
        assert SeenMatches(t.locks, c.cutoff, c.seen[i + 1]);
      }
      SweepUsesTheHolder(t1, rest);
    }
  }

  /** Every lock that a cleanup's write pass deletes is the very lock (same id, same holder)
      that its scan saw, and is expired. */
  ghost predicate DeletesOnlySeen(t: Table, c: Scan) {
    forall p :: p in t.locks && p !in Sweep(t, c.cutoff, c.seen).locks ==>
      Seen(p, t.locks[p].agent, t.locks[p].id) in c.seen && t.locks[p].expiry < c.cutoff
  }

  /** What is still expired at a scanned path is deleted. */
  lemma {:induction false} SweepDeletes(t: Table, cutoff: int, seen: seq<Seen>, i: nat)
    requires i < |seen| && seen[i].path in t.locks && t.locks[seen[i].path].expiry < cutoff
    ensures seen[i].path !in Sweep(t, cutoff, seen).locks
    decreases |seen|
  {
    var t1 := SweepOne(t, cutoff, seen[0]);
    SweepEffect(t1, cutoff, seen[1..]);
    if seen[i].path in t1.locks {
      assert seen[1..][i - 1] == seen[i];
      SweepDeletes(t1, cutoff, seen[1..], i - 1);
    }
  }

  /** At the write pass itself: it deletes only what the scan saw if and only if whatever is
      expired at a scanned path is what the scan saw there. */
  lemma SweepSoundExactly(t: Table, c: Scan, nextId: nat)
    requires ScanFormed(c, nextId)
    ensures DeletesOnlySeen(t, c) <==> ScanMatches(t.locks, c)
  {
    SweepEffect(t, c.cutoff, c.seen);
    if ScanMatches(t.locks, c) {
      forall p | p in t.locks && p !in Sweep(t, c.cutoff, c.seen).locks
        ensures Seen(p, t.locks[p].agent, t.locks[p].id) in c.seen
      {
        var i :| 0 <= i < |c.seen| && c.seen[i].path == p;
        assert SeenMatches(t.locks, c.cutoff, c.seen[i]);
        assert c.seen[i] == Seen(p, t.locks[p].agent, t.locks[p].id);
      }
    }
    if DeletesOnlySeen(t, c) {
      forall i | 0 <= i < |c.seen| ensures SeenMatches(t.locks, c.cutoff, c.seen[i]) {
        var p := c.seen[i].path;
        if p in t.locks && t.locks[p].expiry < c.cutoff {
          SweepDeletes(t, c.cutoff, c.seen, i);
          var j :| 0 <= j < |c.seen| && c.seen[j] == Seen(p, t.locks[p].agent, t.locks[p].id);
        }
      }
    }
  }

  /** Two-phase cleanup over whole runs.  Whatever ran between a cleanup's read scan and its
      write pass, the pass deletes only what the scan saw if and only if no other lock is
      expired at a scanned path by then; that is so, and the index entries it removes are the
      holders', whenever no step backdated a lock. */
  lemma CleanupIsSound(cfg: Config, es: seq<Event>, c: Scan)
    requires Legal(cfg, START, es) && c in Run(cfg, START, es).scans
    ensures var t := Run(cfg, START, es).table;
      && (DeletesOnlySeen(t, c) <==> ScanMatches(t.locks, c))
      && (NeverBackdates(cfg, START, es) ==> DeletesOnlySeen(t, c) && Sweep(t, c.cutoff, c.seen) == HolderSweep(t, c.cutoff, c.seen))
  {
    hide Legal, Run, Inv, NeverBackdates;
    StartInv(cfg);
    MatchThroughoutExactly(cfg, START, es);
    var t := Run(cfg, START, es).table;
    SweepSoundExactly(t, c, Run(cfg, START, es).nextId);
    if NeverBackdates(cfg, START, es) {
      MatchAtTheEnd(cfg, START, es);
      SweepUsesTheHolder(t, c);
    }
  }

  /** With a negative TTL it is not: agent "b" takes the path over with a lock that is
      already past the cutoff, and the write pass deletes "b"'s lock while it clears
      the path from the index of "a", where a stale entry is all that was left. */
  lemma NegativeTtlBreaksCleanup(cfg: Config)
    ensures var es := [Acquire("p", "a", 1, 0, 0), Tick(10), CleanupRead(10, [Seen("p", "a", 0)]), Acquire("p", "b", -5, 10, 10)];
      var c := Scan(10, [Seen("p", "a", 0)]);
      && Legal(cfg, START, es) && c in Run(cfg, START, es).scans
      && var t := Run(cfg, START, es).table;
         && "p" in t.locks && t.locks["p"] == Handle(1, "b", 5)
         && var swept := Sweep(t, c.cutoff, c.seen);
            "p" !in swept.locks && "b" in swept.index && "p" in swept.index["b"]
  {
    var seen := [Seen("p", "a", 0)];
    var e0, e1, e2, e3 := Acquire("p", "a", 1, 0, 0), Tick(10), CleanupRead(10, seen), Acquire("p", "b", -5, 10, 10);
    var s1 := Apply(cfg, START, e0);
    var s2 := Apply(cfg, s1, e1);
    var s3 := Apply(cfg, s2, e2);
    var s4 := Apply(cfg, s3, e3);
    var es := [e0, e1, e2, e3];
    assert s1.table.locks == map["p" := Handle(0, "a", 1)];
    assert ScanOf(s2.table.locks, 10, seen);
    assert es[1..] == [e1, e2, e3] && es[1..][1..] == [e2, e3] && es[1..][1..][1..] == [e3] && es[1..][1..][1..][1..] == [];
    assert Legal(cfg, s4, []) && Legal(cfg, s3, [e3]) && Legal(cfg, s2, [e2, e3]) && Legal(cfg, s1, [e1, e2, e3]);
    assert Run(cfg, s3, [e3]) == s4 && Run(cfg, s2, [e2, e3]) == s4 && Run(cfg, s1, [e1, e2, e3]) == s4;
    assert s4.table.locks["p"] == Handle(1, "b", 5);
    assert seen[1..] == [];
    assert Sweep(s4.table, 10, seen) == SweepOne(s4.table, 10, seen[0]);
  }
}
