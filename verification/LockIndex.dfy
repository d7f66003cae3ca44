/** What each event does to the lock table, and the agents' index over whole runs. */
module LockIndex {
  import opened EnhancedLocks
  import opened LockRuns

  // ---------- the outcome of each event ----------

  function Entry(t: Table, a: Agent): set<Path> {
    if a in t.index then t.index[a] else {}
  }

  ghost predicate SameLocksBut(t: Table, t1: Table, p: Path) {
    forall q :: q != p ==> (q in t1.locks <==> q in t.locks) && (q in t.locks ==> t1.locks[q] == t.locks[q])
  }

  ghost predicate SameEntriesBut(t: Table, t1: Table, a: Agent) {
    forall b :: b != a ==> Entry(t1, b) == Entry(t, b)
  }

  /** The lock at `p` is gone, and so is the path from the agent's set; nothing else changes. */
  ghost predicate Removed(t: Table, t1: Table, p: Path, a: Agent) {
    && p !in t1.locks && SameLocksBut(t, t1, p)
    && Entry(t1, a) == Entry(t, a) - {p} && SameEntriesBut(t, t1, a)
  }

  lemma RemoveExactly(t: Table, p: Path, a: Agent)
    ensures Removed(t, Remove(t, p, a), p, a)
  {
  }

  /** A release takes effect, and says so, exactly for the holder with the lock's id. */
  lemma FreeOutcome(cfg: Config, s: State, path: Path, agent: Agent, id: nat)
    ensures var t, t1 := s.table, Apply(cfg, s, Free(path, agent, id)).table;
      var answer := Release(t, path, agent, id).1;
      if path in t.locks && t.locks[path].agent == agent && t.locks[path].id == id then answer == Released && Removed(t, t1, path, agent)
      else
        && t1 == t
        && answer == if path !in t.locks then NoLock else if t.locks[path].agent != agent then ReleaseWrongAgent else ReleaseWrongId
  {
    hide Removed, Remove;
    RemoveExactly(s.table, path, agent);
  }

  /** A failed persistence takes exactly its own lock back. */
  lemma RollbackOutcome(cfg: Config, s: State, k: Ticket)
    ensures var t, t1 := s.table, Apply(cfg, s, PersistFailed(k)).table;
      if k.path in t.locks && t.locks[k.path].id == k.id then Removed(t, t1, k.path, k.agent) else t1 == t
  {
    hide Removed, Remove;
    RemoveExactly(s.table, k.path, k.agent);
  }

  /** A prolongation takes effect exactly for the holder with the id of a lock not yet expired,
      and sets the expiry to the extension from now. */
  lemma ProlongOutcome(cfg: Config, s: State, path: Path, agent: Agent, id: nat, checkTime: int, setTime: int, extension: int)
    ensures var t, t1 := s.table, Apply(cfg, s, Prolong(path, agent, id, checkTime, setTime, extension)).table;
      var answer := Extend(t, path, agent, id, checkTime, setTime, extension).1;
      if path in t.locks && t.locks[path].agent == agent && t.locks[path].id == id && checkTime <= t.locks[path].expiry then
        && path in t1.locks && t1.locks[path] == Handle(id, agent, setTime + extension) && answer == Extended(t1.locks[path])
        && SameLocksBut(t, t1, path) && t1.index == t.index
      else
        && t1 == t
        && answer == if path !in t.locks then NotFound else if t.locks[path].agent != agent then ExtendWrongAgent
                     else if t.locks[path].id != id then ExtendWrongId else Expired
  {
  }

  /** An acquisition: refused at the limit or by another agent's lock that has not expired;
      otherwise the agent holds the path until the TTL, or the default one, from now, under the
      old id when it held it already and under a fresh one, with a persistence goroutine, when not. */
  lemma AcquireOutcome(cfg: Config, s: State, path: Path, agent: Agent, ttl: int, checkTime: int, setTime: int)
    ensures var t, s1 := s.table, Apply(cfg, s, Acquire(path, agent, ttl, checkTime, setTime));
      var until := setTime + (if ttl == 0 then cfg.defaultTtl else ttl);
      var live := path in t.locks && checkTime < t.locks[path].expiry;
      var limited := cfg.maxLocks > 0 && |Entry(t, agent)| >= cfg.maxLocks;
      var answer := TryAcquire(cfg, t, path, agent, ttl, checkTime, setTime, s.nextId).1;
      if limited || (live && t.locks[path].agent != agent) then
        && s1.table == t && s1.tickets == s.tickets && s1.nextId == s.nextId
        && answer == if limited then LimitReached else Contended(t.locks[path])
      else
        && path in s1.table.locks && answer == Acquired(s1.table.locks[path])
        && SameLocksBut(t, s1.table, path) && SameEntriesBut(t, s1.table, agent)
        && (if live then
              && s1.table.locks[path] == Handle(t.locks[path].id, agent, until) && s1.table.index == t.index
              && s1.tickets == s.tickets && s1.nextId == s.nextId
            else
              && s1.table.locks[path] == Handle(s.nextId, agent, until) && Entry(s1.table, agent) == Entry(t, agent) + {path}
              && s1.tickets == s.tickets + {Ticket(path, agent, s.nextId)} && s1.nextId == s.nextId + 1)
  {
  }

  /** A write pass removes exactly the locks at scanned paths that are expired at its cutoff. */
  lemma SweepLocks(t: Table, c: Scan, p: Path)
    ensures var t1 := Sweep(t, c.cutoff, c.seen);
      && (p in t1.locks <==> p in t.locks && !(t.locks[p].expiry < c.cutoff && exists i :: 0 <= i < |c.seen| && c.seen[i].path == p))
      && (p in t1.locks ==> t1.locks[p] == t.locks[p])
  {
    SweepEffect(t, c.cutoff, c.seen);
    if i :| 0 <= i < |c.seen| && c.seen[i].path == p && p in t.locks && t.locks[p].expiry < c.cutoff {
      SweepDeletes(t, c.cutoff, c.seen, i);
    }
  }

  /** A cleanup whose two phases are not interrupted removes exactly the expired locks, each from
      its holder's set. */
  lemma CleanupRemovesTheExpired(cfg: Config, s: State, cutoff: int, seen: seq<Seen>, p: Path)
    requires Enabled(s, CleanupRead(cutoff, seen))
    ensures var t1 := Apply(cfg, Apply(cfg, s, CleanupRead(cutoff, seen)), CleanupWrite(Scan(cutoff, seen))).table;
      && (p in t1.locks <==> p in s.table.locks && cutoff <= s.table.locks[p].expiry)
      && (p in t1.locks ==> t1.locks[p] == s.table.locks[p])
      && forall a :: p in Entry(t1, a) <==>
           p in Entry(s.table, a) && !(p in s.table.locks && s.table.locks[p].expiry < cutoff && s.table.locks[p].agent == a)
  {
    SweepLocks(s.table, Scan(cutoff, seen), p);
    if p in s.table.locks && s.table.locks[p].expiry < cutoff {
      var x := Seen(p, s.table.locks[p].agent, s.table.locks[p].id);
      var i :| 0 <= i < |seen| && seen[i] == x;
    }
    forall a ensures p in Entry(Sweep(s.table, cutoff, seen), a) <==> p in Entry(s.table, a) && !SweptFor(s.table, Scan(cutoff, seen), a, p) {
      SweepEntry(s.table, cutoff, seen, a, p);
    }
    hide Sweep;
  }

  // ---------- the index, entry by entry ----------

  ghost predicate HeldPath(t: Table, a: Agent, p: Path) {
    p in t.locks && t.locks[p].agent == a
  }

  /** The write pass deletes the lock at a path that it saw with this agent. */
  ghost predicate SweptFor(t: Table, c: Scan, a: Agent, p: Path) {
    p in t.locks && t.locks[p].expiry < c.cutoff && exists i :: 0 <= i < |c.seen| && c.seen[i].path == p && c.seen[i].agent == a
  }

  /** The step removes a path from an agent's set: a release by the holder with its id, the
      rollback of a lock, or a cleanup that saw the lock with that agent. */
  ghost predicate Clears(s: State, e: Event, a: Agent, p: Path) {
    match e
    case Free(path, agent, id) => path == p && agent == a && HeldPath(s.table, a, p) && s.table.locks[p].id == id
    case PersistFailed(k) => k.path == p && k.agent == a && p in s.table.locks && s.table.locks[p].id == k.id
    case CleanupWrite(c) => SweptFor(s.table, c, a, p)
    case _ => false
  }

  ghost predicate SeenOnce(seen: seq<Seen>) {
    forall i, j :: 0 <= i < |seen| && 0 <= j < |seen| && seen[i].path == seen[j].path ==> seen[i] == seen[j]
  }

  lemma {:induction false} SweepEntry(t: Table, cutoff: int, seen: seq<Seen>, a: Agent, p: Path)
    requires SeenOnce(seen)
    ensures p in Entry(Sweep(t, cutoff, seen), a) <==> p in Entry(t, a) && !SweptFor(t, Scan(cutoff, seen), a, p)
    decreases |seen|
  {
    if seen != [] {
      var x, t1, rest := seen[0], SweepOne(t, cutoff, seen[0]), seen[1..];
      SweepEntry(t1, cutoff, rest, a, p);
      RemoveExactly(t, x.path, x.agent);
      hide Remove;
      assert forall i :: 0 <= i < |rest| ==> rest[i] == seen[i + 1];
      if SweptFor(t1, Scan(cutoff, rest), a, p) {
        var i :| 0 <= i < |rest| && rest[i].path == p && rest[i].agent == a;
        assert seen[i + 1].path == p && seen[i + 1].agent == a;
      }
      if SweptFor(t, Scan(cutoff, seen), a, p) {
        var i :| 0 <= i < |seen| && seen[i].path == p && seen[i].agent == a;
        if x.path != p {
          assert rest[i - 1].path == p && rest[i - 1].agent == a;
        }
      }
    }
  }

  /** After any step a path is in an agent's set if and only if the agent holds it, or it was in
      the set before and the step did not clear it. */
  lemma EntryStep(cfg: Config, s: State, e: Event, a: Agent, p: Path)
    requires Inv(cfg, s) && ScansFormed(s) && Enabled(s, e)
    ensures var t1 := Apply(cfg, s, e).table;
      p in Entry(t1, a) <==> HeldPath(t1, a, p) || (p in Entry(s.table, a) && !Clears(s, e, a, p))
  {
    hide WithinLimit, CutoffsPast;
    StepInv(cfg, s, e);
    match e
    case Acquire(path, agent, ttl, c, w) =>
      AcquireOutcome(cfg, s, path, agent, ttl, c, w);
      hide Apply;
    case Free(path, agent, id) =>
      FreeOutcome(cfg, s, path, agent, id);
      hide Apply;
    case PersistFailed(k) =>
      RollbackOutcome(cfg, s, k);
      hide Apply;
    case CleanupWrite(c) =>
      assert ScanFormed(c, s.nextId);
      SweepEntry(s.table, c.cutoff, c.seen, a, p);
    case _ =>
  }

  // ---------- whole runs ----------

  lemma {:induction false} RunSnoc(cfg: Config, s: State, es: seq<Event>, e: Event)
    ensures Run(cfg, s, es + [e]) == Apply(cfg, Run(cfg, s, es), e)
    ensures Legal(cfg, s, es + [e]) <==> Legal(cfg, s, es) && Enabled(Run(cfg, s, es), e)
    decreases |es|
  {
    hide Apply, Enabled;
    if es == [] {
      assert es + [e] == [e] && [e][1..] == [];
      assert Run(cfg, s, [e]) == Run(cfg, Apply(cfg, s, e), []);
    } else {
      assert (es + [e])[0] == es[0] && (es + [e])[1..] == es[1..] + [e];
      RunSnoc(cfg, Apply(cfg, s, es[0]), es[1..], e);
    }
  }

  /** A stale entry: the agent lost the path without a step that cleared its entry (a takeover,
      or a cleanup that saw the lock with another agent), has not held it again, and the entry
      was not cleared since. */
  ghost predicate Stale(cfg: Config, es: seq<Event>, a: Agent, p: Path) {
    es != [] &&
    var before, e := es[..|es| - 1], es[|es| - 1];
    var s := Run(cfg, START, before);
    && !HeldPath(Apply(cfg, s, e).table, a, p) && !Clears(s, e, a, p)
    && (HeldPath(s.table, a, p) || Stale(cfg, before, a, p))
  }

  /** In every reachable state a path is in an agent's set if and only if the agent holds it or
      it is a stale entry. */
  lemma {:induction false} IndexExactly(cfg: Config, es: seq<Event>, a: Agent, p: Path)
    requires Legal(cfg, START, es)
    ensures p in Entry(Run(cfg, START, es).table, a) <==> HeldPath(Run(cfg, START, es).table, a, p) || Stale(cfg, es, a, p)
    ensures Inv(cfg, Run(cfg, START, es)) && ScansFormed(Run(cfg, START, es))
  {
    StartInv(cfg);
    RunFormed(cfg, START, es);
    hide Inv, ScansFormed, Apply, Enabled, Clears, HeldPath;
    if es == [] {
      NothingEntered(a, p);
    } else {
      var before, e := es[..|es| - 1], es[|es| - 1];
      assert es == before + [e];
      RunSnoc(cfg, START, before, e);
      hide Run, Legal;
      IndexExactly(cfg, before, a, p);
      EntryStep(cfg, Run(cfg, START, before), e, a, p);
    }
  }

  lemma NothingEntered(a: Agent, p: Path)
    ensures p !in Entry(START.table, a) && !HeldPath(START.table, a, p)
  {
  }

  // ----- runs that leave no stale entries -----

  /** The step takes a path over from another agent, or cleans up a lock it saw with another. */
  ghost predicate Dispossesses(cfg: Config, s: State, e: Event) {
    || (Creates(cfg, s, e) && e.path in s.table.locks && s.table.locks[e.path].agent != e.agent)
    || (e.CleanupWrite? && !ScanMatches(s.table.locks, e.scan))
  }

  ghost predicate Orderly(cfg: Config, es: seq<Event>) {
    forall n :: 0 <= n < |es| ==> !Dispossesses(cfg, Run(cfg, START, es[..n]), es[n])
  }

  /** A step that dispossesses nobody clears the entry of every path it takes from its holder. */
  lemma LostIsCleared(cfg: Config, s: State, e: Event, a: Agent, p: Path)
    requires Inv(cfg, s) && Enabled(s, e) && !Dispossesses(cfg, s, e)
    requires HeldPath(s.table, a, p) && !HeldPath(Apply(cfg, s, e).table, a, p)
    ensures Clears(s, e, a, p)
  {
    hide WithinLimit, CutoffsPast, Indexed;
    match e
    case Acquire(path, agent, ttl, c, w) =>
      AcquireOutcome(cfg, s, path, agent, ttl, c, w);
    case Free(path, agent, id) =>
      FreeOutcome(cfg, s, path, agent, id);
    case PersistFailed(k) =>
      RollbackOutcome(cfg, s, k);
    case CleanupWrite(c) =>
      SweepLocks(s.table, c, p);
      var i :| 0 <= i < |c.seen| && c.seen[i].path == p;
      assert SeenMatches(s.table.locks, c.cutoff, c.seen[i]);
    case _ =>
  }

  lemma {:induction false} NothingStale(cfg: Config, es: seq<Event>, a: Agent, p: Path)
    requires Legal(cfg, START, es) && Orderly(cfg, es)
    ensures !Stale(cfg, es, a, p)
  {
    if es != [] {
      var before, e := es[..|es| - 1], es[|es| - 1];
      assert es == before + [e];
      RunSnoc(cfg, START, before, e);
      assert Orderly(cfg, before) by {
        forall n | 0 <= n < |before| ensures !Dispossesses(cfg, Run(cfg, START, before[..n]), before[n]) {
          assert before[..n] == es[..n] && before[n] == es[n];
        }
      }
      NothingStale(cfg, before, a, p);
      IndexExactly(cfg, before, a, p);
      assert es[..|es| - 1] == before;
      assert !Dispossesses(cfg, Run(cfg, START, before), e);
      var s := Run(cfg, START, before);
      hide Inv, Apply, Enabled, Clears, Dispossesses, Run, Legal, Orderly;
      if HeldPath(s.table, a, p) && !HeldPath(Apply(cfg, s, e).table, a, p) {
        LostIsCleared(cfg, s, e, a, p);
      }
    }
  }

  /** Without takeovers each agent's set is exactly the paths it holds. */
  lemma OrderlyIndexIsExact(cfg: Config, es: seq<Event>, a: Agent)
    requires Legal(cfg, START, es) && Orderly(cfg, es)
    ensures var t := Run(cfg, START, es).table; Entry(t, a) == HeldBy(t, a)
  {
    hide Run, Legal, Orderly, Inv, ScansFormed, Stale;
    var t := Run(cfg, START, es).table;
    forall p ensures p in Entry(t, a) <==> p in HeldBy(t, a) {
      IndexExactly(cfg, es, a, p);
      NothingStale(cfg, es, a, p);
    }
  }

  /** So the limit counts exactly the locks the agent holds. */
  lemma LimitMetExactly(cfg: Config, es: seq<Event>, path: Path, agent: Agent, ttl: int, checkTime: int, setTime: int)
    requires Legal(cfg, START, es) && Orderly(cfg, es)
    ensures var s := Run(cfg, START, es);
      TryAcquire(cfg, s.table, path, agent, ttl, checkTime, setTime, s.nextId).1 == LimitReached
      <==> cfg.maxLocks > 0 && |HeldBy(s.table, agent)| >= cfg.maxLocks
  {
    hide Run, Legal, Orderly;
    OrderlyIndexIsExact(cfg, es, agent);
  }
}
