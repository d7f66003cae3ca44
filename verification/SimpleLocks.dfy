/** The basic lock manager, its all-or-nothing acquisition of several locks, and the enhanced
    manager as a refinement of it. */
module SimpleLocks {
  import opened Lex
  import opened EnhancedLocks
  import LockRuns

  type Locks = map<Path, Handle>

  function AcquireOn(locks: Locks, defaultTtl: int, path: Path, agent: Agent, ttl: int, checkTime: int, setTime: int, newId: nat): (Locks, AcquireAnswer) {
    var expiry := setTime + (if ttl == 0 then defaultTtl else ttl);
    if path in locks && locks[path].expiry > checkTime then
      if locks[path].agent == agent then
        var h := locks[path].(expiry := expiry);
        (locks[path := h], Acquired(h))
      else (locks, Contended(locks[path]))
    else
      var h := Handle(newId, agent, expiry);
      (locks[path := h], Acquired(h))
  }

  function ReleaseOn(locks: Locks, path: Path, agent: Agent, id: nat): Locks {
    if path in locks && locks[path].agent == agent && locks[path].id == id then locks - {path} else locks
  }

  /** The rollback of a failed persistence goroutine. */
  function RollbackOn(locks: Locks, path: Path, id: nat): Locks {
    if path in locks && locks[path].id == id then locks - {path} else locks
  }

  /** The write pass of the cleanup: what is still expired goes. */
  function SweepOn(locks: Locks, cutoff: int, expired: seq<Path>): Locks
    decreases |expired|
  {
    if expired == [] then locks
    else
      var p := expired[0];
      SweepOn(if p in locks && locks[p].expiry < cutoff then locks - {p} else locks, cutoff, expired[1..])
  }

  // ---------- the enhanced manager refines the basic one ----------

  /** The basic manager: its table and the next fresh id. */
  datatype Basic = Basic(locks: Locks, nextId: nat)

  function Paths(seen: seq<Seen>): seq<Path> {
    if seen == [] then [] else [seen[0].path] + Paths(seen[1..])
  }

  /** The same events on the basic manager, which has no agents' index, no limit and no
      extension by id. */
  function BasicStep(defaultTtl: int, b: Basic, e: LockRuns.Event): Basic {
    match e
    case Acquire(path, agent, ttl, checkTime, setTime) =>
      var locks := AcquireOn(b.locks, defaultTtl, path, agent, ttl, checkTime, setTime, b.nextId).0;
      Basic(locks, if path in b.locks && b.locks[path].expiry > checkTime then b.nextId else b.nextId + 1)
    case Free(path, agent, id) => b.(locks := ReleaseOn(b.locks, path, agent, id))
    case PersistFailed(ticket) => b.(locks := RollbackOn(b.locks, ticket.path, ticket.id))
    case CleanupWrite(scan) => b.(locks := SweepOn(b.locks, scan.cutoff, Paths(scan.seen)))
    case _ => b
  }

  function BasicRun(defaultTtl: int, b: Basic, es: seq<LockRuns.Event>): Basic
    decreases |es|
  {
    if es == [] then b else BasicRun(defaultTtl, BasicStep(defaultTtl, b, es[0]), es[1..])
  }

  /** Along the run no acquisition meets the limit and nothing is extended by id. */
  ghost predicate Plain(cfg: Config, s: LockRuns.State, es: seq<LockRuns.Event>)
    decreases |es|
  {
    es == [] || (!Special(cfg, s, es[0]) && Plain(cfg, LockRuns.Apply(cfg, s, es[0]), es[1..]))
  }

  ghost predicate Special(cfg: Config, s: LockRuns.State, e: LockRuns.Event) {
    e.Prolong? || (e.Acquire? && AtLimit(cfg, s.table, e.agent))
  }

  ghost function Forget(s: LockRuns.State): Basic {
    Basic(s.table.locks, s.nextId)
  }

  lemma {:induction false} SweepForgets(t: Table, cutoff: int, seen: seq<Seen>)
    ensures Sweep(t, cutoff, seen).locks == SweepOn(t.locks, cutoff, Paths(seen))
    decreases |seen|
  {
    if seen != [] {
      SweepForgets(SweepOne(t, cutoff, seen[0]), cutoff, seen[1..]);
      assert Paths(seen)[1..] == Paths(seen[1..]);
    }
  }

  lemma StepForgets(cfg: Config, s: LockRuns.State, e: LockRuns.Event)
    requires !Special(cfg, s, e)
    ensures Forget(LockRuns.Apply(cfg, s, e)) == BasicStep(cfg.defaultTtl, Forget(s), e)
  {
    if e.CleanupWrite? {
      SweepForgets(s.table, e.scan.cutoff, e.scan.seen);
    }
  }

  /** Every run of the enhanced manager in which the limit is not met and nothing is extended
      by id is, on the lock table, the basic manager's run of the same events: index, scans that
      remember agents and pending goroutines make no difference to it. */
  lemma {:induction false} EnhancedRunsRefineBasic(cfg: Config, s: LockRuns.State, es: seq<LockRuns.Event>)
    requires Plain(cfg, s, es)
    ensures Forget(LockRuns.Run(cfg, s, es)) == BasicRun(cfg.defaultTtl, Forget(s), es)
    decreases |es|
  {
    if es != [] {
      StepForgets(cfg, s, es[0]);
      hide Special, BasicStep, Forget, LockRuns.Apply;
      EnhancedRunsRefineBasic(cfg, LockRuns.Apply(cfg, s, es[0]), es[1..]);
    }
  }

  // ---------- acquiring a sorted list of paths ----------

  /** The clock readings of one `AcquireLock` call. */
  datatype Reading = Reading(checkedAt: int, setAt: int)

  ghost predicate LastAt(paths: seq<Path>, i: int) {
    0 <= i < |paths| && forall k :: i < k < |paths| ==> paths[k] != paths[i]
  }

  lemma {:induction false} LastOccurrence(paths: seq<Path>, i: nat) returns (m: nat)
    requires i < |paths|
    ensures i <= m < |paths| && paths[m] == paths[i] && LastAt(paths, m)
    decreases |paths| - i
  {
    if k :| i < k < |paths| && paths[k] == paths[i] {
      m := LastOccurrence(paths, k);
    } else {
      m := i;
    }
  }

  ghost predicate FirstAt(paths: seq<Path>, i: int) {
    0 <= i < |paths| && forall k :: 0 <= k < i ==> paths[k] != paths[i]
  }

  /** Another agent has the path, and its lock has not expired at the reading. */
  ghost predicate HeldByOther(locks: Locks, p: Path, agent: Agent, now: int) {
    p in locks && locks[p].agent != agent && locks[p].expiry > now
  }

  /** None of the first `n` paths is held by another agent at the reading of its first turn. */
  ghost predicate NoneHeld(locks: Locks, sorted: seq<Path>, n: nat, agent: Agent, times: seq<Reading>)
    requires |times| == |sorted|
  {
    forall i :: 0 <= i < n && FirstAt(sorted, i) ==> !HeldByOther(locks, sorted[i], agent, times[i].checkedAt)
  }

  /** No lock taken during the call expires before a later clock reading of it. */
  ghost predicate NoExpiryWithin(times: seq<Reading>, ttl: int) {
    forall i, j :: 0 <= i <= j < |times| ==> times[j].checkedAt < times[i].setAt + ttl
  }

  /** The table while the first paths are acquired: each one's latest handle is in it,
      and every other path is as before. */
  ghost predicate Owned(before: Locks, locks: Locks, agent: Agent, paths: seq<Path>, handles: seq<Handle>) {
    && |handles| == |paths|
    && (forall i :: LastAt(paths, i) ==> paths[i] in locks && locks[paths[i]] == handles[i] && handles[i].agent == agent)
    && Untouched(before, locks, paths)
  }

  ghost predicate Untouched(before: Locks, locks: Locks, paths: seq<Path>) {
    forall p :: p !in paths ==> (p in locks <==> p in before) && (p in before ==> locks[p] == before[p])
  }

  ghost predicate AllLive(locks: Locks, paths: seq<Path>, handles: seq<Handle>) {
    |handles| == |paths| && forall i :: 0 <= i < |paths| ==> paths[i] in locks && locks[paths[i]].id == handles[i].id
  }

  class BasicLockManager {
    const defaultTtl: int
    var locks: Locks
    var nextId: nat

    constructor (defaultTtl: int)
      ensures locks == map[] && this.defaultTtl == defaultTtl
    {
      this.defaultTtl, locks, nextId := defaultTtl, map[], 0;
    }

    method AcquireLock(path: Path, agent: Agent, ttl0: int, now: Reading) returns (r: AcquireAnswer)
      modifies this
      ensures (locks, r) == AcquireOn(old(locks), defaultTtl, path, agent, ttl0, now.checkedAt, now.setAt, old(nextId))
      ensures nextId >= old(nextId)
    {
      var ttl := ttl0;
      if ttl == 0 {
        ttl := defaultTtl;
      }
      if path in locks {
        if locks[path].expiry > now.checkedAt {
          if locks[path].agent == agent {
            locks := locks[path := locks[path].(expiry := now.setAt + ttl)];
            return Acquired(locks[path]);
          }
          return Contended(locks[path]);
        }
      }
      locks := locks[path := Handle(nextId, agent, now.setAt + ttl)];
      nextId := nextId + 1;
      return Acquired(locks[path]);
    }

    method ReleaseLock(path: Path, agent: Agent, id: nat) returns (released: bool)
      modifies this`locks
      ensures locks == ReleaseOn(old(locks), path, agent, id)
      ensures released <==> path in old(locks) && path !in locks
    {
      if path !in locks {
        return false;
      }
      if locks[path].agent != agent {
        return false;
      }
      if locks[path].id != id {
        return false;
      }
      locks := locks - {path};
      return true;
    }

    method RollbackLock(path: Path, id: nat)
      modifies this`locks
      ensures locks == RollbackOn(old(locks), path, id)
    {
      if path in locks && locks[path].id == id {
        locks := locks - {path};
      }
    }

    /** The read scan of the cleanup: the expired paths, in whatever order the map iterates. */
    method CleanupScan(cutoff: int) returns (expired: seq<Path>)
      ensures forall p :: p in expired <==> p in locks && locks[p].expiry < cutoff
    {
      expired := [];
      var todo := locks.Keys;
      while todo != {}
        invariant todo <= locks.Keys
        invariant forall p :: p in expired <==> p in locks && p !in todo && locks[p].expiry < cutoff
        decreases |todo|
      {
        var p :| p in todo;
        if locks[p].expiry < cutoff {
          expired := expired + [p];
        }
        todo := todo - {p};
      }
    }

    method CleanupSweep(cutoff: int, expired: seq<Path>)
      modifies this`locks
      ensures locks == SweepOn(old(locks), cutoff, expired)
    {
      for i := 0 to |expired|
        invariant SweepOn(old(locks), cutoff, expired) == SweepOn(locks, cutoff, expired[i..])
      {
        assert expired[i..][0] == expired[i] && expired[i..][1..] == expired[i + 1..];
        if expired[i] in locks && locks[expired[i]].expiry < cutoff {
          locks := locks - {expired[i]};
        }
      }
    }

    /** All or nothing.  It succeeds exactly when no requested path is held by another agent at
        its turn.  On success the table holds, for every requested path, the id
        returned with its last occurrence, and with no expiry during the call the ids
        returned with every occurrence are the live ones, in sorted order.  On failure
        none of the paths before the failing one is in the table, and every other path
        is as before.  Duplicates are allowed. */
    method AcquireMultipleLocks(resources: seq<Path>, agent: Agent, ttl: int, times: seq<Reading>)
      returns (ok: bool, handles: seq<Handle>, failedAt: nat)
      requires |times| == |resources|
      modifies this
      ensures var sorted := SortStrings(resources);
        && Ascending(sorted) && multiset(sorted) == multiset(resources)
        && (ok <==> NoneHeld(old(locks), sorted, |sorted|, agent, times))
        && (ok ==>
              && Owned(old(locks), locks, agent, sorted, handles)
              && (NoExpiryWithin(times, if ttl == 0 then defaultTtl else ttl) ==> AllLive(locks, sorted, handles)))
        && (!ok ==>
              && failedAt < |sorted|
              && (forall i :: 0 <= i < failedAt ==> sorted[i] !in locks)
              && Untouched(old(locks), locks, sorted[..failedAt])
              && sorted[failedAt] in locks && locks[sorted[failedAt]].agent != agent
              && locks[sorted[failedAt]].expiry > times[failedAt].checkedAt)
    {
      hide SortStrings, AcquireOn, Ascending, Owned, Untouched, Lively, AllLive, NoneHeld;
      var sorted := SortStrings(resources);
      SortAscending(resources);
      ghost var effective := if ttl == 0 then defaultTtl else ttl;
      ok, handles, failedAt := true, [], 0;
      NothingOwned(locks, agent, sorted, times);
      for i := 0 to |sorted|
        invariant |handles| == i
        invariant Owned(old(locks), locks, agent, sorted[..i], handles)
        invariant NoneHeld(old(locks), sorted, i, agent, times)
        invariant NoExpiryWithin(times, effective) ==> Lively(locks, sorted[..i], handles, times)
      {
        assert sorted[..i + 1] == sorted[..i] + [sorted[i]];
        AcquireKeepsOwned(old(locks), locks, defaultTtl, agent, sorted[..i], handles, sorted[i], ttl, times[i], nextId);
        if NoExpiryWithin(times, effective) {
          AcquireKeepsLively(locks, defaultTtl, agent, sorted[..i], handles, sorted[i], ttl, times, nextId, old(locks));
        }
        GrantedUnlessHeld(old(locks), locks, defaultTtl, agent, sorted, i, handles, ttl, times, nextId);
        var r := AcquireLock(sorted[i], agent, ttl, times[i]);
        if !r.Acquired? {
          ReleaseAcquired(agent, sorted[..i], handles, old(locks));
          StillThere(old(locks), locks, sorted[..i], sorted[i]);
          ok, failedAt := false, i;
          return;
        }
        handles := handles + [r.handle];
      }
      assert sorted[..|sorted|] == sorted;
      if NoExpiryWithin(times, effective) {
        LivelyIsLive(locks, sorted, handles, times);
      }
    }

    /** The rollback loop. */
    method ReleaseAcquired(agent: Agent, paths: seq<Path>, handles: seq<Handle>, ghost before: Locks)
      requires Owned(before, locks, agent, paths, handles)
      modifies this`locks
      ensures forall i :: 0 <= i < |paths| ==> paths[i] !in locks
      ensures Untouched(before, locks, paths)
    {
      hide ReleaseOn, Untouched, LastAt;
      for j := 0 to |handles|
        invariant PartlyReleased(before, locks, agent, paths, handles, j)
      {
        ReleaseOneMore(before, locks, agent, paths, handles, j);
        var _ := ReleaseLock(paths[j], agent, handles[j].id);
      }
      forall i | 0 <= i < |paths| ensures paths[i] !in locks {
        var m := LastOccurrence(paths, i);
      }
    }
  }

  ghost predicate PartlyReleased(before: Locks, locks: Locks, agent: Agent, paths: seq<Path>, handles: seq<Handle>, j: nat) {
    && |handles| == |paths| && Untouched(before, locks, paths)
    && (forall m :: LastAt(paths, m) ==> paths[m] !in locks || (locks[paths[m]] == handles[m] && handles[m].agent == agent))
    && (forall m :: 0 <= m < j && LastAt(paths, m) ==> paths[m] !in locks)
  }

  lemma ReleaseOneMore(before: Locks, locks: Locks, agent: Agent, paths: seq<Path>, handles: seq<Handle>, j: nat)
    requires PartlyReleased(before, locks, agent, paths, handles, j) && j < |paths|
    ensures PartlyReleased(before, ReleaseOn(locks, paths[j], agent, handles[j].id), agent, paths, handles, j + 1)
  {
    hide LastAt;
    var l1 := ReleaseOn(locks, paths[j], agent, handles[j].id);
    assert paths[j] in paths;
    assert Untouched(before, l1, paths);
    if LastAt(paths, j) {
      assert paths[j] !in l1;
    }
  }

  /** Every acquired path is still live at each later clock reading of the call. */
  ghost predicate Lively(locks: Locks, paths: seq<Path>, handles: seq<Handle>, times: seq<Reading>) {
    && AllLive(locks, paths, handles)
    && forall i, n :: 0 <= i < |paths| && |paths| <= n < |times| ==> times[n].checkedAt < locks[paths[i]].expiry
  }

  lemma LivelyIsLive(locks: Locks, paths: seq<Path>, handles: seq<Handle>, times: seq<Reading>)
    requires Lively(locks, paths, handles, times)
    ensures AllLive(locks, paths, handles)
  {
  }

  lemma NothingOwned(locks: Locks, agent: Agent, sorted: seq<Path>, times: seq<Reading>)
    requires |times| == |sorted|
    ensures Owned(locks, locks, agent, [], []) && Lively(locks, [], [], times) && NoneHeld(locks, sorted, 0, agent, times)
  {
  }

  lemma StillThere(before: Locks, locks: Locks, paths: seq<Path>, p: Path)
    requires Untouched(before, locks, paths) && p !in paths && p in before
    ensures p in locks && locks[p] == before[p]
  {
  }

  /** An acquisition either adds its path to the owned ones, or is refused because
      another agent holds the path, which then is none of the owned ones. */
  lemma AcquireKeepsOwned(before: Locks, locks: Locks, defaultTtl: int, agent: Agent, paths: seq<Path>, handles: seq<Handle>,
                          p: Path, ttl: int, now: Reading, newId: nat)
    requires Owned(before, locks, agent, paths, handles)
    ensures var (l1, r) := AcquireOn(locks, defaultTtl, p, agent, ttl, now.checkedAt, now.setAt, newId);
      && (r.Acquired? ==> Owned(before, l1, agent, paths + [p], handles + [r.handle]))
      && (!r.Acquired? ==> l1 == locks && p !in paths && p in before && before[p].agent != agent && before[p].expiry > now.checkedAt)
  {
    var (l1, r) := AcquireOn(locks, defaultTtl, p, agent, ttl, now.checkedAt, now.setAt, newId);
    if r.Acquired? {
      forall i | LastAt(paths + [p], i) && i < |paths| ensures LastAt(paths, i) && paths[i] != p {
        LastAtPrefix(paths, p, i);
      }
      assert Untouched(before, l1, paths + [p]);
    } else if p in paths {
      var i :| 0 <= i < |paths| && paths[i] == p;
      var m := LastOccurrence(paths, i);
    }
  }

  /** At its first turn a path is granted exactly when no other agent holds it. */
  lemma GrantedUnlessHeld(before: Locks, locks: Locks, defaultTtl: int, agent: Agent, sorted: seq<Path>, i: nat, handles: seq<Handle>,
                          ttl: int, times: seq<Reading>, newId: nat)
    requires i < |sorted| == |times| && Owned(before, locks, agent, sorted[..i], handles) && NoneHeld(before, sorted, i, agent, times)
    ensures var r := AcquireOn(locks, defaultTtl, sorted[i], agent, ttl, times[i].checkedAt, times[i].setAt, newId).1;
      && (r.Acquired? ==> NoneHeld(before, sorted, i + 1, agent, times))
      && (!r.Acquired? ==> !NoneHeld(before, sorted, |sorted|, agent, times))
  {
    hide Owned, FirstAt, NoneHeld, HeldByOther, AcquireOn;
    var p := sorted[i];
    AcquireKeepsOwned(before, locks, defaultTtl, agent, sorted[..i], handles, p, ttl, times[i], newId);
    GrantedExactly(locks, defaultTtl, p, agent, ttl, times[i], newId);
    FirstIsNew(sorted, i);
    NoneHeldStep(before, sorted, i, agent, times);
    if p !in sorted[..i] {
      OwnedFree(before, locks, agent, sorted, i, handles, times[i].checkedAt);
    }
  }

  lemma GrantedExactly(locks: Locks, defaultTtl: int, p: Path, agent: Agent, ttl: int, now: Reading, newId: nat)
    ensures AcquireOn(locks, defaultTtl, p, agent, ttl, now.checkedAt, now.setAt, newId).1.Acquired? <==> !HeldByOther(locks, p, agent, now.checkedAt)
  {
  }

  lemma NoneHeldStep(locks: Locks, sorted: seq<Path>, i: nat, agent: Agent, times: seq<Reading>)
    requires i < |sorted| == |times| && NoneHeld(locks, sorted, i, agent, times)
    ensures NoneHeld(locks, sorted, i + 1, agent, times) <==> !(FirstAt(sorted, i) && HeldByOther(locks, sorted[i], agent, times[i].checkedAt))
    ensures FirstAt(sorted, i) && HeldByOther(locks, sorted[i], agent, times[i].checkedAt) ==> !NoneHeld(locks, sorted, |sorted|, agent, times)
  {
    hide FirstAt, HeldByOther;
  }

  lemma FirstIsNew(sorted: seq<Path>, i: nat)
    requires i < |sorted|
    ensures FirstAt(sorted, i) <==> sorted[i] !in sorted[..i]
  {
    if sorted[i] in sorted[..i] {
      var k :| 0 <= k < i && sorted[..i][k] == sorted[i];
      assert sorted[k] == sorted[i];
    } else {
      forall k | 0 <= k < i ensures sorted[k] != sorted[i] {
        assert sorted[..i][k] == sorted[k];
      }
    }
  }

  lemma OwnedFree(before: Locks, locks: Locks, agent: Agent, sorted: seq<Path>, i: nat, handles: seq<Handle>, now: int)
    requires i < |sorted| && Owned(before, locks, agent, sorted[..i], handles) && sorted[i] !in sorted[..i]
    ensures HeldByOther(locks, sorted[i], agent, now) <==> HeldByOther(before, sorted[i], agent, now)
  {
    hide LastAt;
  }

  lemma LastAtPrefix(paths: seq<Path>, p: Path, i: int)
    requires LastAt(paths + [p], i) && i < |paths|
    ensures LastAt(paths, i) && paths[i] != p
  {
    assert (paths + [p])[|paths|] == p;
    forall k | i < k < |paths| ensures paths[k] != paths[i] {
      assert (paths + [p])[k] == paths[k];
    }
  }

  lemma AcquireKeepsLively(locks: Locks, defaultTtl: int, agent: Agent, paths: seq<Path>, handles: seq<Handle>,
                           p: Path, ttl: int, times: seq<Reading>, newId: nat, before: Locks)
    requires Lively(locks, paths, handles, times) && |paths| < |times|
    requires Owned(before, locks, agent, paths, handles)
    requires NoExpiryWithin(times, if ttl == 0 then defaultTtl else ttl)
    ensures var now := times[|paths|];
      var (l1, r) := AcquireOn(locks, defaultTtl, p, agent, ttl, now.checkedAt, now.setAt, newId);
      r.Acquired? ==> Lively(l1, paths + [p], handles + [r.handle], times)
  {
    hide Owned, LastAt;
    var now := times[|paths|];
    var (l1, r) := AcquireOn(locks, defaultTtl, p, agent, ttl, now.checkedAt, now.setAt, newId);
    if r.Acquired? {
      forall i | 0 <= i < |paths| + 1
        ensures (paths + [p])[i] in l1 && l1[(paths + [p])[i]].id == (handles + [r.handle])[i].id
        ensures forall n :: |paths| + 1 <= n < |times| ==> times[n].checkedAt < l1[(paths + [p])[i]].expiry
      {
        if i < |paths| {
          assert now.checkedAt < locks[paths[i]].expiry;
        }
      }
    }
  }
}
