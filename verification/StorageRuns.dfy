/** What calls of the storage engine mean for the stored records, call by call and over runs. */
module StorageRuns {
  import opened Options
  import opened Records
  import opened ContextKeys
  import opened Recovery
  import opened StorageCache

  // ---------- which records a call touches ----------

  /** Every key but one holds what it held. */
  ghost predicate SameBut(db: Database, db1: Database, key: string) {
    forall k :: k != key ==> Lookup(db1, k) == Lookup(db, k)
  }

  lemma OtherLocksStay(codec: Codec, db: Database, db1: Database, path: string)
    requires SameBut(db, db1, LockKey(path))
    ensures forall q :: q != path ==> StoredLock(codec, db1, q) == StoredLock(codec, db, q)
    ensures forall id :: StoredContext(codec, db1, id) == StoredContext(codec, db, id)
    ensures forall id :: StoredUnit(codec, db1, id) == StoredUnit(codec, db, id)
  {
    hide LockKey, ContextKey, UnitKey;
    forall q | q != path ensures StoredLock(codec, db1, q) == StoredLock(codec, db, q) {
      LockKeyInjective(q, path);
    }
    forall id ensures StoredContext(codec, db1, id) == StoredContext(codec, db, id) && StoredUnit(codec, db1, id) == StoredUnit(codec, db, id) {
      KindsApart(id, "", 0, path, id);
    }
  }

  lemma LockStored(codec: Codec, db: Database, l: Lock)
    requires Faithful(codec)
    ensures var db1 := db + LockWrites(codec, l);
      StoredLock(codec, db1, l.path) == Some(l) && SameBut(db, db1, LockKey(l.path))
  {
    hide LockKey;
  }

  lemma LockDeleted(codec: Codec, db: Database, path: string)
    ensures var db1 := db - {LockKey(path)};
      StoredLock(codec, db1, path) == None && SameBut(db, db1, LockKey(path))
  {
    hide LockKey;
  }

  // ---------- locks ----------

  /** Acquiring: another agent's lock that has not expired is refused and nothing changes; the
      holder's own is extended under its id; otherwise the agent gets a new lock. */
  lemma AcquireOutcome(codec: Codec, db: Database, path: string, agent: string, ttl: int, checkTime: int, setTime: int, newId: string)
    requires Faithful(codec) && WellKeyed(codec, db)
    ensures var (a, db1) := Reference(codec, db, AcquireLockCall(path, agent, ttl, checkTime, setTime, newId));
      var found := StoredLock(codec, db, path);
      var until := setTime + ttl * 1_000_000_000;
      if found.Some? && found.value.expiresAt > checkTime && found.value.holder != agent then
        a == AcquiredIs(Refused) && db1 == db
      else
        var l := Lock(path, agent, until, if found.Some? && found.value.expiresAt > checkTime then found.value.lockId else newId);
        && a == AcquiredIs(Granted(l)) && StoredLock(codec, db1, path) == Some(l)
        && SameBut(db, db1, LockKey(path))
  {
    hide LockKey, LockWrites, StoredContext;
    var (a, db1) := Reference(codec, db, AcquireLockCall(path, agent, ttl, checkTime, setTime, newId));
    StoredLockIsKeyed(codec, db, path);
    if a.acquired.Granted? {
      LockStored(codec, db, a.acquired.lock);
    }
  }

  /** Releasing: exactly the holder with the lock's id deletes it; otherwise nothing changes. */
  lemma ReleaseOutcome(codec: Codec, db: Database, path: string, agent: string, lockId: string)
    ensures var (a, db1) := Reference(codec, db, ReleaseLockCall(path, agent, lockId));
      var found := StoredLock(codec, db, path);
      && (a == ReleasedIs(NoLock) <==> found == None)
      && (a == ReleasedIs(Freed) <==> found.Some? && found.value.holder == agent && found.value.lockId == lockId)
      && (a == ReleasedIs(WrongAgent) <==> found.Some? && found.value.holder != agent)
      && (if a == ReleasedIs(Freed) then StoredLock(codec, db1, path) == None && SameBut(db, db1, LockKey(path)) else db1 == db)
  {
    hide LockKey, StoredLock;
    LockDeleted(codec, db, path);
  }

  // ---------- contexts ----------

  lemma ContextStored(codec: Codec, db: Database, c: Context)
    requires Faithful(codec)
    ensures var db1 := db + ContextWrites(codec, c);
      StoredContext(codec, db1, c.id) == Some(Normal(c)) && SameBut(db, db1, ContextKey(c.id))
  {
    hide ContextKey;
  }

  /** Creating a context: each part of the request goes to its own field. */
  lemma CreateOutcome(codec: Codec, db: Database, req: UpdateRequest, created: int, updated: int, newId: string)
    requires Faithful(codec) && StoredContext(codec, db, req.id) == None
    ensures var (a, db1) := Reference(codec, db, UpdateContextCall(req, created, updated, newId));
      && a.UpdatedTo?
      && var c := a.stored;
         && c.id == (if req.id == "" then newId else req.id) && c.displayName == req.displayName
         && c.agents == req.addAgents && c.pinned == req.pinUnits && c.meta == req.meta
         && c.createdAt == created && c.updatedAt == updated
         && StoredContext(codec, db1, c.id) == Some(Normal(c)) && SameBut(db, db1, ContextKey(c.id))
  {
    hide ContextKey, ContextWrites;
    var (a, db1) := Reference(codec, db, UpdateContextCall(req, created, updated, newId));
    ContextStored(codec, db, a.stored);
  }

  ghost predicate Merged(old0: seq<string>, adds: seq<string>, removes: seq<string>, new0: seq<string>) {
    forall x :: x in new0 <==> (x in old0 || x in adds) && x !in removes
  }

  lemma MergedNames(old0: seq<string>, adds: seq<string>, removes: seq<string>)
    ensures Merged(old0, adds, removes, Without(AddMissing(old0, adds), removes))
  {
    forall x ensures x in Without(AddMissing(old0, adds), removes) <==> (x in old0 || x in adds) && x !in removes {
      AddMissingMembers(old0, adds, x);
      WithoutMembers(AddMissing(old0, adds), removes, x);
    }
  }

  /** Updating a context: it panics, changing nothing, exactly when metadata comes to a nil map;
      otherwise names are added and removed, the request's metadata wins over the old, and
      id and creation time stay. */
  lemma UpdateOutcome(codec: Codec, db: Database, req: UpdateRequest, created: int, updated: int, newId: string, before: Context)
    requires Faithful(codec) && WellKeyed(codec, db) && StoredContext(codec, db, req.id) == Some(before)
    ensures var (a, db1) := Reference(codec, db, UpdateContextCall(req, created, updated, newId));
      var news := if req.meta.Some? then req.meta.value else map[];
      if before.meta == None && news != map[] then a == Panic && db1 == db
      else
        && a.UpdatedTo?
        && var c := a.stored;
           && c.id == before.id == req.id && c.createdAt == before.createdAt && c.updatedAt == updated
           && c.displayName == (if req.displayName == "" then before.displayName else req.displayName)
           && Merged(before.agents, req.addAgents, req.removeAgents, c.agents)
           && Merged(before.pinned, req.pinUnits, req.unpinUnits, c.pinned)
           && c.meta.Some? == before.meta.Some?
           && (c.meta.Some? ==>
                 && c.meta.value.Keys == before.meta.value.Keys + news.Keys
                 && forall k :: k in c.meta.value ==> c.meta.value[k] == if k in news then news[k] else before.meta.value[k])
           && StoredContext(codec, db1, c.id) == Some(Normal(c)) && SameBut(db, db1, ContextKey(c.id))
  {
    hide ContextKey, ContextWrites, Without, AddMissing, Merged, StoredContext;
    StoredContextIsNormal(codec, db, req.id);
    MergedNames(before.agents, req.addAgents, req.removeAgents);
    MergedNames(before.pinned, req.pinUnits, req.unpinUnits);
    var (a, db1) := Reference(codec, db, UpdateContextCall(req, created, updated, newId));
    if a.UpdatedTo? {
      ContextStored(codec, db, a.stored);
    }
  }

  // ---------- exclusion over whole runs ----------

  lemma StaysKeyed(codec: Codec, db: Database, call: Call)
    requires Faithful(codec) && WellKeyed(codec, db)
    ensures WellKeyed(codec, Reference(codec, db, call).1)
  {
    hide LockKey, ContextKey, UnitKey, LockWrites, ContextWrites;
    match call
    case AcquireLockCall(path, agent, ttl, checkTime, setTime, newId) =>
      AcquireOutcome(codec, db, path, agent, ttl, checkTime, setTime, newId);
      KeyedAfterLock(codec, db, Reference(codec, db, call).1, path);
    case ReleaseLockCall(path, agent, lockId) =>
      ReleaseOutcome(codec, db, path, agent, lockId);
      KeyedAfterLock(codec, db, Reference(codec, db, call).1, path);
    case UpdateContextCall(req, created, updated, newId) =>
      var a := Reference(codec, db, call).0;
      if a.UpdatedTo? {
        ContextStored(codec, db, a.stored);
        OthersStay(codec, db, db + ContextWrites(codec, a.stored), a.stored.id);
      }
    case _ =>
  }

  lemma KeyedAfterLock(codec: Codec, db: Database, db1: Database, path: string)
    requires WellKeyed(codec, db) && SameBut(db, db1, LockKey(path))
    requires StoredLock(codec, db1, path).Some? ==> StoredLock(codec, db1, path).value.path == path
    ensures WellKeyed(codec, db1)
  {
    hide LockKey, ContextKey, UnitKey, StoredLock, StoredContext, StoredUnit, SameBut;
    OtherLocksStay(codec, db, db1, path);
  }

  lemma OthersStay(codec: Codec, db: Database, db1: Database, id: string)
    requires SameBut(db, db1, ContextKey(id))
    ensures forall x :: x != id ==> StoredContext(codec, db1, x) == StoredContext(codec, db, x)
    ensures forall p :: StoredLock(codec, db1, p) == StoredLock(codec, db, p)
    ensures forall u :: StoredUnit(codec, db1, u) == StoredUnit(codec, db, u)
  {
    hide LockKey, ContextKey, UnitKey;
    forall x | x != id ensures StoredContext(codec, db1, x) == StoredContext(codec, db, x) {
      ContextKeyInjective(x, id);
    }
    forall p ensures StoredLock(codec, db1, p) == StoredLock(codec, db, p) && StoredUnit(codec, db1, p) == StoredUnit(codec, db, p) {
      KindsApart(p, "", 0, p, id);
    }
  }

  /** The holder releases its lock with its id. */
  predicate ReleasedBy(call: Call, p: string, l: Lock) {
    call == ReleaseLockCall(p, l.holder, l.lockId)
  }

  /** The call asks for the path at or after the stored expiry of the holder's lock. */
  predicate FindsExpired(codec: Codec, db: Database, call: Call, p: string, l: Lock) {
    && call.AcquireLockCall? && call.path == p && SameLock(StoredLock(codec, db, p), l)
    && StoredLock(codec, db, p).value.expiresAt <= call.checkTime
  }

  predicate SameLock(found: Option<Lock>, l: Lock) {
    found.Some? && found.value.holder == l.holder && found.value.lockId == l.lockId
  }

  /** One call leaves the lock with its holder and id, unless it releases it or finds it expired. */
  lemma LockStays(codec: Codec, db: Database, call: Call, p: string, l: Lock)
    requires Faithful(codec) && WellKeyed(codec, db) && SameLock(StoredLock(codec, db, p), l)
    requires !ReleasedBy(call, p, l) && !FindsExpired(codec, db, call, p, l)
    ensures SameLock(StoredLock(codec, Reference(codec, db, call).1, p), l)
  {
    hide LockKey, ContextKey, LockWrites, ContextWrites, StoredLock, SameBut, WellKeyed;
    var db1 := Reference(codec, db, call).1;
    match call
    case AcquireLockCall(path, agent, ttl, checkTime, setTime, newId) =>
      AcquireOutcome(codec, db, path, agent, ttl, checkTime, setTime, newId);
      if db1 != db {
        OtherLocksStay(codec, db, db1, path);
      }
    case ReleaseLockCall(path, agent, lockId) =>
      ReleaseOutcome(codec, db, path, agent, lockId);
      if db1 != db {
        OtherLocksStay(codec, db, db1, path);
      }
    case UpdateContextCall(req, created, updated, newId) =>
      var a := Reference(codec, db, call).0;
      if a.UpdatedTo? {
        ContextStored(codec, db, a.stored);
        OthersStay(codec, db, db1, a.stored.id);
      }
    case _ =>
  }

  ghost predicate Ends(codec: Codec, db: Database, calls: seq<Call>, i: nat, p: string, l: Lock)
    requires i < |calls|
  {
    ReleasedBy(calls[i], p, l) || FindsExpired(codec, ReferenceDb(codec, db, calls[..i]), calls[i], p, l)
  }

  lemma {:induction false} LockStaysAlong(codec: Codec, db: Database, calls: seq<Call>, n: nat, p: string, l: Lock)
    requires Faithful(codec) && WellKeyed(codec, db) && StoredLock(codec, db, p) == Some(l) && n <= |calls|
    requires forall i :: 0 <= i < n ==> !Ends(codec, db, calls, i, p, l)
    ensures WellKeyed(codec, ReferenceDb(codec, db, calls[..n])) && SameLock(StoredLock(codec, ReferenceDb(codec, db, calls[..n]), p), l)
  {
    hide WellKeyed, Faithful, StoredLock, Reference;
    if n == 0 {
      RunStart(codec, db, calls);
    } else {
      LockStaysAlong(codec, db, calls, n - 1, p, l);
      RunStep(codec, db, calls, n - 1);
      assert !Ends(codec, db, calls, n - 1, p, l);
      var before := ReferenceDb(codec, db, calls[..n - 1]);
      StaysKeyed(codec, before, calls[n - 1]);
      LockStays(codec, before, calls[n - 1], p, l);
    }
  }

  /** Exclusion over every run: if the path is granted to another agent, then before that, or by
      that very call, the holder released its lock with its id, or the path was asked for at or
      after the lock's stored expiry. */
  lemma StorageExclusion(codec: Codec, db: Database, calls: seq<Call>, j: nat, p: string, l: Lock)
    requires Faithful(codec) && WellKeyed(codec, db) && StoredLock(codec, db, p) == Some(l) && j < |calls|
    requires calls[j].AcquireLockCall? && calls[j].path == p && calls[j].agent != l.holder
    requires ReferenceAnswer(codec, db, calls, j) != AcquiredIs(Refused)
    ensures exists i :: 0 <= i <= j && Ends(codec, db, calls, i, p, l)
  {
    hide WellKeyed, Faithful, StoredLock, Reference, ReferenceDb;
    if forall i :: 0 <= i < j ==> !Ends(codec, db, calls, i, p, l) {
      LockStaysAlong(codec, db, calls, j, p, l);
      var c, before := calls[j], ReferenceDb(codec, db, calls[..j]);
      AcquireOutcome(codec, before, c.path, c.agent, c.ttl, c.checkTime, c.setTime, c.newId);
      assert Ends(codec, db, calls, j, p, l);
    }
  }
}
