/** The storage engine's write-through cache, and exactly when it can be told apart from
    the bare database. */
module StorageCache {
  import opened Options
  import opened Records
  import opened ContextKeys
  import opened Recovery

  const SECOND: int := 1_000_000_000

  // ---------- answers ----------

  datatype LockAnswer = Granted(lock: Lock) | Refused
  datatype ReleaseAnswer = NoLock | WrongAgent | WrongId | Freed
  datatype UpdateAnswer = Stored(context: Context) | Panicked

  datatype UpdateRequest = UpdateRequest(id: string, displayName: string, addAgents: seq<string>, removeAgents: seq<string>,
                                         pinUnits: seq<string>, unpinUnits: seq<string>, meta: Option<map<string, string>>)

  // ---------- the engine without a cache ----------

  /** Reading a record straight from the database; an undecodable record is an error. */
  function StoredContext(codec: Codec, db: Database, id: string): Option<Context> {
    match Lookup(db, ContextKey(id))
    case Some(Json(b)) => codec.decContext(b)
    case _ => None
  }

  function StoredLock(codec: Codec, db: Database, path: string): Option<Lock> {
    match Lookup(db, LockKey(path))
    case Some(Json(b)) => codec.decLock(b)
    case _ => None
  }

  function StoredUnit(codec: Codec, db: Database, id: string): Option<WorkUnit> {
    match Lookup(db, UnitKey(id))
    case Some(Json(b)) => codec.decUnit(b)
    case _ => None
  }

  /** `AcquireLock` on the lock found, if any: the handle to store, or a refusal. */
  function Acquired(found: Option<Lock>, path: string, agent: string, ttl: int, checkTime: int, setTime: int, newId: string): LockAnswer {
    if found.Some? && found.value.expiresAt > checkTime then
      if found.value.holder != agent then Refused
      else Granted(found.value.(expiresAt := setTime + ttl * SECOND))
    else Granted(Lock(path, agent, setTime + ttl * SECOND, newId))
  }

  function ReleaseCheck(found: Option<Lock>, agent: string, lockId: string): ReleaseAnswer {
    if found.None? then NoLock
    else if found.value.holder != agent then WrongAgent
    else if found.value.lockId != lockId then WrongId
    else Freed
  }

  /** Names already listed, then the new ones in order, without adding a name twice. */
  function AddMissing(names: seq<string>, adds: seq<string>): seq<string>
    decreases |adds|
  {
    if adds == [] then names
    else AddMissing(if adds[0] in names then names else names + [adds[0]], adds[1..])
  }

  function Without(names: seq<string>, removed: seq<string>): seq<string> {
    if names == [] then []
    else if names[0] in removed then Without(names[1..], removed)
    else [names[0]] + Without(names[1..], removed)
  }

  /** The edits of `UpdateContext` up to, not including, the metadata. */
  function EditedLists(c: Context, req: UpdateRequest): Context {
    c.(displayName := if req.displayName != "" then req.displayName else c.displayName,
       agents := Without(AddMissing(c.agents, req.addAgents), req.removeAgents),
       pinned := Without(AddMissing(c.pinned, req.pinUnits), req.unpinUnits))
  }

  function NewMeta(req: UpdateRequest): map<string, string> {
    if req.meta.Some? then req.meta.value else map[]
  }

  /** Assigning into a nil map panics; assigning nothing does not. */
  predicate AssignsIntoNil(meta: Option<map<string, string>>, req: UpdateRequest) {
    meta.None? && NewMeta(req) != map[]
  }

  function Updated(found: Option<Context>, req: UpdateRequest, created: int, updated: int, newId: string): UpdateAnswer {
    match found
    case Some(c) =>
      if AssignsIntoNil(c.meta, req) then Panicked
      else
        var meta := if c.meta.Some? then Some(c.meta.value + NewMeta(req)) else None;
        Stored(EditedLists(c, req).(meta := meta, updatedAt := updated))
    case None =>
      Stored(Context(if req.id == "" then newId else req.id, req.displayName, req.addAgents, req.pinUnits, req.meta, created, updated))
  }

  // ---------- what the list edits mean ----------

  lemma {:induction false} AddMissingMembers(names: seq<string>, adds: seq<string>, x: string)
    ensures x in AddMissing(names, adds) <==> x in names || x in adds
    ensures names <= AddMissing(names, adds)
    ensures NoRepeats(names) ==> NoRepeats(AddMissing(names, adds))
    decreases |adds|
  {
    if adds != [] {
      AddMissingMembers(if adds[0] in names then names else names + [adds[0]], adds[1..], x);
    }
  }

  ghost predicate NoRepeats(names: seq<string>) {
    forall i, j :: 0 <= i < j < |names| ==> names[i] != names[j]
  }

  lemma {:induction false} WithoutMembers(names: seq<string>, removed: seq<string>, x: string)
    ensures x in Without(names, removed) <==> x in names && x !in removed
    ensures removed == [] ==> Without(names, removed) == names
  {
    if names != [] {
      WithoutMembers(names[1..], removed, x);
      assert names == [names[0]] + names[1..];
    }
  }

  method MergeNames(names0: seq<string>, adds: seq<string>, removed: seq<string>) returns (names: seq<string>)
    ensures names == Without(AddMissing(names0, adds), removed)
  {
    names := names0;
    for i := 0 to |adds|
      invariant AddMissing(names0, adds) == AddMissing(names, adds[i..])
    {
      assert adds[i..][0] == adds[i] && adds[i..][1..] == adds[i + 1..];
      if adds[i] !in names {
        names := names + [adds[i]];
      }
    }
    assert adds[|adds|..] == [];
    if |removed| > 0 {
      var kept := [];
      for i := 0 to |names|
        invariant Without(names, removed) == kept + Without(names[i..], removed)
      {
        assert names[i..][0] == names[i] && names[i..][1..] == names[i + 1..];
        if names[i] !in removed {
          kept := kept + [names[i]];
        }
      }
      assert names[|names|..] == [];
      names := kept;
    } else {
      WithoutMembers(names, removed, "");
    }
  }

  /** The edits made before the metadata. */
  method EditCopy(copy: Context, req: UpdateRequest) returns (c: Context)
    ensures c == EditedLists(copy, req) && c.id == copy.id && c.meta == copy.meta
  {
    hide Without, AddMissing;
    c := copy;
    if req.displayName != "" {
      c := c.(displayName := req.displayName);
    }
    var agents := MergeNames(c.agents, req.addAgents, req.removeAgents);
    c := c.(agents := agents);
    var pinned := MergeNames(c.pinned, req.pinUnits, req.unpinUnits);
    c := c.(pinned := pinned);
  }

  // ---------- what the cache holds ----------

  /** Adding an entry evicts one entry, whichever the map iteration meets first, once the
      cache is over its capacity. */
  ghost predicate Evicted<K(!new), V>(full: map<K, V>, kept: map<K, V>, capacity: nat) {
    if |full| <= capacity then kept == full else exists k :: k in full && kept == full - {k}
  }

  /** Every record sits under the key its own id or path names, and no stored
      context spells out an empty metadata map (the encoder omits it). */
  ghost predicate WellKeyed(codec: Codec, db: Database) {
    && (forall id :: StoredContext(codec, db, id).Some? ==>
          StoredContext(codec, db, id).value.id == id && StoredContext(codec, db, id).value.meta != Some(map[]))
    && (forall p :: StoredLock(codec, db, p).Some? ==> StoredLock(codec, db, p).value.path == p)
    && (forall id :: StoredUnit(codec, db, id).Some? ==> StoredUnit(codec, db, id).value.id == id)
  }

  /** Each cached record is the stored one (up to the empty-map rule for contexts). */
  ghost predicate ContextsAgree(codec: Codec, db: Database, contexts: map<string, Context>) {
    forall id :: id in contexts ==> StoredContext(codec, db, id) == Some(Normal(contexts[id]))
  }

  ghost predicate LocksAgree(codec: Codec, db: Database, locks: map<string, Lock>) {
    forall p :: p in locks ==> StoredLock(codec, db, p) == Some(locks[p])
  }

  ghost predicate UnitsAgree(codec: Codec, db: Database, units: map<string, WorkUnit>) {
    forall id :: id in units ==> StoredUnit(codec, db, id) == Some(units[id])
  }

  ghost predicate KeyedContexts(contexts: map<string, Context>) {
    forall id :: id in contexts ==> contexts[id].id == id
  }

  /** No cached context has an empty but allocated metadata map. */
  ghost predicate SpellsOut(contexts: map<string, Context>) {
    forall id :: id in contexts ==> contexts[id].meta != Some(map[])
  }

  /** What reading a context leaves in the cache. */
  ghost predicate Fetched(codec: Codec, db: Database, enabled: bool, capacity: nat,
                          before: map<string, Context>, id: string, after: map<string, Context>) {
    if !enabled || id in before || StoredContext(codec, db, id).None? then after == before
    else Evicted(before[id := StoredContext(codec, db, id).value], after, capacity)
  }

  /** The copy an update works on: the cached one if there is one. */
  function FoundContext(codec: Codec, db: Database, contexts: map<string, Context>, id: string): Option<Context> {
    if id in contexts then Some(contexts[id]) else StoredContext(codec, db, id)
  }

  /** What an update leaves in the cache: the new context, or after a panic the half-edited
      copy, because the edits are made in place before the metadata. */
  ghost predicate UpdateCaches(codec: Codec, db: Database, enabled: bool, capacity: nat, before: map<string, Context>,
                               req: UpdateRequest, r: UpdateAnswer, after: map<string, Context>) {
    exists mid :: Fetched(codec, db, enabled, capacity, before, req.id, mid) && Recached(enabled, capacity, mid, req, r, after)
  }

  ghost predicate Recached(enabled: bool, capacity: nat, mid: map<string, Context>, req: UpdateRequest, r: UpdateAnswer, after: map<string, Context>) {
    match r
    case Stored(c) => if enabled then Evicted(mid[c.id := c], after, capacity) else after == mid
    case Panicked => after == if req.id in mid then mid[req.id := EditedLists(mid[req.id], req)] else mid
  }

  // ---------- the engine with its cache ----------

  class Storage {
    const codec: Codec
    const enabled: bool
    const unitCap: nat
    const contextCap: nat
    const lockCap: nat
    var db: Database
    var units: map<string, WorkUnit>
    var contexts: map<string, Context>
    var locks: map<string, Lock>

    constructor (codec: Codec, db: Database, enabled: bool, unitCap: nat, contextCap: nat, lockCap: nat)
      requires Faithful(codec) && WellKeyed(codec, db)
      requires unitCap > 0 && contextCap > 0 && lockCap > 0
      ensures Coherent() && this.db == db && this.codec == codec && this.enabled == enabled
      ensures units == map[] && contexts == map[] && locks == map[]
    {
      this.codec, this.db, this.enabled := codec, db, enabled;
      this.unitCap, this.contextCap, this.lockCap := unitCap, contextCap, lockCap;
      units, contexts, locks := map[], map[], map[];
    }

    /** What holds in every run, panics included: in particular cached locks and units are
        the stored ones. */
    ghost predicate Sound()
      reads this
    {
      && Faithful(codec) && WellKeyed(codec, db) && KeyedContexts(contexts)
      && LocksAgree(codec, db, locks) && UnitsAgree(codec, db, units)
      && |units| <= unitCap && |contexts| <= contextCap && |locks| <= lockCap
      && (!enabled ==> units == map[] && contexts == map[] && locks == map[])
      && unitCap > 0 && contextCap > 0 && lockCap > 0
    }

    /** All cached records are the stored ones. */
    ghost predicate Coherent()
      reads this
    {
      Sound() && ContextsAgree(codec, db, contexts)
    }

    ghost predicate NoEmptyMaps()
      reads this
    {
      SpellsOut(contexts)
    }

    // ----- the cache -----

    method SetContext(c: Context)
      requires |contexts| <= contextCap
      modifies this`contexts
      ensures |contexts| <= contextCap
      ensures Evicted(old(contexts)[c.id := c], contexts, contextCap)
    {
      contexts := contexts[c.id := c];
      if |contexts| > contextCap {
        assert c.id in contexts;
        var k :| k in contexts;          // whichever entry the map iteration meets first
        contexts := contexts - {k};
      }
    }

    method SetLock(l: Lock)
      requires |locks| <= lockCap
      modifies this`locks
      ensures |locks| <= lockCap
      ensures Evicted(old(locks)[l.path := l], locks, lockCap)
    {
      locks := locks[l.path := l];
      if |locks| > lockCap {
        assert l.path in locks;
        var k :| k in locks;
        locks := locks - {k};
      }
    }

    method SetUnit(u: WorkUnit)
      requires |units| <= unitCap
      modifies this`units
      ensures |units| <= unitCap
      ensures Evicted(old(units)[u.id := u], units, unitCap)
    {
      units := units[u.id := u];
      if |units| > unitCap {
        assert u.id in units;
        var k :| k in units;
        units := units - {k};
      }
    }

    // ----- reads -----

    /** The cached copy, or else the stored context, which is then cached. */
    method GetContext(id: string) returns (r: Option<Context>)
      requires Sound()
      modifies this`contexts
      ensures Sound() && (old(Coherent()) ==> Coherent()) && (old(NoEmptyMaps()) ==> NoEmptyMaps())
      ensures r == FoundContext(codec, db, old(contexts), id) && (r.Some? ==> r.value.id == id)
      ensures old(NoEmptyMaps()) && r.Some? ==> r.value.meta != Some(map[])
      ensures Fetched(codec, db, enabled, contextCap, old(contexts), id, contexts)
      ensures id in contexts && r.Some? ==> contexts[id] == r.value
    {
      hide Faithful, UnitsAgree, LocksAgree, ContextsAgree, WellKeyed, StoredContext, Evicted, SpellsOut;
      StoredContextIsNormal(codec, db, id);
      SpeltCopy(contexts, id);
      if enabled && id in contexts {
        return Some(contexts[id]);
      }
      r := StoredContext(codec, db, id);
      if enabled && r.Some? {
        AddedContext(codec, db, contexts, r.value);
        SetContext(r.value);
        KeptContexts(codec, db, old(contexts)[id := r.value], contexts, contextCap);
        KeptIsSubmap(old(contexts)[id := r.value], contexts, contextCap);
      }
    }

    method GetLock(path: string) returns (r: Option<Lock>)
      requires Sound()
      modifies this`locks
      ensures Sound()
      ensures r == StoredLock(codec, db, path)
    {
      hide Faithful, KeyedContexts, UnitsAgree, WellKeyed, StoredLock, Evicted;
      StoredLockIsKeyed(codec, db, path);
      if enabled && path in locks {
        return Some(locks[path]);
      }
      r := StoredLock(codec, db, path);
      if enabled && r.Some? {
        SetLock(r.value);
        KeptLocks(codec, db, old(locks)[path := r.value], locks, lockCap);
      }
    }

    /** `GetWorkUnit` answers from the cache alone: on a miss it loads the stored unit
        into the cache and then reports "not found" all the same. */
    method GetWorkUnit(id: string) returns (r: Option<WorkUnit>)
      requires Sound()
      modifies this`units
      ensures Sound() && (old(Coherent()) ==> Coherent())
      ensures r == if id in old(units) then Some(old(units)[id]) else None
      ensures if !enabled || id in old(units) || StoredUnit(codec, db, id).None? then units == old(units)
        else Evicted(old(units)[id := StoredUnit(codec, db, id).value], units, unitCap)
    {
      hide Faithful, UnitKey, LocksAgree, ContextsAgree, KeyedContexts, WellKeyed, Evicted;
      StoredUnitIsKeyed(codec, db, id);
      if enabled && id in units {
        return Some(units[id]);
      }
      r := None;
      match Lookup(db, UnitKey(id)) {
        case Some(Json(b)) =>
          var u := codec.decUnit(b);
          if u.Some? && enabled {
            SetUnit(u.value);
            KeptUnits(codec, db, old(units)[id := u.value], units, unitCap);
          }
        case _ =>
      }
    }

    // ----- writes -----

    method StoreWorkUnitInternal(u: WorkUnit)
      requires Sound()
      modifies this`db, this`units
      ensures Sound() && (old(Coherent()) ==> Coherent()) && db == old(db) + UnitWrites(codec, u)
      ensures if enabled then Evicted(old(units)[u.id := u], units, unitCap) else units == old(units)
    {
      hide Faithful, UnitKey, TimeKey, WellKeyed, LocksAgree, ContextsAgree, UnitsAgree, KeyedContexts, Evicted;
      AfterUnitWrite(codec, db, contexts, locks, units, u);
      db := db[UnitKey(u.id) := Json(codec.encUnit(u))];
      db := db[TimeKey(u.context, u.ts) := UnitId(u.id)];
      UpdatesAreMerge(old(db), UnitKey(u.id), Json(codec.encUnit(u)), TimeKey(u.context, u.ts), UnitId(u.id));
      if enabled {
        SetUnit(u);
        KeptUnits(codec, db, old(units)[u.id := u], units, unitCap);
      } else {
        NothingCached(codec, db);
      }
    }

    method StoreContextInternal(c: Context)
      requires Sound()
      modifies this`db, this`contexts
      ensures Sound() && (old(Coherent()) ==> Coherent()) && db == old(db) + ContextWrites(codec, c)
      ensures if enabled then Evicted(old(contexts)[c.id := c], contexts, contextCap) else contexts == old(contexts)
      ensures old(NoEmptyMaps()) && c.meta != Some(map[]) ==> NoEmptyMaps()
    {
      hide Faithful, ContextKey, WellKeyed, LocksAgree, ContextsAgree, UnitsAgree, KeyedContexts, SpellsOut, Evicted;
      AddedContext(codec, db, contexts, c);
      AfterContextWrite(codec, db, contexts, locks, units, c);
      db := db[ContextKey(c.id) := Json(codec.encContext(c))];
      UpdateIsMerge(old(db), ContextKey(c.id), Json(codec.encContext(c)));
      if enabled {
        SetContext(c);
        KeptContexts(codec, db, old(contexts)[c.id := c], contexts, contextCap);
      } else {
        NothingCached(codec, db);
      }
    }

    method StoreLockInternal(l: Lock)
      requires Sound()
      modifies this`db, this`locks
      ensures Sound() && (old(Coherent()) ==> Coherent()) && db == old(db) + LockWrites(codec, l)
    {
      hide Faithful, LockKey, WellKeyed, LocksAgree, ContextsAgree, UnitsAgree, KeyedContexts, Evicted;
      AfterLockWrite(codec, db, contexts, locks, units, l);
      db := db[LockKey(l.path) := Json(codec.encLock(l))];
      UpdateIsMerge(old(db), LockKey(l.path), Json(codec.encLock(l)));
      if enabled {
        SetLock(l);
        KeptLocks(codec, db, old(locks)[l.path := l], locks, lockCap);
      } else {
        NothingCached(codec, db);
      }
    }

    method DeleteLock(path: string)
      requires Sound()
      modifies this`db, this`locks
      ensures Sound() && (old(Coherent()) ==> Coherent()) && db == old(db) - {LockKey(path)}
    {
      hide Faithful, LockKey, WellKeyed, LocksAgree, ContextsAgree, UnitsAgree, KeyedContexts;
      AfterLockDelete(codec, db, contexts, locks, units, path);
      FewerKeys(locks, path);
      db := db - {LockKey(path)};
      if enabled {
        locks := locks - {path};
      }
    }

    /** `AcquireLock`: the answer and the new database are those of the uncached engine. */
    method AcquireLock(path: string, agent: string, ttl: int, checkTime: int, setTime: int, newId: string)
      returns (r: LockAnswer)
      requires Sound()
      modifies this`db, this`locks
      ensures Sound() && (old(Coherent()) ==> Coherent())
      ensures r == Acquired(StoredLock(codec, old(db), path), path, agent, ttl, checkTime, setTime, newId)
      ensures db == if r.Granted? then old(db) + LockWrites(codec, r.lock) else old(db)
    {
      hide Faithful, WellKeyed, ContextsAgree, LocksAgree, UnitsAgree, KeyedContexts, StoredLock, LockWrites;
      var existing := GetLock(path);
      if existing.Some? {
        if existing.value.expiresAt > checkTime {
          if existing.value.holder != agent {
            return Refused;
          }
          var extended := existing.value.(expiresAt := setTime + ttl * SECOND);
          StoreLockInternal(extended);
          return Granted(extended);
        }
      }
      var lock := Lock(path, agent, setTime + ttl * SECOND, newId);
      StoreLockInternal(lock);
      return Granted(lock);
    }

    /** `ReleaseLock`: deletes the key and the cached copy, and logs nothing. */
    method ReleaseLock(path: string, agent: string, lockId: string) returns (r: ReleaseAnswer)
      requires Sound()
      modifies this`db, this`locks
      ensures Sound() && (old(Coherent()) ==> Coherent())
      ensures r == ReleaseCheck(StoredLock(codec, old(db), path), agent, lockId)
      ensures db == if r.Freed? then old(db) - {LockKey(path)} else old(db)
    {
      hide Faithful, WellKeyed, ContextsAgree, LocksAgree, UnitsAgree, KeyedContexts, StoredLock, LockKey;
      var existing := GetLock(path);
      if existing.None? {
        return NoLock;
      }
      if existing.value.holder != agent {
        return WrongAgent;
      }
      if existing.value.lockId != lockId {
        return WrongId;
      }
      DeleteLock(path);
      return Freed;
    }

    /** The copy, if it is cached, has been edited in place when the update panics. */
    method LeaveEdited(copy: Context, edited: Context)
      requires Sound() && copy.meta == None && edited.meta == None && edited.id == copy.id
      requires copy.id in contexts ==> contexts[copy.id] == copy
      modifies this`contexts
      ensures Sound() && (old(NoEmptyMaps()) ==> NoEmptyMaps())
      ensures contexts == if copy.id in old(contexts) then old(contexts)[copy.id := edited] else old(contexts)
      ensures old(Coherent()) ==> (Coherent() <==> copy.id !in contexts || edited == copy)
    {
      hide Faithful, WellKeyed, ContextsAgree, LocksAgree, UnitsAgree;
      ghost var coherent := Coherent();
      if copy.id in contexts {
        if coherent {
          EditedInPlace(codec, db, contexts, copy, edited);
        }
        SameKeys(contexts, copy.id, edited);
        contexts := contexts[copy.id := edited];
      }
    }

    /** `UpdateContext` on whatever copy `GetContext` finds.  The copy is edited in place, so a
        panic leaves it half-edited in the cache; the cache then still agrees with the database
        exactly when the copy is not cached or the edits change nothing. */
    method UpdateContext(req: UpdateRequest, created: int, updated: int, newId: string) returns (r: UpdateAnswer)
      requires Sound()
      modifies this`db, this`contexts
      ensures Sound()
      ensures r == Updated(FoundContext(codec, old(db), old(contexts), req.id), req, created, updated, newId)
      ensures db == if r.Stored? then old(db) + ContextWrites(codec, r.context) else old(db)
      ensures UpdateCaches(codec, old(db), enabled, contextCap, old(contexts), req, r, contexts)
      ensures old(NoEmptyMaps()) && req.meta != Some(map[]) ==> NoEmptyMaps()
      ensures old(Coherent()) && r.Stored? ==> Coherent()
      ensures old(Coherent()) && r.Panicked? ==>
        var copy := FoundContext(codec, old(db), old(contexts), req.id);
        copy.Some? && (Coherent() <==> req.id !in contexts || EditedLists(copy.value, req) == copy.value)
    {
      hide Faithful, WellKeyed, ContextsAgree, LocksAgree, UnitsAgree, KeyedContexts, SpellsOut, EditedLists, StoredContext, ContextWrites, Evicted, Fetched;
      var existing := GetContext(req.id);
      ghost var mid := contexts;
      if existing.Some? {
        var c := EditCopy(existing.value, req);
        if AssignsIntoNil(c.meta, req) {
          LeaveEdited(existing.value, c);
          assert Recached(enabled, contextCap, mid, req, Panicked, contexts);
          return Panicked;
        }
        if c.meta.Some? {
          StillSpelt(c.meta.value, NewMeta(req));
          c := c.(meta := Some(c.meta.value + NewMeta(req)));
        }
        c := c.(updatedAt := updated);
        StoreContextInternal(c);
        assert Recached(enabled, contextCap, mid, req, Stored(c), contexts);
        return Stored(c);
      }
      var id := if req.id == "" then newId else req.id;
      var c := Context(id, req.displayName, req.addAgents, req.pinUnits, req.meta, created, updated);
      StoreContextInternal(c);
      assert Recached(enabled, contextCap, mid, req, Stored(c), contexts);
      return Stored(c);
    }

    // ----- whole runs -----

    /** One call.  Started on a coherent cache, it gives the answer (up to the empty-map rule)
        and the database of the engine without a cache, and leaves the cache coherent, exactly
        when it does not show the cache. */
    method ServeOne(call: Call) returns (a: Answer)
      requires Sound()
      modifies this
      ensures Sound()
      ensures old(Coherent()) ==>
        ((Like(a, Reference(codec, old(db), call).0) && db == Reference(codec, old(db), call).1 && Coherent())
         <==> !Shows(codec, old(db), old(contexts), call, contexts))
      ensures old(Coherent()) && old(NoEmptyMaps()) && !EmptyMapRequest(call) ==>
        NoEmptyMaps() && (a, db) == Reference(codec, old(db), call)
    {
      hide Faithful, WellKeyed, ContextsAgree, LocksAgree, UnitsAgree, KeyedContexts, StoredContext, StoredLock, ContextWrites, LockWrites,
        Acquired, ReleaseCheck, Updated, LockKey, EditedLists, UpdateCaches, Fetched, FoundContext, SpellsOut;
      match call {
        case GetContextCall(id) =>
          ghost var contexts0, coherent := contexts, Coherent();
          var r := GetContext(id);
          a := ContextIs(r);
          if coherent {
            FoundIsStored(codec, db, contexts0, id);
            if SpellsOut(contexts0) {
              SpeltIsStored(codec, db, contexts0, id);
            }
          }
        case UpdateContextCall(req, created, updated, newId) =>
          a := ServeUpdate(req, created, updated, newId);
        case GetLockCall(path) =>
          var r := GetLock(path);
          a := LockIs(r);
        case AcquireLockCall(path, agent, ttl, checkTime, setTime, newId) =>
          var r := AcquireLock(path, agent, ttl, checkTime, setTime, newId);
          a := AcquiredIs(r);
        case ReleaseLockCall(path, agent, lockId) =>
          var r := ReleaseLock(path, agent, lockId);
          a := ReleasedIs(r);
      }
    }

    method ServeUpdate(req: UpdateRequest, created: int, updated: int, newId: string) returns (a: Answer)
      requires Sound()
      modifies this
      ensures Sound()
      ensures var call := UpdateContextCall(req, created, updated, newId);
        old(Coherent()) ==>
        ((Like(a, Reference(codec, old(db), call).0) && db == Reference(codec, old(db), call).1 && Coherent())
         <==> !Shows(codec, old(db), old(contexts), call, contexts))
      ensures old(Coherent()) && old(NoEmptyMaps()) && req.meta != Some(map[]) ==>
        NoEmptyMaps() && (a, db) == Reference(codec, old(db), UpdateContextCall(req, created, updated, newId))
    {
      hide Faithful, WellKeyed, ContextsAgree, LocksAgree, UnitsAgree, KeyedContexts, StoredContext, ContextWrites, Updated, EditedLists, UpdateCaches, FoundContext, SpellsOut;
      ghost var db0, contexts0, coherent := db, contexts, Coherent();
      var r := UpdateContext(req, created, updated, newId);
      a := if r.Panicked? then Panic else UpdatedTo(r.context);
      if coherent {
        UpdateShows(codec, db0, contexts0, req, created, updated, newId);
        if SpellsOut(contexts0) {
          SpeltIsStored(codec, db0, contexts0, req.id);
        }
      }
    }

    /** Any sequential run, going on after panics.  Up to the first call that shows the cache
        the answers (up to the empty-map rule) and the database are those of the engine without
        a cache, whichever entries eviction drops; if no call shows it, that is the whole run.
        If no request brings an empty metadata map, the answers are the very same, and the call
        that shows is a panic that both engines answer alike.
        `n` counts the calls before the first one that shows; that one was made on the database
        `db1` and the cached contexts `before`, and left `after` cached. */
    method Serve(calls: seq<Call>) returns (answers: seq<Answer>, ghost n: nat, ghost db1: Database,
                                            ghost before: map<string, Context>, ghost after: map<string, Context>)
      requires Coherent()
      modifies this
      ensures Sound() && |answers| == |calls| && n <= |calls|
      ensures forall i :: 0 <= i < n ==> Like(answers[i], ReferenceAnswer(codec, old(db), calls, i))
      ensures n == |calls| ==> Coherent() && db == ReferenceDb(codec, old(db), calls)
      ensures old(NoEmptyMaps()) && (forall i :: 0 <= i < |calls| ==> !EmptyMapRequest(calls[i])) ==>
        forall i :: 0 <= i < |calls| && i <= n ==> answers[i] == ReferenceAnswer(codec, old(db), calls, i)
      ensures n < |calls| ==>
        db1 == ReferenceDb(codec, old(db), calls[..n]) && ContextsAgree(codec, db1, before) && Shows(codec, db1, before, calls[n], after)
    {
      hide Faithful, WellKeyed, ContextsAgree, LocksAgree, UnitsAgree, KeyedContexts, SpellsOut, EmptyMapRequest, Reference, Shows, Like, ReferenceDb;
      answers, n, db1, before, after := [], 0, db, contexts, contexts;
      ghost var db0, spelt := db, NoEmptyMaps() && forall i :: 0 <= i < |calls| ==> !EmptyMapRequest(calls[i]);
      RunStart(codec, db, calls);
      for i := 0 to |calls|
        invariant Sound() && |answers| == i && n <= i
        invariant forall j :: 0 <= j < n ==> Like(answers[j], ReferenceAnswer(codec, db0, calls, j))
        invariant n == i ==> Coherent() && db == ReferenceDb(codec, db0, calls[..i])
        invariant spelt && n == i ==> NoEmptyMaps()
        invariant spelt ==> forall j :: 0 <= j < i && j <= n ==> answers[j] == ReferenceAnswer(codec, db0, calls, j)
        invariant n < i ==>
          db1 == ReferenceDb(codec, db0, calls[..n]) && ContextsAgree(codec, db1, before) && Shows(codec, db1, before, calls[n], after)
      {
        ghost var db2, contexts2 := db, contexts;
        var a := ServeOne(calls[i]);
        answers := answers + [a];
        if n == i {
          RunStep(codec, db0, calls, i);
          if Shows(codec, db2, contexts2, calls[i], contexts) {
            db1, before, after := db2, contexts2, contexts;
          } else {
            n := n + 1;
          }
        }
      }
      assert calls[..|calls|] == calls;
    }
  }

  // ---------- runs of the engine without a cache ----------

  datatype Call =
    | GetContextCall(id: string)
    | UpdateContextCall(req: UpdateRequest, created: int, updated: int, newId: string)
    | GetLockCall(path: string)
    | AcquireLockCall(path: string, agent: string, ttl: int, checkTime: int, setTime: int, newId: string)
    | ReleaseLockCall(path: string, agent: string, lockId: string)

  datatype Answer = ContextIs(context: Option<Context>) | UpdatedTo(stored: Context) | Panic
                  | LockIs(lock: Option<Lock>) | AcquiredIs(acquired: LockAnswer) | ReleasedIs(released: ReleaseAnswer)

  function Reference(codec: Codec, db: Database, call: Call): (Answer, Database) {
    match call
    case GetContextCall(id) => (ContextIs(StoredContext(codec, db, id)), db)
    case UpdateContextCall(req, created, updated, newId) =>
      (match Updated(StoredContext(codec, db, req.id), req, created, updated, newId)
       case Panicked => (Panic, db)
       case Stored(c) => (UpdatedTo(c), db + ContextWrites(codec, c)))
    case GetLockCall(path) => (LockIs(StoredLock(codec, db, path)), db)
    case AcquireLockCall(path, agent, ttl, checkTime, setTime, newId) =>
      var r := Acquired(StoredLock(codec, db, path), path, agent, ttl, checkTime, setTime, newId);
      (AcquiredIs(r), if r.Granted? then db + LockWrites(codec, r.lock) else db)
    case ReleaseLockCall(path, agent, lockId) =>
      var r := ReleaseCheck(StoredLock(codec, db, path), agent, lockId);
      (ReleasedIs(r), if r.Freed? then db - {LockKey(path)} else db)
  }

  /** The database after a run of calls; a panic changes nothing and the run goes on. */
  function ReferenceDb(codec: Codec, db: Database, calls: seq<Call>): Database {
    if calls == [] then db
    else Reference(codec, ReferenceDb(codec, db, calls[..|calls| - 1]), calls[|calls| - 1]).1
  }

  function ReferenceAnswer(codec: Codec, db: Database, calls: seq<Call>, i: nat): Answer
    requires i < |calls|
  {
    Reference(codec, ReferenceDb(codec, db, calls[..i]), calls[i]).0
  }

  /** The request brings an empty but allocated metadata map. */
  predicate EmptyMapRequest(call: Call) {
    call.UpdateContextCall? && call.req.meta == Some(map[])
  }

  /** Equal answers, not telling an empty metadata map from a nil one. */
  predicate Like(a: Answer, b: Answer) {
    match (a, b)
    case (ContextIs(Some(c)), ContextIs(Some(d))) => Normal(c) == Normal(d)
    case (UpdatedTo(c), UpdatedTo(d)) => Normal(c) == Normal(d)
    case _ => a == b
  }

  /** The calls on which the cache shows: an update that brings metadata to a cached context
      with an empty but allocated map, and an update that panics on a nil map after it has
      changed the copy that stays in the cache. */
  ghost predicate Shows(codec: Codec, db: Database, contexts: map<string, Context>, call: Call, after: map<string, Context>) {
    call.UpdateContextCall? &&
    var copy := FoundContext(codec, db, contexts, call.req.id);
    copy.Some? && NewMeta(call.req) != map[] &&
    (copy.value.meta == Some(map[]) || (copy.value.meta == None && call.req.id in after && EditedLists(copy.value, call.req) != copy.value))
  }

  lemma RunStart(codec: Codec, db: Database, calls: seq<Call>)
    ensures calls[..0] == [] && ReferenceDb(codec, db, []) == db
  {
  }

  lemma RunStep(codec: Codec, db: Database, calls: seq<Call>, i: nat)
    requires i < |calls|
    ensures ReferenceDb(codec, db, calls[..i + 1]) == Reference(codec, ReferenceDb(codec, db, calls[..i]), calls[i]).1
  {
    hide Reference;
    assert calls[..i + 1][..i] == calls[..i];
  }

  /** On a coherent cache the copy found is the stored record, up to the empty-map rule. */
  lemma FoundIsStored(codec: Codec, db: Database, contexts: map<string, Context>, id: string)
    requires WellKeyed(codec, db) && ContextsAgree(codec, db, contexts)
    ensures var copy, stored := FoundContext(codec, db, contexts, id), StoredContext(codec, db, id);
      && copy.Some? == stored.Some?
      && (copy.Some? ==> Normal(copy.value) == stored.value && (copy.value.meta != Some(map[]) ==> copy == stored))
  {
    hide StoredContext;
    StoredContextIsNormal(codec, db, id);
  }

  lemma StillSpelt(m: map<string, string>, n: map<string, string>)
    ensures m + n == map[] ==> m == map[]
  {
    assert forall k :: k in m ==> k in m + n;
  }

  lemma SpeltCopy(contexts: map<string, Context>, id: string)
    ensures SpellsOut(contexts) && id in contexts ==> contexts[id].meta != Some(map[])
  {
  }

  /** With no empty map cached, the copy found is the stored record. */
  lemma SpeltIsStored(codec: Codec, db: Database, contexts: map<string, Context>, id: string)
    requires WellKeyed(codec, db) && ContextsAgree(codec, db, contexts) && SpellsOut(contexts)
    ensures FoundContext(codec, db, contexts, id) == StoredContext(codec, db, id)
  {
    hide StoredContext, WellKeyed;
    FoundIsStored(codec, db, contexts, id);
  }

  /** When an update on the copy found differs from one on the stored record. */
  lemma UpdateShows(codec: Codec, db: Database, contexts: map<string, Context>, req: UpdateRequest, created: int, updated: int, newId: string)
    requires Faithful(codec) && WellKeyed(codec, db) && ContextsAgree(codec, db, contexts)
    ensures var copy, stored := FoundContext(codec, db, contexts, req.id), StoredContext(codec, db, req.id);
      var withCache, without := Updated(copy, req, created, updated, newId), Updated(stored, req, created, updated, newId);
      && (withCache.Stored? != without.Stored? <==> copy.Some? && copy.value.meta == Some(map[]) && NewMeta(req) != map[])
      && (withCache.Panicked? ==> copy.Some? && copy.value.meta == None && NewMeta(req) != map[])
      && (withCache.Stored? && without.Stored? ==>
            && Normal(withCache.context) == Normal(without.context)
            && ContextWrites(codec, withCache.context) == ContextWrites(codec, without.context))
      && (copy.Some? && copy.value.meta == None && NewMeta(req) != map[] ==> withCache.Panicked?)
  {
    hide StoredContext, WellKeyed, Without, AddMissing;
    FoundIsStored(codec, db, contexts, req.id);
    var copy := FoundContext(codec, db, contexts, req.id);
    if copy.Some? {
      CacheShowsOnlyOnEmptyMap(codec, copy.value, req, created, updated, newId);
    }
  }

  lemma UpdateIsMerge(db: Database, k: string, v: Value)
    ensures db[k := v] == db + map[k := v]
  {
  }

  lemma UpdatesAreMerge(db: Database, k: string, v: Value, l: string, w: Value)
    ensures db[k := v][l := w] == db + map[k := v][l := w]
  {
  }

  lemma FewerKeys<K, V>(m: map<K, V>, k: K)
    ensures |m - {k}| <= |m| && (m == map[] ==> m - {k} == m)
  {
    var m1 := m - {k};
    assert m1.Keys == m.Keys - {k};
    assert |m1| == |m1.Keys| && |m| == |m.Keys|;
  }

  lemma SameKeys<K, V>(m: map<K, V>, k: K, v: V)
    requires k in m
    ensures |m[k := v]| == |m|
  {
    var m1 := m[k := v];
    assert m1.Keys == m.Keys;
    assert |m1| == |m1.Keys| && |m| == |m.Keys|;
  }

  lemma KeptIsSubmap<K(!new), V>(full: map<K, V>, kept: map<K, V>, capacity: nat)
    requires Evicted(full, kept, capacity)
    ensures forall k :: k in kept ==> k in full && kept[k] == full[k]
  {
  }

  /** What eviction keeps is part of what there was. */
  lemma KeptContexts(codec: Codec, db: Database, full: map<string, Context>, kept: map<string, Context>, capacity: nat)
    requires Evicted(full, kept, capacity)
    ensures KeyedContexts(full) ==> KeyedContexts(kept)
    ensures ContextsAgree(codec, db, full) ==> ContextsAgree(codec, db, kept)
    ensures SpellsOut(full) ==> SpellsOut(kept)
  {
    hide StoredContext;
  }

  lemma KeptLocks(codec: Codec, db: Database, full: map<string, Lock>, kept: map<string, Lock>, capacity: nat)
    requires Evicted(full, kept, capacity) && LocksAgree(codec, db, full)
    ensures LocksAgree(codec, db, kept)
  {
    hide StoredLock;
  }

  lemma KeptUnits(codec: Codec, db: Database, full: map<string, WorkUnit>, kept: map<string, WorkUnit>, capacity: nat)
    requires Evicted(full, kept, capacity) && UnitsAgree(codec, db, full)
    ensures UnitsAgree(codec, db, kept)
  {
    hide StoredUnit;
  }

  lemma NothingCached(codec: Codec, db: Database)
    ensures ContextsAgree(codec, db, map[]) && LocksAgree(codec, db, map[]) && UnitsAgree(codec, db, map[])
  {
  }

  /** Adding a record that is well keyed and stored. */
  lemma AddedContext(codec: Codec, db: Database, contexts: map<string, Context>, c: Context)
    ensures KeyedContexts(contexts) ==> KeyedContexts(contexts[c.id := c])
    ensures ContextsAgree(codec, db, contexts) && StoredContext(codec, db, c.id) == Some(Normal(c)) ==> ContextsAgree(codec, db, contexts[c.id := c])
    ensures SpellsOut(contexts) && c.meta != Some(map[]) ==> SpellsOut(contexts[c.id := c])
  {
    hide StoredContext;
  }

  lemma StoredUnitIsKeyed(codec: Codec, db: Database, id: string)
    requires WellKeyed(codec, db)
    ensures StoredUnit(codec, db, id).Some? ==> StoredUnit(codec, db, id).value.id == id
  {
  }

  /** Editing the cached copy in place breaks the agreement exactly when it changes the copy. */
  lemma EditedInPlace(codec: Codec, db: Database, contexts: map<string, Context>, copy: Context, edited: Context)
    requires copy.id in contexts && contexts[copy.id] == copy && copy.meta == None && edited.meta == None && edited.id == copy.id
    requires ContextsAgree(codec, db, contexts)
    ensures ContextsAgree(codec, db, contexts[copy.id := edited]) <==> edited == copy
  {
    hide StoredContext;
    assert StoredContext(codec, db, copy.id) == Some(copy);
    if edited == copy {
      assert contexts[copy.id := edited] == contexts;
    } else {
      assert contexts[copy.id := edited][copy.id] == edited;
    }
  }

  lemma StoredContextIsNormal(codec: Codec, db: Database, id: string)
    requires WellKeyed(codec, db)
    ensures StoredContext(codec, db, id).Some? ==>
      && StoredContext(codec, db, id).value.id == id
      && Normal(StoredContext(codec, db, id).value) == StoredContext(codec, db, id).value
      && StoredContext(codec, db, id).value.meta != Some(map[])
  {
  }

  lemma StoredLockIsKeyed(codec: Codec, db: Database, path: string)
    requires WellKeyed(codec, db)
    ensures StoredLock(codec, db, path).Some? ==> StoredLock(codec, db, path).value.path == path
  {
  }

  // ---------- what a write does to the stored records ----------

  lemma AfterContextWrite(codec: Codec, db: Database, contexts: map<string, Context>, locks: map<string, Lock>, units: map<string, WorkUnit>, c: Context)
    requires Faithful(codec) && WellKeyed(codec, db)
    requires LocksAgree(codec, db, locks) && UnitsAgree(codec, db, units)
    ensures var db1 := db[ContextKey(c.id) := Json(codec.encContext(c))];
      && WellKeyed(codec, db1) && LocksAgree(codec, db1, locks) && UnitsAgree(codec, db1, units)
      && (ContextsAgree(codec, db, contexts) ==> ContextsAgree(codec, db1, contexts[c.id := c]))
  {
    hide ContextKey, LockKey, UnitKey;
    var db1 := db[ContextKey(c.id) := Json(codec.encContext(c))];
    forall id ensures StoredContext(codec, db1, id) == if id == c.id then Some(Normal(c)) else StoredContext(codec, db, id) {
      ContextKeyInjective(id, c.id);
    }
    forall p ensures StoredLock(codec, db1, p) == StoredLock(codec, db, p) && StoredUnit(codec, db1, p) == StoredUnit(codec, db, p) {
      KindsApart(p, "", 0, p, c.id);
    }
  }

  lemma AfterUnitWrite(codec: Codec, db: Database, contexts: map<string, Context>, locks: map<string, Lock>, units: map<string, WorkUnit>, u: WorkUnit)
    requires Faithful(codec) && WellKeyed(codec, db)
    requires LocksAgree(codec, db, locks) && UnitsAgree(codec, db, units)
    ensures var db1 := db[UnitKey(u.id) := Json(codec.encUnit(u))][TimeKey(u.context, u.ts) := UnitId(u.id)];
      && WellKeyed(codec, db1) && LocksAgree(codec, db1, locks) && UnitsAgree(codec, db1, units[u.id := u])
      && (ContextsAgree(codec, db, contexts) ==> ContextsAgree(codec, db1, contexts))
  {
    hide ContextKey, LockKey, UnitKey, TimeKey;
    var db1 := db[UnitKey(u.id) := Json(codec.encUnit(u))][TimeKey(u.context, u.ts) := UnitId(u.id)];
    forall x ensures StoredContext(codec, db1, x) == StoredContext(codec, db, x) && StoredLock(codec, db1, x) == StoredLock(codec, db, x) {
      KindsApart(u.id, u.context, u.ts, x, x);
    }
    forall id ensures StoredUnit(codec, db1, id) == if id == u.id then Some(u) else StoredUnit(codec, db, id) {
      UnitKeyInjective(id, u.id);
      KindsApart(id, u.context, u.ts, "", "");
    }
  }

  lemma AfterLockWrite(codec: Codec, db: Database, contexts: map<string, Context>, locks: map<string, Lock>, units: map<string, WorkUnit>, l: Lock)
    requires Faithful(codec) && WellKeyed(codec, db)
    requires LocksAgree(codec, db, locks) && UnitsAgree(codec, db, units)
    ensures var db1 := db[LockKey(l.path) := Json(codec.encLock(l))];
      && WellKeyed(codec, db1) && LocksAgree(codec, db1, locks[l.path := l]) && UnitsAgree(codec, db1, units)
      && (ContextsAgree(codec, db, contexts) ==> ContextsAgree(codec, db1, contexts))
  {
    hide ContextKey, LockKey, UnitKey;
    var db1 := db[LockKey(l.path) := Json(codec.encLock(l))];
    forall id ensures StoredContext(codec, db1, id) == StoredContext(codec, db, id) && StoredUnit(codec, db1, id) == StoredUnit(codec, db, id) {
      KindsApart(id, "", 0, l.path, id);
    }
    forall p ensures StoredLock(codec, db1, p) == if p == l.path then Some(l) else StoredLock(codec, db, p) {
      LockKeyInjective(p, l.path);
    }
  }

  lemma AfterLockDelete(codec: Codec, db: Database, contexts: map<string, Context>, locks: map<string, Lock>, units: map<string, WorkUnit>, path: string)
    requires Faithful(codec) && WellKeyed(codec, db)
    requires LocksAgree(codec, db, locks) && UnitsAgree(codec, db, units)
    ensures var db1 := db - {LockKey(path)};
      && WellKeyed(codec, db1) && LocksAgree(codec, db1, locks - {path}) && UnitsAgree(codec, db1, units)
      && (ContextsAgree(codec, db, contexts) ==> ContextsAgree(codec, db1, contexts))
  {
    hide ContextKey, LockKey, UnitKey;
    var db1 := db - {LockKey(path)};
    forall id ensures StoredContext(codec, db1, id) == StoredContext(codec, db, id) && StoredUnit(codec, db1, id) == StoredUnit(codec, db, id) {
      KindsApart(id, "", 0, path, id);
    }
    forall p ensures StoredLock(codec, db1, p) == if p == path then None else StoredLock(codec, db, p) {
      LockKeyInjective(p, path);
    }
  }

  // ---------- updating a cached copy and updating the stored one ----------

  /** An update sees the cached copy instead of the stored one.  The outcome and the
      bytes stored are the same, except exactly when the cached copy has an empty
      but allocated metadata map and the request brings metadata: the cached engine
      then stores it, and the bare engine panics on a nil map. */
  lemma CacheShowsOnlyOnEmptyMap(codec: Codec, cached: Context, req: UpdateRequest, created: int, updated: int, newId: string)
    requires Faithful(codec)
    ensures var withCache := Updated(Some(cached), req, created, updated, newId);
      var without := Updated(Some(Normal(cached)), req, created, updated, newId);
      && (withCache.Stored? != without.Stored? <==> cached.meta == Some(map[]) && NewMeta(req) != map[])
      && (withCache.Stored? && without.Stored? ==>
            && Normal(withCache.context) == Normal(without.context)
            && ContextWrites(codec, withCache.context) == ContextWrites(codec, without.context))
  {
    var withCache := Updated(Some(cached), req, created, updated, newId);
    var without := Updated(Some(Normal(cached)), req, created, updated, newId);
    if withCache.Stored? && without.Stored? && cached.meta == Some(map[]) {
      assert map[] + NewMeta(req) == map[];
    }
  }

  // ---------- two runs that show the cache ----------

  function Asking(id: string, displayName: string, meta: Option<map<string, string>>): UpdateRequest {
    UpdateRequest(id, displayName, [], [], [], [], meta)
  }

  function NewContext(id: string, displayName: string, meta: Option<map<string, string>>, now: int): Context {
    Context(id, displayName, [], [], meta, now, now)
  }

  function TheCall(id: string, displayName: string, meta: Option<map<string, string>>, now: int): Call {
    UpdateContextCall(Asking(id, displayName, meta), now, now, "")
  }

  /** The bare engine after creating a context from nothing. */
  lemma Created(codec: Codec, id: string, displayName: string, meta: Option<map<string, string>>, now: int)
    requires Faithful(codec) && id != ""
    ensures var c, call := NewContext(id, displayName, meta, now), TheCall(id, displayName, meta, now);
      && Updated(StoredContext(codec, map[], id), call.req, now, now, "") == Stored(c)
      && Reference(codec, map[], call).1 == map[] + ContextWrites(codec, c)
      && StoredContext(codec, Reference(codec, map[], call).1, id) == Some(Normal(c))
      && StoredContext(codec, map[], id) == None
  {
  }

  /** The first context stored by an engine with an empty cache is cached. */
  lemma FirstCached(codec: Codec, capacity: nat, req: UpdateRequest, c: Context, after: map<string, Context>)
    requires capacity > 0 && StoredContext(codec, map[], req.id) == None
    requires UpdateCaches(codec, map[], true, capacity, map[], req, Stored(c), after)
    ensures after == map[c.id := c]
  {
    hide StoredContext;
    var none: map<string, Context> := map[];
    assert none[c.id := c] == map[c.id := c];
    assert |none[c.id := c]| == 1;
  }

  /** A panic on a cached copy leaves the edited copy cached. */
  lemma PanicLeaves(codec: Codec, db: Database, capacity: nat, req: UpdateRequest, c: Context, after: map<string, Context>)
    requires req.id == c.id && UpdateCaches(codec, db, true, capacity, map[c.id := c], req, Panicked, after)
    ensures after == map[c.id := EditedLists(c, req)]
  {
    hide StoredContext, EditedLists;
  }

  lemma SecondDb(codec: Codec, db: Database, calls: seq<Call>)
    requires |calls| >= 2
    ensures ReferenceDb(codec, db, calls[..1]) == Reference(codec, db, calls[0]).1
    ensures ReferenceDb(codec, db, calls[..2]) == Reference(codec, Reference(codec, db, calls[0]).1, calls[1]).1
  {
    hide Reference;
    RunStart(codec, db, calls);
    RunStep(codec, db, calls, 0);
    RunStep(codec, db, calls, 1);
  }

  const NEW_META: map<string, string> := map["k" := "v"]

  lemma GivenMetadata(id: string, now: int)
    ensures Updated(Some(NewContext(id, "", Some(map[]), now)), Asking(id, "", Some(NEW_META)), now, now, "")
         == Stored(NewContext(id, "", Some(NEW_META), now))
    ensures Updated(Some(NewContext(id, "", None, now)), Asking(id, "", Some(NEW_META)), now, now, "") == Panicked
  {
    assert "k" in NEW_META;
    assert map[] + NEW_META == NEW_META;
  }

  /** A context is created with an empty metadata map and then given metadata: the engine with
      a cache stores it, the engine without one panics. */
  method EmptyMapRun(s: Storage, id: string, now: int) returns (second: UpdateAnswer)
    requires s.Sound() && s.enabled && s.db == map[] && s.contexts == map[] && id != ""
    modifies s
    ensures var calls := [TheCall(id, "", Some(map[]), now), TheCall(id, "", Some(NEW_META), now)];
      && second == Stored(NewContext(id, "", Some(NEW_META), now))
      && ReferenceAnswer(s.codec, old(s.db), calls, 1) == Panic
  {
    hide UpdateCaches, ContextWrites, WellKeyed, KeyedContexts, LocksAgree, UnitsAgree, ContextsAgree, StoredContext, Faithful, Updated, Evicted;
    ghost var calls := [TheCall(id, "", Some(map[]), now), TheCall(id, "", Some(NEW_META), now)];
    Created(s.codec, id, "", Some(map[]), now);
    var first := s.UpdateContext(Asking(id, "", Some(map[])), now, now, "");
    FirstCached(s.codec, s.contextCap, calls[0].req, NewContext(id, "", Some(map[]), now), s.contexts);
    GivenMetadata(id, now);
    second := s.UpdateContext(Asking(id, "", Some(NEW_META)), now, now, "");
    SecondDb(s.codec, map[], calls);
  }

  /** A context is created, an update that renames it panics on its nil metadata map, and it is
      read: the engine with a cache answers the new name, which was never stored. */
  method PanicRun(s: Storage, id: string, now: int) returns (second: UpdateAnswer, third: Option<Context>)
    requires s.Sound() && s.enabled && s.db == map[] && s.contexts == map[] && id != ""
    modifies s
    ensures var calls := [TheCall(id, "old", None, now), TheCall(id, "new", Some(NEW_META), now), GetContextCall(id)];
      && second == Panicked && ReferenceAnswer(s.codec, old(s.db), calls, 1) == Panic
      && third == Some(NewContext(id, "new", None, now))
      && ReferenceAnswer(s.codec, old(s.db), calls, 2) == ContextIs(Some(NewContext(id, "old", None, now)))
  {
    hide UpdateCaches, ContextWrites, WellKeyed, KeyedContexts, LocksAgree, UnitsAgree, ContextsAgree, StoredContext, Faithful, Fetched;
    ghost var calls := [TheCall(id, "old", None, now), TheCall(id, "new", Some(NEW_META), now), GetContextCall(id)];
    ghost var c := NewContext(id, "old", None, now);
    Created(s.codec, id, "old", None, now);
    var first := s.UpdateContext(Asking(id, "old", None), now, now, "");
    FirstCached(s.codec, s.contextCap, calls[0].req, c, s.contexts);
    ghost var db := s.db;
    second := s.UpdateContext(Asking(id, "new", Some(NEW_META)), now, now, "");
    PanicLeaves(s.codec, db, s.contextCap, calls[1].req, c, s.contexts);
    third := s.GetContext(id);
    assert EditedLists(c, calls[1].req) == NewContext(id, "new", None, now);
    SecondDb(s.codec, map[], calls);
  }
}
