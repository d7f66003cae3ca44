/** The enhanced lock manager: TTL locks with takeover, a per-agent index with a
    limit, asynchronous persistence with rollback, and two-phase cleanup. */
module EnhancedLocks {

  type Path = string
  type Agent = string

  datatype Config = Config(defaultTtl: int, maxLocks: int, maxRetries: int)

  /** A handle in the table.  Ids stand for fresh UUIDs. */
  datatype Handle = Handle(id: nat, agent: Agent, expiry: int)

  /** The two maps guarded by the manager's mutex. */
  datatype Table = Table(locks: map<Path, Handle>, index: map<Agent, set<Path>>)

  /** What the cleanup's read scan remembers of one expired lock. */
  datatype Seen = Seen(path: Path, agent: Agent, id: nat)

  datatype AcquireAnswer = Acquired(handle: Handle) | LimitReached | Contended(holder: Handle)
  datatype ReleaseAnswer = NoLock | ReleaseWrongAgent | ReleaseWrongId | Released
  datatype ExtendAnswer = NotFound | ExtendWrongAgent | ExtendWrongId | Expired | Extended(extended: Handle)

  // ---------- the critical sections, as functions ----------

  function AddToIndex(index: map<Agent, set<Path>>, agent: Agent, path: Path): map<Agent, set<Path>> {
    index[agent := (if agent in index then index[agent] else {}) + {path}]
  }

  /** Remove a path from an agent's set, and the set itself once it is empty. */
  function DropFromIndex(index: map<Agent, set<Path>>, agent: Agent, path: Path): map<Agent, set<Path>> {
    if agent !in index then index
    else if index[agent] - {path} == {} then index - {agent}
    else index[agent := index[agent] - {path}]
  }

  function EffectiveTtl(cfg: Config, ttl: int): int {
    if ttl == 0 then cfg.defaultTtl else ttl
  }

  predicate AtLimit(cfg: Config, t: Table, agent: Agent) {
    cfg.maxLocks > 0 && agent in t.index && |t.index[agent]| >= cfg.maxLocks
  }

  /** Whether the table refuses or extends rather than creating a new lock. */
  predicate Live(t: Table, path: Path, time: int) {
    path in t.locks && t.locks[path].expiry > time
  }

  function TryAcquire(cfg: Config, t: Table, path: Path, agent: Agent, ttl: int, checkTime: int, setTime: int, newId: nat): (Table, AcquireAnswer) {
    var expiry := setTime + EffectiveTtl(cfg, ttl);
    if AtLimit(cfg, t, agent) then (t, LimitReached)
    else if Live(t, path, checkTime) then
      if t.locks[path].agent == agent then
        var h := t.locks[path].(expiry := expiry);
        (t.(locks := t.locks[path := h]), Acquired(h))
      else (t, Contended(t.locks[path]))
    else
      var h := Handle(newId, agent, expiry);
      (Table(t.locks[path := h], AddToIndex(t.index, agent, path)), Acquired(h))
  }

  function Remove(t: Table, path: Path, agent: Agent): Table {
    Table(t.locks - {path}, DropFromIndex(t.index, agent, path))
  }

  function Release(t: Table, path: Path, agent: Agent, id: nat): (Table, ReleaseAnswer) {
    if path !in t.locks then (t, NoLock)
    else if t.locks[path].agent != agent then (t, ReleaseWrongAgent)
    else if t.locks[path].id != id then (t, ReleaseWrongId)
    else (Remove(t, path, agent), Released)
  }

  function Extend(t: Table, path: Path, agent: Agent, id: nat, checkTime: int, setTime: int, extension: int): (Table, ExtendAnswer) {
    if path !in t.locks then (t, NotFound)
    else if t.locks[path].agent != agent then (t, ExtendWrongAgent)
    else if t.locks[path].id != id then (t, ExtendWrongId)
    else if t.locks[path].expiry < checkTime then (t, Expired)
    else
      var h := t.locks[path].(expiry := setTime + extension);
      (t.(locks := t.locks[path := h]), Extended(h))
  }

  /** The rollback of the persistence goroutine after its last failed attempt. */
  function Rollback(t: Table, path: Path, agent: Agent, id: nat): Table {
    if path in t.locks && t.locks[path].id == id then Remove(t, path, agent) else t
  }

  /** One path of the cleanup's write pass, with its double check. */
  function SweepOne(t: Table, cutoff: int, x: Seen): Table {
    if x.path in t.locks && t.locks[x.path].expiry < cutoff then Remove(t, x.path, x.agent) else t
  }

  function Sweep(t: Table, cutoff: int, seen: seq<Seen>): Table
    decreases |seen|
  {
    if seen == [] then t else Sweep(SweepOne(t, cutoff, seen[0]), cutoff, seen[1..])
  }

  /** `seen` lists exactly the locks that expired before `cutoff`, in some order. */
  ghost predicate ScanOf(locks: map<Path, Handle>, cutoff: int, seen: seq<Seen>) {
    && (forall i :: 0 <= i < |seen| ==>
          var x := seen[i]; x.path in locks && locks[x.path].expiry < cutoff && locks[x.path].id == x.id && locks[x.path].agent == x.agent)
    && (forall p :: p in locks && locks[p].expiry < cutoff ==> Seen(p, locks[p].agent, locks[p].id) in seen)
  }

  // ---------- the manager ----------

  class LockManager {
    const cfg: Config
    var locks: map<Path, Handle>
    var agentLocks: map<Agent, set<Path>>

    constructor (cfg: Config)
      ensures this.cfg == cfg && Contents() == Table(map[], map[])
    {
      this.cfg, locks, agentLocks := cfg, map[], map[];
    }

    ghost function Contents(): Table
      reads this
    {
      Table(locks, agentLocks)
    }

    method TryAcquireLock(path: Path, agent: Agent, ttl0: int, checkTime: int, setTime: int, newId: nat) returns (r: AcquireAnswer)
      modifies this
      ensures (Contents(), r) == TryAcquire(cfg, old(Contents()), path, agent, ttl0, checkTime, setTime, newId)
    {
      var ttl := ttl0;
      if ttl == 0 {
        ttl := cfg.defaultTtl;
      }
      if cfg.maxLocks > 0 && agent in agentLocks && |agentLocks[agent]| >= cfg.maxLocks {
        return LimitReached;
      }
      if path in locks {
        if locks[path].expiry > checkTime {
          if locks[path].agent == agent {
            locks := locks[path := locks[path].(expiry := setTime + ttl)];
            return Acquired(locks[path]);
          }
          return Contended(locks[path]);
        }
      }
      locks := locks[path := Handle(newId, agent, setTime + ttl)];
      if agent !in agentLocks {
        agentLocks := agentLocks[agent := {}];
      }
      agentLocks := agentLocks[agent := agentLocks[agent] + {path}];
      assert agentLocks == AddToIndex(old(agentLocks), agent, path);
      return Acquired(locks[path]);
    }

    method RemoveFromIndex(agent: Agent, path: Path)
      modifies this`agentLocks
      ensures agentLocks == DropFromIndex(old(agentLocks), agent, path)
    {
      if agent in agentLocks {
        agentLocks := agentLocks[agent := agentLocks[agent] - {path}];
        if |agentLocks[agent]| == 0 {
          agentLocks := agentLocks - {agent};
        }
      }
    }

    method ReleaseLock(path: Path, agent: Agent, id: nat) returns (r: ReleaseAnswer)
      modifies this
      ensures (Contents(), r) == Release(old(Contents()), path, agent, id)
    {
      if path !in locks {
        return NoLock;
      }
      if locks[path].agent != agent {
        return ReleaseWrongAgent;
      }
      if locks[path].id != id {
        return ReleaseWrongId;
      }
      locks := locks - {path};
      RemoveFromIndex(agent, path);
      return Released;
    }

    method ExtendLock(path: Path, agent: Agent, id: nat, checkTime: int, setTime: int, extension: int) returns (r: ExtendAnswer)
      modifies this
      ensures (Contents(), r) == Extend(old(Contents()), path, agent, id, checkTime, setTime, extension)
    {
      if path !in locks {
        return NotFound;
      }
      if locks[path].agent != agent {
        return ExtendWrongAgent;
      }
      if locks[path].id != id {
        return ExtendWrongId;
      }
      if locks[path].expiry < checkTime {
        return Expired;
      }
      locks := locks[path := locks[path].(expiry := setTime + extension)];
      return Extended(locks[path]);
    }

    method RollbackLock(path: Path, agent: Agent, id: nat)
      modifies this
      ensures Contents() == Rollback(old(Contents()), path, agent, id)
    {
      if path in locks && locks[path].id == id {
        locks := locks - {path};
        RemoveFromIndex(agent, path);
      }
    }

    /** The read scan of `performCleanup`, in whatever order the map iterates. */
    method CleanupScan(cutoff: int) returns (seen: seq<Seen>)
      ensures ScanOf(locks, cutoff, seen)
    {
      seen := [];
      var todo := locks.Keys;
      while todo != {}
        invariant todo <= locks.Keys
        invariant forall i :: 0 <= i < |seen| ==>
          var x := seen[i]; x.path in locks && locks[x.path].expiry < cutoff && locks[x.path].id == x.id && locks[x.path].agent == x.agent
        invariant forall p :: p in locks && locks[p].expiry < cutoff ==> p in todo || Seen(p, locks[p].agent, locks[p].id) in seen
        decreases |todo|
      {
        var p :| p in todo;
        if locks[p].expiry < cutoff {
          seen := seen + [Seen(p, locks[p].agent, locks[p].id)];
        }
        todo := todo - {p};
      }
    }

    /** The write pass of `performCleanup`. */
    method CleanupSweep(cutoff: int, seen: seq<Seen>)
      modifies this
      ensures Contents() == Sweep(old(Contents()), cutoff, seen)
    {
      for i := 0 to |seen|
        invariant Sweep(old(Contents()), cutoff, seen) == Sweep(Contents(), cutoff, seen[i..])
      {
        assert seen[i..][0] == seen[i] && seen[i..][1..] == seen[i + 1..];
        var path := seen[i].path;
        if path in locks && locks[path].expiry < cutoff {
          RemoveFromIndex(seen[i].agent, path);
          locks := locks - {path};
        }
      }
    }
  }

  /** The persistence goroutine's retry loop: at most `maxRetries + 1` attempts, and
      it gives up exactly when every one of them fails. */
  method PersistWithRetries(maxRetries: int, accepts: nat -> bool) returns (success: bool, attempts: nat)
    ensures attempts <= if maxRetries < 0 then 0 else maxRetries + 1
    ensures success <==> exists k: nat :: k <= maxRetries && accepts(k)
    ensures !success ==> attempts == if maxRetries < 0 then 0 else maxRetries + 1
    ensures success ==> attempts >= 1 && accepts(attempts - 1) && forall k: nat :: k < attempts - 1 ==> !accepts(k)
  {
    success, attempts := false, 0;
    while attempts <= maxRetries
      invariant attempts <= if maxRetries < 0 then 0 else maxRetries + 1
      invariant forall k: nat :: k < attempts ==> !accepts(k)
      decreases maxRetries + 1 - attempts
    {
      attempts := attempts + 1;
      if accepts(attempts - 1) {
        success := true;
        return;
      }
    }
  }
}
