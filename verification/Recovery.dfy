/** Crash recovery: what replaying the log does to the database. */
module Recovery {
  import opened Bytes
  import opened Options
  import opened Records
  import opened ContextKeys
  import opened Wal

  // the entry types of the log
  const WAL_WORK_UNIT: Byte := 1
  const WAL_CONTEXT: Byte := 2
  const WAL_LOCK: Byte := 3

  // ---------- transactions ----------

  /** The writes of one `store*Internal` transaction. */
  function UnitWrites(codec: Codec, u: WorkUnit): Database {
    map[UnitKey(u.id) := Json(codec.encUnit(u))][TimeKey(u.context, u.ts) := UnitId(u.id)]
  }

  function ContextWrites(codec: Codec, c: Context): Database {
    map[ContextKey(c.id) := Json(codec.encContext(c))]
  }

  function LockWrites(codec: Codec, l: Lock): Database {
    map[LockKey(l.path) := Json(codec.encLock(l))]
  }

  /** What replaying one record writes; a record that does not decode, or has an
      unknown type, is skipped. */
  function Writes(codec: Codec, e: Entry): Database {
    if e.kind == WAL_WORK_UNIT then
      match codec.decUnit(e.data) case None => map[] case Some(u) => UnitWrites(codec, u)
    else if e.kind == WAL_CONTEXT then
      match codec.decContext(e.data) case None => map[] case Some(c) => ContextWrites(codec, c)
    else if e.kind == WAL_LOCK then
      match codec.decLock(e.data) case None => map[] case Some(l) => LockWrites(codec, l)
    else map[]
  }

  function ReplayOver(codec: Codec, db: Database, es: seq<Entry>): Database
    decreases |es|
  {
    if es == [] then db else ReplayOver(codec, db + Writes(codec, es[0]), es[1..])
  }

  /** The value of the last record that writes `k`, looking back from the end. */
  function LastLogged(codec: Codec, es: seq<Entry>, k: string): Option<Value> {
    if es == [] then None
    else
      var last := Writes(codec, es[|es| - 1]);
      if k in last then Some(last[k]) else LastLogged(codec, es[..|es| - 1], k)
  }

  /** The replay loop of `replayWAL` over the parsed records. */
  method ApplyLog(codec: Codec, db0: Database, es: seq<Entry>) returns (db: Database)
    ensures db == ReplayOver(codec, db0, es)
  {
    hide UnitKey, TimeKey, ContextKey, LockKey;
    db := db0;
    for i := 0 to |es|
      invariant ReplayOver(codec, db0, es) == ReplayOver(codec, db, es[i..])
    {
      var e := es[i];
      assert es[i..][0] == e && es[i..][1..] == es[i + 1..];
      ghost var before := db;
      if e.kind == WAL_WORK_UNIT {
        match codec.decUnit(e.data) {
          case None =>
          case Some(u) =>
            db := db[UnitKey(u.id) := Json(codec.encUnit(u))];
            db := db[TimeKey(u.context, u.ts) := UnitId(u.id)];
        }
      } else if e.kind == WAL_CONTEXT {
        match codec.decContext(e.data) {
          case None =>
          case Some(c) => db := db[ContextKey(c.id) := Json(codec.encContext(c))];
        }
      } else if e.kind == WAL_LOCK {
        match codec.decLock(e.data) {
          case None =>
          case Some(l) => db := db[LockKey(l.path) := Json(codec.encLock(l))];
        }
      }
      assert db == before + Writes(codec, e);
    }
  }

  lemma {:induction false} ReplaySnoc(codec: Codec, db: Database, es: seq<Entry>, e: Entry)
    ensures ReplayOver(codec, db, es + [e]) == ReplayOver(codec, db, es) + Writes(codec, e)
    decreases |es|
  {
    hide Writes;
    if es == [] {
      assert es + [e] == [e] && [e][1..] == [];
    } else {
      ReplaySnoc(codec, db + Writes(codec, es[0]), es[1..], e);
      assert (es + [e])[1..] == es[1..] + [e];
    }
  }

  /** Replaying a log over any database gives each key the log writes the value of
      its last record, and leaves every other key alone. */
  lemma {:induction false} LastWriteWins(codec: Codec, db: Database, es: seq<Entry>, k: string)
    ensures Lookup(ReplayOver(codec, db, es), k)
         == if LastLogged(codec, es, k).Some? then LastLogged(codec, es, k) else Lookup(db, k)
  {
    hide Writes;
    if es != [] {
      var n := |es| - 1;
      LastWriteWins(codec, db, es[..n], k);
      assert es == es[..n] + [es[n]];
      ReplaySnoc(codec, db, es[..n], es[n]);
    }
  }

  lemma {:induction false} ReplayConcat(codec: Codec, db: Database, a: seq<Entry>, b: seq<Entry>)
    ensures ReplayOver(codec, db, a + b) == ReplayOver(codec, ReplayOver(codec, db, a), b)
    decreases |a|
  {
    hide Writes;
    if a == [] {
      assert a + b == b;
    } else {
      ReplayConcat(codec, db + Writes(codec, a[0]), a[1..], b);
      assert (a + b)[0] == a[0] && (a + b)[1..] == a[1..] + b;
    }
  }

  /** A record of an unknown type, or one that does not decode as its type says, is skipped and
      the replay goes on. */
  lemma JunkIsSkipped(codec: Codec, db: Database, a: seq<Entry>, e: Entry, b: seq<Entry>)
    requires e.kind == 1 ==> codec.decUnit(e.data) == None
    requires e.kind == 2 ==> codec.decContext(e.data) == None
    requires e.kind == 3 ==> codec.decLock(e.data) == None
    ensures ReplayOver(codec, db, a + [e] + b) == ReplayOver(codec, db, a + b)
  {
    ReplaySnoc(codec, db, a, e);
    assert ReplayOver(codec, db, a) + map[] == ReplayOver(codec, db, a);
    hide ReplayOver;
    ReplayConcat(codec, db, a + [e], b);
    ReplayConcat(codec, db, a, b);
  }

  lemma SameLookups(a: Database, b: Database)
    requires forall k :: Lookup(a, k) == Lookup(b, k)
    ensures a == b
  {
    forall k ensures k in a <==> k in b {
      assert Lookup(a, k) == Lookup(b, k);
    }
    forall k | k in a ensures a[k] == b[k] {
      assert Lookup(a, k) == Lookup(b, k);
    }
  }

  /** A crash at any point of a replay is harmless: replaying the whole log again
      ends in the same database.  With `n == |es|`, a second replay changes nothing. */
  lemma ReplayAfterPartialReplay(codec: Codec, db: Database, es: seq<Entry>, n: nat)
    requires n <= |es|
    ensures ReplayOver(codec, ReplayOver(codec, db, es[..n]), es) == ReplayOver(codec, db, es)
  {
    hide Writes, ReplayOver;
    var mid := ReplayOver(codec, db, es[..n]);
    forall k ensures Lookup(ReplayOver(codec, mid, es), k) == Lookup(ReplayOver(codec, db, es), k) {
      LastWriteWins(codec, mid, es, k);
      LastWriteWins(codec, db, es, k);
      LastWriteWins(codec, db, es[..n], k);
      LoggedInPrefix(codec, es, n, k);
    }
    SameLookups(ReplayOver(codec, mid, es), ReplayOver(codec, db, es));
  }

  lemma {:induction false} LoggedInPrefix(codec: Codec, es: seq<Entry>, n: nat, k: string)
    requires n <= |es|
    ensures LastLogged(codec, es[..n], k).Some? ==> LastLogged(codec, es, k).Some?
  {
    hide Writes;
    if n < |es| {
      var m := |es| - 1;
      LoggedInPrefix(codec, es[..m], n, k);
      assert es[..m][..n] == es[..n];
    } else {
      assert es[..n] == es;
    }
  }

  // ---------- the live database ----------

  /** The committed transactions of a sequential run.  Releasing a lock deletes its
      key and is the only one that is not logged. */
  datatype Op =
    | StoreUnit(unit: WorkUnit, time: Int64)
    | StoreContext(context: Context, time: Int64)
    | StoreLock(lock: Lock, time: Int64)
    | ReleaseLock(path: string)

  function Commit(codec: Codec, db: Database, op: Op): Database {
    match op
    case StoreUnit(u, _) => db + UnitWrites(codec, u)
    case StoreContext(c, _) => db + ContextWrites(codec, c)
    case StoreLock(l, _) => db + LockWrites(codec, l)
    case ReleaseLock(p) => db - {LockKey(p)}
  }

  function LogOf(codec: Codec, op: Op): seq<Entry> {
    match op
    case StoreUnit(u, t) => [Entry(WAL_WORK_UNIT, t, codec.encUnit(u))]
    case StoreContext(c, t) => [Entry(WAL_CONTEXT, t, codec.encContext(c))]
    case StoreLock(l, t) => [Entry(WAL_LOCK, t, codec.encLock(l))]
    case ReleaseLock(_) => []
  }

  /** The database after a run from empty, and the log it submitted. */
  function Live(codec: Codec, ops: seq<Op>): Database {
    if ops == [] then map[] else Commit(codec, Live(codec, ops[..|ops| - 1]), ops[|ops| - 1])
  }

  function Log(codec: Codec, ops: seq<Op>): seq<Entry> {
    if ops == [] then [] else Log(codec, ops[..|ops| - 1]) + LogOf(codec, ops[|ops| - 1])
  }

  /** The last lock stored at `p`, and whether it was released afterwards. */
  datatype Fate = NeverStored | Held(lock: Lock) | Released(lock: Lock)

  function LockFate(ops: seq<Op>, p: string): Fate {
    if ops == [] then NeverStored
    else
      var before := LockFate(ops[..|ops| - 1], p);
      match ops[|ops| - 1]
      case StoreLock(l, _) => if l.path == p then Held(l) else before
      case ReleaseLock(q) => if q == p && before.Held? then Released(before.lock) else before
      case _ => before
  }

  /** A logged transaction replays to the same writes. */
  lemma ReplayRepeatsCommit(codec: Codec, db: Database, op: Op)
    requires Faithful(codec) && !op.ReleaseLock?
    ensures |LogOf(codec, op)| == 1 && db + Writes(codec, LogOf(codec, op)[0]) == Commit(codec, db, op)
  {
    match op
    case StoreUnit(u, t) =>
    case StoreContext(c, t) =>
      assert codec.decContext(codec.encContext(c)) == Some(Normal(c));
      assert ContextWrites(codec, Normal(c)) == ContextWrites(codec, c);
    case StoreLock(l, t) =>
  }

  function Rebuilt(codec: Codec, ops: seq<Op>): Database {
    ReplayOver(codec, map[], Log(codec, ops))
  }

  lemma RebuiltStep(codec: Codec, ops: seq<Op>)
    requires Faithful(codec) && ops != []
    ensures var op, before := ops[|ops| - 1], Rebuilt(codec, ops[..|ops| - 1]);
      Rebuilt(codec, ops) == if op.ReleaseLock? then before else Commit(codec, before, op)
  {
    hide Writes, ReplayOver;
    var op, before := ops[|ops| - 1], ops[..|ops| - 1];
    if op.ReleaseLock? {
      assert Log(codec, ops) == Log(codec, before);
    } else {
      ReplayRepeatsCommit(codec, Rebuilt(codec, before), op);
      var e := LogOf(codec, op)[0];
      assert LogOf(codec, op) == [e];
      ReplaySnoc(codec, map[], Log(codec, before), e);
    }
  }

  lemma {:induction false} RebuildsOtherKeys(codec: Codec, ops: seq<Op>, k: string)
    requires Faithful(codec) && !("lock:" <= k)
    ensures Lookup(Rebuilt(codec, ops), k) == Lookup(Live(codec, ops), k)
  {
    if ops != [] {
      RebuildsOtherKeys(codec, ops[..|ops| - 1], k);
      hide Faithful, ReplayOver, Rebuilt, TimeKey, UnitKey, ContextKey;
      RebuiltStep(codec, ops);
    }
  }

  /** What a lock's key holds in the live and in the rebuilt database. */
  ghost predicate LockOutcome(codec: Codec, fate: Fate, live: Option<Value>, rebuilt: Option<Value>) {
    match fate
    case NeverStored => live == None && rebuilt == None
    case Held(l) => live == rebuilt == Some(Json(codec.encLock(l)))
    case Released(l) => live == None && rebuilt == Some(Json(codec.encLock(l)))
  }

  lemma {:induction false} RebuildsLocks(codec: Codec, ops: seq<Op>, p: string)
    requires Faithful(codec)
    ensures LockOutcome(codec, LockFate(ops, p), Lookup(Live(codec, ops), LockKey(p)), Lookup(Rebuilt(codec, ops), LockKey(p)))
  {
    if ops != [] {
      var op := ops[|ops| - 1];
      RebuildsLocks(codec, ops[..|ops| - 1], p);
      RebuiltStep(codec, ops);
      hide Faithful, ReplayOver, Rebuilt, TimeKey, UnitKey, ContextKey, LockKey;
      match op {
        case StoreUnit(u, _) => KindsApart(u.id, u.context, u.ts, p, "");
        case StoreContext(c, _) => KindsApart("", "", 0, p, c.id);
        case StoreLock(l, _) => LockKeyInjective(l.path, p);
        case ReleaseLock(q) => LockKeyInjective(q, p);
      }
    }
  }

  /** Replaying the flushed log of a sequential run rebuilds the live database
      exactly, except that a lock released after its last store reappears, holding
      that last stored lock. */
  lemma RebuildsLiveDatabase(codec: Codec, ops: seq<Op>)
    requires Faithful(codec)
    ensures forall k :: !("lock:" <= k) ==> Lookup(Rebuilt(codec, ops), k) == Lookup(Live(codec, ops), k)
    ensures forall p :: LockOutcome(codec, LockFate(ops, p), Lookup(Live(codec, ops), LockKey(p)), Lookup(Rebuilt(codec, ops), LockKey(p)))
    ensures Rebuilt(codec, ops) == Live(codec, ops) <==> forall p :: !LockFate(ops, p).Released?
  {
    hide ReplayOver, Rebuilt, Live, LockFate;
    var live, rebuilt := Live(codec, ops), Rebuilt(codec, ops);
    forall k | !("lock:" <= k) ensures Lookup(rebuilt, k) == Lookup(live, k) {
      RebuildsOtherKeys(codec, ops, k);
    }
    forall p ensures LockOutcome(codec, LockFate(ops, p), Lookup(live, LockKey(p)), Lookup(rebuilt, LockKey(p))) {
      RebuildsLocks(codec, ops, p);
    }
    if forall p :: !LockFate(ops, p).Released? {
      forall k ensures Lookup(live, k) == Lookup(rebuilt, k) {
        if "lock:" <= k {
          assert k == LockKey(k[5..]);
          assert !LockFate(ops, k[5..]).Released?;
        }
      }
      SameLookups(live, rebuilt);
    } else {
      var p :| LockFate(ops, p).Released?;
      assert LockOutcome(codec, LockFate(ops, p), Lookup(live, LockKey(p)), Lookup(rebuilt, LockKey(p)));
    }
  }

  lemma {:induction false} WrittenKeysAreLogged(codec: Codec, ops: seq<Op>, k: string)
    requires Faithful(codec)
    ensures k in Live(codec, ops) ==> LastLogged(codec, Log(codec, ops), k).Some?
  {
    hide LastLogged, ReplayOver, Writes;
    LastWriteWins(codec, map[], Log(codec, ops), k);
    RebuildsLiveDatabase(codec, ops);
    if "lock:" <= k {
      assert k == LockKey(k[5..]);
      assert LockOutcome(codec, LockFate(ops, k[5..]), Lookup(Live(codec, ops), k), Lookup(Rebuilt(codec, ops), k));
    } else {
      assert Lookup(Rebuilt(codec, ops), k) == Lookup(Live(codec, ops), k);
    }
  }

  /** Recovery does not depend on how much of the run the database had kept: from
      the database of any earlier point of the run, the full log ends in the same place. */
  lemma RecoveryFromAnyPoint(codec: Codec, ops: seq<Op>, m: nat)
    requires Faithful(codec) && m <= |ops|
    ensures ReplayOver(codec, Live(codec, ops[..m]), Log(codec, ops)) == Rebuilt(codec, ops)
  {
    hide ReplayOver, LastLogged, Live, Writes, Log;
    var es, old0 := Log(codec, ops), Live(codec, ops[..m]);
    forall k ensures Lookup(ReplayOver(codec, old0, es), k) == Lookup(Rebuilt(codec, ops), k) {
      LastWriteWins(codec, old0, es, k);
      LastWriteWins(codec, map[], es, k);
      WrittenKeysAreLogged(codec, ops[..m], k);
      var n := LogPrefix(codec, ops, m);
      LoggedInPrefix(codec, es, n, k);
    }
    SameLookups(ReplayOver(codec, old0, es), Rebuilt(codec, ops));
  }

  lemma {:induction false} LogPrefix(codec: Codec, ops: seq<Op>, m: nat) returns (n: nat)
    requires m <= |ops|
    ensures n <= |Log(codec, ops)| && Log(codec, ops[..m]) == Log(codec, ops)[..n]
  {
    if m == |ops| {
      n := |Log(codec, ops)|;
      assert ops[..m] == ops;
    } else {
      n := LogPrefix(codec, ops[..|ops| - 1], m);
      assert ops[..|ops| - 1][..m] == ops[..m];
    }
  }

  lemma {:induction false} LogPrefixIsARun(codec: Codec, ops: seq<Op>, n: nat) returns (j: nat)
    requires n <= |Log(codec, ops)|
    ensures j <= |ops| && Log(codec, ops[..j]) == Log(codec, ops)[..n]
  {
    if n == |Log(codec, ops)| {
      j := |ops|;
      assert ops[..j] == ops;
    } else {
      var m := |ops| - 1;
      j := LogPrefixIsARun(codec, ops[..m], n);
      assert ops[..m][..j] == ops[..j];
    }
  }

  /** From bytes to database: cut the log file of a run at any byte, parse it and
      replay it, and the result is what some initial part of the run rebuilds. */
  lemma AnyCutRebuildsAPrefixOfTheRun(codec: Codec, ops: seq<Op>, cut: nat) returns (j: nat)
    requires Faithful(codec) && Fits(Log(codec, ops)) && cut <= |File(Log(codec, ops))|
    ensures j <= |ops|
    ensures ReplayOver(codec, map[], ParseFile(File(Log(codec, ops))[..cut]).applied) == Rebuilt(codec, ops[..j])
    ensures cut == |File(Log(codec, ops))| ==> Rebuilt(codec, ops[..j]) == Rebuilt(codec, ops)
  {
    hide ReplayOver, ParseFile, EncodeAll, Writes;
    var es := Log(codec, ops);
    var n := CrashSafety(es, cut);
    if cut < 4 {
      assert es[..0] == [];
    }
    j := LogPrefixIsARun(codec, ops, n);
    if cut == |File(es)| {
      RoundTripExactlyWhenFits(es);
      assert File(es)[..cut] == File(es);
    }
  }
}
