/** From storing units to listing them: what the pages of a context show after a run. */
module Listing {
  import opened Bytes
  import opened Options
  import opened Lex
  import opened Text
  import opened Kv
  import opened ContextKeys
  import opened Records
  import opened Wal
  import opened Recovery
  import opened StorageCache
  import opened Paging

  // ---------- what a run has stored ----------

  /** The id of the last unit stored in a context at a time. */
  function LastIdAt(ops: seq<Op>, context: string, t: Int64): Option<string> {
    if ops == [] then None
    else
      var op := ops[|ops| - 1];
      if op.StoreUnit? && op.unit.context == context && op.unit.ts == t then Some(op.unit.id)
      else LastIdAt(ops[..|ops| - 1], context, t)
  }

  /** The last unit stored with an id. */
  function LastUnit(ops: seq<Op>, id: string): Option<WorkUnit> {
    if ops == [] then None
    else
      var op := ops[|ops| - 1];
      if op.StoreUnit? && op.unit.id == id then Some(op.unit) else LastUnit(ops[..|ops| - 1], id)
  }

  ghost predicate ColonFreeRun(ops: seq<Op>) {
    forall i :: 0 <= i < |ops| && ops[i].StoreUnit? ==> ColonFree(ops[i].unit.context)
  }

  // ---------- the live database ----------

  lemma CommitTimeEntry(codec: Codec, db: Database, op: Op, context: string, t: Int64)
    ensures Lookup(Commit(codec, db, op), TimeKey(context, t))
         == if op.StoreUnit? && op.unit.context == context && op.unit.ts == t then Some(UnitId(op.unit.id)) else Lookup(db, TimeKey(context, t))
  {
    match op
    case StoreUnit(u, _) =>
      TimeKeyInjective(u.context, u.ts, context, t);
      KindsApart(u.id, context, t, "", "");
    case StoreContext(c, _) => KindsApart("", context, t, "", c.id);
    case StoreLock(l, _) => KindsApart("", context, t, l.path, "");
    case ReleaseLock(p) => KindsApart("", context, t, p, "");
  }

  /** A time index entry holds the id of the last unit stored in its context at its time. */
  lemma {:induction false} LiveTimeEntry(codec: Codec, ops: seq<Op>, context: string, t: Int64)
    ensures Lookup(Live(codec, ops), TimeKey(context, t))
         == match LastIdAt(ops, context, t) case None => None case Some(id) => Some(UnitId(id))
  {
    if ops != [] {
      var n := |ops| - 1;
      LiveTimeEntry(codec, ops[..n], context, t);
      CommitTimeEntry(codec, Live(codec, ops[..n]), ops[n], context, t);
      hide TimeKey, Commit;
    }
  }

  lemma CommitUnit(codec: Codec, db: Database, op: Op, id: string)
    ensures Lookup(Commit(codec, db, op), UnitKey(id))
         == if op.StoreUnit? && op.unit.id == id then Some(Json(codec.encUnit(op.unit))) else Lookup(db, UnitKey(id))
  {
    match op
    case StoreUnit(u, _) =>
      UnitKeyInjective(u.id, id);
      KindsApart(id, u.context, u.ts, "", "");
    case StoreContext(c, _) => KindsApart(id, "", 0, "", c.id);
    case StoreLock(l, _) => KindsApart(id, "", 0, l.path, "");
    case ReleaseLock(p) => KindsApart(id, "", 0, p, "");
  }

  /** The record of a unit is the last one stored with its id. */
  lemma {:induction false} LiveUnit(codec: Codec, ops: seq<Op>, id: string)
    requires Faithful(codec)
    ensures StoredUnit(codec, Live(codec, ops), id) == LastUnit(ops, id)
  {
    LiveUnitRecord(codec, ops, id);
  }

  lemma {:induction false} LiveUnitRecord(codec: Codec, ops: seq<Op>, id: string)
    ensures Lookup(Live(codec, ops), UnitKey(id))
         == match LastUnit(ops, id) case None => None case Some(u) => Some(Json(codec.encUnit(u)))
  {
    if ops != [] {
      var n := |ops| - 1;
      LiveUnitRecord(codec, ops[..n], id);
      CommitUnit(codec, Live(codec, ops[..n]), ops[n], id);
      hide UnitKey, Commit;
    }
  }

  /** The time index has no other keys. */
  lemma {:induction false} LiveTimeKeys(codec: Codec, ops: seq<Op>, key: string)
    requires ColonFreeRun(ops) && key in Live(codec, ops) && HasPrefix(key, "meta:")
    ensures IsTimeKey(key)
  {
    var n := |ops| - 1;
    var before, op := ops[..n], ops[n];
    if key in Live(codec, before) {
      LiveTimeKeys(codec, before, key);
    } else {
      match op
      case StoreUnit(u, _) => NoTimeKeys(u.id);
      case StoreContext(c, _) => NoTimeKeys(c.id);
      case StoreLock(l, _) => NoTimeKeys(l.path);
      case ReleaseLock(_) =>
    }
  }

  lemma NoTimeKeys(x: string)
    ensures !HasPrefix(UnitKey(x), "meta:") && !HasPrefix(ContextKey(x), "meta:") && !HasPrefix(LockKey(x), "meta:")
  {
    assert UnitKey(x)[0] == 'w' && ContextKey(x)[0] == 'c' && LockKey(x)[0] == 'l';
  }

  // ---------- the database as the iterator sees it ----------

  /** The bytes of a value. */
  function Raw(v: Value): string {
    match v
    case UnitId(id) => id
    case Json(b) => seq(|b|, i requires 0 <= i < |b| => b[i] as char)
  }

  ghost predicate Snapshot(db: Database, kv: seq<Pair<string>>) {
    Ordered(kv) && forall key :: Get(kv, key) == if key in db then Some(Raw(db[key])) else None
  }

  /** Every database has a snapshot: its keys in byte order. */
  method TakeSnapshot(db: Database) returns (kv: seq<Pair<string>>)
    ensures Snapshot(db, kv)
  {
    hide Ordered, Get, Put, Raw;
    kv := [];
    EmptyStore();
    var todo := db.Keys;
    while todo != {}
      invariant todo <= db.Keys && Ordered(kv)
      invariant forall key :: Get(kv, key) == if key in db && key !in todo then Some(Raw(db[key])) else None
      decreases |todo|
    {
      var k :| k in todo;
      PutOrdered(kv, k, Raw(db[k]));
      forall key ensures Get(Put(kv, k, Raw(db[k])), key) == if key == k then Some(Raw(db[k])) else Get(kv, key) {
        GetPut(kv, k, Raw(db[k]), key);
      }
      kv, todo := Put(kv, k, Raw(db[k])), todo - {k};
    }
  }

  lemma EmptyStore()
    ensures Ordered<string>([]) && forall key :: Get<string>([], key) == None
  {
  }

  lemma SnapshotMember(db: Database, kv: seq<Pair<string>>, e: Pair<string>)
    requires Snapshot(db, kv)
    ensures e in kv <==> e.key in db && e.value == Raw(db[e.key])
  {
    GetMembers(kv, e.key, e.value);
    assert Pair(e.key, e.value) == e;
  }

  lemma SnapshotIndexed(codec: Codec, ops: seq<Op>, kv: seq<Pair<string>>)
    requires ColonFreeRun(ops) && Snapshot(Live(codec, ops), kv)
    ensures Ordered(kv) && IndexedByTime(kv)
  {
    hide Raw, TimeKey, Less, Get;
    forall i | 0 <= i < |kv| && HasPrefix(kv[i].key, "meta:") ensures IsTimeKey(kv[i].key) {
      SnapshotMember(Live(codec, ops), kv, kv[i]);
      LiveTimeKeys(codec, ops, kv[i].key);
    }
  }

  // ---------- what a listing shows ----------

  /** The times at which the context has units, in the order of the index. */
  ghost predicate TimesOf(ops: seq<Op>, context: string, times: seq<Int64>) {
    && (forall t: Int64 :: t in times <==> LastIdAt(ops, context, t).Some?)
    && (forall i, j :: 0 <= i < j < |times| ==> ToUnsigned(times[i]) < ToUnsigned(times[j]))
  }

  /** The units found at those times: for each, the last one stored there, if the lookup has it. */
  function UnitsAt(ops: seq<Op>, context: string, times: seq<Int64>, lookup: string -> Option<WorkUnit>): seq<WorkUnit> {
    if times == [] then []
    else
      var rest := UnitsAt(ops, context, times[1..], lookup);
      match LastIdAt(ops, context, times[0])
      case None => rest
      case Some(id) => (match lookup(id) case None => rest case Some(u) => [u] + rest)
  }

  lemma TimesAscend(times: seq<Int64>)
    requires forall i, j :: 0 <= i < j < |times| ==> ToUnsigned(times[i]) < ToUnsigned(times[j])
    requires forall i :: 0 <= i < |times| ==> times[i] >= 0
    ensures forall i, j :: 0 <= i < j < |times| ==> times[i] < times[j]
  {
  }

  /** The time behind each entry of the context. */
  lemma EntryTimes(codec: Codec, ops: seq<Op>, kv: seq<Pair<string>>, context: string, i: nat) returns (t: Int64)
    requires ColonFreeRun(ops) && Snapshot(Live(codec, ops), kv) && ColonFree(context) && i < |Entries(kv, TimePrefix(context))|
    ensures var e := Entries(kv, TimePrefix(context))[i];
      e.key == TimeKey(context, t) && LastIdAt(ops, context, t) == Some(e.value)
  {
    hide TimeKey, TimePrefix, Live, LastIdAt, Entries;
    SnapshotIndexed(codec, ops, kv);
    t := EntryTime(kv, context, i);
    var es, prefix := Entries(kv, TimePrefix(context)), TimePrefix(context);
    assert es[i] in es;
    EntriesMembers(kv, prefix, es[i]);
    SnapshotMember(Live(codec, ops), kv, es[i]);
    LiveTimeEntry(codec, ops, context, t);
  }

  lemma AllEntryTimes(codec: Codec, ops: seq<Op>, kv: seq<Pair<string>>, context: string) returns (times: seq<Int64>)
    requires ColonFreeRun(ops) && Snapshot(Live(codec, ops), kv) && ColonFree(context)
    ensures var es := Entries(kv, TimePrefix(context));
      && |times| == |es|
      && forall i :: 0 <= i < |es| ==> es[i].key == TimeKey(context, times[i]) && LastIdAt(ops, context, times[i]) == Some(es[i].value)
  {
    hide TimeKey, TimePrefix, Entries, Snapshot, ColonFreeRun, LastIdAt, ColonFree;
    var es := Entries(kv, TimePrefix(context));
    times := [];
    while |times| < |es|
      invariant |times| <= |es|
      invariant forall i :: 0 <= i < |times| ==> es[i].key == TimeKey(context, times[i]) && LastIdAt(ops, context, times[i]) == Some(es[i].value)
    {
      var t := EntryTimes(codec, ops, kv, context, |times|);
      times := times + [t];
    }
  }

  /** The entries of a context, in index order, are those of exactly the times at which it has units. */
  lemma EntriesAreTimes(codec: Codec, ops: seq<Op>, kv: seq<Pair<string>>, context: string, times: seq<Int64>)
    requires ColonFreeRun(ops) && Snapshot(Live(codec, ops), kv) && ColonFree(context)
    requires var es := Entries(kv, TimePrefix(context));
      && |times| == |es|
      && forall i :: 0 <= i < |es| ==> es[i].key == TimeKey(context, times[i]) && LastIdAt(ops, context, times[i]) == Some(es[i].value)
    ensures TimesOf(ops, context, times)
  {
    hide TimePrefix, Entries, ColonFreeRun, LastIdAt, Live, Raw, Less, Get;
    var es := Entries(kv, TimePrefix(context));
    SnapshotIndexed(codec, ops, kv);
    EntriesOrdered(kv, TimePrefix(context));
    forall i, j | 0 <= i < j < |times| ensures ToUnsigned(times[i]) < ToUnsigned(times[j]) {
      hide BigEndian;
      LessSamePrefix(TimePrefix(context), BigEndian(ToUnsigned(times[i]), 8), BigEndian(ToUnsigned(times[j]), 8));
      TimeBytesOrder(times[i], times[j]);
    }
    forall t: Int64 | LastIdAt(ops, context, t).Some? ensures t in times {
      EntryOfTime(codec, ops, kv, context, t);
      var e := Pair(TimeKey(context, t), LastIdAt(ops, context, t).value);
      var k :| 0 <= k < |es| && es[k] == e;
      TimeKeyInjective(context, t, context, times[k]);
      assert times[k] == t;
    }
  }

  lemma EntryOfTime(codec: Codec, ops: seq<Op>, kv: seq<Pair<string>>, context: string, t: Int64)
    requires Snapshot(Live(codec, ops), kv) && ColonFree(context) && LastIdAt(ops, context, t).Some?
    ensures Pair(TimeKey(context, t), LastIdAt(ops, context, t).value) in Entries(kv, TimePrefix(context))
  {
    hide TimeKey, TimePrefix, Entries, Live, LastIdAt, Snapshot;
    var e := Pair(TimeKey(context, t), LastIdAt(ops, context, t).value);
    LiveTimeEntry(codec, ops, context, t);
    SnapshotMember(Live(codec, ops), kv, e);
    PrefixScanExact(context, context, t);
    EntriesMembers(kv, TimePrefix(context), e);
  }

  lemma {:induction false} ResolvedAreUnits(ops: seq<Op>, context: string, es: seq<Pair<string>>, times: seq<Int64>, lookup: string -> Option<WorkUnit>)
    requires |times| == |es| && forall i :: 0 <= i < |es| ==> LastIdAt(ops, context, times[i]) == Some(es[i].value)
    ensures Resolve(es, lookup) == UnitsAt(ops, context, times, lookup)
  {
    hide LastIdAt;
    if es != [] {
      ResolvedAreUnits(ops, context, es[1..], times[1..], lookup);
    }
  }

  /** What a listing of a context adds up to after a run: at each time at which the context has
      units, in index order, the last unit stored there, as far as the lookup has it. */
  lemma ListingAfterRun(codec: Codec, ops: seq<Op>, kv: seq<Pair<string>>, context: string, lookup: string -> Option<WorkUnit>)
    returns (times: seq<Int64>)
    requires ColonFreeRun(ops) && Snapshot(Live(codec, ops), kv) && ColonFree(context)
    ensures TimesOf(ops, context, times)
    ensures Resolve(Entries(kv, TimePrefix(context)), lookup) == UnitsAt(ops, context, times, lookup)
  {
    hide TimeKey, TimePrefix, Entries, Snapshot, ColonFreeRun, LastIdAt, ColonFree, TimesOf, Resolve, UnitsAt;
    times := AllEntryTimes(codec, ops, kv, context);
    EntriesAreTimes(codec, ops, kv, context, times);
    ResolvedAreUnits(ops, context, Entries(kv, TimePrefix(context)), times, lookup);
  }

  /** The engine's own lookup, which answers from the cached units. */
  function Cached(units: map<string, WorkUnit>): string -> Option<WorkUnit> {
    (id: string) => if id in units then Some(units[id]) else None
  }

  /** Fetching all pages of a context from the engine after a run. */
  method ListContext(codec: Codec, ghost ops: seq<Op>, db: Database, units: map<string, WorkUnit>, context: string, limit: nat, reverse: bool)
    returns (all: seq<WorkUnit>, ghost times: seq<Int64>)
    requires db == Live(codec, ops) && ColonFreeRun(ops) && ColonFree(context) && limit >= 1
    ensures TimesOf(ops, context, times)
    ensures var listed := UnitsAt(ops, context, times, Cached(units)); all == if reverse then Reversed(listed) else listed
  {
    hide Snapshot, Live, ColonFreeRun, ColonFree, TimesOf, UnitsAt, Resolve, Entries, TimePrefix, Reversed, Ordered, IndexedByTime;
    var kv := TakeSnapshot(db);
    SnapshotIndexed(codec, ops, kv);
    times := ListingAfterRun(codec, ops, kv, context, Cached(units));
    var pages;
    all, pages := FetchAll(kv, Cached(units), context, limit, reverse);
  }

  /** The run that stores some units. */
  function Storing(us: seq<WorkUnit>): seq<Op> {
    if us == [] then [] else Storing(us[..|us| - 1]) + [StoreUnit(us[|us| - 1], 0)]
  }

  /** The engine itself: store units from an empty database, then list a context. */
  method StoreAndList(s: Storage, us: seq<WorkUnit>, context: string, limit: nat, reverse: bool)
    returns (all: seq<WorkUnit>, ghost times: seq<Int64>)
    requires s.Sound() && s.db == map[] && ColonFreeRun(Storing(us)) && ColonFree(context) && limit >= 1
    modifies s
    ensures s.Sound() && UnitsAgree(s.codec, Live(s.codec, Storing(us)), s.units)
    ensures TimesOf(Storing(us), context, times)
    ensures var listed := UnitsAt(Storing(us), context, times, Cached(s.units)); all == if reverse then Reversed(listed) else listed
  {
    hide Faithful, WellKeyed, LocksAgree, UnitsAgree, KeyedContexts, UnitWrites, Evicted, ColonFreeRun, ColonFree, TimesOf, UnitsAt, Reversed;
    for i := 0 to |us|
      invariant s.Sound() && s.db == Live(s.codec, Storing(us[..i]))
    {
      ghost var before := Storing(us[..i]);
      assert us[..i + 1][..i] == us[..i] && us[..i + 1][i] == us[i];
      assert Storing(us[..i + 1]) == before + [StoreUnit(us[i], 0)];
      LiveSnoc(s.codec, before, StoreUnit(us[i], 0));
      s.StoreWorkUnitInternal(us[i]);
    }
    assert us[..|us|] == us;
    all, times := ListContext(s.codec, Storing(us), s.db, s.units, context, limit, reverse);
  }

  lemma LiveSnoc(codec: Codec, ops: seq<Op>, op: Op)
    ensures Live(codec, ops + [op]) == Commit(codec, Live(codec, ops), op)
  {
    assert (ops + [op])[..|ops|] == ops;
  }

  // ---------- units with fresh ids ----------

  ghost predicate FreshUnits(ops: seq<Op>) {
    forall i, j :: 0 <= i < j < |ops| && ops[i].StoreUnit? && ops[j].StoreUnit? ==> ops[i].unit.id != ops[j].unit.id
  }

  lemma {:induction false} LastIdOrigin(ops: seq<Op>, context: string, t: Int64) returns (i: nat)
    requires LastIdAt(ops, context, t).Some?
    ensures i < |ops| && ops[i].StoreUnit? && ops[i].unit.context == context && ops[i].unit.ts == t
    ensures ops[i].unit.id == LastIdAt(ops, context, t).value
  {
    var n := |ops| - 1;
    if ops[n].StoreUnit? && ops[n].unit.context == context && ops[n].unit.ts == t {
      i := n;
    } else {
      i := LastIdOrigin(ops[..n], context, t);
    }
  }

  lemma {:induction false} LastUnitOrigin(ops: seq<Op>, id: string) returns (i: nat)
    requires LastUnit(ops, id).Some?
    ensures i < |ops| && ops[i].StoreUnit? && ops[i].unit.id == id && ops[i].unit == LastUnit(ops, id).value
  {
    var n := |ops| - 1;
    if ops[n].StoreUnit? && ops[n].unit.id == id {
      i := n;
    } else {
      i := LastUnitOrigin(ops[..n], id);
    }
  }

  /** With fresh ids and a coherent cache, what is listed at a time of a context is the very unit
      that was stored with that context and time. */
  lemma ListsOwnUnits(codec: Codec, ops: seq<Op>, units: map<string, WorkUnit>, context: string, t: Int64)
    requires Faithful(codec) && FreshUnits(ops) && UnitsAgree(codec, Live(codec, ops), units)
    requires LastIdAt(ops, context, t).Some? && LastIdAt(ops, context, t).value in units
    ensures var u := units[LastIdAt(ops, context, t).value]; u.context == context && u.ts == t && u.id == LastIdAt(ops, context, t).value
  {
    hide Live, StoredUnit, LastIdAt, LastUnit;
    var id := LastIdAt(ops, context, t).value;
    LiveUnit(codec, ops, id);
    assert LastUnit(ops, id) == Some(units[id]);
    var i := LastIdOrigin(ops, context, t);
    var j := LastUnitOrigin(ops, id);
    assert i == j;
  }

  /** Every stored unit shows in its context's listing, unless a later unit of that context has
      the very same time. */
  lemma {:induction false} StoredIsListed(ops: seq<Op>, i: nat)
    requires i < |ops| && ops[i].StoreUnit?
    requires forall j :: i < j < |ops| && ops[j].StoreUnit? ==> ops[j].unit.context != ops[i].unit.context || ops[j].unit.ts != ops[i].unit.ts
    ensures LastIdAt(ops, ops[i].unit.context, ops[i].unit.ts) == Some(ops[i].unit.id)
  {
    var n := |ops| - 1;
    if i < n {
      StoredIsListed(ops[..n], i);
    }
  }
}
