/** The search backend: after any history of indexing it answers like a plain filter, newest first. */
module SearchBackend {
  import opened Lex
  import opened Text
  import opened Options
  import opened Kv
  import opened SearchWords
  import opened SearchKeys
  import opened SearchIndex
  import opened SearchQuery
  import opened SearchStages

  // ---------- the answer a search should give ----------

  ghost predicate Passes(lower: string -> string, units: set<Unit>, q: Request, u: Unit) {
    && (q.query == "" || TextMatch(lower, units, q.query, u))
    && (q.context == "" || u.context == q.context)
    && (q.agents == [] || u.agent in q.agents)
    && (q.kinds == [] || u.kind in q.kinds)
    && (forall k :: k in q.meta ==> k in u.meta && u.meta[k] == q.meta[k])
  }

  ghost function Matched(lower: string -> string, units: set<Unit>, q: Request): set<Unit> {
    set u | u in units && Passes(lower, units, q, u)
  }

  /** The units of a set, each once, newest first. */
  ghost predicate NewestFirst(order: seq<Unit>, units: set<Unit>) {
    && (forall u :: u in order <==> u in units)
    && (forall i, j :: 0 <= i < j < |order| ==> order[i] != order[j])
    && (forall i, j :: 0 <= i < j < |order| ==> order[i].ts >= order[j].ts)
  }

  datatype Outcome = Answered(ids: seq<string>, total: nat, found: seq<Unit>) | Panicked

  function Slice<T>(s: seq<T>, offset: int, n: int): seq<T> {
    if offset < 0 || n < 0 || offset >= |s| then [] else if offset + n > |s| then s[offset..] else s[offset..offset + n]
  }

  function PageSize(limit: int): (n: int)
    ensures n >= 1
  {
    if limit <= 0 then 10 else limit
  }

  function Ids(us: seq<Unit>): (r: seq<string>)
    ensures |r| == |us| && forall i :: 0 <= i < |us| ==> r[i] == us[i].id
  {
    if us == [] then [] else [us[0].id] + Ids(us[1..])
  }

  /** One page of an order; a negative offset into a non-empty answer is out of range. */
  function Page(order: seq<Unit>, q: Request): Outcome {
    if order != [] && q.offset < 0 then Panicked
    else
      var page := Slice(order, q.offset, PageSize(q.limit));
      Answered(Ids(page), |order|, if q.full then page else [])
  }

  lemma PassesAll(lower: string -> string, units: set<Unit>, q: Request, u: Unit)
    ensures (forall f :: f in ALL && Wanted(f, q) ==> Accepts(lower, units, f, q, u)) <==> Passes(lower, units, q, u)
  {
    hide TextMatch;
    if forall f :: f in ALL && Wanted(f, q) ==> Accepts(lower, units, f, q, u) {
      assert ByText in ALL && ByContext in ALL && ByAgent in ALL && ByKind in ALL && ByMeta in ALL;
      assert Wanted(ByText, q) ==> Accepts(lower, units, ByText, q, u);
      assert Wanted(ByContext, q) ==> Accepts(lower, units, ByContext, q, u);
      assert Wanted(ByAgent, q) ==> Accepts(lower, units, ByAgent, q, u);
      assert Wanted(ByKind, q) ==> Accepts(lower, units, ByKind, q, u);
      assert Wanted(ByMeta, q) ==> Accepts(lower, units, ByMeta, q, u);
    }
  }

  // ---------- sorting by time ----------

  datatype Stamped = Stamped(id: string, ts: int)

  ghost predicate Descending(s: seq<Stamped>) {
    forall i, j :: 0 <= i < j < |s| ==> s[i].ts >= s[j].ts
  }

  method Exchange(a: array<Stamped>, i: nat, j: nat)
    requires i < j < a.Length
    modifies a
    ensures a[i] == old(a[j]) && a[j] == old(a[i]) && forall k :: 0 <= k < a.Length && k != i && k != j ==> a[k] == old(a[k])
    ensures multiset(a[..]) == multiset(old(a[..]))
  {
    a[i], a[j] := a[j], a[i];
  }

  /** The elements before `i` are in their places: descending and at least as new as the rest. */
  ghost predicate Placed(s: seq<Stamped>, i: nat) {
    forall p, q :: 0 <= p < i && p < q < |s| ==> s[p].ts >= s[q].ts
  }

  /** The exchange sort. */
  method SortByTimestampDesc(a: array<Stamped>)
    modifies a
    ensures Descending(a[..])
    ensures multiset(a[..]) == multiset(old(a[..]))
  {
    for i := 0 to a.Length
      invariant Placed(a[..], i) && multiset(a[..]) == multiset(old(a[..]))
    {
      PlaceNewest(a, i);
    }
  }

  /** The inner loop: the newest of the rest comes to position `i`. */
  method PlaceNewest(a: array<Stamped>, i: nat)
    requires i < a.Length && Placed(a[..], i)
    modifies a
    ensures Placed(a[..], i + 1)
    ensures multiset(a[..]) == multiset(old(a[..]))
  {
    for j := i + 1 to a.Length
      invariant Placed(a[..], i) && forall q :: i < q < j ==> a[i].ts >= a[q].ts
      invariant multiset(a[..]) == multiset(old(a[..]))
    {
      if a[i].ts < a[j].ts {
        Exchange(a, i, j);
      }
    }
  }

  lemma {:induction false} DistinctOnce(s: seq<Stamped>, x: Stamped)
    requires forall i, j :: 0 <= i < j < |s| ==> s[i] != s[j]
    ensures multiset(s)[x] <= 1
  {
    if s != [] {
      var n := |s| - 1;
      DistinctOnce(s[..n], x);
      assert s == s[..n] + [s[n]];
      if x == s[n] {
        assert x !in s[..n];
      }
    }
  }

  lemma TwiceCounts(s: seq<Stamped>, i: nat, j: nat)
    requires i < j < |s| && s[i] == s[j]
    ensures multiset(s)[s[i]] >= 2
  {
    assert s == s[..j] + [s[j]] + s[j + 1..];
    assert s[i] in s[..j];
  }

  /** A permutation of pairs with different ids has different ids. */
  lemma PermutationKeepsIds(a: seq<Stamped>, b: seq<Stamped>)
    requires multiset(a) == multiset(b)
    requires forall i, j :: 0 <= i < j < |a| ==> a[i].id != a[j].id
    ensures |a| == |b|
    ensures forall i, j :: 0 <= i < j < |b| ==> b[i].id != b[j].id
    ensures forall x :: x in a <==> x in b
  {
    assert |multiset(a)| == |a| && |multiset(b)| == |b|;
    forall x ensures x in a <==> x in b {
      assert x in a <==> x in multiset(a);
      assert x in b <==> x in multiset(b);
    }
    forall i, j | 0 <= i < j < |b| ensures b[i].id != b[j].id {
      assert b[i] in a && b[j] in a;
      if b[i].id == b[j].id {
        var p :| 0 <= p < |a| && a[p] == b[i];
        var r :| 0 <= r < |a| && a[r] == b[j];
        TwiceCounts(b, i, j);
        DistinctOnce(a, b[i]);
      }
    }
  }

  // ---------- finding the time of a unit ----------

  ghost predicate StampFor(db: seq<Pair<string>>, id: string, key: string) {
    Get(db, key).Some? && HasPrefix(key, "ts:") && HasSuffix(key, ":" + id) && |Split(key)| >= 3
  }

  function StampIn(key: string): nat {
    var parts := Split(key);
    if |parts| >= 3 then ParseDigits(parts[2]) else 0
  }

  /** The latest time among the time stamp keys that end in the id. */
  ghost predicate IsLatest(db: seq<Pair<string>>, id: string, ts: int) {
    && ts >= 0
    && (forall key :: StampFor(db, id, key) ==> StampIn(key) <= ts)
    && (ts == 0 || exists key :: StampFor(db, id, key) && StampIn(key) == ts)
  }

  method LatestStamp(db: seq<Pair<string>>, id: string) returns (latest: nat)
    requires Ordered(db)
    ensures IsLatest(db, id, latest)
  {
    hide Ordered, Get, Split, ParseDigits;
    var keys := ScanKeys(db, "ts:");
    latest := 0;
    for i := 0 to |keys|
      invariant forall j :: 0 <= j < i && StampFor(db, id, keys[j]) ==> StampIn(keys[j]) <= latest
      invariant latest == 0 || exists j :: 0 <= j < i && StampFor(db, id, keys[j]) && StampIn(keys[j]) == latest
    {
      assert keys[i] in keys;
      if HasSuffix(keys[i], ":" + id) {
        var parts := Split(keys[i]);
        if |parts| >= 3 {
          assert StampFor(db, id, keys[i]);
          var ts := ParseDigits(parts[2]);
          if ts > latest {
            latest := ts;
          }
        }
      }
    }
    forall key | StampFor(db, id, key) ensures StampIn(key) <= latest {
      assert key in keys;
    }
  }

  lemma LatestIsTime(lower: string -> string, enc: Unit -> string, units: set<Unit>, db: seq<Pair<string>>, u: Unit, ts: int)
    requires Indexed(lower, enc, units, db) && Clean(units) && u in units && IsLatest(db, u.id, ts)
    ensures ts == u.ts
  {
    hide Indexed, StampKey, StampFor, StampIn, KeyOfSome;
    var own := StampKey(u.context, u.ts, u.id);
    assert KeyOfSome(lower, units, own) by {
      HasStampKey(lower, units, u);
    }
    IndexedKeys(lower, enc, units, db, own);
    OwnStamp(db, u);
    forall key | StampFor(db, u.id, key) ensures StampIn(key) == u.ts {
      StampOwner(lower, enc, units, db, u, key);
    }
  }

  lemma HasStampKey(lower: string -> string, units: set<Unit>, u: Unit)
    requires u in units
    ensures KeyOfSome(lower, units, StampKey(u.context, u.ts, u.id))
  {
    hide StampKey, UnitKey, FieldKeyOf;
    assert KeyOf(lower, u, StampKey(u.context, u.ts, u.id));
  }

  lemma OwnStamp(db: seq<Pair<string>>, u: Unit)
    requires CleanUnit(u) && Get(db, StampKey(u.context, u.ts, u.id)).Some?
    ensures var key := StampKey(u.context, u.ts, u.id); StampFor(db, u.id, key) && StampIn(key) == u.ts
  {
    hide StampKey, Split, Get, ParseDigits;
    StampKeyReadsBack(u.context, u.ts, u.id, u.id);
    UnitAndStampKeysApart(u.id, u.context, u.ts, Context, "");
  }

  lemma StampOwner(lower: string -> string, enc: Unit -> string, units: set<Unit>, db: seq<Pair<string>>, u: Unit, key: string)
    requires Indexed(lower, enc, units, db) && Clean(units) && u in units && StampFor(db, u.id, key)
    ensures StampIn(key) == u.ts
  {
    hide Indexed, StampKey, Split, Get, ParseDigits, UnitKey, HasSuffix, FieldKey, Carries;
    IndexedKeys(lower, enc, units, db, key);
    var v :| v in units && KeyOf(lower, v, key);
    UnitAndStampKeysApart(v.id, v.context, v.ts, Context, "");
    if FieldKeyOf(lower, v, key) {
      var f, x :| Carries(lower, v, f, x) && key == FieldKey(f, x, v.id);
      FieldKeyNotStamp(f, x, v.id);
    }
    assert key == StampKey(v.context, v.ts, v.id);
    assert CleanUnit(v) && CleanUnit(u);
    StampKeyReadsBack(v.context, v.ts, v.id, u.id);
  }

  lemma FieldKeyNotStamp(f: Field, x: string, id: string)
    ensures !HasPrefix(FieldKey(f, x, id), "ts:")
  {
    FieldKeyStart(f, x, id);
  }

  // ---------- the matched ids in order ----------

  /** The ids with their times, newest first; equal times in any order. */
  method OrderIds(db: seq<Pair<string>>, m: set<string>) returns (pairs: seq<Stamped>)
    requires Ordered(db)
    ensures |pairs| == |m|
    ensures forall i, j :: 0 <= i < j < |pairs| ==> pairs[i].id != pairs[j].id
    ensures forall id :: id in m <==> exists i :: 0 <= i < |pairs| && pairs[i].id == id
    ensures forall i :: 0 <= i < |pairs| ==> IsLatest(db, pairs[i].id, pairs[i].ts)
    ensures Descending(pairs)
  {
    hide Ordered, IsLatest;
    var ids := Listed(m);
    var a := new Stamped[|ids|](i => Stamped("", 0));
    for i := 0 to |ids|
      invariant forall j :: 0 <= j < i ==> a[j].id == ids[j] && IsLatest(db, a[j].id, a[j].ts)
    {
      var ts := LatestStamp(db, ids[i]);
      a[i] := Stamped(ids[i], ts);
    }
    ghost var before := a[..];
    SortByTimestampDesc(a);
    pairs := a[..];
    PermutationKeepsIds(before, pairs);
    forall i | 0 <= i < |pairs| ensures IsLatest(db, pairs[i].id, pairs[i].ts) && pairs[i].id in m {
      assert pairs[i] in before;
      var j :| 0 <= j < |before| && before[j] == pairs[i];
      assert ids[j] in ids;
    }
    forall id | id in m ensures exists i :: 0 <= i < |pairs| && pairs[i].id == id {
      var j :| 0 <= j < |ids| && ids[j] == id;
      assert before[j] in pairs;
    }
  }

  ghost function UnitOf(units: set<Unit>, id: string): (u: Unit)
    requires KnownId(units, id)
    ensures u in units && u.id == id
  {
    var u :| u in units && u.id == id;
    u
  }

  /** The pairs of the matched ids name the matched units, newest first. */
  lemma PairsAreUnits(lower: string -> string, enc: Unit -> string, units: set<Unit>, db: seq<Pair<string>>, q: Request, m: set<string>, pairs: seq<Stamped>)
    returns (order: seq<Unit>)
    requires Indexed(lower, enc, units, db) && Clean(units)
    requires forall id :: id in m <==> PassesId(lower, units, ALL, q, id)
    requires forall i, j :: 0 <= i < j < |pairs| ==> pairs[i].id != pairs[j].id
    requires forall id :: id in m <==> exists i :: 0 <= i < |pairs| && pairs[i].id == id
    requires forall i :: 0 <= i < |pairs| ==> IsLatest(db, pairs[i].id, pairs[i].ts)
    requires Descending(pairs)
    ensures NewestFirst(order, Matched(lower, units, q))
    ensures |order| == |pairs| && forall i :: 0 <= i < |pairs| ==> order[i].id == pairs[i].id && order[i] in units
  {
    hide Indexed, IsLatest, Passes, Accepts, Wanted, CleanUnit;
    assert forall i :: 0 <= i < |pairs| ==> pairs[i].id in m && KnownId(units, pairs[i].id);
    order := seq(|pairs|, i requires 0 <= i < |pairs| => UnitOf(units, pairs[i].id));
    forall i | 0 <= i < |pairs| ensures order[i].ts == pairs[i].ts && order[i] in Matched(lower, units, q) {
      LatestIsTime(lower, enc, units, db, order[i], pairs[i].ts);
      var u :| u in units && u.id == pairs[i].id && forall f :: f in ALL && Wanted(f, q) ==> Accepts(lower, units, f, q, u);
      assert u == order[i];
      PassesAll(lower, units, q, u);
    }
    forall u | u in Matched(lower, units, q) ensures u in order {
      PassesAll(lower, units, q, u);
      assert PassesId(lower, units, ALL, q, u.id);
      var i :| 0 <= i < |pairs| && pairs[i].id == u.id;
      assert order[i] == u;
    }
  }

  // ---------- the backend ----------

  /** An order has one place for each unit. */
  lemma {:induction false} OrderSize(order: seq<Unit>, units: set<Unit>)
    requires NewestFirst(order, units)
    ensures |order| == |units|
  {
    if order == [] {
      assert units == {};
    } else {
      var n := |order| - 1;
      var x, rest := order[n], order[..n];
      assert x in order;
      forall u ensures u in rest <==> u in units - {x} {
        assert order == rest + [x];
      }
      OrderSize(rest, units - {x});
    }
  }

  lemma WholePage(order: seq<Unit>, q: Request, start: nat, end: nat, ids: seq<string>)
    requires q.offset == start < |order| && end == if start + PageSize(q.limit) > |order| then |order| else start + PageSize(q.limit)
    requires |ids| == end - start && forall i :: 0 <= i < |ids| ==> ids[i] == order[start + i].id
    ensures Page(order, q) == Answered(ids, |order|, if q.full then order[start..end] else [])
  {
    assert order[start..end] == Slice(order, start, PageSize(q.limit));
    assert Ids(order[start..end]) == ids;
  }

  datatype Codec = Codec(enc: Unit -> string, dec: string -> Option<Unit>)

  ghost predicate Faithful(c: Codec) {
    forall u: Unit :: c.dec(c.enc(u)) == Some(u)
  }

  class Backend {
    const lower: string -> string
    const codec: Codec
    var db: seq<Pair<string>>
    ghost var units: set<Unit>

    ghost predicate Valid()
      reads this
    {
      Indexed(lower, codec.enc, units, db) && Faithful(codec)
    }

    constructor (lower: string -> string, codec: Codec)
      requires Faithful(codec)
      ensures Valid() && units == {} && this.lower == lower && this.codec == codec
    {
      this.lower, this.codec, db, units := lower, codec, [], {};
    }

    /** Whatever the batches, the index is that of the set of units indexed so far. */
    method IndexBatch(batch: seq<Unit>)
      requires Valid()
      modifies this
      ensures Valid() && units == old(units) + set u | u in batch && u.id != ""
    {
      hide Indexed, Get, KeyOf, Written, Faithful;
      for i := 0 to |batch|
        invariant Valid() && units == old(units) + set u | u in batch[..i] && u.id != ""
      {
        assert batch[..i + 1] == batch[..i] + [batch[i]];
        if batch[i].id != "" {
          IndexedOrdered(lower, codec.enc, units, db);
          var after := IndexUnit(db, batch[i], lower, codec.enc);
          IndexOneMore(lower, codec.enc, units, db, batch[i], after);
          db, units := after, units + {batch[i]};
        }
      }
      assert batch[..|batch|] == batch;
    }

    /** One page of the matching units, newest first. */
    method Search(q: Request) returns (r: Outcome)
      requires Valid()
      ensures Clean(units) ==> exists order :: NewestFirst(order, Matched(lower, units, q)) && r == Page(order, q)
      ensures Clean(units) ==>
        if q.offset < 0 && Matched(lower, units, q) != {} then r == Panicked else r.Answered? && r.total == |Matched(lower, units, q)|
    {
      hide Indexed, Clean, NewestFirst, Matched, PassesId, Faithful, IsLatest, Descending, Ids;
      var limit := q.limit;
      if limit <= 0 {
        limit := 10;
      }
      var m, total := MatchedIds(lower, codec.enc, units, db, q);
      IndexedOrdered(lower, codec.enc, units, db);
      var pairs := OrderIds(db, m);
      ghost var order: seq<Unit> := [];
      if Clean(units) {
        order := PairsAreUnits(lower, codec.enc, units, db, q, m, pairs);
        OrderSize(order, Matched(lower, units, q));
      }
      r := Answered([], total, []);
      if |m| > 0 {
        var start, end := q.offset, q.offset + limit;
        if start >= |pairs| {
          return;
        }
        if end > |pairs| {
          end := |pairs|;
        }
        if start < 0 {
          return Panicked;
        }
        var ids, found := ReadPage(pairs, start, end, q.full, order);
        r := Answered(ids, total, found);
        ghost var clean := Clean(units);
        if clean {
          WholePage(order, q, start, end, ids);
        }
      }
    }

    /** The ids of a page and, when asked for, the stored units. */
    method ReadPage(pairs: seq<Stamped>, start: nat, end: nat, full: bool, ghost order: seq<Unit>) returns (ids: seq<string>, found: seq<Unit>)
      requires Valid() && start <= end <= |pairs|
      requires Clean(units) ==> |order| == |pairs| && forall i :: 0 <= i < |pairs| ==> order[i].id == pairs[i].id && order[i] in units
      ensures |ids| == end - start && forall i :: 0 <= i < |ids| ==> ids[i] == pairs[start + i].id
      ensures Clean(units) ==> found == if full then order[start..end] else []
    {
      hide Indexed, Clean, Get, UnitKey;
      ids, found := [], [];
      for i := start to end
        invariant |ids| == i - start && forall j :: 0 <= j < |ids| ==> ids[j] == pairs[start + j].id
        invariant Clean(units) ==> found == if full then order[start..i] else []
      {
        ids := ids + [pairs[i].id];
        if full {
          var data := Get(db, UnitKey(pairs[i].id));
          ghost var clean := Clean(units);
          if clean {
            StoredExact(lower, codec.enc, units, db, order[i]);
            assert order[start..i + 1] == order[start..i] + [order[i]];
          }
          if data.Some? {
            var unit := codec.dec(data.value);
            if unit.Some? {
              found := found + [unit.value];
            }
          }
        }
      }
    }
  }

  /** Under its own key the index holds the unit itself. */
  lemma StoredExact(lower: string -> string, enc: Unit -> string, units: set<Unit>, db: seq<Pair<string>>, u: Unit)
    requires Indexed(lower, enc, units, db) && Clean(units) && u in units
    ensures Get(db, UnitKey(u.id)) == Some(enc(u))
  {
    hide Get, UnitKey, KeyOfSome, CleanUnit;
    assert StoredUnder(enc, units, db, u.id);
  }
}
