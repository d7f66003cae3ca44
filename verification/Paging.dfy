/** Cursor pagination over the context-time index (`ListWorkUnits`). */
module Paging {
  import opened Bytes
  import opened Lex
  import opened Text
  import opened Kv
  import opened Options
  import opened Seqs
  import opened ContextKeys

  // ---------- what the pages should add up to ----------

  /** The units that the lookup resolves, in order. */
  function Resolve<U>(entries: seq<Pair<string>>, lookup: string -> Option<U>): seq<U> {
    if entries == [] then []
    else (if lookup(entries[0].value).Some? then [lookup(entries[0].value).value] else []) + Resolve(entries[1..], lookup)
  }

  function StartKey(prefix: string, cursor: string, reverse: bool): string {
    if cursor != "" then cursor else FirstKey(prefix, reverse)
  }

  // ---------- one page ----------

  /** The collection loop from position `pos`: units taken, and where it stops. */
  function Scan<U>(v: seq<Pair<string>>, prefix: string, lookup: string -> Option<U>, pos: nat, limit: nat, reverse: bool): (r: (seq<U>, nat))
    requires pos <= |v|
    ensures pos <= r.1 <= |v| && |r.0| <= limit
    ensures r.0 != [] ==> pos < r.1
    decreases |v| - pos
  {
    if pos == |v| || limit == 0 then ([], pos)
    else if !HasPrefix(v[pos].key, prefix) then
      if reverse then Scan(v, prefix, lookup, pos + 1, limit, reverse) else ([], pos)
    else
      match lookup(v[pos].value)
      case None => Scan(v, prefix, lookup, pos + 1, limit, reverse)
      case Some(u) =>
        var rest := Scan(v, prefix, lookup, pos + 1, limit - 1, reverse);
        ([u] + rest.0, rest.1)
  }

  /** Whether the page ended because it was full with an entry left to visit. */
  predicate More<U>(v: seq<Pair<string>>, prefix: string, limit: nat, page: (seq<U>, nat)) {
    |page.0| >= limit && page.1 < |v| && HasPrefix(v[page.1].key, prefix)
  }

  /** `ListWorkUnits`, for any cursor a caller may send. */
  method ListWorkUnits<U>(db: seq<Pair<string>>, lookup: string -> Option<U>, context: string, limit: nat, cursor: string, reverse: bool)
    returns (units: seq<U>, next: string)
    ensures var v := View(db, reverse);
      var page := Scan(v, TimePrefix(context), lookup, Seek(v, StartKey(TimePrefix(context), cursor, reverse), reverse), limit, reverse);
      && units == page.0
      && next == if More(v, TimePrefix(context), limit, page) then v[page.1].key else ""
  {
    hide View, Seek, TimePrefix, StartKey, Scan;
    var v := View(db, reverse);
    var prefix := TimePrefix(context);
    var it := Seek(v, StartKey(prefix, cursor, reverse), reverse);
    ghost var page := Scan(v, prefix, lookup, it, limit, reverse);
    units := [];
    var count := 0;
    while it < |v| && count < limit
      invariant 0 <= it <= |v| && count == |units| <= limit
      invariant page.0 == units + Scan(v, prefix, lookup, it, limit - count, reverse).0
      invariant page.1 == Scan(v, prefix, lookup, it, limit - count, reverse).1
      decreases |v| - it
    {
      ScanUnfold(v, prefix, lookup, it, limit - count, reverse);
      if !HasPrefix(v[it].key, prefix) {
        if reverse {
          it := it + 1;
          continue;
        } else {
          break;
        }
      }
      var unit := lookup(v[it].value);
      if unit.Some? {
        AppendFirst(units, unit.value, Scan(v, prefix, lookup, it + 1, limit - count - 1, reverse).0);
        units := units + [unit.value];
        count := count + 1;
      }
      it := it + 1;
    }
    ScanUnfold(v, prefix, lookup, it, limit - count, reverse);
    assert page.0 == units && page.1 == it;
    if count >= limit && it < |v| && HasPrefix(v[it].key, prefix) {
      next := v[it].key;
    } else {
      next := "";
    }
  }

  lemma ScanUnfold<U>(v: seq<Pair<string>>, prefix: string, lookup: string -> Option<U>, pos: nat, limit: nat, reverse: bool)
    requires pos <= |v|
    ensures pos == |v| || limit == 0 ==> Scan(v, prefix, lookup, pos, limit, reverse) == ([], pos)
    ensures pos < |v| && limit > 0 ==>
      Scan(v, prefix, lookup, pos, limit, reverse)
      == if !HasPrefix(v[pos].key, prefix) then (if reverse then Scan(v, prefix, lookup, pos + 1, limit, reverse) else ([], pos))
         else if lookup(v[pos].value).None? then Scan(v, prefix, lookup, pos + 1, limit, reverse)
         else var rest := Scan(v, prefix, lookup, pos + 1, limit - 1, reverse); ([lookup(v[pos].value).value] + rest.0, rest.1)
  {
  }

  lemma AppendFirst<U>(a: seq<U>, x: U, b: seq<U>)
    ensures a + ([x] + b) == (a + [x]) + b
  {
  }

  // ---------- a page is a slice of the answer ----------

  /** The answer still to come from position `pos`. */
  function Rest<U>(v: seq<Pair<string>>, prefix: string, lookup: string -> Option<U>, pos: nat): seq<U>
    requires pos <= |v|
  {
    Resolve(Entries(v[pos..], prefix), lookup)
  }

  lemma RestStep<U>(v: seq<Pair<string>>, prefix: string, lookup: string -> Option<U>, pos: nat)
    requires pos < |v|
    ensures Rest(v, prefix, lookup, pos)
         == (if HasPrefix(v[pos].key, prefix) && lookup(v[pos].value).Some? then [lookup(v[pos].value).value] else [])
            + Rest(v, prefix, lookup, pos + 1)
  {
    assert v[pos..][0] == v[pos] && v[pos..][1..] == v[pos + 1..];
    var es := Entries(v[pos + 1..], prefix);
    if HasPrefix(v[pos].key, prefix) {
      assert ([v[pos]] + es)[1..] == es;
    } else {
      assert [] + es == es;
    }
  }

  /** A page is the front of the answer still to come; when it reports no next
      cursor, nothing is left, and when it does, the cursor's entry is next. */
  lemma {:induction false} PageIsASlice<U>(v: seq<Pair<string>>, prefix: string, lookup: string -> Option<U>, pos: nat, limit: nat, reverse: bool)
    requires AtEntries(v, prefix, pos) && Contiguous(v, prefix)
    ensures var page := Scan(v, prefix, lookup, pos, limit, reverse);
      && Rest(v, prefix, lookup, pos) == page.0 + Rest(v, prefix, lookup, page.1)
      && (!More(v, prefix, limit, page) ==> Rest(v, prefix, lookup, page.1) == [])
    decreases |v| - pos
  {
    hide Rest;
    if pos == |v| || limit == 0 || NoneFrom(v, prefix, pos) {
      ScanNothing(v, prefix, lookup, pos, limit, reverse);
    } else {
      RestStep(v, prefix, lookup, pos);
      AfterEntry(v, prefix, pos);
      var taken := if lookup(v[pos].value).Some? then 1 else 0;
      PageIsASlice(v, prefix, lookup, pos + 1, limit - taken, reverse);
    }
  }

  lemma AfterEntry(v: seq<Pair<string>>, prefix: string, pos: nat)
    requires pos < |v| && HasPrefix(v[pos].key, prefix) && Contiguous(v, prefix)
    ensures AtEntries(v, prefix, pos + 1)
  {
  }

  lemma {:induction false} ScanNothing<U>(v: seq<Pair<string>>, prefix: string, lookup: string -> Option<U>, pos: nat, limit: nat, reverse: bool)
    requires AtEntries(v, prefix, pos) && (limit == 0 || NoneFrom(v, prefix, pos))
    ensures var page := Scan(v, prefix, lookup, pos, limit, reverse);
      && page.0 == [] && Rest(v, prefix, lookup, pos) == Rest(v, prefix, lookup, page.1)
      && (!More(v, prefix, limit, page) ==> Rest(v, prefix, lookup, page.1) == [])
    decreases |v| - pos
  {
    if NoneFrom(v, prefix, pos) {
      NoEntriesFrom(v, prefix, pos);
      if pos < |v| && limit > 0 && reverse {
        ScanNothing(v, prefix, lookup, pos + 1, limit, reverse);
        NoEntriesFrom(v, prefix, pos + 1);
      }
    }
  }

  // ---------- following the cursors ----------

  /** Every key of the time index was made by `TimeKey` from a colon-free context. */
  ghost predicate IndexedByTime(db: seq<Pair<string>>) {
    forall i :: 0 <= i < |db| && HasPrefix(db[i].key, "meta:") ==> IsTimeKey(db[i].key)
  }

  ghost predicate IsTimeKey(key: string) {
    exists c, t: Int64 :: ColonFree(c) && key == TimeKey(c, t)
  }

  /** Following the next cursors from "" ends, and the pages laid end to end are
      exactly the context's entries that resolve, once each, in store order; in
      reverse mode they are exactly the reverse. */
  method FetchAll<U>(db: seq<Pair<string>>, lookup: string -> Option<U>, context: string, limit: nat, reverse: bool)
    returns (all: seq<U>, pages: seq<seq<U>>)
    requires Ordered(db) && IndexedByTime(db) && ColonFree(context)
    requires limit >= 1
    ensures var answer := Resolve(Entries(db, TimePrefix(context)), lookup);
      all == if reverse then Reversed(answer) else answer
    ensures forall i :: 0 <= i < |pages| ==> |pages[i]| <= limit
    ensures forall i :: 0 <= i < |pages| - 1 ==> |pages[i]| == limit
  {
    hide Rest, Scan, Seek, TimePrefix, View, Entries, Resolve, Contiguous, InOrder, AtEntries, More, StartKey;
    var prefix := TimePrefix(context);
    ghost var v := View(db, reverse);
    ghost var answer := Rest(v, prefix, lookup, 0);
    PagingFacts(db, context, reverse);
    ghost var pos := Seek(v, StartKey(prefix, "", reverse), reverse);
    SkipToStart(v, prefix, lookup, pos);
    var cursor := "";
    all, pages := [], [];
    var done := false;
    while !done
      invariant pos <= |v|
      invariant !done ==> AtEntries(v, prefix, pos) && Seek(v, StartKey(prefix, cursor, reverse), reverse) == pos
      invariant answer == all + (if done then [] else Rest(v, prefix, lookup, pos))
      invariant forall i :: 0 <= i < |pages| ==> |pages[i]| <= limit
      invariant forall i :: 0 <= i < (if done then |pages| - 1 else |pages|) ==> |pages[i]| == limit
      decreases if done then 0 else 1, |v| - pos
    {
      var units, next := ListWorkUnits(db, lookup, context, limit, cursor, reverse);
      ghost var page := PageStep(v, context, lookup, pos, limit, reverse);
      Associative(all, units, if next == "" then [] else Rest(v, prefix, lookup, page.1));
      all, pages := all + units, pages + [units];
      pos, cursor, done := page.1, next, next == "";
    }
    WholeAnswer(db, prefix, lookup, reverse);
  }

  /** What one page tells the caller that follows its cursor. */
  lemma PageStep<U>(v: seq<Pair<string>>, context: string, lookup: string -> Option<U>, pos: nat, limit: nat, reverse: bool)
    returns (page: (seq<U>, nat))
    requires var prefix := TimePrefix(context);
      limit >= 1 && AtEntries(v, prefix, pos) && Contiguous(v, prefix) && InOrder(v, reverse)
    ensures var prefix := TimePrefix(context);
      && page == Scan(v, prefix, lookup, pos, limit, reverse)
      && pos <= page.1 <= |v| && |page.0| <= limit
      && Rest(v, prefix, lookup, pos) == page.0 + (if More(v, prefix, limit, page) then Rest(v, prefix, lookup, page.1) else [])
      && (More(v, prefix, limit, page) ==>
            && |page.0| == limit && pos < page.1 < |v| && AtEntries(v, prefix, page.1)
            && v[page.1].key != ""
            && Seek(v, StartKey(prefix, v[page.1].key, reverse), reverse) == page.1)
  {
    hide Rest, Scan, Seek, TimePrefix, Contiguous, InOrder;
    var prefix := TimePrefix(context);
    page := Scan(v, prefix, lookup, pos, limit, reverse);
    PageIsASlice(v, prefix, lookup, pos, limit, reverse);
    if More(v, prefix, limit, page) {
      PrefixNonEmpty(context, v[page.1].key);
      SeekKey(v, page.1, reverse);
    }
  }

  lemma PrefixNonEmpty(context: string, key: string)
    requires HasPrefix(key, TimePrefix(context))
    ensures key != ""
  {
  }

  lemma PagingFacts(db: seq<Pair<string>>, context: string, reverse: bool)
    requires Ordered(db) && IndexedByTime(db) && ColonFree(context)
    ensures var v, prefix := View(db, reverse), TimePrefix(context);
      && InOrder(v, reverse) && Contiguous(v, prefix)
      && var pos := Seek(v, StartKey(prefix, "", reverse), reverse);
         AtEntries(v, prefix, pos) && forall i :: 0 <= i < pos ==> !HasPrefix(v[i].key, prefix)
  {
    hide TimePrefix;
    var v, prefix := View(db, reverse), TimePrefix(context);
    ViewInOrder(db, reverse);
    OrderedIsContiguous(v, prefix, reverse);
    forall i | 0 <= i < |v| && HasPrefix(v[i].key, prefix) ensures Leq(v[i].key, prefix + AllOnes()) {
      var j := if reverse then |db| - 1 - i else i;
      assert v[i] == db[j];
      EntryBounded(db[j].key, context);
    }
    SeekStart(v, prefix, reverse);
  }

  lemma EntryBounded(key: string, context: string)
    requires HasPrefix(key, TimePrefix(context)) && ColonFree(context)
    requires HasPrefix(key, "meta:") ==> IsTimeKey(key)
    ensures Leq(key, TimePrefix(context) + AllOnes())
  {
    hide BigEndian, Less;
    assert key[..5] == TimePrefix(context)[..5] == "meta:";
    var c, t: Int64 :| ColonFree(c) && key == TimeKey(c, t);
    PrefixScanExact(context, c, t);
    BigEndianAtMostAllOnes(ToUnsigned(t), 8);
    LessSamePrefix(TimePrefix(c), BigEndian(ToUnsigned(t), 8), AllOnes());
  }

  lemma {:induction false} SkipToStart<U>(v: seq<Pair<string>>, prefix: string, lookup: string -> Option<U>, pos: nat)
    requires pos <= |v| && forall i :: 0 <= i < pos ==> !HasPrefix(v[i].key, prefix)
    ensures Rest(v, prefix, lookup, 0) == Rest(v, prefix, lookup, pos)
  {
    if pos > 0 {
      SkipToStart(v, prefix, lookup, pos - 1);
      RestStep(v, prefix, lookup, pos - 1);
    }
  }

  // ---------- filtering commutes with reversal ----------

  lemma {:induction false} ResolveConcat<U>(a: seq<Pair<string>>, b: seq<Pair<string>>, lookup: string -> Option<U>)
    ensures Resolve(a + b, lookup) == Resolve(a, lookup) + Resolve(b, lookup)
  {
    if a == [] {
      assert a + b == b;
    } else {
      ResolveConcat(a[1..], b, lookup);
      assert (a + b)[1..] == a[1..] + b && (a + b)[0] == a[0];
      var first := if lookup(a[0].value).Some? then [lookup(a[0].value).value] else [];
      Associative(first, Resolve(a[1..], lookup), Resolve(b, lookup));
    }
  }

  lemma {:induction false} ResolveReversed<U>(es: seq<Pair<string>>, lookup: string -> Option<U>)
    ensures Resolve(Reversed(es), lookup) == Reversed(Resolve(es, lookup))
  {
    if es != [] {
      ResolveReversed(es[1..], lookup);
      ResolveConcat(Reversed(es[1..]), [es[0]], lookup);
      var one := if lookup(es[0].value).Some? then [lookup(es[0].value).value] else [];
      assert Resolve([es[0]], lookup) == one by {
        assert [es[0]][1..] == [];
      }
      if one != [] {
        assert (one + Resolve(es[1..], lookup))[1..] == Resolve(es[1..], lookup);
      } else {
        assert Resolve(es, lookup) == Resolve(es[1..], lookup);
      }
    }
  }

  lemma WholeAnswer<U>(db: seq<Pair<string>>, prefix: string, lookup: string -> Option<U>, reverse: bool)
    ensures Rest(View(db, reverse), prefix, lookup, 0)
         == (var answer := Resolve(Entries(db, prefix), lookup); if reverse then Reversed(answer) else answer)
  {
    assert View(db, reverse)[0..] == View(db, reverse);
    if reverse {
      EntriesReversed(db, prefix);
      ResolveReversed(Entries(db, prefix), lookup);
    }
  }

  // ---------- the answer is the context's units in time order ----------

  /** The entries listed for a context are that context's own, in ascending time
      when no time is before the epoch. */
  lemma EntriesInTimeOrder(db: seq<Pair<string>>, context: string, i: nat, j: nat) returns (t: Int64, u: Int64)
    requires Ordered(db) && IndexedByTime(db) && ColonFree(context)
    requires i < j < |Entries(db, TimePrefix(context))|
    ensures var es := Entries(db, TimePrefix(context));
      es[i].key == TimeKey(context, t) && es[j].key == TimeKey(context, u)
    ensures t >= 0 && u >= 0 ==> t < u
  {
    var es := Entries(db, TimePrefix(context));
    EntriesOrdered(db, TimePrefix(context));
    t := EntryTime(db, context, i);
    u := EntryTime(db, context, j);
    TimeKeyOrder(context, t, u);
  }

  lemma EntryTime(db: seq<Pair<string>>, context: string, i: nat) returns (t: Int64)
    requires IndexedByTime(db) && ColonFree(context)
    requires i < |Entries(db, TimePrefix(context))|
    ensures Entries(db, TimePrefix(context))[i].key == TimeKey(context, t)
  {
    hide BigEndian, Entries;
    var e := Entries(db, TimePrefix(context))[i];
    EntriesMembers(db, TimePrefix(context), e);
    assert e.key[..5] == TimePrefix(context)[..5] == "meta:";
    var c, s: Int64 :| ColonFree(c) && e.key == TimeKey(c, s);
    PrefixScanExact(context, c, s);
    t := s;
  }

  /** A limit of zero is accepted and never gets anywhere: every page is empty and
      hands back a cursor to the same entry. */
  lemma ZeroLimitStandsStill<U>(v: seq<Pair<string>>, prefix: string, lookup: string -> Option<U>, pos: nat, reverse: bool)
    requires InOrder(v, reverse) && pos < |v| && HasPrefix(v[pos].key, prefix)
    ensures var page := Scan(v, prefix, lookup, pos, 0, reverse);
      page == ([], pos) && More(v, prefix, 0, page) && Seek(v, v[page.1].key, reverse) == pos
  {
    SeekKey(v, pos, reverse);
  }
}
