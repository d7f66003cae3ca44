/** Pages of one search add up to the whole answer, exactly when no two answers share a time. */
module SearchPages {
  import opened Seqs
  import opened SearchIndex
  import opened SearchQuery
  import opened SearchBackend

  ghost predicate DistinctTimes(s: set<Unit>) {
    forall u, v :: u in s && v in s && u.ts == v.ts ==> u == v
  }

  lemma OrderUnique(s: set<Unit>, a: seq<Unit>, b: seq<Unit>)
    requires DistinctTimes(s) && NewestFirst(a, s) && NewestFirst(b, s)
    ensures a == b
  {
    var newer := (u: Unit, v: Unit) => u.ts > v.ts;
    StrictlyNewer(s, a);
    StrictlyNewer(s, b);
    SortedUnique(a, b, newer);
  }

  lemma StrictlyNewer(s: set<Unit>, a: seq<Unit>)
    requires DistinctTimes(s) && NewestFirst(a, s)
    ensures forall i, j :: 0 <= i < j < |a| ==> a[i].ts > a[j].ts
  {
    forall i, j | 0 <= i < j < |a| ensures a[i].ts > a[j].ts {
      assert a[i] in s && a[j] in s;
    }
  }

  lemma {:induction false} Oldest(s: set<Unit>) returns (x: Unit)
    requires s != {}
    ensures x in s && forall u :: u in s ==> u.ts >= x.ts
    decreases s
  {
    x :| x in s;
    if s != {x} {
      var y := Oldest(s - {x});
      if y.ts < x.ts {
        x := y;
      }
    }
  }

  lemma {:induction false} SomeOrder(s: set<Unit>) returns (order: seq<Unit>)
    ensures NewestFirst(order, s)
    decreases s
  {
    if s == {} {
      order := [];
    } else {
      var x := Oldest(s);
      var rest := SomeOrder(s - {x});
      order := rest + [x];
      assert forall i :: 0 <= i < |rest| ==> rest[i] in s - {x};
    }
  }

  lemma Exchanged(s: set<Unit>, order: seq<Unit>, i: nat, j: nat)
    requires NewestFirst(order, s) && i < j < |order| && order[i].ts == order[j].ts
    ensures NewestFirst(order[i := order[j]][j := order[i]], s)
  {
    var other := order[i := order[j]][j := order[i]];
    forall u ensures u in other <==> u in order {
      assert other[i] == order[j] && other[j] == order[i];
      if u in order {
        var k :| 0 <= k < |order| && order[k] == u;
        assert k != i && k != j ==> other[k] == u;
      }
    }
  }

  /** The answer has one newest-first order exactly when no two of its units share a time. */
  lemma OrderUniqueExactly(s: set<Unit>)
    ensures (forall a, b :: NewestFirst(a, s) && NewestFirst(b, s) ==> a == b) <==> DistinctTimes(s)
  {
    hide NewestFirst;
    if DistinctTimes(s) {
      forall a, b | NewestFirst(a, s) && NewestFirst(b, s) ensures a == b {
        OrderUnique(s, a, b);
      }
    } else {
      var u, v :| u in s && v in s && u.ts == v.ts && u != v;
      var order := SomeOrder(s);
      var i, j := Positions(s, order, u, v);
      Exchanged(s, order, i, j);
      var other := order[i := order[j]][j := order[i]];
      assert other[i] != order[i];
    }
  }

  lemma Positions(s: set<Unit>, order: seq<Unit>, u: Unit, v: Unit) returns (i: nat, j: nat)
    requires NewestFirst(order, s) && u in s && v in s && u != v && u.ts == v.ts
    ensures i < j < |order| && order[i].ts == order[j].ts && order[i] != order[j]
  {
    assert u in order && v in order;
    var k :| 0 <= k < |order| && order[k] == u;
    var l :| 0 <= l < |order| && order[l] == v;
    i, j := if k < l then k else l, if k < l then l else k;
  }

  /** Asking for offsets 0, L, 2L, ... until a page comes back empty. */
  method FetchPages(b: Backend, q: Request) returns (ids: seq<string>, found: seq<Unit>)
    requires b.Valid() && Clean(b.units) && DistinctTimes(Matched(b.lower, b.units, q))
    ensures exists order :: NewestFirst(order, Matched(b.lower, b.units, q)) && ids == Ids(order) && (q.full ==> found == order)
  {
    hide NewestFirst, Clean, Passes, DistinctTimes, Ids;
    var n := PageSize(q.limit);
    ghost var s := Matched(b.lower, b.units, q);
    ghost var order := SomeOrder(s);
    var offset := 0;
    ids, found := [], [];
    NoIds();
    while true
      invariant offset >= 0 && b.Valid()
      invariant ids == Ids(Slice(order, 0, offset)) && (q.full ==> found == Slice(order, 0, offset))
      decreases |order| - offset
    {
      var asked := q.(offset := offset);
      var r := b.Search(asked);
      SameMatches(b.lower, b.units, q, offset);
      ghost var o :| NewestFirst(o, s) && r == Page(o, asked);
      OrderUnique(s, o, order);
      PageCount(order, offset, n);
      if r.ids == [] {
        break;
      }
      IdsConcat(Slice(order, 0, offset), Slice(order, offset, n));
      ids, found, offset := ids + r.ids, found + r.found, offset + n;
    }
  }

  lemma NoIds()
    ensures Ids([]) == []
  {
  }

  lemma SameMatches(lower: string -> string, units: set<Unit>, q: Request, offset: int)
    ensures Matched(lower, units, q.(offset := offset)) == Matched(lower, units, q)
  {
    hide TextMatch;
    forall u ensures Passes(lower, units, q.(offset := offset), u) <==> Passes(lower, units, q, u) {
    }
  }

  lemma PageCount(order: seq<Unit>, offset: int, n: int)
    requires offset >= 0 && n >= 1
    ensures Ids(Slice(order, offset, n)) == [] <==> offset >= |order|
    ensures offset >= |order| ==> Slice(order, 0, offset) == order
    ensures offset < |order| ==> Slice(order, 0, offset + n) == Slice(order, 0, offset) + Slice(order, offset, n)
  {
  }

  lemma {:induction false} IdsConcat(a: seq<Unit>, b: seq<Unit>)
    ensures Ids(a + b) == Ids(a) + Ids(b)
  {
  }
}
