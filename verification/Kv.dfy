/** An ordered key-value store and its iterator, as Badger offers them. */
module Kv {
  import opened Lex
  import opened Options
  import opened Seqs

  /** One entry of the ordered store. */
  datatype Pair<V> = Pair(key: string, value: V)

  ghost predicate Ordered<V>(db: seq<Pair<V>>) {
    forall i, j :: 0 <= i < j < |db| ==> Less(db[i].key, db[j].key)
  }

  function Reversed<T>(s: seq<T>): (r: seq<T>)
    ensures |r| == |s|
    ensures forall i :: 0 <= i < |s| ==> r[i] == s[|s| - 1 - i]
  {
    if s == [] then [] else Reversed(s[1..]) + [s[0]]
  }

  /** The entries whose key has the prefix, in store order. */
  function Entries<V>(db: seq<Pair<V>>, prefix: string): seq<Pair<V>> {
    if db == [] then []
    else (if HasPrefix(db[0].key, prefix) then [db[0]] else []) + Entries(db[1..], prefix)
  }

  // ---------- reading and writing ----------

  function Put<V>(db: seq<Pair<V>>, k: string, v: V): seq<Pair<V>> {
    if db == [] || Less(k, db[0].key) then [Pair(k, v)] + db
    else if k == db[0].key then [Pair(k, v)] + db[1..]
    else [db[0]] + Put(db[1..], k, v)
  }

  function Get<V>(db: seq<Pair<V>>, k: string): Option<V> {
    if db == [] then None
    else if db[0].key == k then Some(db[0].value)
    else Get(db[1..], k)
  }

  lemma {:induction false} PutMembers<V>(db: seq<Pair<V>>, k: string, v: V, e: Pair<V>)
    requires Ordered(db)
    ensures e in Put(db, k, v) <==> if e.key == k then e.value == v else e in db
  {
    if db == [] {
      assert Put(db, k, v) == [Pair(k, v)];
    } else {
      assert db == [db[0]] + db[1..];
      if Less(k, db[0].key) {
        KeyAbsentBelow(db, k);
      } else if k == db[0].key {
        LessIrreflexive(k);
        KeyAbsentBelow(db[1..], k);
      } else {
        PutMembers(db[1..], k, v, e);
      }
    }
  }

  lemma KeyAbsentBelow<V>(db: seq<Pair<V>>, k: string)
    requires Ordered(db) && (db != [] ==> Less(k, db[0].key))
    ensures forall i :: 0 <= i < |db| ==> Less(k, db[i].key) && db[i].key != k
  {
    forall i | 0 <= i < |db| ensures Less(k, db[i].key) && db[i].key != k {
      if i > 0 {
        LessTransitive(k, db[0].key, db[i].key);
      }
      LessAsymmetric(k, db[i].key);
    }
  }

  lemma {:induction false} PutOrdered<V>(db: seq<Pair<V>>, k: string, v: V)
    requires Ordered(db)
    ensures Ordered(Put(db, k, v))
  {
    if db != [] {
      if Less(k, db[0].key) {
        KeyAbsentBelow(db, k);
      } else if k == db[0].key {
        assert Ordered(db[1..]);
      } else {
        LessTotal(k, db[0].key);
        PutOrdered(db[1..], k, v);
        var rest := Put(db[1..], k, v);
        forall j | 0 <= j < |rest| ensures Less(db[0].key, rest[j].key) {
          PutMembers(db[1..], k, v, rest[j]);
          assert rest[j] in rest;
          if rest[j].key != k {
            var i :| 0 <= i < |db[1..]| && db[1..][i] == rest[j];
            assert db[i + 1] == rest[j];
          }
        }
      }
    }
  }

  /** In an ordered store a key has at most one value, and `Get` finds it. */
  lemma {:induction false} GetMembers<V>(db: seq<Pair<V>>, k: string, v: V)
    requires Ordered(db)
    ensures Get(db, k) == Some(v) <==> Pair(k, v) in db
  {
    if db != [] {
      GetMembers(db[1..], k, v);
      assert db == [db[0]] + db[1..];
      if db[0].key == k {
        LessIrreflexive(k);
      }
    }
  }

  lemma {:induction false} GetPut<V>(db: seq<Pair<V>>, k: string, v: V, key: string)
    ensures Get(Put(db, k, v), key) == if key == k then Some(v) else Get(db, key)
  {
    if db != [] && !Less(k, db[0].key) && k != db[0].key {
      GetPut(db[1..], k, v, key);
    }
  }

  // ---------- the iterator ----------

  /** Badger iterates the store upwards, or downwards with the reverse option. */
  function View<V>(db: seq<Pair<V>>, reverse: bool): seq<Pair<V>> {
    if reverse then Reversed(db) else db
  }

  predicate Before(a: string, b: string, reverse: bool) {
    if reverse then Less(b, a) else Less(a, b)
  }

  ghost predicate InOrder<V>(v: seq<Pair<V>>, reverse: bool) {
    forall i, j :: 0 <= i < j < |v| ==> Before(v[i].key, v[j].key, reverse)
  }

  /** The first position at or after `start` in iteration order. */
  function Seek<V>(v: seq<Pair<V>>, start: string, reverse: bool): (pos: nat)
    ensures pos <= |v|
    ensures forall i :: 0 <= i < pos ==> Before(v[i].key, start, reverse)
    ensures pos < |v| ==> !Before(v[pos].key, start, reverse)
  {
    if v == [] || !Before(v[0].key, start, reverse) then 0 else 1 + Seek(v[1..], start, reverse)
  }

  function AllOnes(): string { seq(8, i => 255 as char) }

  /** Where a scan of a prefix starts: at the prefix, or in reverse at eight 0xFF bytes past it. */
  function FirstKey(prefix: string, reverse: bool): string {
    if reverse then prefix + AllOnes() else prefix
  }

  // ---------- the entries with a prefix form one run of the iteration ----------

  ghost predicate NoneFrom<V>(v: seq<Pair<V>>, prefix: string, pos: nat) {
    forall i :: pos <= i < |v| ==> !HasPrefix(v[i].key, prefix)
  }

  /** Once the iteration has left the entries with the prefix it does not come back. */
  ghost predicate Contiguous<V>(v: seq<Pair<V>>, prefix: string) {
    forall i, j :: 0 <= i < j < |v| && HasPrefix(v[i].key, prefix) && !HasPrefix(v[j].key, prefix) ==> NoneFrom(v, prefix, j)
  }

  ghost predicate AtEntries<V>(v: seq<Pair<V>>, prefix: string, pos: nat) {
    pos <= |v| && ((pos < |v| && HasPrefix(v[pos].key, prefix)) || NoneFrom(v, prefix, pos))
  }

  lemma ViewInOrder<V>(db: seq<Pair<V>>, reverse: bool)
    requires Ordered(db)
    ensures InOrder(View(db, reverse), reverse)
  {
  }

  lemma OrderedIsContiguous<V>(v: seq<Pair<V>>, prefix: string, reverse: bool)
    requires InOrder(v, reverse)
    ensures Contiguous(v, prefix)
  {
    forall i, j | 0 <= i < j < |v| && HasPrefix(v[i].key, prefix) && !HasPrefix(v[j].key, prefix)
      ensures NoneFrom(v, prefix, j)
    {
      forall k | j <= k < |v| ensures !HasPrefix(v[k].key, prefix) {
        if HasPrefix(v[k].key, prefix) {
          var a, b, c := v[i].key, v[j].key, v[k].key;
          PrefixLeq(prefix, a);
          PrefixLeq(prefix, c);
          if reverse {
            LeqLess(prefix, c, b);
            PrefixInterval(prefix, b, a);
          } else {
            LeqLess(prefix, a, b);
            PrefixInterval(prefix, b, c);
          }
        }
      }
    }
  }

  /** No key with the prefix lies above the reverse start key. */
  ghost predicate BoundedAbove<V>(v: seq<Pair<V>>, prefix: string) {
    forall i :: 0 <= i < |v| && HasPrefix(v[i].key, prefix) ==> Leq(v[i].key, prefix + AllOnes())
  }

  /** From its first key a scan starts at the first entry with the prefix in its direction. */
  lemma SeekStart<V>(v: seq<Pair<V>>, prefix: string, reverse: bool)
    requires InOrder(v, reverse) && (reverse ==> BoundedAbove(v, prefix))
    ensures var pos := Seek(v, FirstKey(prefix, reverse), reverse);
      AtEntries(v, prefix, pos) && forall i :: 0 <= i < pos ==> !HasPrefix(v[i].key, prefix)
  {
    var start := FirstKey(prefix, reverse);
    var pos := Seek(v, start, reverse);
    forall i | 0 <= i < pos ensures !HasPrefix(v[i].key, prefix) {
      if HasPrefix(v[i].key, prefix) {
        PrefixLeq(prefix, v[i].key);
        if reverse {
          LeqLess(v[i].key, start, v[i].key);
        } else {
          LeqLess(prefix, v[i].key, prefix);
        }
        LessIrreflexive(v[i].key);
        LessIrreflexive(prefix);
      }
    }
    if pos < |v| && !HasPrefix(v[pos].key, prefix) {
      var b := v[pos].key;
      LessTotal(b, start);
      forall k | pos <= k < |v| ensures !HasPrefix(v[k].key, prefix) {
        if HasPrefix(v[k].key, prefix) {
          PrefixLeq(prefix, v[k].key);
          if reverse {
            LeqLess(prefix, v[k].key, b);
            assert HasPrefix(start, prefix);
            PrefixInterval(prefix, b, start);
          } else {
            PrefixInterval(prefix, b, v[k].key);
          }
        }
      }
    }
  }

  /** A cursor, being a key of the store, is found again at its own position. */
  lemma SeekKey<V>(v: seq<Pair<V>>, pos: nat, reverse: bool)
    requires InOrder(v, reverse) && pos < |v|
    ensures Seek(v, v[pos].key, reverse) == pos
  {
    var s := Seek(v, v[pos].key, reverse);
    LessIrreflexive(v[pos].key);
  }

  lemma {:induction false} NoEntries<V>(v: seq<Pair<V>>, prefix: string)
    requires NoneFrom(v, prefix, 0)
    ensures Entries(v, prefix) == []
  {
    if v != [] {
      assert NoneFrom(v[1..], prefix, 0) by {
        forall i | 0 <= i < |v[1..]| ensures !HasPrefix(v[1..][i].key, prefix) {
          assert v[1..][i] == v[i + 1];
        }
      }
      NoEntries(v[1..], prefix);
    }
  }

  lemma NoEntriesFrom<V>(v: seq<Pair<V>>, prefix: string, pos: nat)
    requires pos <= |v| && NoneFrom(v, prefix, pos)
    ensures Entries(v[pos..], prefix) == []
  {
    assert NoneFrom(v[pos..], prefix, 0) by {
      forall i | 0 <= i < |v[pos..]| ensures !HasPrefix(v[pos..][i].key, prefix) {
        assert v[pos..][i] == v[pos + i];
      }
    }
    NoEntries(v[pos..], prefix);
  }

  // ---------- a scan with ValidForPrefix meets all entries of the prefix ----------

  /** The entries an iterator meets from `pos` on, while the prefix holds. */
  function Visited<V>(v: seq<Pair<V>>, prefix: string, pos: nat): seq<Pair<V>>
    requires pos <= |v|
    decreases |v| - pos
  {
    if pos < |v| && HasPrefix(v[pos].key, prefix) then [v[pos]] + Visited(v, prefix, pos + 1) else []
  }

  lemma {:induction false} VisitedIsEntries<V>(v: seq<Pair<V>>, prefix: string, pos: nat)
    requires AtEntries(v, prefix, pos) && Contiguous(v, prefix)
    ensures Visited(v, prefix, pos) == Entries(v[pos..], prefix)
    decreases |v| - pos
  {
    if pos < |v| && HasPrefix(v[pos].key, prefix) {
      VisitedIsEntries(v, prefix, pos + 1);
      assert v[pos..][0] == v[pos] && v[pos..][1..] == v[pos + 1..];
    } else {
      NoEntriesFrom(v, prefix, pos);
    }
  }

  lemma ScanIsEntries<V>(v: seq<Pair<V>>, prefix: string, reverse: bool)
    requires InOrder(v, reverse) && (reverse ==> BoundedAbove(v, prefix))
    ensures Visited(v, prefix, Seek(v, FirstKey(prefix, reverse), reverse)) == Entries(v, prefix)
  {
    hide Seek, Visited, FirstKey, Entries;
    OrderedIsContiguous(v, prefix, reverse);
    SeekStart(v, prefix, reverse);
    var pos := Seek(v, FirstKey(prefix, reverse), reverse);
    VisitedIsEntries(v, prefix, pos);
    EntriesConcat(v[..pos], v[pos..], prefix);
    assert v[..pos] + v[pos..] == v;
    assert NoneFrom(v[..pos], prefix, 0);
    NoEntries(v[..pos], prefix);
  }

  // ---------- filtering, concatenation and reversal ----------

  lemma {:induction false} EntriesConcat<V>(a: seq<Pair<V>>, b: seq<Pair<V>>, prefix: string)
    ensures Entries(a + b, prefix) == Entries(a, prefix) + Entries(b, prefix)
  {
    if a == [] {
      assert a + b == b;
    } else {
      EntriesConcat(a[1..], b, prefix);
      assert (a + b)[1..] == a[1..] + b && (a + b)[0] == a[0];
      var first := if HasPrefix(a[0].key, prefix) then [a[0]] else [];
      Associative(first, Entries(a[1..], prefix), Entries(b, prefix));
    }
  }

  lemma {:induction false} EntriesReversed<V>(db: seq<Pair<V>>, prefix: string)
    ensures Entries(Reversed(db), prefix) == Reversed(Entries(db, prefix))
  {
    if db != [] {
      EntriesReversed(db[1..], prefix);
      EntriesConcat(Reversed(db[1..]), [db[0]], prefix);
      assert Entries([db[0]], prefix) == if HasPrefix(db[0].key, prefix) then [db[0]] else [] by {
        assert [db[0]][1..] == [];
      }
      if HasPrefix(db[0].key, prefix) {
        assert ([db[0]] + Entries(db[1..], prefix))[1..] == Entries(db[1..], prefix);
      } else {
        assert Entries(db, prefix) == Entries(db[1..], prefix);
      }
    }
  }

  /** An entry belongs to the answer exactly when its key is the context's. */
  lemma {:induction false} EntriesMembers<V>(db: seq<Pair<V>>, prefix: string, e: Pair<V>)
    ensures e in Entries(db, prefix) <==> e in db && HasPrefix(e.key, prefix)
  {
    if db != [] {
      EntriesMembers(db[1..], prefix, e);
      assert db == [db[0]] + db[1..];
    }
  }

  lemma {:induction false} EntriesOrdered<V>(db: seq<Pair<V>>, prefix: string)
    requires Ordered(db)
    ensures Ordered(Entries(db, prefix))
  {
    if db != [] {
      EntriesOrdered(db[1..], prefix);
      var es := Entries(db[1..], prefix);
      forall j | 0 <= j < |es| ensures Less(db[0].key, es[j].key) {
        EntriesMembers(db[1..], prefix, es[j]);
        var k :| 0 <= k < |db[1..]| && db[1..][k] == es[j];
        assert db[k + 1] == es[j];
      }
    }
  }
}
