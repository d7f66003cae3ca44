/** Searching the index, stage by stage, against a plain filter over the indexed units. */
module SearchQuery {
  import opened Lex
  import opened Text
  import opened Options
  import opened Kv
  import opened SearchWords
  import opened SearchKeys
  import opened SearchIndex

  datatype Request = Request(query: string, context: string, agents: seq<string>, kinds: seq<int>, meta: map<string, string>,
                             limit: int, offset: int, full: bool)

  // ---------- the plain filter ----------

  datatype Filter = ByText | ByContext | ByAgent | ByKind | ByMeta

  predicate Wanted(f: Filter, q: Request) {
    match f
    case ByText => q.query != ""
    case ByContext => q.context != ""
    case ByAgent => q.agents != []
    case ByKind => q.kinds != []
    case ByMeta => q.meta != map[]
  }

  /** A unit has a word of three bytes and more if it stands in the payload, when the first 512
      bytes of that are text, or in a metadata value of three bytes and more. */
  ghost predicate HasWord(lower: string -> string, u: Unit, w: string) {
    && |w| >= 3
    && (|| (IsWord(lower(u.payload), w) && forall i :: 0 <= i < |u.payload| && i < 512 ==> u.payload[i] as int >= 32 || u.payload[i] as int in {9, 10, 13})
        || (exists k :: k in u.meta && |u.meta[k]| >= 3 && IsWord(lower(u.meta[k]), w)))
  }

  /** Indexing writes exactly those words. */
  lemma MentionsExactly(lower: string -> string, u: Unit, w: string)
    ensures Mentions(lower, u, w) <==> HasWord(lower, u, w)
  {
    hide IsWord;
    if HasWord(lower, u, w) && !PayloadMentions(lower, u, w) {
      var k :| k in u.meta && |u.meta[k]| >= 3 && IsWord(lower(u.meta[k]), w);
      assert k in u.meta.Keys;
    }
  }

  /** A query word counts when it has three bytes and some unit mentions it. */
  ghost predicate Relevant(lower: string -> string, units: set<Unit>, query: string, w: string) {
    |w| >= 3 && IsWord(lower(query), w) && exists u :: u in units && HasWord(lower, u, w)
  }

  /** The unit mentions every query word that counts, and at least one does. */
  ghost predicate TextMatch(lower: string -> string, units: set<Unit>, query: string, u: Unit) {
    && (exists w :: Relevant(lower, units, query, w))
    && (forall w :: Relevant(lower, units, query, w) ==> HasWord(lower, u, w))
  }

  ghost predicate Accepts(lower: string -> string, units: set<Unit>, f: Filter, q: Request, u: Unit) {
    match f
    case ByText => TextMatch(lower, units, q.query, u)
    case ByContext => u.context == q.context
    case ByAgent => u.agent in q.agents
    case ByKind => u.kind in q.kinds
    case ByMeta => forall k :: k in q.meta ==> k in u.meta && u.meta[k] == q.meta[k]
  }

  /** The unit with this id passes the wanted filters among `fs`. */
  ghost predicate PassesId(lower: string -> string, units: set<Unit>, fs: set<Filter>, q: Request, id: string) {
    exists u :: u in units && u.id == id && forall f :: f in fs && Wanted(f, q) ==> Accepts(lower, units, f, q, u)
  }

  ghost predicate AcceptsId(lower: string -> string, units: set<Unit>, f: Filter, q: Request, id: string) {
    exists u :: u in units && u.id == id && Accepts(lower, units, f, q, u)
  }

  // ---------- scans and lookups ----------

  /** Iterate from the prefix on while it holds. */
  method ScanKeys(db: seq<Pair<string>>, prefix: string) returns (keys: seq<string>)
    requires Ordered(db)
    ensures forall k :: k in keys <==> Get(db, k).Some? && HasPrefix(k, prefix)
    ensures forall i, j :: 0 <= i < j < |keys| ==> keys[i] != keys[j]
  {
    hide Less, Get;
    ghost var v := View(db, false);
    ViewInOrder(db, false);
    SeekStart(db, prefix, false);
    OrderedIsContiguous(db, prefix, false);
    var start := Seek(db, prefix, false);
    assert FirstKey(prefix, false) == prefix;
    var it := start;
    keys := [];
    while it < |db| && HasPrefix(db[it].key, prefix)
      invariant start <= it <= |db| && |keys| == it - start
      invariant forall i :: 0 <= i < |keys| ==> keys[i] == db[start + i].key
      invariant forall i :: start <= i < it ==> HasPrefix(db[i].key, prefix)
    {
      keys := keys + [db[it].key];
      it := it + 1;
    }
    assert NoneFrom(db, prefix, it);
    forall k ensures k in keys <==> Get(db, k).Some? && HasPrefix(k, prefix) {
      GetFinds(db, k);
      if Get(db, k).Some? && HasPrefix(k, prefix) {
        var i :| 0 <= i < |db| && db[i].key == k;
        assert start <= i < it;
        assert keys[i - start] == k;
      }
    }
    forall i, j | 0 <= i < j < |keys| ensures keys[i] != keys[j] {
      LessAsymmetric(db[start + i].key, db[start + j].key);
    }
  }

  lemma {:induction false} GetFinds(db: seq<Pair<string>>, k: string)
    ensures Get(db, k).Some? <==> exists i :: 0 <= i < |db| && db[i].key == k
  {
    if db != [] {
      GetFinds(db[1..], k);
      if i :| 0 <= i < |db[1..]| && db[1..][i].key == k {
        assert db[i + 1].key == k;
      }
      if i :| 0 < i < |db| && db[i].key == k {
        assert db[1..][i - 1].key == k;
      }
    }
  }

  /** The ids at the ends of the keys that a scan for a value meets. */
  method ScanIds(db: seq<Pair<string>>, field: Field, value: string) returns (ids: seq<string>)
    requires Ordered(db)
    ensures forall id :: id in ids <==> Found(db, field, value, id)
  {
    hide Ordered, Get, Split, FieldPrefix;
    var keys := ScanKeys(db, FieldPrefix(field, value));
    ids := [];
    for i := 0 to |keys|
      invariant forall id :: id in ids <==> exists j :: 0 <= j < i && LastPart(keys[j]) == id
    {
      assert keys[i] in keys;
      PartsOfFieldKey(field, value, keys[i]);
      var parts := Split(keys[i]);
      if |parts| >= (if field.Meta? then 3 else 2) {
        ids := ids + [parts[|parts| - 1]];
      }
    }
    forall id ensures id in ids <==> Found(db, field, value, id) {
      if id in ids {
        var j :| 0 <= j < |keys| && LastPart(keys[j]) == id;
        assert keys[j] in keys;
      }
    }
  }

  lemma PartsOfFieldKey(field: Field, value: string, key: string)
    requires HasPrefix(key, FieldPrefix(field, value))
    ensures |Split(key)| >= 3
  {
    var rest := key[|FieldPrefix(field, value)|..];
    assert key == Name(field) + ":" + (value + ":" + rest);
    SplitLonger(Name(field), value + ":" + rest);
    SplitLonger(value, rest);
  }

  lemma {:induction false} SplitLonger(a: string, b: string)
    ensures |Split(a + ":" + b)| >= 1 + |Split(b)|
  {
    var s := a + ":" + b;
    if a == "" {
      assert s == ":" + b && s[1..] == b;
    } else {
      assert s[0] == a[0] && s[1..] == a[1..] + ":" + b;
      SplitLonger(a[1..], b);
    }
  }

  // ---------- the text stage ----------

  /** The ids common to all lists: start from any list, then filter by the lists in any order. */
  method Intersect(lists: map<string, seq<string>>) returns (base: seq<string>)
    ensures forall id :: id in base <==> lists != map[] && forall w :: w in lists ==> id in lists[w]
  {
    base := [];
    if lists == map[] {
      return;
    }
    assert lists.Keys != {};
    var first :| first in lists;
    base := lists[first];
    var words := Listed(lists.Keys);
    var i := 0;
    while i < |words|
      invariant 0 <= i <= |words|
      invariant forall id :: id in base <==> id in lists[first] && forall j :: 0 <= j < i ==> id in lists[words[j]]
      decreases |words| - i
    {
      if |base| == 0 {
        break;
      }
      var matches := lists[words[i]];
      if base != matches {
        base := Keep(base, matches);
      }
      i := i + 1;
    }
    forall id ensures id in base <==> forall w :: w in lists ==> id in lists[w] {
      if id in base {
        forall w | w in lists ensures id in lists[w] {
          assert w in words;
        }
      }
      if forall w :: w in lists ==> id in lists[w] {
        assert id in lists[first];
        assert forall j :: 0 <= j < i ==> words[j] in words && id in lists[words[j]];
      }
    }
  }

  method Keep(base: seq<string>, matches: seq<string>) returns (kept: seq<string>)
    ensures forall id :: id in kept <==> id in base && id in matches
  {
    kept := [];
    for i := 0 to |base|
      invariant forall id :: id in kept <==> id in base[..i] && id in matches
    {
      if base[i] in matches {
        kept := kept + [base[i]];
      }
    }
  }

  ghost predicate Hit(db: seq<Pair<string>>, lower: string -> string, query: string, w: string) {
    |w| >= 3 && IsWord(lower(query), w) && exists id :: Found(db, Word, w, id)
  }

  ghost predicate TextFound(db: seq<Pair<string>>, lower: string -> string, query: string, id: string) {
    && (exists w :: Hit(db, lower, query, w))
    && (forall w :: Hit(db, lower, query, w) ==> Found(db, Word, w, id))
  }

  method TextMatches(db: seq<Pair<string>>, lower: string -> string, query: string) returns (m: set<string>)
    requires Ordered(db)
    ensures forall id :: id in m <==> TextFound(db, lower, query, id)
  {
    hide Ordered, Found, IsWord;
    var queryWords := SplitIntoWords(query, lower);
    var wordMatches: map<string, seq<string>> := map[];
    for i := 0 to |queryWords|
      invariant forall w :: w in wordMatches ==> Hit(db, lower, query, w) && forall id :: id in wordMatches[w] <==> Found(db, Word, w, id)
      invariant forall j :: 0 <= j < i && Hit(db, lower, query, queryWords[j]) ==> queryWords[j] in wordMatches
    {
      var word := queryWords[i];
      if |word| >= 3 {
        var matches := ScanIds(db, Word, word);
        if |matches| > 0 {
          assert matches[0] in matches && word in queryWords;
          wordMatches := wordMatches[word := matches];
        }
      }
    }
    forall w ensures w in wordMatches <==> Hit(db, lower, query, w) {
      if Hit(db, lower, query, w) {
        assert w in queryWords;
      }
    }
    var base := Intersect(wordMatches);
    m := set id | id in base;
    forall id ensures id in m <==> TextFound(db, lower, query, id) {
      if wordMatches != map[] {
        assert wordMatches.Keys != {};
        var w :| w in wordMatches;
        assert Hit(db, lower, query, w);
      }
    }
  }

  // ---------- collecting and keeping by a field ----------

  ghost predicate FoundAny(db: seq<Pair<string>>, field: Field, values: seq<string>, id: string) {
    exists j :: 0 <= j < |values| && Found(db, field, values[j], id)
  }

  method CollectAny(db: seq<Pair<string>>, field: Field, values: seq<string>) returns (m: set<string>)
    requires Ordered(db)
    ensures forall id :: id in m <==> FoundAny(db, field, values, id)
  {
    hide Ordered, Found;
    m := {};
    for i := 0 to |values|
      invariant forall id :: id in m <==> exists j :: 0 <= j < i && Found(db, field, values[j], id)
    {
      var ids := ScanIds(db, field, values[i]);
      m := m + set id | id in ids;
    }
  }

  ghost predicate Has(db: seq<Pair<string>>, field: Field, value: string, id: string) {
    Get(db, FieldKey(field, value, id)).Some?
  }

  ghost predicate HasAny(db: seq<Pair<string>>, field: Field, values: seq<string>, id: string) {
    exists j :: 0 <= j < |values| && Has(db, field, values[j], id)
  }

  method KeepAny(db: seq<Pair<string>>, m: set<string>, field: Field, values: seq<string>) returns (kept: set<string>)
    ensures forall id :: id in kept <==> id in m && HasAny(db, field, values, id)
  {
    hide Get, FieldKey;
    kept := {};
    var ids := Listed(m);
    for i := 0 to |ids|
      invariant forall id :: id in kept <==> id in ids[..i] && HasAny(db, field, values, id)
    {
      assert ids[..i + 1] == ids[..i] + [ids[i]];
      var any := false;
      for j := 0 to |values|
        invariant !any && forall k :: 0 <= k < j ==> !Has(db, field, values[k], ids[i])
      {
        if Get(db, FieldKey(field, values[j], ids[i])).Some? {
          assert Has(db, field, values[j], ids[i]);
          any := true;
          break;
        }
      }
      assert any <==> HasAny(db, field, values, ids[i]);
      if any {
        kept := kept + {ids[i]};
      }
    }
    assert ids[..|ids|] == ids;
  }

  ghost predicate HasAll(db: seq<Pair<string>>, filters: map<string, string>, id: string) {
    forall k :: k in filters ==> Has(db, Meta, MetaValue(k, filters[k]), id)
  }

  method KeepAll(db: seq<Pair<string>>, m: set<string>, filters: map<string, string>) returns (kept: set<string>)
    ensures forall id :: id in kept <==> id in m && HasAll(db, filters, id)
  {
    hide Get, FieldKey;
    kept := {};
    var ids := Listed(m);
    for i := 0 to |ids|
      invariant forall id :: id in kept <==> id in ids[..i] && HasAll(db, filters, id)
    {
      assert ids[..i + 1] == ids[..i] + [ids[i]];
      var keys := Listed(filters.Keys);
      var all := true;
      for j := 0 to |keys|
        invariant all && forall k :: 0 <= k < j ==> Has(db, Meta, MetaValue(keys[k], filters[keys[k]]), ids[i])
      {
        if Get(db, FieldKey(Meta, MetaValue(keys[j], filters[keys[j]]), ids[i])).None? {
          assert !Has(db, Meta, MetaValue(keys[j], filters[keys[j]]), ids[i]);
          all := false;
          break;
        }
      }
      assert all <==> HasAll(db, filters, ids[i]) by {
        if all {
          forall k | k in filters ensures Has(db, Meta, MetaValue(k, filters[k]), ids[i]) {
            assert k in keys;
          }
        }
      }
      if all {
        kept := kept + {ids[i]};
      }
    }
    assert ids[..|ids|] == ids;
  }
}
