/** What indexing writes, and what the index then says about the indexed units. */
module SearchIndex {
  import opened Lex
  import opened Text
  import opened Options
  import opened Kv
  import opened SearchWords
  import opened SearchKeys

  /** A work unit as the search index sees it; no payload is the empty payload. */
  datatype Unit = Unit(id: string, context: string, agent: string, kind: int, ts: int, payload: string, meta: map<string, string>)

  /** The words of three bytes and more in the text payload and in the metadata values. */
  ghost predicate Mentions(lower: string -> string, u: Unit, w: string) {
    |w| >= 3 && (PayloadMentions(lower, u, w) || MetaMentions(lower, u, u.meta.Keys, w))
  }

  ghost predicate PayloadMentions(lower: string -> string, u: Unit, w: string) {
    TextPayload(u.payload) && IsWord(lower(u.payload), w)
  }

  ghost predicate MetaMentions(lower: string -> string, u: Unit, keys: set<string>, w: string) {
    exists k :: k in keys && k in u.meta && |u.meta[k]| >= 3 && IsWord(lower(u.meta[k]), w)
  }

  ghost predicate Carries(lower: string -> string, u: Unit, field: Field, value: string) {
    match field
    case Context => value == u.context
    case Agent => value == u.agent
    case Kind => value == KindText(u.kind)
    case Word => Mentions(lower, u, value)
    case Meta => exists k :: k in u.meta && value == MetaValue(k, u.meta[k])
  }

  ghost predicate FieldKeyOf(lower: string -> string, u: Unit, key: string) {
    exists field, value :: Carries(lower, u, field, value) && key == FieldKey(field, value, u.id)
  }

  /** The keys that indexing a unit writes. */
  ghost predicate KeyOf(lower: string -> string, u: Unit, key: string) {
    key == UnitKey(u.id) || key == StampKey(u.context, u.ts, u.id) || FieldKeyOf(lower, u, key)
  }

  // ---------- writing ----------

  ghost predicate WordKeyIn(words: seq<string>, id: string, key: string) {
    exists w :: w in words && |w| >= 3 && key == FieldKey(Word, w, id)
  }

  /** Every word of three bytes and more gets a key. */
  method PutWords(db: seq<Pair<string>>, words: seq<string>, id: string) returns (r: seq<Pair<string>>)
    requires Ordered(db)
    ensures Ordered(r)
    ensures forall key :: Get(r, key) == if WordKeyIn(words, id, key) then Some("") else Get(db, key)
  {
    hide Ordered, Put, Get, FieldKey;
    r := db;
    for i := 0 to |words|
      invariant Ordered(r)
      invariant forall key :: Get(r, key) == if WordKeyIn(words[..i], id, key) then Some("") else Get(db, key)
    {
      forall key ensures WordKeyIn(words[..i + 1], id, key) <==> WordKeyIn(words[..i], id, key) || (|words[i]| >= 3 && key == FieldKey(Word, words[i], id)) {
        WordKeySnoc(words, i, id, key);
      }
      if |words[i]| >= 3 {
        var k := FieldKey(Word, words[i], id);
        r := PutMark(r, k, "");
      }
    }
    assert words[..|words|] == words;
  }

  lemma WordKeySnoc(words: seq<string>, i: nat, id: string, key: string)
    requires i < |words|
    ensures WordKeyIn(words[..i + 1], id, key) <==> WordKeyIn(words[..i], id, key) || (|words[i]| >= 3 && key == FieldKey(Word, words[i], id))
  {
    hide FieldKey;
    assert words[..i + 1] == words[..i] + [words[i]];
  }

  ghost predicate MetaKeyOf(lower: string -> string, u: Unit, keys: set<string>, key: string) {
    || (exists k :: k in keys && k in u.meta && key == FieldKey(Meta, MetaValue(k, u.meta[k]), u.id))
    || (exists w :: |w| >= 3 && MetaMentions(lower, u, keys, w) && key == FieldKey(Word, w, u.id))
  }

  /** Metadata, in the order in which the map happens to be ranged over. */
  method PutMeta(db: seq<Pair<string>>, u: Unit, lower: string -> string) returns (r: seq<Pair<string>>)
    requires Ordered(db)
    ensures Ordered(r)
    ensures forall key :: Get(r, key) == if MetaKeyOf(lower, u, u.meta.Keys, key) then Some("") else Get(db, key)
  {
    hide Ordered, Get, MetaKeyOf;
    r := db;
    var keys := Listed(u.meta.Keys);
    forall key ensures !MetaKeyOf(lower, u, {}, key) {
      NoMetaKeys(lower, u, key);
    }
    ghost var done: set<string> := {};
    for i := 0 to |keys|
      invariant Ordered(r) && done == set j | 0 <= j < i :: keys[j]
      invariant forall key :: Get(r, key) == if MetaKeyOf(lower, u, done, key) then Some("") else Get(db, key)
    {
      forall key ensures MetaKeyOf(lower, u, done + {keys[i]}, key) <==> MetaKeyOf(lower, u, done, key) || MetaKeyOf(lower, u, {keys[i]}, key) {
        MetaKeyStep(lower, u, done, keys[i], key);
      }
      r := PutOneMeta(r, u, keys[i], lower);
      done := done + {keys[i]};
    }
    assert done == u.meta.Keys;
  }

  method PutOneMeta(db: seq<Pair<string>>, u: Unit, k: string, lower: string -> string) returns (r: seq<Pair<string>>)
    requires Ordered(db) && k in u.meta
    ensures Ordered(r)
    ensures forall key :: Get(r, key) == if MetaKeyOf(lower, u, {k}, key) then Some("") else Get(db, key)
  {
    hide Ordered, Get, FieldKey, MetaKeyOf, WordKeyIn, IsWord;
    var value := u.meta[k];
    var mk := FieldKey(Meta, MetaValue(k, value), u.id);
    r := PutMark(db, mk, "");
    var words: seq<string> := [];
    if |value| >= 3 {
      words := SplitIntoWords(value, lower);
      r := PutWords(r, words, u.id);
    } else {
      forall key ensures !WordKeyIn(words, u.id, key) {
        NoWordKeys(u.id, key);
      }
    }
    forall key ensures MetaKeyOf(lower, u, {k}, key) <==> key == mk || WordKeyIn(words, u.id, key) {
      OneMetaKey(lower, u, k, words, key);
    }
  }

  lemma NoMetaKeys(lower: string -> string, u: Unit, key: string)
    ensures !MetaKeyOf(lower, u, {}, key)
  {
  }

  lemma OneMetaKey(lower: string -> string, u: Unit, k: string, words: seq<string>, key: string)
    requires k in u.meta
    requires forall w :: w in words <==> |u.meta[k]| >= 3 && IsWord(lower(u.meta[k]), w)
    ensures MetaKeyOf(lower, u, {k}, key) <==> key == FieldKey(Meta, MetaValue(k, u.meta[k]), u.id) || WordKeyIn(words, u.id, key)
  {
    hide FieldKey, IsWord;
    assert k in {k};
    forall w ensures MetaMentions(lower, u, {k}, w) <==> w in words {
      assert k in {k};
    }
    hide MetaMentions;
  }

  lemma MetaKeyStep(lower: string -> string, u: Unit, done: set<string>, k: string, key: string)
    ensures MetaKeyOf(lower, u, done + {k}, key) <==> MetaKeyOf(lower, u, done, key) || MetaKeyOf(lower, u, {k}, key)
  {
    hide FieldKey, IsWord;
    forall w ensures MetaMentions(lower, u, done + {k}, w) <==> MetaMentions(lower, u, done, w) || MetaMentions(lower, u, {k}, w) {
      MetaMentionsStep(lower, u, done, k, w);
    }
    hide MetaMentions;
    if MetaKeyOf(lower, u, done, key) {
      assert done <= done + {k};
    }
    if MetaKeyOf(lower, u, {k}, key) {
      assert {k} <= done + {k};
    }
  }

  lemma MetaMentionsStep(lower: string -> string, u: Unit, done: set<string>, k: string, w: string)
    ensures MetaMentions(lower, u, done + {k}, w) <==> MetaMentions(lower, u, done, w) || MetaMentions(lower, u, {k}, w)
  {
    hide IsWord;
    if MetaMentions(lower, u, {k}, w) {
      assert k in done + {k};
    }
    if MetaMentions(lower, u, done, w) {
      var l :| l in done && l in u.meta && |u.meta[l]| >= 3 && IsWord(lower(u.meta[l]), w);
      assert l in done + {k};
    }
    if MetaMentions(lower, u, done + {k}, w) {
      var l :| l in done + {k} && l in u.meta && |u.meta[l]| >= 3 && IsWord(lower(u.meta[l]), w);
      assert l in done || l in {k};
    }
  }

  ghost function Written(db: seq<Pair<string>>, u: Unit, lower: string -> string, enc: Unit -> string, key: string): Option<string> {
    if key == UnitKey(u.id) then Some(enc(u)) else if KeyOf(lower, u, key) then Some("") else Get(db, key)
  }

  /** One unit: exactly its keys are written, the unit itself under its own key. */
  method IndexUnit(db: seq<Pair<string>>, u: Unit, lower: string -> string, enc: Unit -> string) returns (r: seq<Pair<string>>)
    requires Ordered(db)
    ensures Ordered(r)
    ensures forall key :: Get(r, key) == Written(db, u, lower, enc, key)
  {
    hide Ordered, Put, Get, FieldKey, UnitKey, StampKey, KeyOf, WordKeyIn, MetaKeyOf, TextPayload, IsWord;
    var uk, ck, ak := UnitKey(u.id), FieldKey(Context, u.context, u.id), FieldKey(Agent, u.agent, u.id);
    var tk, sk := FieldKey(Kind, KindText(u.kind), u.id), StampKey(u.context, u.ts, u.id);
    r := PutMark(db, uk, enc(u));
    r := PutMark(r, ck, "");
    r := PutMark(r, ak, "");
    r := PutMark(r, tk, "");
    r := PutMark(r, sk, "");
    var text := IsTextPayload(u.payload);
    var words: seq<string> := [];
    if text {
      words := SplitIntoWords(u.payload, lower);
      r := PutWords(r, words, u.id);
    } else {
      forall key ensures !WordKeyIn(words, u.id, key) {
        NoWordKeys(u.id, key);
      }
    }
    r := PutMeta(r, u, lower);
    forall key ensures KeyOf(lower, u, key) <==>
      key in {uk, ck, ak, tk, sk} || WordKeyIn(words, u.id, key) || MetaKeyOf(lower, u, u.meta.Keys, key)
    {
      KeysWritten(lower, u, words, key);
    }
    forall key | key == uk ensures !WordKeyIn(words, u.id, key) && !MetaKeyOf(lower, u, u.meta.Keys, key) && key !in {ck, ak, tk, sk} {
      UnitKeyApart(lower, u, words);
    }
  }

  method PutMark(db: seq<Pair<string>>, k: string, v: string) returns (r: seq<Pair<string>>)
    requires Ordered(db)
    ensures Ordered(r)
    ensures forall key :: Get(r, key) == if key == k then Some(v) else Get(db, key)
  {
    PutOrdered(db, k, v);
    forall key ensures Get(Put(db, k, v), key) == if key == k then Some(v) else Get(db, key) {
      GetPut(db, k, v, key);
    }
    r := Put(db, k, v);
  }

  lemma NoWordKeys(id: string, key: string)
    ensures !WordKeyIn([], id, key)
  {
  }

  lemma UnitKeyApart(lower: string -> string, u: Unit, words: seq<string>)
    ensures var key := UnitKey(u.id);
      && !WordKeyIn(words, u.id, key) && !MetaKeyOf(lower, u, u.meta.Keys, key) && key != StampKey(u.context, u.ts, u.id)
      && forall field, value :: key != FieldKey(field, value, u.id)
  {
    hide StampKey, MetaMentions;
    UnitAndStampKeysApart(u.id, u.context, u.ts, Context, "");
    forall field, value ensures UnitKey(u.id) != FieldKey(field, value, u.id) {
      FieldKeyStart(field, value, u.id);
    }
  }

  lemma KeysWritten(lower: string -> string, u: Unit, words: seq<string>, key: string)
    requires forall w :: w in words <==> PayloadMentions(lower, u, w)
    ensures KeyOf(lower, u, key) <==>
      || key in {UnitKey(u.id), FieldKey(Context, u.context, u.id), FieldKey(Agent, u.agent, u.id), FieldKey(Kind, KindText(u.kind), u.id), StampKey(u.context, u.ts, u.id)}
      || WordKeyIn(words, u.id, key) || MetaKeyOf(lower, u, u.meta.Keys, key)
  {
    hide FieldKey, UnitKey, StampKey, KindText, PayloadMentions, MetaMentions;
    assert Carries(lower, u, Context, u.context) && Carries(lower, u, Agent, u.agent) && Carries(lower, u, Kind, KindText(u.kind));
    if WordKeyIn(words, u.id, key) {
      var w :| w in words && |w| >= 3 && key == FieldKey(Word, w, u.id);
      assert Carries(lower, u, Word, w);
    }
    if MetaKeyOf(lower, u, u.meta.Keys, key) {
      if w :| |w| >= 3 && MetaMentions(lower, u, u.meta.Keys, w) && key == FieldKey(Word, w, u.id) {
        assert Carries(lower, u, Word, w);
      } else {
        var k :| k in u.meta && key == FieldKey(Meta, MetaValue(k, u.meta[k]), u.id);
        assert Carries(lower, u, Meta, MetaValue(k, u.meta[k]));
      }
    }
  }

  // ---------- the index of a set of units ----------

  /** The index holds the keys of the units and no others, and under each unit's own key
      one of the units with that id. */
  ghost predicate Indexed(lower: string -> string, enc: Unit -> string, units: set<Unit>, db: seq<Pair<string>>) {
    && Ordered(db)
    && (forall key :: Get(db, key).Some? <==> KeyOfSome(lower, units, key))
    && (forall u :: u in units ==> StoredUnder(enc, units, db, u.id))
  }

  ghost predicate KeyOfSome(lower: string -> string, units: set<Unit>, key: string) {
    exists u :: u in units && KeyOf(lower, u, key)
  }

  ghost predicate StoredUnder(enc: Unit -> string, units: set<Unit>, db: seq<Pair<string>>, id: string) {
    exists v :: v in units && v.id == id && Get(db, UnitKey(id)) == Some(enc(v))
  }

  lemma IndexOneMore(lower: string -> string, enc: Unit -> string, units: set<Unit>, db: seq<Pair<string>>, u: Unit, after: seq<Pair<string>>)
    requires Indexed(lower, enc, units, db) && Ordered(after)
    requires forall key :: Get(after, key) == Written(db, u, lower, enc, key)
    ensures Indexed(lower, enc, units + {u}, after)
  {
    hide Get, KeyOf, UnitKey, Ordered, KeyOfSome, StoredUnder;
    var more := units + {u};
    forall key ensures Get(after, key).Some? <==> KeyOfSome(lower, more, key) {
      KeyOfOneMore(lower, units, u, key);
    }
    forall x | x in more ensures StoredUnder(enc, more, after, x.id) {
      StoredOneMore(lower, enc, units, db, u, after, x);
    }
  }

  lemma KeyOfOneMore(lower: string -> string, units: set<Unit>, u: Unit, key: string)
    ensures KeyOfSome(lower, units + {u}, key) <==> KeyOfSome(lower, units, key) || KeyOf(lower, u, key)
    ensures KeyOf(lower, u, UnitKey(u.id))
  {
    hide FieldKeyOf, StampKey, UnitKey;
    var more := units + {u};
    if KeyOf(lower, u, key) {
      assert u in more;
    }
    if KeyOfSome(lower, units, key) {
      var x :| x in units && KeyOf(lower, x, key);
      assert x in more;
    }
  }

  lemma StoredOneMore(lower: string -> string, enc: Unit -> string, units: set<Unit>, db: seq<Pair<string>>, u: Unit, after: seq<Pair<string>>, x: Unit)
    requires x == u || (x in units && StoredUnder(enc, units, db, x.id))
    requires forall key :: Get(after, key) == Written(db, u, lower, enc, key)
    ensures StoredUnder(enc, units + {u}, after, x.id)
  {
    hide Get, KeyOf, UnitKey;
    if x.id == u.id {
      assert u in units + {u};
    } else {
      UnitKeyIsNoOther(lower, u, x.id);
      var v :| v in units && v.id == x.id && Get(db, UnitKey(x.id)) == Some(enc(v));
      assert v in units + {u};
    }
  }

  lemma UnitKeyIsNoOther(lower: string -> string, u: Unit, id: string)
    requires id != u.id
    ensures !KeyOf(lower, u, UnitKey(id)) && UnitKey(id) != UnitKey(u.id)
  {
    hide StampKey, Carries;
    assert UnitKey(id)[3..] == id && UnitKey(u.id)[3..] == u.id;
    UnitAndStampKeysApart(id, u.context, u.ts, Context, "");
    UnitAndStampKeysApart(u.id, u.context, u.ts, Context, "");
    forall field, value ensures UnitKey(id) != FieldKey(field, value, u.id) {
      FieldKeyStart(field, value, u.id);
    }
  }

  // ---------- what a lookup and a scan say ----------

  ghost predicate CleanUnit(u: Unit) {
    && u.id != "" && ColonFree(u.id) && ColonFree(u.context) && ColonFree(u.agent) && ValidTime(u.ts)
    && forall k :: k in u.meta ==> ColonFree(k) && ColonFree(u.meta[k])
  }

  /** Immutable units (one per id) with colon-free fields and times from the epoch on. */
  ghost predicate Clean(units: set<Unit>) {
    && (forall u :: u in units ==> CleanUnit(u))
    && (forall u, v :: u in units && v in units && u.id == v.id ==> u == v)
  }

  ghost predicate Bears(lower: string -> string, units: set<Unit>, id: string, field: Field, value: string) {
    exists u :: u in units && u.id == id && Carries(lower, u, field, value)
  }

  /** A value a search can ask for: any at all, with its key and value for metadata. */
  predicate Sought(field: Field, value: string) {
    field.Meta? ==> ':' in value
  }

  /** What a scan for a value finds at a key: the key's last part. */
  ghost predicate Found(db: seq<Pair<string>>, field: Field, value: string, id: string) {
    exists key :: Get(db, key).Some? && HasPrefix(key, FieldPrefix(field, value)) && LastPart(key) == id
  }

  lemma CarriedIsShaped(lower: string -> string, u: Unit, field: Field, value: string)
    requires CleanUnit(u) && Carries(lower, u, field, value)
    ensures Shaped(field, value)
  {
    hide ColonFree, KindText;
    match field
    case Kind => KindTextInjective(u.kind, u.kind);
    case Word => WordColonFree(lower, u, value);
    case _ =>
  }

  lemma WordColonFree(lower: string -> string, u: Unit, w: string)
    requires Mentions(lower, u, w)
    ensures ColonFree(w)
  {
    if PayloadMentions(lower, u, w) {
      RunColonFree(lower(u.payload), w);
    } else {
      var k :| k in u.meta && IsWord(lower(u.meta[k]), w);
      RunColonFree(lower(u.meta[k]), w);
    }
  }

  lemma RunColonFree(t: string, w: string)
    requires IsWord(t, w)
    ensures ColonFree(w)
  {
    var i, j :| RunAt(t, i, j) && t[i..j] == w;
    forall n | 0 <= n < |w| ensures w[n] != ':' {
      assert w[n] == t[i + n] && WordChar(t[i + n]);
    }
  }

  /** The unit behind a field key in the index. */
  lemma FieldKeyOwner(lower: string -> string, units: set<Unit>, key: string, field: Field, value: string) returns (u: Unit, x: string)
    requires KeyOfSome(lower, units, key) && Clean(units) && Sought(field, value)
    requires HasPrefix(key, FieldPrefix(field, value))
    ensures u in units && x == value && Carries(lower, u, field, x) && key == FieldKey(field, x, u.id)
    ensures Shaped(field, x) && ColonFree(u.id)
  {
    hide Carries, Shaped, FieldKey, FieldPrefix, UnitKey, StampKey, ColonFree;
    u :| u in units && KeyOf(lower, u, key);
    UnitAndStampKeysApart(u.id, u.context, u.ts, field, value);
    assert FieldKeyOf(lower, u, key);
    var f, y :| Carries(lower, u, f, y) && key == FieldKey(f, y, u.id);
    CarriedIsShaped(lower, u, f, y);
    FieldsApart(f, y, u.id, field, value);
    PrefixExact(f, y, u.id, value);
    x := y;
  }

  lemma OwnerHasKey(lower: string -> string, units: set<Unit>, u: Unit, field: Field, value: string)
    requires u in units && Carries(lower, u, field, value)
    ensures KeyOfSome(lower, units, FieldKey(field, value, u.id))
  {
    hide Carries, FieldKey, UnitKey, StampKey;
    assert KeyOf(lower, u, FieldKey(field, value, u.id));
  }

  lemma IndexedKeys(lower: string -> string, enc: Unit -> string, units: set<Unit>, db: seq<Pair<string>>, key: string)
    requires Indexed(lower, enc, units, db)
    ensures Get(db, key).Some? <==> KeyOfSome(lower, units, key)
  {
  }

  /** A lookup answers whether the unit with that id carries the value. */
  lemma LookupExact(lower: string -> string, enc: Unit -> string, units: set<Unit>, db: seq<Pair<string>>, field: Field, value: string, id: string)
    requires Indexed(lower, enc, units, db) && Clean(units) && Sought(field, value)
    ensures Get(db, FieldKey(field, value, id)).Some? <==> Bears(lower, units, id, field, value)
  {
    hide Carries, Shaped, Get, Indexed, FieldPrefix, Clean, KeyOfSome;
    var key := FieldKey(field, value, id);
    IndexedKeys(lower, enc, units, db, key);
    if KeyOfSome(lower, units, key) {
      var u, x := FieldKeyOwner(lower, units, key, field, value);
      assert key[|FieldPrefix(field, value)|..] == id;
      assert FieldKey(field, x, u.id)[|FieldPrefix(field, value)|..] == u.id;
    }
    if Bears(lower, units, id, field, value) {
      var u :| u in units && u.id == id && Carries(lower, u, field, value);
      OwnerHasKey(lower, units, u, field, value);
    }
  }

  /** Whatever a unit carried when it was indexed stays findable under its id, also after
      another version with the same id has been indexed: nothing is ever removed. */
  lemma OnceCarriedStaysFound(lower: string -> string, enc: Unit -> string, units: set<Unit>, db: seq<Pair<string>>, u: Unit, field: Field, value: string)
    requires Indexed(lower, enc, units, db) && u in units && CleanUnit(u) && Carries(lower, u, field, value)
    ensures Found(db, field, value, u.id)
  {
    hide Carries, Shaped, Get, Indexed, LastPart, FieldPrefix, KeyOfSome, ColonFree;
    var key := FieldKey(field, value, u.id);
    OwnerHasKey(lower, units, u, field, value);
    IndexedKeys(lower, enc, units, db, key);
    CarriedIsShaped(lower, u, field, value);
    FieldKeyGivesIdBack(field, value, u.id);
    assert HasPrefix(key, FieldPrefix(field, value));
  }

  /** A scan finds the ids of exactly the units that carry the value. */
  lemma ScanExact(lower: string -> string, enc: Unit -> string, units: set<Unit>, db: seq<Pair<string>>, field: Field, value: string, id: string)
    requires Indexed(lower, enc, units, db) && Clean(units) && Sought(field, value)
    ensures Found(db, field, value, id) <==> Bears(lower, units, id, field, value)
  {
    hide Carries, Shaped, Get, Indexed, LastPart, FieldPrefix, KeyOfSome, ColonFree;
    if Found(db, field, value, id) {
      var key :| Get(db, key).Some? && HasPrefix(key, FieldPrefix(field, value)) && LastPart(key) == id;
      IndexedKeys(lower, enc, units, db, key);
      var u, x := FieldKeyOwner(lower, units, key, field, value);
      FieldKeyGivesIdBack(field, x, u.id);
    }
    if Bears(lower, units, id, field, value) {
      var u :| u in units && u.id == id && Carries(lower, u, field, value);
      OnceCarriedStaysFound(lower, enc, units, db, u, field, value);
    }
  }
}
