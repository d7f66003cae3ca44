/** The filter stages of a search: whichever collects and whichever narrows, the ids are those of
    the units that pass. */
module SearchStages {
  import opened Lex
  import opened Kv
  import opened SearchWords
  import opened SearchKeys
  import opened SearchIndex
  import opened SearchQuery

  // ---------- what the stages mean for the indexed units ----------

  lemma BearsOne(lower: string -> string, units: set<Unit>, id: string, field: Field, value: string, u: Unit)
    requires Clean(units) && u in units && u.id == id
    ensures Bears(lower, units, id, field, value) <==> Carries(lower, u, field, value)
  {
    hide CleanUnit, Carries;
  }

  lemma TextFoundExact(lower: string -> string, enc: Unit -> string, units: set<Unit>, db: seq<Pair<string>>, q: Request, id: string)
    requires Indexed(lower, enc, units, db) && Clean(units)
    ensures TextFound(db, lower, q.query, id) <==> AcceptsId(lower, units, ByText, q, id)
  {
    hide Indexed, Clean, IsWord, Found, Mentions, HasWord;
    WordsAreMentioned(lower);
    forall w, x ensures Found(db, Word, w, x) <==> Bears(lower, units, x, Word, w) {
      ScanExact(lower, enc, units, db, Word, w, x);
    }
    forall w ensures Hit(db, lower, q.query, w) <==> Relevant(lower, units, q.query, w) {
      HitIsRelevant(lower, units, db, q.query, w);
    }
    if AcceptsId(lower, units, ByText, q, id) {
      var u :| u in units && u.id == id && TextMatch(lower, units, q.query, u);
      forall w | Hit(db, lower, q.query, w) ensures Found(db, Word, w, id) {
        MatchMentions(lower, units, q.query, u, w);
        assert Carries(lower, u, Word, w);
        assert Bears(lower, units, id, Word, w);
      }
    }
    if TextFound(db, lower, q.query, id) {
      var w :| Hit(db, lower, q.query, w);
      var u :| u in units && u.id == id && Carries(lower, u, Word, w);
      forall x | Relevant(lower, units, q.query, x) ensures HasWord(lower, u, x) {
        assert Found(db, Word, x, id);
        BearsOne(lower, units, id, Word, x, u);
      }
    }
  }

  lemma MatchMentions(lower: string -> string, units: set<Unit>, query: string, u: Unit, w: string)
    requires TextMatch(lower, units, query, u) && Relevant(lower, units, query, w)
    ensures Mentions(lower, u, w)
  {
    hide HasWord, Mentions;
    MentionsExactly(lower, u, w);
  }

  lemma WordsAreMentioned(lower: string -> string)
    ensures forall u, w :: HasWord(lower, u, w) <==> Mentions(lower, u, w)
  {
    hide HasWord, Mentions;
    forall u, w ensures HasWord(lower, u, w) <==> Mentions(lower, u, w) {
      MentionsExactly(lower, u, w);
    }
  }

  lemma HitIsRelevant(lower: string -> string, units: set<Unit>, db: seq<Pair<string>>, query: string, w: string)
    requires forall x :: Found(db, Word, w, x) <==> Bears(lower, units, x, Word, w)
    ensures Hit(db, lower, query, w) <==> Relevant(lower, units, query, w)
  {
    hide IsWord, Found, Mentions, HasWord;
    WordsAreMentioned(lower);
    if Relevant(lower, units, query, w) {
      var u :| u in units && HasWord(lower, u, w);
      assert Carries(lower, u, Word, w);
      assert Bears(lower, units, u.id, Word, w);
    }
    if Hit(db, lower, query, w) {
      var x :| Found(db, Word, w, x);
      var u :| u in units && u.id == x && Carries(lower, u, Word, w);
      assert Mentions(lower, u, w);
    }
  }

  /** The values a one-of filter looks for. */
  function FieldOf(f: Filter): Field {
    match f
    case ByText => Word
    case ByContext => Context
    case ByAgent => Agent
    case ByKind => Kind
    case ByMeta => Meta
  }

  function Values(f: Filter, q: Request): seq<string> {
    match f
    case ByContext => [q.context]
    case ByAgent => q.agents
    case ByKind => seq(|q.kinds|, i requires 0 <= i < |q.kinds| => KindText(q.kinds[i]))
    case _ => []
  }

  predicate OneOf(f: Filter) {
    f.ByContext? || f.ByAgent? || f.ByKind?
  }

  lemma CarriesOne(lower: string -> string, units: set<Unit>, f: Filter, q: Request, u: Unit)
    requires OneOf(f)
    ensures (exists j :: 0 <= j < |Values(f, q)| && Carries(lower, u, FieldOf(f), Values(f, q)[j])) <==> Accepts(lower, units, f, q, u)
  {
    var vs := Values(f, q);
    match f
    case ByContext => assert vs[0] == q.context;
    case ByAgent =>
    case ByKind =>
      forall j | 0 <= j < |vs| ensures vs[j] == KindText(u.kind) <==> q.kinds[j] == u.kind {
        KindTextInjective(q.kinds[j], u.kind);
      }
      hide KindText;
      if u.kind in q.kinds {
        var j :| 0 <= j < |q.kinds| && q.kinds[j] == u.kind;
        assert vs[j] == KindText(u.kind);
      }
  }

  /** Both ways of applying a one-of filter accept an id exactly when its unit passes. */
  lemma OneOfExact(lower: string -> string, enc: Unit -> string, units: set<Unit>, db: seq<Pair<string>>, f: Filter, q: Request, id: string)
    requires Indexed(lower, enc, units, db) && Clean(units) && OneOf(f)
    ensures FoundAny(db, FieldOf(f), Values(f, q), id) <==> AcceptsId(lower, units, f, q, id)
    ensures HasAny(db, FieldOf(f), Values(f, q), id) <==> AcceptsId(lower, units, f, q, id)
  {
    hide Indexed, Clean, Found, Has, Carries, Accepts, Values;
    var field, vs := FieldOf(f), Values(f, q);
    forall j | 0 <= j < |vs|
      ensures Found(db, field, vs[j], id) <==> Bears(lower, units, id, field, vs[j])
      ensures Has(db, field, vs[j], id) <==> Bears(lower, units, id, field, vs[j])
    {
      ScanExact(lower, enc, units, db, field, vs[j], id);
      LookupHas(lower, enc, units, db, field, vs[j], id);
    }
    if AcceptsId(lower, units, f, q, id) {
      var u :| u in units && u.id == id && Accepts(lower, units, f, q, u);
      CarriesOne(lower, units, f, q, u);
      var j :| 0 <= j < |vs| && Carries(lower, u, field, vs[j]);
      assert Bears(lower, units, id, field, vs[j]);
    }
    if j :| 0 <= j < |vs| && Bears(lower, units, id, field, vs[j]) {
      var u :| u in units && u.id == id && Carries(lower, u, field, vs[j]);
      CarriesOne(lower, units, f, q, u);
    }
  }

  lemma LookupHas(lower: string -> string, enc: Unit -> string, units: set<Unit>, db: seq<Pair<string>>, field: Field, value: string, id: string)
    requires Indexed(lower, enc, units, db) && Clean(units) && Sought(field, value)
    ensures Has(db, field, value, id) <==> Bears(lower, units, id, field, value)
  {
    hide Indexed, Clean, Bears;
    LookupExact(lower, enc, units, db, field, value, id);
  }

  /** A unit with colon-free metadata carries `k:v` exactly when it maps `k` to `v`. */
  lemma MetaCarried(lower: string -> string, u: Unit, k: string, v: string)
    requires CleanUnit(u)
    ensures Carries(lower, u, Meta, MetaValue(k, v)) <==> k in u.meta && u.meta[k] == v
  {
    if Carries(lower, u, Meta, MetaValue(k, v)) {
      var l :| l in u.meta && MetaValue(k, v) == MetaValue(l, u.meta[l]);
      var s := MetaValue(k, v);
      assert s[|k|] == ':' && s[|l|] == ':';
      assert forall i :: 0 <= i < |s| && s[i] == ':' ==> i == |l|;
      assert s[..|l|] == l && s[..|k|] == k && s[|l| + 1..] == u.meta[l] && s[|k| + 1..] == v;
    }
  }

  /** The remaining metadata filters accept an id exactly when its unit has those entries. */
  lemma HasAllExact(lower: string -> string, enc: Unit -> string, units: set<Unit>, db: seq<Pair<string>>, filters: map<string, string>, id: string, u: Unit)
    requires Indexed(lower, enc, units, db) && Clean(units) && u in units && u.id == id
    ensures HasAll(db, filters, id) <==> forall k :: k in filters ==> k in u.meta && u.meta[k] == filters[k]
  {
    hide Indexed, Has, Carries, MetaValue, CleanUnit;
    forall k | k in filters ensures Has(db, Meta, MetaValue(k, filters[k]), id) <==> k in u.meta && u.meta[k] == filters[k] {
      MetaSought(k, filters[k]);
      LookupHas(lower, enc, units, db, Meta, MetaValue(k, filters[k]), id);
      BearsOne(lower, units, id, Meta, MetaValue(k, filters[k]), u);
      MetaCarried(lower, u, k, filters[k]);
    }
  }

  lemma MetaSought(k: string, v: string)
    ensures Sought(Meta, MetaValue(k, v))
  {
    assert MetaValue(k, v)[|k|] == ':';
  }

  // ---------- one stage ----------

  /** The first wanted filter collects from its index. */
  method Collect(lower: string -> string, ghost enc: Unit -> string, ghost units: set<Unit>, db: seq<Pair<string>>, f: Filter, q: Request)
    returns (m: set<string>)
    requires Indexed(lower, enc, units, db) && Wanted(f, q)
    ensures Clean(units) ==> forall id :: id in m <==> AcceptsId(lower, units, f, q, id)
  {
    hide Indexed, Clean, AcceptsId, TextFound, FoundAny;
    IndexedOrdered(lower, enc, units, db);
    match f
    case ByText =>
      m := TextMatches(db, lower, q.query);
      if Clean(units) {
        forall id ensures TextFound(db, lower, q.query, id) <==> AcceptsId(lower, units, f, q, id) {
          TextFoundExact(lower, enc, units, db, q, id);
        }
      }
    case ByMeta =>
      m := CollectMeta(lower, enc, units, db, q);
    case _ =>
      m := CollectAny(db, FieldOf(f), Values(f, q));
      if Clean(units) {
        forall id ensures FoundAny(db, FieldOf(f), Values(f, q), id) <==> AcceptsId(lower, units, f, q, id) {
          OneOfExact(lower, enc, units, db, f, q, id);
        }
      }
  }

  lemma IndexedOrdered(lower: string -> string, enc: Unit -> string, units: set<Unit>, db: seq<Pair<string>>)
    requires Indexed(lower, enc, units, db)
    ensures Ordered(db)
  {
  }

  /** Any one of the metadata filters collects, the others filter. */
  method CollectMeta(lower: string -> string, ghost enc: Unit -> string, ghost units: set<Unit>, db: seq<Pair<string>>, q: Request)
    returns (m: set<string>)
    requires Indexed(lower, enc, units, db) && q.meta != map[]
    ensures Clean(units) ==> forall id :: id in m <==> AcceptsId(lower, units, ByMeta, q, id)
  {
    hide Indexed, Clean, AcceptsId, Found, HasAll, MetaValue;
    IndexedOrdered(lower, enc, units, db);
    assert q.meta.Keys != {};
    var firstKey :| firstKey in q.meta;
    var ids := ScanIds(db, Meta, MetaValue(firstKey, q.meta[firstKey]));
    m := set id | id in ids;
    var remaining := q.meta - {firstKey};
    if |remaining| > 0 {
      m := KeepAll(db, m, remaining);
    }
    if Clean(units) {
      forall id ensures id in m <==> AcceptsId(lower, units, ByMeta, q, id) {
        CollectMetaExact(lower, enc, units, db, q, firstKey, id);
        if |remaining| == 0 {
          NoneRemaining(db, remaining, id);
        }
      }
    }
  }

  lemma NoneRemaining(db: seq<Pair<string>>, filters: map<string, string>, id: string)
    requires |filters| == 0
    ensures HasAll(db, filters, id)
  {
    assert filters == map[];
  }

  lemma CollectMetaExact(lower: string -> string, enc: Unit -> string, units: set<Unit>, db: seq<Pair<string>>, q: Request, first: string, id: string)
    requires Indexed(lower, enc, units, db) && Clean(units) && first in q.meta
    ensures Found(db, Meta, MetaValue(first, q.meta[first]), id) && HasAll(db, q.meta - {first}, id) <==> AcceptsId(lower, units, ByMeta, q, id)
  {
    hide Indexed, Found, HasAll, MetaValue, Carries, CleanUnit;
    MetaSought(first, q.meta[first]);
    ScanExact(lower, enc, units, db, Meta, MetaValue(first, q.meta[first]), id);
    var rest := q.meta - {first};
    if u :| u in units && u.id == id {
      BearsOne(lower, units, id, Meta, MetaValue(first, q.meta[first]), u);
      MetaCarried(lower, u, first, q.meta[first]);
      HasAllExact(lower, enc, units, db, rest, id, u);
      assert Accepts(lower, units, ByMeta, q, u) <==>
        (first in u.meta && u.meta[first] == q.meta[first]) && forall k :: k in rest ==> k in u.meta && u.meta[k] == rest[k];
    }
  }

  /** A later filter looks every id up. */
  method Narrow(lower: string -> string, ghost enc: Unit -> string, ghost units: set<Unit>, db: seq<Pair<string>>, f: Filter, q: Request, m: set<string>)
    returns (kept: set<string>)
    requires Indexed(lower, enc, units, db) && !f.ByText?
    ensures kept <= m
    ensures Clean(units) ==> forall id :: id in m && KnownId(units, id) ==> (id in kept <==> AcceptsId(lower, units, f, q, id))
  {
    hide Indexed, Clean, AcceptsId, HasAll, HasAny;
    if f.ByMeta? {
      kept := KeepAll(db, m, q.meta);
      if Clean(units) {
        forall id | KnownId(units, id) ensures HasAll(db, q.meta, id) <==> AcceptsId(lower, units, f, q, id) {
          KeepMetaExact(lower, enc, units, db, q, id);
        }
      }
    } else {
      kept := KeepAny(db, m, FieldOf(f), Values(f, q));
      if Clean(units) {
        forall id ensures HasAny(db, FieldOf(f), Values(f, q), id) <==> AcceptsId(lower, units, f, q, id) {
          OneOfExact(lower, enc, units, db, f, q, id);
        }
      }
    }
  }

  ghost predicate KnownId(units: set<Unit>, id: string) {
    exists u :: u in units && u.id == id
  }

  lemma KeepMetaExact(lower: string -> string, enc: Unit -> string, units: set<Unit>, db: seq<Pair<string>>, q: Request, id: string)
    requires Indexed(lower, enc, units, db) && Clean(units) && KnownId(units, id)
    ensures HasAll(db, q.meta, id) <==> AcceptsId(lower, units, ByMeta, q, id)
  {
    hide Indexed, HasAll, CleanUnit;
    var u :| u in units && u.id == id;
    HasAllExact(lower, enc, units, db, q.meta, id, u);
  }

  // ---------- all stages ----------

  ghost predicate AnyWanted(fs: set<Filter>, q: Request) {
    exists f :: f in fs && Wanted(f, q)
  }

  /** After the filters `fs`: nothing yet if none of them is wanted, else the ids that pass them. */
  ghost predicate Staged(lower: string -> string, units: set<Unit>, fs: set<Filter>, q: Request, m: set<string>) {
    forall id :: id in m <==> AnyWanted(fs, q) && PassesId(lower, units, fs, q, id)
  }

  lemma PassesOneMore(lower: string -> string, units: set<Unit>, fs: set<Filter>, f: Filter, q: Request, id: string)
    requires Clean(units) && Wanted(f, q)
    ensures PassesId(lower, units, fs + {f}, q, id) <==> PassesId(lower, units, fs, q, id) && AcceptsId(lower, units, f, q, id)
    ensures !AnyWanted(fs, q) ==> (PassesId(lower, units, fs + {f}, q, id) <==> AcceptsId(lower, units, f, q, id))
    ensures AcceptsId(lower, units, f, q, id) ==> KnownId(units, id)
    ensures PassesId(lower, units, fs, q, id) ==> KnownId(units, id)
    ensures AnyWanted(fs + {f}, q)
  {
    hide Wanted, Accepts, CleanUnit;
    assert f in fs + {f};
    if u :| u in units && u.id == id {
      assert forall v :: v in units && v.id == id ==> v == u;
      assert PassesId(lower, units, fs + {f}, q, id) <==> forall g :: g in fs + {f} && Wanted(g, q) ==> Accepts(lower, units, g, q, u);
      assert PassesId(lower, units, fs, q, id) <==> forall g :: g in fs && Wanted(g, q) ==> Accepts(lower, units, g, q, u);
    }
  }

  lemma UnwantedChangesNothing(lower: string -> string, units: set<Unit>, fs: set<Filter>, f: Filter, q: Request, m: set<string>)
    requires Staged(lower, units, fs, q, m) && !Wanted(f, q)
    ensures Staged(lower, units, fs + {f}, q, m)
  {
    hide Wanted, Accepts;
    assert forall g :: g in fs + {f} && Wanted(g, q) <==> g in fs && Wanted(g, q);
    assert AnyWanted(fs + {f}, q) <==> AnyWanted(fs, q) by {
      if AnyWanted(fs, q) {
        var g :| g in fs && Wanted(g, q);
        assert g in fs + {f};
      }
    }
    forall id ensures PassesId(lower, units, fs + {f}, q, id) <==> PassesId(lower, units, fs, q, id) {
    }
  }

  method Stage(lower: string -> string, ghost enc: Unit -> string, ghost units: set<Unit>, db: seq<Pair<string>>,
               ghost fs: set<Filter>, f: Filter, q: Request, started: bool, before: set<string>)
    returns (now: bool, m: set<string>)
    requires Indexed(lower, enc, units, db)
    requires started <==> AnyWanted(fs, q)
    requires Clean(units) ==> Staged(lower, units, fs, q, before)
    requires f.ByText? ==> fs == {}
    ensures now <==> AnyWanted(fs + {f}, q)
    ensures !now ==> m == before
    ensures Clean(units) ==> Staged(lower, units, fs + {f}, q, m)
  {
    hide Indexed, Clean, AcceptsId, PassesId, KnownId, Wanted;
    now, m := started || Wanted(f, q), before;
    if Wanted(f, q) {
      assert f in fs + {f};
      if !started {
        m := Collect(lower, enc, units, db, f, q);
      } else {
        m := Narrow(lower, enc, units, db, f, q, before);
      }
      if Clean(units) {
        forall id ensures id in m <==> PassesId(lower, units, fs + {f}, q, id) {
          PassesOneMore(lower, units, fs, f, q, id);
        }
      }
    } else {
      assert forall g :: g in fs ==> g in fs + {f};
      if Clean(units) {
        UnwantedChangesNothing(lower, units, fs, f, q, before);
      }
    }
  }

  const ALL: set<Filter> := {ByText, ByContext, ByAgent, ByKind, ByMeta}

  /** The stages in their order, and all units when no filter is given. */
  method MatchedIds(lower: string -> string, ghost enc: Unit -> string, ghost units: set<Unit>, db: seq<Pair<string>>, q: Request)
    returns (m: set<string>, total: nat)
    requires Indexed(lower, enc, units, db)
    ensures total == |m|
    ensures Clean(units) ==> forall id :: id in m <==> PassesId(lower, units, ALL, q, id)
  {
    hide Indexed, Clean, PassesId, Wanted, Get;
    var started, ids := Stage(lower, enc, units, db, {}, ByText, q, false, {});
    started, ids := Stage(lower, enc, units, db, {ByText}, ByContext, q, started, ids);
    started, ids := Stage(lower, enc, units, db, {ByText} + {ByContext}, ByAgent, q, started, ids);
    started, ids := Stage(lower, enc, units, db, {ByText} + {ByContext} + {ByAgent}, ByKind, q, started, ids);
    started, ids := Stage(lower, enc, units, db, {ByText} + {ByContext} + {ByAgent} + {ByKind}, ByMeta, q, started, ids);
    assert {ByText} + {ByContext} + {ByAgent} + {ByKind} + {ByMeta} == ALL;
    m, total := ids, |ids|;
    if !started {
      IndexedOrdered(lower, enc, units, db);
      var all, count := AllIds(db);
      if count > 0 {
        total := count;
        if |m| == 0 {
          m := all;
        }
      }
      forall id ensures id in all <==> PassesId(lower, units, ALL, q, id) {
        AllIdsExact(lower, enc, units, db, q, id);
      }
      assert m == all;
    } else if Clean(units) {
      assert Staged(lower, units, ALL, q, m);
    }
  }

  /** The ids of all stored units: one per key. */
  method AllIds(db: seq<Pair<string>>) returns (m: set<string>, count: nat)
    requires Ordered(db)
    ensures count == |m|
    ensures forall id :: id in m <==> Get(db, UnitKey(id)).Some?
  {
    hide Ordered, Get;
    var keys := ScanKeys(db, "wu:");
    m, count := {}, |keys|;
    for i := 0 to |keys|
      invariant |m| == i
      invariant forall id :: id in m <==> exists j :: 0 <= j < i && keys[j] == UnitKey(id)
    {
      assert keys[i] in keys;
      var id := keys[i][3..];
      assert keys[i] == UnitKey(id);
      assert forall x :: UnitKey(x)[3..] == x;
      m := m + {id};
    }
    forall id ensures id in m <==> Get(db, UnitKey(id)).Some? {
      assert HasPrefix(UnitKey(id), "wu:");
    }
  }

  lemma AllIdsExact(lower: string -> string, enc: Unit -> string, units: set<Unit>, db: seq<Pair<string>>, q: Request, id: string)
    requires Indexed(lower, enc, units, db) && !AnyWanted(ALL, q)
    ensures Get(db, UnitKey(id)).Some? <==> PassesId(lower, units, ALL, q, id)
  {
    hide Get, UnitKey, FieldKeyOf, Wanted, Accepts, Ordered;
    if u :| u in units && KeyOf(lower, u, UnitKey(id)) {
      if u.id != id {
        UnitKeyIsNoOther(lower, u, id);
      }
    }
    if PassesId(lower, units, ALL, q, id) {
      var u :| u in units && u.id == id;
      assert KeyOf(lower, u, UnitKey(id));
    }
  }
}
