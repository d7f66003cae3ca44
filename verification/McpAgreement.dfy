/** When the two MCP message stores give the same answers. */
module McpAgreement {
  import opened Lex
  import opened Text
  import opened Options
  import opened Seqs
  import opened Kv
  import opened McpKeys
  import opened McpStores

  // ---------- runs of stores ----------

  function MemoryAfter(log: seq<Message>): Memory {
    if log == [] then Memory(map[], map[], "") else MemoryStored(MemoryAfter(log[..|log| - 1]), log[|log| - 1])
  }

  function BadgerAfter(codec: Codec, log: seq<Message>): Badger {
    if log == [] then Badger([], "") else BadgerStored(codec, BadgerAfter(codec, log[..|log| - 1]), log[|log| - 1])
  }

  ghost predicate CleanMessage(m: Message) {
    ColonFree(m.id) && ColonFree(m.context) && ValidTime(m.ts)
  }

  /** Fresh colon-free ids, colon-free contexts, times from the epoch on. */
  ghost predicate Clean(log: seq<Message>) {
    && (forall i :: 0 <= i < |log| ==> CleanMessage(log[i]))
    && (forall i, j :: 0 <= i < j < |log| ==> log[i].id != log[j].id)
  }

  lemma CleanPrefix(log: seq<Message>)
    requires Clean(log) && log != []
    ensures Clean(log[..|log| - 1])
    ensures forall m :: m in log[..|log| - 1] ==> m.id != log[|log| - 1].id
  {
  }

  /** Both stores remember the context of the last message stored. */
  lemma SameLastContext(codec: Codec, log: seq<Message>)
    ensures MemoryAfter(log).context == BadgerAfter(codec, log).context
  {
  }

  // ---------- the memory store ----------

  /** A context's messages, newest first; equal times in order of arrival. */
  function Newest(log: seq<Message>, context: string): seq<Message> {
    if log == [] then []
    else
      var m := log[|log| - 1];
      if m.context == context then InsertNewest(Newest(log[..|log| - 1], context), m) else Newest(log[..|log| - 1], context)
  }

  function InsertNewest(ms: seq<Message>, m: Message): seq<Message> {
    if ms == [] then [m]
    else if ms[0].ts >= m.ts then [ms[0]] + InsertNewest(ms[1..], m)
    else [m] + ms
  }

  function Ids(ms: seq<Message>): (r: seq<string>)
    ensures |r| == |ms| && forall i :: 0 <= i < |ms| ==> r[i] == ms[i].id
  {
    if ms == [] then [] else [ms[0].id] + Ids(ms[1..])
  }

  ghost predicate Backed(messages: map<string, Message>, ms: seq<Message>) {
    forall i :: 0 <= i < |ms| ==> ms[i].id in messages && messages[ms[i].id] == ms[i]
  }

  ghost predicate Descending(ms: seq<Message>) {
    forall i, j :: 0 <= i < j < |ms| ==> ms[i].ts >= ms[j].ts
  }

  lemma {:induction false} InsertIdMatches(messages: map<string, Message>, ms: seq<Message>, m: Message)
    requires Backed(messages, ms) && m.id in messages && messages[m.id] == m
    ensures InsertId(messages, Ids(ms), m.id) == Ids(InsertNewest(ms, m))
  {
    if ms != [] {
      assert Ids(ms)[1..] == Ids(ms[1..]);
      assert Backed(messages, ms[1..]);
      InsertIdMatches(messages, ms[1..], m);
    }
  }

  lemma {:induction false} InsertLast(ms: seq<Message>, m: Message)
    requires forall i :: 0 <= i < |ms| ==> ms[i].ts >= m.ts
    ensures InsertNewest(ms, m) == ms + [m]
  {
    if ms != [] {
      InsertLast(ms[1..], m);
    }
  }

  /** A stable sort leaves what is already newest first as it is. */
  lemma {:induction false} SortKeepsSorted(messages: map<string, Message>, ms: seq<Message>)
    requires Backed(messages, ms) && Descending(ms)
    ensures StableSort(messages, Ids(ms)) == Ids(ms)
  {
    if ms != [] {
      var n := |ms| - 1;
      assert Ids(ms)[..n] == Ids(ms[..n]);
      SortKeepsSorted(messages, ms[..n]);
      InsertIdMatches(messages, ms[..n], ms[n]);
      InsertLast(ms[..n], ms[n]);
      assert ms[..n] + [ms[n]] == ms;
    }
  }

  lemma {:induction false} InsertMembers(ms: seq<Message>, m: Message, x: Message)
    ensures x in InsertNewest(ms, m) <==> x in ms || x == m
  {
    if ms != [] {
      InsertMembers(ms[1..], m, x);
      assert ms == [ms[0]] + ms[1..];
    }
  }

  lemma {:induction false} NewestMembers(log: seq<Message>, context: string, x: Message)
    ensures x in Newest(log, context) <==> x in log && x.context == context
  {
    if log != [] {
      var n := |log| - 1;
      NewestMembers(log[..n], context, x);
      assert log == log[..n] + [log[n]];
      if log[n].context == context {
        InsertMembers(Newest(log[..n], context), log[n], x);
      }
    }
  }

  ghost predicate Earlier(log: seq<Message>, a: Message, b: Message) {
    exists i, j :: 0 <= i < j < |log| && log[i] == a && log[j] == b
  }

  /** Newest first, and equal times in order of arrival. */
  ghost predicate InArrivalOrder(log: seq<Message>, ms: seq<Message>) {
    forall i, j :: 0 <= i < j < |ms| ==> ms[i].ts > ms[j].ts || (ms[i].ts == ms[j].ts && Earlier(log, ms[i], ms[j]))
  }

  lemma {:induction false} InsertInOrder(log: seq<Message>, ms: seq<Message>, m: Message)
    requires InArrivalOrder(log, ms)
    requires forall i :: 0 <= i < |ms| ==> Earlier(log, ms[i], m)
    ensures InArrivalOrder(log, InsertNewest(ms, m))
  {
    hide Earlier;
    if ms != [] {
      if ms[0].ts >= m.ts {
        assert InArrivalOrder(log, ms[1..]);
        InsertInOrder(log, ms[1..], m);
        var rest := InsertNewest(ms[1..], m);
        forall j | 0 <= j < |rest|
          ensures ms[0].ts > rest[j].ts || (ms[0].ts == rest[j].ts && Earlier(log, ms[0], rest[j]))
        {
          InsertMembers(ms[1..], m, rest[j]);
          assert rest[j] in rest;
          if rest[j] != m {
            var i :| 0 <= i < |ms[1..]| && ms[1..][i] == rest[j];
            assert ms[i + 1] == rest[j];
          }
        }
      } else {
        forall j | 0 <= j < |ms| ensures m.ts > ms[j].ts {
        }
      }
    }
  }

  lemma EarlierExtends(log: seq<Message>, n: nat, a: Message, b: Message)
    requires n <= |log|
    ensures Earlier(log[..n], a, b) ==> Earlier(log, a, b)
  {
    if Earlier(log[..n], a, b) {
      var i, j :| 0 <= i < j < n && log[..n][i] == a && log[..n][j] == b;
      assert log[i] == a && log[j] == b;
    }
  }

  lemma {:induction false} NewestInOrder(log: seq<Message>, context: string)
    ensures InArrivalOrder(log, Newest(log, context))
  {
    if log != [] {
      var n := |log| - 1;
      var ms := Newest(log[..n], context);
      NewestInOrder(log[..n], context);
      forall i, j | 0 <= i < j < |ms| ensures ms[i].ts > ms[j].ts || (ms[i].ts == ms[j].ts && Earlier(log, ms[i], ms[j])) {
        EarlierExtends(log, n, ms[i], ms[j]);
      }
      if log[n].context == context {
        forall i | 0 <= i < |ms| ensures Earlier(log, ms[i], log[n]) {
          NewestMembers(log[..n], context, ms[i]);
          assert ms[i] in ms;
          var k :| 0 <= k < n && log[..n][k] == ms[i];
          assert log[k] == ms[i];
        }
        InsertInOrder(log, ms, log[n]);
      }
    }
  }

  lemma {:induction false} MemoryBacked(log: seq<Message>)
    requires Clean(log)
    ensures Backed(MemoryAfter(log).messages, log)
  {
    if log != [] {
      CleanPrefix(log);
      MemoryBacked(log[..|log| - 1]);
    }
  }

  lemma NewestBacked(log: seq<Message>, context: string, messages: map<string, Message>)
    requires Backed(messages, log)
    ensures Backed(messages, Newest(log, context))
  {
    var ms := Newest(log, context);
    forall i | 0 <= i < |ms| ensures ms[i].id in messages && messages[ms[i].id] == ms[i] {
      NewestMembers(log, context, ms[i]);
      assert ms[i] in ms;
      var k :| 0 <= k < |log| && log[k] == ms[i];
    }
  }

  /** The time index of the memory store is always sorted newest first: it lists the
      context's messages by time, equal times in order of arrival. */
  lemma {:induction false} MemoryIndexIsNewestFirst(log: seq<Message>, context: string)
    requires Clean(log)
    ensures MemoryIds(MemoryAfter(log), context) == Ids(Newest(log, context))
    ensures InArrivalOrder(log, Newest(log, context))
  {
    NewestInOrder(log, context);
    if log != [] {
      var n := |log| - 1;
      var before, m := log[..n], log[n];
      CleanPrefix(log);
      MemoryIndexIsNewestFirst(before, context);
      if m.context == context {
        var ms, messages := Newest(before, context), MemoryAfter(log).messages;
        MemoryBacked(log);
        assert Backed(messages, before);
        NewestBacked(before, context, messages);
        assert Descending(ms);
        SortKeepsSorted(messages, ms);
        InsertIdMatches(messages, ms, m);
        var ids := Ids(ms) + [m.id];
        assert ids[..|ids| - 1] == Ids(ms) && ids[|ids| - 1] == m.id;
        assert StableSort(messages, ids) == InsertId(messages, StableSort(messages, Ids(ms)), m.id);
      }
    }
  }

  lemma {:induction false} FetchBacked(messages: map<string, Message>, ms: seq<Message>)
    requires Backed(messages, ms)
    ensures Fetch(messages, Ids(ms)) == ms
  {
    if ms != [] {
      assert Backed(messages, ms[1..]) && Ids(ms)[1..] == Ids(ms[1..]);
      FetchBacked(messages, ms[1..]);
    }
  }

  /** What the memory store lists for a context. */
  function MemoryList(log: seq<Message>, context: string): seq<Message> {
    Fetch(MemoryAfter(log).messages, MemoryIds(MemoryAfter(log), context))
  }

  lemma MemoryListIsNewest(log: seq<Message>, context: string)
    requires Clean(log)
    ensures MemoryList(log, context) == Newest(log, context)
  {
    MemoryIndexIsNewestFirst(log, context);
    MemoryBacked(log);
    NewestBacked(log, context, MemoryAfter(log).messages);
    FetchBacked(MemoryAfter(log).messages, Newest(log, context));
  }

  // ---------- the Badger store ----------

  function KeyOf(m: Message): string {
    TimeKey(m.context, m.ts, m.id)
  }

  /** The database holds each stored message under its key and its time key, and no
      other key starts like a time key. */
  ghost predicate Holds(codec: Codec, log: seq<Message>, db: seq<Pair<string>>) {
    && Ordered(db)
    && (forall e :: e in db && HasPrefix(e.key, "t:") ==> IsKeyOf(log, e.key))
    && (forall m :: m in log ==> Pair(KeyOf(m), MARK) in db && Pair(MessageKey(m.context, m.id), codec.enc(m)) in db)
  }

  ghost predicate IsKeyOf(log: seq<Message>, key: string) {
    exists m :: m in log && key == KeyOf(m)
  }

  lemma StoreHolds(codec: Codec, log: seq<Message>, b: Badger, m: Message)
    requires Holds(codec, log, b.db) && CleanMessage(m)
    requires forall x :: x in log ==> CleanMessage(x) && x.id != m.id
    ensures Holds(codec, log + [m], BadgerStored(codec, b, m).db)
  {
    hide Less, MessageKey, TypeKey, TimeKey;
    var mk, tk, yk := MessageKey(m.context, m.id), KeyOf(m), TypeKey(m.context, m.kind, m.ts, m.id);
    OtherKeysApart(m.context, m.kind, m.ts, m.id);
    var db1 := Put(b.db, mk, codec.enc(m));
    var db2 := Put(db1, tk, MARK);
    var db3 := Put(db2, yk, MARK);
    PutOrdered(b.db, mk, codec.enc(m));
    PutOrdered(db1, tk, MARK);
    PutOrdered(db2, yk, MARK);
    forall e ensures e in db3 <==>
      if e.key == yk then e.value == MARK else if e.key == tk then e.value == MARK
      else if e.key == mk then e.value == codec.enc(m) else e in b.db
    {
      PutMembers(b.db, mk, codec.enc(m), e);
      PutMembers(db1, tk, MARK, e);
      PutMembers(db2, yk, MARK, e);
    }
    hide Put;
    forall e | e in db3 && HasPrefix(e.key, "t:") ensures IsKeyOf(log + [m], e.key) {
      if e.key == tk {
        assert m in log + [m];
      } else {
        var x :| x in log && e.key == KeyOf(x);
        assert x in log + [m];
      }
    }
    forall x | x in log + [m]
      ensures Pair(KeyOf(x), MARK) in db3 && Pair(MessageKey(x.context, x.id), codec.enc(x)) in db3
    {
      OtherKeysApart(x.context, x.kind, x.ts, x.id);
      if x in log {
        MessageKeyInjective(x.context, x.id, m.context, m.id);
      }
    }
  }

  lemma NothingHeld(codec: Codec)
    ensures Holds(codec, [], [])
  {
  }

  lemma {:induction false} BadgerHolds(codec: Codec, log: seq<Message>)
    requires Clean(log)
    ensures Holds(codec, log, BadgerAfter(codec, log).db)
  {
    hide Holds, BadgerStored;
    if log == [] {
      NothingHeld(codec);
    } else {
      var n := |log| - 1;
      CleanPrefix(log);
      AllClean(log);
      BadgerHolds(codec, log[..n]);
      StoreHolds(codec, log[..n], BadgerAfter(codec, log[..n]), log[n]);
      assert log[..n] + [log[n]] == log;
    }
  }

  // ----- the type index -----

  ghost predicate IsTypeKeyOf(log: seq<Message>, key: string) {
    exists m :: m in log && key == "type:" + m.context + ":" + m.kind + ":" + Stamp(m.ts) + ":" + m.id
  }

  lemma TypeKeyStep(codec: Codec, b: Badger, m: Message, key: string)
    requires HasPrefix(key, "type:")
    ensures Get(BadgerStored(codec, b, m).db, key) == if key == TypeKey(m.context, m.kind, m.ts, m.id) then Some(MARK) else Get(b.db, key)
  {
    hide Stamp, Get, Put;
    var mk, tk, yk := MessageKey(m.context, m.id), TimeKey(m.context, m.ts, m.id), TypeKey(m.context, m.kind, m.ts, m.id);
    assert mk[0] == 'm' && tk[1] == ':' && key[..5] == "type:";
    assert key[0] == key[..5][0] && key[1] == key[..5][1];
    hide MessageKey, TimeKey, TypeKey;
    var db1 := Put(b.db, mk, codec.enc(m));
    var db2 := Put(db1, tk, MARK);
    GetPut(b.db, mk, codec.enc(m), key);
    GetPut(db1, tk, MARK, key);
    GetPut(db2, yk, MARK, key);
  }

  lemma TypeKeySnoc(log: seq<Message>, m: Message, key: string)
    ensures IsTypeKeyOf(log + [m], key) <==> IsTypeKeyOf(log, key) || key == TypeKey(m.context, m.kind, m.ts, m.id)
  {
    hide Stamp;
    assert m in log + [m];
    if IsTypeKeyOf(log, key) {
      var x :| x in log && key == "type:" + x.context + ":" + x.kind + ":" + Stamp(x.ts) + ":" + x.id;
      assert x in log + [m];
    }
  }

  lemma NoTypeKeys(key: string)
    ensures !IsTypeKeyOf([], key) && Get<string>([], key) == None
  {
  }

  /** The type index holds exactly one entry per message, under its context, type, time and id. */
  lemma {:induction false} TypeIndexExactly(codec: Codec, log: seq<Message>, key: string)
    requires HasPrefix(key, "type:")
    ensures Get(BadgerAfter(codec, log).db, key).Some? <==> IsTypeKeyOf(log, key)
  {
    hide IsTypeKeyOf, Get, BadgerStored, TypeKey;
    if log == [] {
      NoTypeKeys(key);
    } else {
      var n := |log| - 1;
      TypeIndexExactly(codec, log[..n], key);
      assert log == log[..n] + [log[n]];
      TypeKeySnoc(log[..n], log[n], key);
      TypeKeyStep(codec, BadgerAfter(codec, log[..n]), log[n], key);
    }
  }

  // ----- a reverse scan meets every entry of the prefix, newest first -----

  lemma ScanDownIsAll(db: seq<Pair<string>>, prefix: string)
    requires Ordered(db) && BoundedAbove(View(db, true), prefix)
    ensures ScanDown(db, prefix) == Reversed(Entries(db, prefix))
  {
    hide Seek, Visited, FirstKey, Entries;
    ViewInOrder(db, true);
    ScanIsEntries(View(db, true), prefix, true);
    EntriesReversed(db, prefix);
  }

  lemma HoldsBounded(codec: Codec, log: seq<Message>, db: seq<Pair<string>>, context: string)
    requires Holds(codec, log, db) && ColonFree(context)
    requires forall m :: m in log ==> CleanMessage(m)
    ensures BoundedAbove(View(db, true), TimePrefix(context))
  {
    var v, prefix := View(db, true), TimePrefix(context);
    forall i | 0 <= i < |v| && HasPrefix(v[i].key, prefix) ensures Leq(v[i].key, prefix + AllOnes()) {
      var e := db[|db| - 1 - i];
      assert v[i] == e && e in db;
      var m := EntryMessage(codec, log, db, context, e);
      TimeKeyBounded(context, m.ts, m.id, AllOnes());
    }
  }

  /** The message behind an entry of a context's time index. */
  lemma EntryMessage(codec: Codec, log: seq<Message>, db: seq<Pair<string>>, context: string, e: Pair<string>) returns (m: Message)
    requires Holds(codec, log, db) && ColonFree(context) && e in db && HasPrefix(e.key, TimePrefix(context))
    requires forall m :: m in log ==> CleanMessage(m)
    ensures m in log && m.context == context && e.key == KeyOf(m)
  {
    assert e.key[..2] == TimePrefix(context)[..2] == "t:";
    var x :| x in log && e.key == KeyOf(x);
    TimePrefixExact(context, x.context, x.ts, x.id);
    m := x;
  }

  lemma LoadFindsMessage(codec: Codec, log: seq<Message>, db: seq<Pair<string>>, m: Message)
    requires Faithful(codec) && Holds(codec, log, db) && m in log && CleanMessage(m)
    ensures Load(codec, db, m.context, KeyOf(m)) == Some(m)
  {
    hide Split, Less;
    TimeKeyGivesIdBack(m.context, m.ts, m.id);
    GetMembers(db, MessageKey(m.context, m.id), codec.enc(m));
  }

  lemma {:induction false} LoadAllShape(codec: Codec, log: seq<Message>, db: seq<Pair<string>>, context: string, es: seq<Pair<string>>)
    requires Faithful(codec) && Holds(codec, log, db) && ColonFree(context)
    requires forall m :: m in log ==> CleanMessage(m)
    requires forall k :: 0 <= k < |es| ==> es[k] in db && HasPrefix(es[k].key, TimePrefix(context))
    ensures var ms := LoadAll(codec, db, context, es);
      |ms| == |es| && forall k :: 0 <= k < |es| ==> ms[k] in log && ms[k].context == context && es[k].key == KeyOf(ms[k])
  {
    hide Load, Holds, TimePrefix, KeyOf;
    if es != [] {
      var m := EntryMessage(codec, log, db, context, es[0]);
      LoadFindsMessage(codec, log, db, m);
      LoadAllShape(codec, log, db, context, es[1..]);
    }
  }

  /** What the Badger store lists for a context. */
  function BadgerList(codec: Codec, log: seq<Message>, context: string): seq<Message> {
    BadgerMessages(codec, BadgerAfter(codec, log).db, context)
  }

  /** Newest first, and equal times by descending id. */
  ghost predicate InKeyOrder(ms: seq<Message>) {
    forall i, j :: 0 <= i < j < |ms| ==> Above(ms[i], ms[j])
  }

  predicate Above(a: Message, b: Message) {
    a.ts > b.ts || (a.ts == b.ts && Less(b.id, a.id))
  }

  lemma BadgerListShape(codec: Codec, log: seq<Message>, context: string) returns (es: seq<Pair<string>>)
    requires Faithful(codec) && Clean(log) && ColonFree(context)
    ensures var ms := BadgerList(codec, log, context);
      && |ms| == |es| && (forall k :: 0 <= k < |es| ==> ms[k] in log && ms[k].context == context && es[k].key == KeyOf(ms[k]))
      && es == Reversed(Entries(BadgerAfter(codec, log).db, TimePrefix(context)))
  {
    hide Holds, BadgerAfter, ScanDown, LoadAll, TimePrefix, KeyOf;
    var db, prefix := BadgerAfter(codec, log).db, TimePrefix(context);
    BadgerHolds(codec, log);
    AllClean(log);
    HoldsOrdered(codec, log, db);
    HoldsBounded(codec, log, db, context);
    ScanDownIsAll(db, prefix);
    es := ScanDown(db, prefix);
    forall k | 0 <= k < |es| ensures es[k] in db && HasPrefix(es[k].key, prefix) {
      var e := Entries(db, prefix)[|es| - 1 - k];
      assert es[k] == e && e in Entries(db, prefix);
      EntriesMembers(db, prefix, e);
    }
    LoadAllShape(codec, log, db, context, es);
  }

  lemma HoldsOrdered(codec: Codec, log: seq<Message>, db: seq<Pair<string>>)
    requires Holds(codec, log, db)
    ensures Ordered(db)
  {
  }

  lemma AllClean(log: seq<Message>)
    requires Clean(log)
    ensures forall m :: m in log ==> CleanMessage(m)
  {
  }

  lemma ListedInKeyOrder(context: string, es: seq<Pair<string>>, ms: seq<Message>)
    requires |es| == |ms| && forall i, j :: 0 <= i < j < |es| ==> Less(es[j].key, es[i].key)
    requires forall k :: 0 <= k < |es| ==> ms[k].context == context && es[k].key == KeyOf(ms[k]) && CleanMessage(ms[k])
    ensures InKeyOrder(ms)
  {
    hide Less, TimePrefix, TimeKey;
    forall i, j | 0 <= i < j < |ms| ensures Above(ms[i], ms[j]) {
      TimeKeyOrder(context, ms[j].ts, ms[j].id, ms[i].ts, ms[i].id);
    }
  }

  lemma ListedMember(codec: Codec, log: seq<Message>, db: seq<Pair<string>>, context: string, es: seq<Pair<string>>, ms: seq<Message>, x: Message)
    requires Holds(codec, log, db) && Clean(log) && es == Reversed(Entries(db, TimePrefix(context))) && |es| == |ms|
    requires forall k :: 0 <= k < |es| ==> ms[k] in log && ms[k].context == context && es[k].key == KeyOf(ms[k])
    requires x in log && x.context == context
    ensures x in ms
  {
    hide Entries, Less, TimePrefix, TimeKey, Clean;
    AllClean(log);
    var e, found := Pair(KeyOf(x), MARK), Entries(db, TimePrefix(context));
    TimePrefixExact(context, x.context, x.ts, x.id);
    EntriesMembers(db, TimePrefix(context), e);
    var k :| 0 <= k < |found| && found[k] == e;
    assert es[|es| - 1 - k] == e;
    var y := ms[|es| - 1 - k];
    TimeKeyOrder(context, x.ts, x.id, y.ts, y.id);
    SameIdSame(log, x, y);
  }

  /** The Badger store lists exactly the context's messages, by time and then id, both downwards. */
  lemma BadgerListInKeyOrder(codec: Codec, log: seq<Message>, context: string)
    requires Faithful(codec) && Clean(log) && ColonFree(context)
    ensures InKeyOrder(BadgerList(codec, log, context))
    ensures forall x :: x in BadgerList(codec, log, context) <==> x in log && x.context == context
  {
    hide BadgerList, BadgerAfter, Entries, TimePrefix, KeyOf, Holds, Clean, InKeyOrder, CleanMessage;
    var ms, db, prefix := BadgerList(codec, log, context), BadgerAfter(codec, log).db, TimePrefix(context);
    var es := BadgerListShape(codec, log, context);
    BadgerHolds(codec, log);
    AllClean(log);
    HoldsOrdered(codec, log, db);
    EntriesOrdered(db, prefix);
    forall i, j | 0 <= i < j < |es| ensures Less(es[j].key, es[i].key) {
      var found, n := Entries(db, prefix), |es| - 1;
      assert es[i] == found[n - i] && es[j] == found[n - j];
    }
    ListedInKeyOrder(context, es, ms);
    forall x | x in log && x.context == context ensures x in ms {
      ListedMember(codec, log, db, context, es, ms, x);
    }
  }

  lemma SameIdSame(log: seq<Message>, x: Message, y: Message)
    requires Clean(log) && x in log && y in log && x.id == y.id
    ensures x == y
  {
  }

  // ---------- agreement ----------

  lemma AboveAsymmetric(a: Message, b: Message)
    requires Above(a, b)
    ensures !Above(b, a) && a != b
  {
    if a.ts == b.ts {
      LessAsymmetric(b.id, a.id);
    }
  }

  /** Messages of one context with equal times arrived in descending order of id. */
  ghost predicate TiesArriveDescending(log: seq<Message>, context: string) {
    forall i, j :: 0 <= i < j < |log| && log[i].context == context && log[j].context == context && log[i].ts == log[j].ts ==>
      Less(log[j].id, log[i].id)
  }

  /** The two stores list the same messages in the same order exactly when ties in time
      happened to arrive in descending order of id; in particular when there are none. */
  lemma StoresAgreeExactly(codec: Codec, log: seq<Message>, context: string)
    requires Faithful(codec) && Clean(log) && ColonFree(context)
    ensures MemoryList(log, context) == BadgerList(codec, log, context) <==> TiesArriveDescending(log, context)
  {
    hide MemoryList, BadgerList;
    MemoryListIsNewest(log, context);
    NewestInOrder(log, context);
    BadgerListInKeyOrder(codec, log, context);
    var a, b := Newest(log, context), BadgerList(codec, log, context);
    hide Newest;
    if TiesArriveDescending(log, context) {
      forall i, j | 0 <= i < j < |a| ensures Above(a[i], a[j]) {
        NewestMembers(log, context, a[i]);
        NewestMembers(log, context, a[j]);
        assert a[i] in a && a[j] in a;
      }
      forall x ensures x in a <==> x in b {
        NewestMembers(log, context, x);
      }
      forall x, y | Above(x, y) ensures !Above(y, x) {
        AboveAsymmetric(x, y);
      }
      SortedUnique(a, b, Above);
    }
    if a == b {
      forall i, j | 0 <= i < j < |log| && log[i].context == context && log[j].context == context && log[i].ts == log[j].ts
        ensures Less(log[j].id, log[i].id)
      {
        TiedPair(log, context, a, i, j);
      }
    }
  }

  lemma TiedPair(log: seq<Message>, context: string, a: seq<Message>, i: nat, j: nat)
    requires Clean(log) && a == Newest(log, context) && InArrivalOrder(log, a) && InKeyOrder(a)
    requires i < j < |log| && log[i].context == context && log[j].context == context && log[i].ts == log[j].ts
    ensures Less(log[j].id, log[i].id)
  {
    NewestMembers(log, context, log[i]);
    NewestMembers(log, context, log[j]);
    var p :| 0 <= p < |a| && a[p] == log[i];
    var q :| 0 <= q < |a| && a[q] == log[j];
    assert p != q;
    if p < q {
      assert Above(a[p], a[q]);
    }
  }

  /** With distinct times in each context, both stores answer every read alike. */
  lemma StoresAnswerAlike(codec: Codec, log: seq<Message>, asked: string, limit: int, q: Query, matches: (string, string) -> bool)
    requires Faithful(codec) && Clean(log) && ColonFree(asked) && ColonFree(q.context)
    requires forall i, j :: 0 <= i < j < |log| && log[i].context == log[j].context ==> log[i].ts != log[j].ts
    ensures var m, b := MemoryAfter(log), BadgerAfter(codec, log);
      var c := if asked == "" && m.context != "" then m.context else asked;
      var d := if q.context == "" && m.context != "" then m.context else q.context;
      && m.context == b.context
      && Fetch(m.messages, Take(MemoryIds(m, c), Limit(limit))) == Take(BadgerMessages(codec, b.db, c), Limit(limit))
      && SkipOffset(Take(Matching(Fetch(m.messages, MemoryIds(m, d)), matches, q.text), Limit(q.limit)), q.offset)
         == SkipOffset(Take(Matching(BadgerMessages(codec, b.db, d), matches, q.text), Limit(q.limit)), q.offset)
  {
    hide Fetch, BadgerMessages, MemoryIds, Matching;
    SameLastContext(codec, log);
    LastContextClean(log);
    var m := MemoryAfter(log);
    var c := if asked == "" && m.context != "" then m.context else asked;
    var d := if q.context == "" && m.context != "" then m.context else q.context;
    StoresAgreeExactly(codec, log, c);
    StoresAgreeExactly(codec, log, d);
    FetchOfTake(log, c, Limit(limit));
  }

  lemma LastContextClean(log: seq<Message>)
    requires Clean(log)
    ensures ColonFree(MemoryAfter(log).context)
  {
  }

  lemma FetchOfTake(log: seq<Message>, context: string, n: nat)
    requires Clean(log)
    ensures Fetch(MemoryAfter(log).messages, Take(MemoryIds(MemoryAfter(log), context), n)) == Take(MemoryList(log, context), n)
  {
    MemoryListIsNewest(log, context);
    MemoryIndexIsNewestFirst(log, context);
    MemoryBacked(log);
    var messages, ms := MemoryAfter(log).messages, Newest(log, context);
    NewestBacked(log, context, messages);
    var front := Take(ms, n);
    assert Take(Ids(ms), n) == Ids(front);
    assert Backed(messages, front);
    FetchBacked(messages, front);
  }

  /** The context a read is about: the one asked for, or else that of the last message stored. */
  function ContextMeant(log: seq<Message>, asked: string): string {
    if asked == "" && log != [] then log[|log| - 1].context else asked
  }

  lemma ContextMeantIsUsed(log: seq<Message>, asked: string)
    ensures (if asked == "" && MemoryAfter(log).context != "" then MemoryAfter(log).context else asked) == ContextMeant(log, asked)
  {
  }

  /** What a search answers, position by position. */
  lemma FoundExactly(all: seq<Message>, matches: (string, string) -> bool, q: Query) returns (at: seq<nat>)
    ensures forall i, j :: 0 <= i < j < |at| ==> at[i] < at[j]
    ensures forall k :: k in at <==> 0 <= k < |all| && Hit(all[k], matches, q.text)
    ensures FoundAt(all, at, q, SkipOffset(Take(Matching(all, matches, q.text), Limit(q.limit)), q.offset))
  {
    hide Take, SkipOffset, Matching, Hit;
    at := MatchingExactly(all, matches, q.text, 0);
    assert all[0..] == all;
    var hits := Matching(all, matches, q.text);
    TakeExactly(hits, Limit(q.limit));
    SkipExactly(Take(hits, Limit(q.limit)), q.offset);
  }

  /** The answer is the front of the matches, as many as the limit (or ten), from the offset on
      when that lies inside. */
  ghost predicate FoundAt(all: seq<Message>, at: seq<nat>, q: Query, found: seq<Message>) {
    var n := if q.limit <= 0 then 10 else q.limit;
    var h := if |at| <= n then |at| else n;
    var k := if 0 < q.offset < h then q.offset else 0;
    |found| == h - k && forall i :: 0 <= i < |found| ==> at[k + i] < |all| && found[i] == all[at[k + i]]
  }

  /** Store the same messages in both stores. */
  method FillBoth(codec: Codec, log: seq<Message>) returns (memory: MemoryStore, badger: BadgerStore)
    ensures fresh(memory) && fresh(badger) && badger.codec == codec
    ensures memory.Contents() == MemoryAfter(log) && badger.Contents() == BadgerAfter(codec, log)
  {
    hide MemoryStored, BadgerStored;
    memory := new MemoryStore();
    badger := new BadgerStore(codec);
    assert log[..0] == [];
    for i := 0 to |log|
      invariant memory.Contents() == MemoryAfter(log[..i]) && badger.Contents() == BadgerAfter(codec, log[..i]) && badger.codec == codec
    {
      assert log[..i + 1][..i] == log[..i] && log[..i + 1][i] == log[i];
      memory.StoreMessage(log[i]);
      badger.StoreMessage(log[i]);
    }
    assert log[..|log|] == log;
  }

  /** Both stores themselves, filled with the same messages, give the same answers: the newest
      messages of the context, and the front of those that match, from the offset on.  `at` are
      the positions of the matches among the context's messages. */
  method AskBoth(codec: Codec, log: seq<Message>, asked: string, limit: int, q: Query, matches: (string, string) -> bool)
    returns (recent: (seq<Message>, seq<Message>), found: (seq<Message>, seq<Message>), ghost at: seq<nat>)
    requires Faithful(codec) && Clean(log) && ColonFree(asked) && ColonFree(q.context)
    requires forall i, j :: 0 <= i < j < |log| && log[i].context == log[j].context ==> log[i].ts != log[j].ts
    ensures var all, n := Newest(log, ContextMeant(log, asked)), if limit <= 0 then 10 else limit;
      && recent.0 == recent.1 && |recent.0| == (if |all| <= n then |all| else n)
      && forall i :: 0 <= i < |recent.0| ==> recent.0[i] == all[i]
    ensures var all := Newest(log, ContextMeant(log, q.context));
      && (forall i, j :: 0 <= i < j < |at| ==> at[i] < at[j])
      && (forall k :: k in at <==> 0 <= k < |all| && (q.text == "" || matches(all[k].content, q.text)))
      && found.0 == found.1 && FoundAt(all, at, q, found.0)
  {
    hide Clean, Fetch, BadgerMessages, MemoryIds, Matching, Take, SkipOffset, ColonFree, Newest, MemoryAfter, BadgerAfter, FoundAt, Faithful;
    var memory, badger := FillBoth(codec, log);
    StoresAnswerAlike(codec, log, asked, limit, q, matches);
    ContextMeantIsUsed(log, asked);
    ContextMeantIsUsed(log, q.context);
    FetchOfTake(log, ContextMeant(log, asked), Limit(limit));
    MemoryListIsNewest(log, ContextMeant(log, asked));
    MemoryListIsNewest(log, ContextMeant(log, q.context));
    var recentMemory := memory.GetRecentMessages(asked, limit);
    var recentBadger := badger.GetRecentMessages(asked, limit);
    var foundMemory := memory.SearchMessages(q, matches);
    var foundBadger := badger.SearchMessages(q, matches);
    recent, found := (recentMemory, recentBadger), (foundMemory, foundBadger);
    TakeExactly(Newest(log, ContextMeant(log, asked)), Limit(limit));
    at := FoundExactly(Newest(log, ContextMeant(log, q.context)), matches, q);
  }
}
