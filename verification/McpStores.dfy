/** The two MCP message stores: sorted slices in memory, and encoded keys on Badger. */
module McpStores {
  import opened Lex
  import opened Options
  import opened Seqs
  import opened Kv
  import opened McpKeys

  /** A conversation message; `rest` stands for the fields the stores only pass through. */
  datatype Message = Message(id: string, context: string, kind: string, content: string, ts: int, rest: string)

  datatype Codec = Codec(enc: Message -> string, dec: string -> Option<Message>)

  ghost predicate Faithful(c: Codec) {
    forall m: Message :: c.dec(c.enc(m)) == Some(m)
  }

  /** A type-free search: `matches` is the case-insensitive substring test. */
  datatype Query = Query(context: string, text: string, limit: int, offset: int)

  function Limit(limit: int): nat {
    if limit <= 0 then 10 else limit
  }

  function Take<T>(s: seq<T>, n: nat): seq<T> {
    if |s| <= n then s else s[..n]
  }

  function Matching(ms: seq<Message>, matches: (string, string) -> bool, text: string): seq<Message> {
    if ms == [] then []
    else (if text == "" || matches(ms[0].content, text) then [ms[0]] else []) + Matching(ms[1..], matches, text)
  }

  function SkipOffset<T>(s: seq<T>, offset: int): seq<T> {
    if 0 < offset < |s| then s[offset..] else s
  }

  // ---------- what the cuts of an answer mean ----------

  lemma TakeExactly<T>(s: seq<T>, n: nat)
    ensures |Take(s, n)| == (if |s| <= n then |s| else n) && forall i :: 0 <= i < |Take(s, n)| ==> Take(s, n)[i] == s[i]
  {
  }

  /** An offset inside the answer drops that many from the front; any other offset is ignored. */
  lemma SkipExactly<T>(s: seq<T>, offset: int)
    ensures var k, r := if 0 < offset < |s| then offset else 0, SkipOffset(s, offset);
      |r| == |s| - k && forall i :: 0 <= i < |r| ==> r[i] == s[k + i]
  {
  }

  predicate Hit(m: Message, matches: (string, string) -> bool, text: string) {
    text == "" || matches(m.content, text)
  }

  /** `at` are the positions, in order, of the matches from `from` on, and `found` the matches. */
  ghost predicate Positions(ms: seq<Message>, matches: (string, string) -> bool, text: string, from: nat, at: seq<nat>, found: seq<Message>) {
    && |at| == |found|
    && (forall i, j :: 0 <= i < j < |at| ==> at[i] < at[j])
    && (forall i :: 0 <= i < |at| ==> at[i] < |ms| && found[i] == ms[at[i]])
    && (forall k :: k in at <==> from <= k < |ms| && Hit(ms[k], matches, text))
  }

  lemma PositionsStep(ms: seq<Message>, matches: (string, string) -> bool, text: string, from: nat, at: seq<nat>, found: seq<Message>)
    requires from < |ms| && Positions(ms, matches, text, from + 1, at, found)
    ensures if Hit(ms[from], matches, text) then Positions(ms, matches, text, from, [from] + at, [ms[from]] + found)
      else Positions(ms, matches, text, from, at, found)
  {
    hide Hit;
    assert forall i :: 0 <= i < |at| ==> at[i] in at;
  }

  lemma MatchingUnfold(ms: seq<Message>, matches: (string, string) -> bool, text: string, from: nat)
    requires from < |ms|
    ensures Matching(ms[from..], matches, text)
         == (if Hit(ms[from], matches, text) then [ms[from]] else []) + Matching(ms[from + 1..], matches, text)
  {
    assert ms[from..][0] == ms[from] && ms[from..][1..] == ms[from + 1..];
  }

  lemma {:induction false} MatchingExactly(ms: seq<Message>, matches: (string, string) -> bool, text: string, from: nat) returns (at: seq<nat>)
    requires from <= |ms|
    ensures Positions(ms, matches, text, from, at, Matching(ms[from..], matches, text))
    decreases |ms| - from
  {
    if from == |ms| {
      at := [];
    } else {
      hide Positions, Hit, Matching;
      var rest := MatchingExactly(ms, matches, text, from + 1);
      var found := Matching(ms[from + 1..], matches, text);
      MatchingUnfold(ms, matches, text, from);
      PositionsStep(ms, matches, text, from, rest, found);
      assert [] + found == found;
      at := if Hit(ms[from], matches, text) then [from] + rest else rest;
    }
  }

  // ---------- the store in memory ----------

  datatype Memory = Memory(messages: map<string, Message>, timeIndex: map<string, seq<string>>, context: string)

  function TimeOf(messages: map<string, Message>, id: string): int {
    if id in messages then messages[id].ts else 0
  }

  /** Insert behind every id whose message is at least as new. */
  function InsertId(messages: map<string, Message>, ids: seq<string>, id: string): seq<string> {
    if ids == [] then [id]
    else if TimeOf(messages, ids[0]) >= TimeOf(messages, id) then [ids[0]] + InsertId(messages, ids[1..], id)
    else [id] + ids
  }

  /** `sort.SliceStable`, newest first. */
  function StableSort(messages: map<string, Message>, ids: seq<string>): seq<string> {
    if ids == [] then [] else InsertId(messages, StableSort(messages, ids[..|ids| - 1]), ids[|ids| - 1])
  }

  function MemoryIds(m: Memory, context: string): seq<string> {
    if context in m.timeIndex then m.timeIndex[context] else []
  }

  function MemoryStored(m: Memory, msg: Message): Memory {
    var messages := m.messages[msg.id := msg];
    Memory(messages, m.timeIndex[msg.context := StableSort(messages, MemoryIds(m, msg.context) + [msg.id])], msg.context)
  }

  function Fetch(messages: map<string, Message>, ids: seq<string>): seq<Message> {
    if ids == [] then []
    else (if ids[0] in messages then [messages[ids[0]]] else []) + Fetch(messages, ids[1..])
  }

  class MemoryStore {
    var messages: map<string, Message>
    var timeIndex: map<string, seq<string>>
    var context: string

    constructor ()
      ensures Contents() == Memory(map[], map[], "")
    {
      messages, timeIndex, context := map[], map[], "";
    }

    ghost function Contents(): Memory
      reads this
    {
      Memory(messages, timeIndex, context)
    }

    method StoreMessage(msg: Message)
      modifies this
      ensures Contents() == MemoryStored(old(Contents()), msg)
    {
      context := msg.context;
      messages := messages[msg.id := msg];
      if msg.context !in timeIndex {
        timeIndex := timeIndex[msg.context := []];
      }
      timeIndex := timeIndex[msg.context := timeIndex[msg.context] + [msg.id]];
      timeIndex := timeIndex[msg.context := StableSort(messages, timeIndex[msg.context])];
      assert timeIndex == MemoryStored(old(Contents()), msg).timeIndex;
    }

    method GetRecentMessages(context0: string, limit: int) returns (r: seq<Message>)
      ensures r == Fetch(messages, Take(MemoryIds(Contents(), if context0 == "" && context != "" then context else context0), Limit(limit)))
    {
      var c := context0;
      if c == "" && context != "" {
        c := context;
      }
      var n := Limit(limit);
      if c !in timeIndex {
        return [];
      }
      var ids := timeIndex[c];
      r := [];
      var i := 0;
      while i < |ids| && i < n
        invariant 0 <= i <= |ids| && i <= n
        invariant r == Fetch(messages, ids[..i])
      {
        FetchSnoc(messages, ids[..i], ids[i]);
        assert ids[..i + 1] == ids[..i] + [ids[i]];
        if ids[i] in messages {
          r := r + [messages[ids[i]]];
        }
        i := i + 1;
      }
      assert ids[..i] == Take(ids, n);
    }

    method SearchMessages(q: Query, matches: (string, string) -> bool) returns (r: seq<Message>)
      ensures r == SkipOffset(Take(Matching(Fetch(messages, MemoryIds(Contents(), if q.context == "" && context != "" then context else q.context)),
                                            matches, q.text), Limit(q.limit)), q.offset)
    {
      var c := q.context;
      if c == "" && context != "" {
        c := context;
      }
      var n := Limit(q.limit);
      var ids := if c in timeIndex then timeIndex[c] else [];
      r := [];
      hide Matching, Fetch, Take, SkipOffset;
      ghost var all := Matching(Fetch(messages, ids), matches, q.text);
      assert ids[0..] == ids && [] + all == all;
      var i := 0;
      while i < |ids| && |r| < n
        invariant 0 <= i <= |ids| && |r| <= n
        invariant all == r + Matching(Fetch(messages, ids[i..]), matches, q.text)
        decreases |ids| - i
      {
        MatchingStep(messages, ids, i, matches, q.text);
        if ids[i] in messages && (q.text == "" || matches(messages[ids[i]].content, q.text)) {
          ghost var rest := Matching(Fetch(messages, ids[i + 1..]), matches, q.text);
          Associative(r, [messages[ids[i]]], rest);
          r := r + [messages[ids[i]]];
        } else {
          assert [] + Matching(Fetch(messages, ids[i + 1..]), matches, q.text) == Matching(Fetch(messages, ids[i + 1..]), matches, q.text);
        }
        i := i + 1;
      }
      NothingLeft(messages, ids, matches, q.text);
      TakeDone(all, r, Matching(Fetch(messages, ids[i..]), matches, q.text), n);
      r := DropOffset(r, q.offset);
    }
  }

  method DropOffset<T>(s: seq<T>, offset: int) returns (r: seq<T>)
    ensures r == SkipOffset(s, offset)
  {
    r := s;
    if 0 < offset < |r| {
      r := r[offset..];
    }
  }

  lemma TakeDone<T>(all: seq<T>, r: seq<T>, rest: seq<T>, n: nat)
    requires all == r + rest && |r| <= n && (rest == [] || |r| == n)
    ensures r == Take(all, n)
  {
  }

  lemma NothingLeft(messages: map<string, Message>, ids: seq<string>, matches: (string, string) -> bool, text: string)
    ensures Matching(Fetch(messages, ids[|ids|..]), matches, text) == []
  {
  }

  lemma {:induction false} FetchSnoc(messages: map<string, Message>, ids: seq<string>, id: string)
    ensures Fetch(messages, ids + [id]) == Fetch(messages, ids) + (if id in messages then [messages[id]] else [])
  {
    if ids == [] {
      assert ids + [id] == [id] && [id][1..] == [];
    } else {
      FetchSnoc(messages, ids[1..], id);
      assert (ids + [id])[1..] == ids[1..] + [id];
    }
  }

  lemma MatchingStep(messages: map<string, Message>, ids: seq<string>, i: nat, matches: (string, string) -> bool, text: string)
    requires i < |ids|
    ensures Matching(Fetch(messages, ids[i..]), matches, text)
         == (if ids[i] in messages && (text == "" || matches(messages[ids[i]].content, text)) then [messages[ids[i]]] else [])
            + Matching(Fetch(messages, ids[i + 1..]), matches, text)
  {
    assert ids[i..][0] == ids[i] && ids[i..][1..] == ids[i + 1..];
    var rest := Fetch(messages, ids[i + 1..]);
    if ids[i] in messages {
      assert ([messages[ids[i]]] + rest)[1..] == rest;
    } else {
      assert [] + rest == rest;
    }
  }

  // ---------- the store on Badger ----------

  const MARK: string := [1 as char]

  datatype Badger = Badger(db: seq<Pair<string>>, context: string)

  function BadgerStored(codec: Codec, b: Badger, msg: Message): Badger {
    var db1 := Put(b.db, MessageKey(msg.context, msg.id), codec.enc(msg));
    var db2 := Put(db1, TimeKey(msg.context, msg.ts, msg.id), MARK);
    var db3 := Put(db2, TypeKey(msg.context, msg.kind, msg.ts, msg.id), MARK);
    Badger(db3, msg.context)
  }

  function ScanDown(db: seq<Pair<string>>, prefix: string): seq<Pair<string>> {
    var v := View(db, true);
    Visited(v, prefix, Seek(v, FirstKey(prefix, true), true))
  }

  /** The message behind one time key. */
  function Load(codec: Codec, db: seq<Pair<string>>, context: string, key: string): Option<Message> {
    match Get(db, MessageKey(context, IdOfTimeKey(key)))
    case None => None
    case Some(data) => codec.dec(data)
  }

  function LoadAll(codec: Codec, db: seq<Pair<string>>, context: string, es: seq<Pair<string>>): seq<Message> {
    if es == [] then []
    else
      var m := Load(codec, db, context, es[0].key);
      (if m.Some? then [m.value] else []) + LoadAll(codec, db, context, es[1..])
  }

  function BadgerMessages(codec: Codec, db: seq<Pair<string>>, context: string): seq<Message> {
    LoadAll(codec, db, context, ScanDown(db, TimePrefix(context)))
  }

  class BadgerStore {
    const codec: Codec
    var db: seq<Pair<string>>
    var context: string

    constructor (codec: Codec)
      ensures Contents() == Badger([], "") && this.codec == codec
    {
      this.codec, db, context := codec, [], "";
    }

    ghost function Contents(): Badger
      reads this
    {
      Badger(db, context)
    }

    method StoreMessage(msg: Message)
      modifies this
      ensures Contents() == BadgerStored(codec, old(Contents()), msg)
    {
      context := msg.context;
      db := Put(db, MessageKey(msg.context, msg.id), codec.enc(msg));
      db := Put(db, TimeKey(msg.context, msg.ts, msg.id), MARK);
      db := Put(db, TypeKey(msg.context, msg.kind, msg.ts, msg.id), MARK);
    }

    method GetRecentMessages(context0: string, limit: int) returns (r: seq<Message>)
      ensures r == Take(BadgerMessages(codec, db, if context0 == "" && context != "" then context else context0), Limit(limit))
    {
      var c := context0;
      if c == "" && context != "" {
        c := context;
      }
      r := Collect(c, "", (content, text) => true, Limit(limit));
      MatchesAll(BadgerMessages(codec, db, c), (content, text) => true);
    }

    method SearchMessages(q: Query, matches: (string, string) -> bool) returns (r: seq<Message>)
      ensures r == SkipOffset(Take(Matching(BadgerMessages(codec, db, if q.context == "" && context != "" then context else q.context),
                                            matches, q.text), Limit(q.limit)), q.offset)
    {
      var c := q.context;
      if c == "" && context != "" {
        c := context;
      }
      r := Collect(c, q.text, matches, Limit(q.limit));
      r := DropOffset(r, q.offset);
    }

    /** The iterator loop that both reads run over the time index. */
    method Collect(c: string, text: string, matches: (string, string) -> bool, n: nat) returns (r: seq<Message>)
      ensures r == Take(Matching(BadgerMessages(codec, db, c), matches, text), n)
    {
      hide TimePrefix, View, Seek, FirstKey, Load, Matching, LoadAll, Visited, Take;
      var prefix := TimePrefix(c);
      var v := View(db, true);
      var it := Seek(v, FirstKey(prefix, true), true);
      ghost var all := Matching(BadgerMessages(codec, db, c), matches, text);
      r := [];
      while it < |v| && HasPrefix(v[it].key, prefix)
        invariant 0 <= it <= |v| && |r| <= n
        invariant all == r + Matching(LoadAll(codec, db, c, Visited(v, prefix, it)), matches, text)
        decreases |v| - it
      {
        if |r| >= n {
          break;
        }
        LoadStep(codec, db, c, v, prefix, it, matches, text);
        var m := Load(codec, db, c, v[it].key);
        if m.Some? && (text == "" || matches(m.value.content, text)) {
          ghost var rest := Matching(LoadAll(codec, db, c, Visited(v, prefix, it + 1)), matches, text);
          Associative(r, [m.value], rest);
          r := r + [m.value];
        }
        it := it + 1;
      }
      VisitedNothing(codec, db, c, v, prefix, it, matches, text);
      TakeDone(all, r, Matching(LoadAll(codec, db, c, Visited(v, prefix, it)), matches, text), n);
    }
  }

  lemma VisitedNothing(codec: Codec, db: seq<Pair<string>>, c: string, v: seq<Pair<string>>, prefix: string, it: nat, matches: (string, string) -> bool, text: string)
    requires it <= |v|
    ensures !(it < |v| && HasPrefix(v[it].key, prefix)) ==> Matching(LoadAll(codec, db, c, Visited(v, prefix, it)), matches, text) == []
  {
  }

  lemma LoadStep(codec: Codec, db: seq<Pair<string>>, c: string, v: seq<Pair<string>>, prefix: string, it: nat, matches: (string, string) -> bool, text: string)
    requires it < |v| && HasPrefix(v[it].key, prefix)
    ensures var m := Load(codec, db, c, v[it].key);
      Matching(LoadAll(codec, db, c, Visited(v, prefix, it)), matches, text)
      == (if m.Some? && (text == "" || matches(m.value.content, text)) then [m.value] else [])
         + Matching(LoadAll(codec, db, c, Visited(v, prefix, it + 1)), matches, text)
  {
    hide Load;
    var es, rest := Visited(v, prefix, it), Visited(v, prefix, it + 1);
    assert es == [v[it]] + rest && es[1..] == rest;
    var m, tail := Load(codec, db, c, v[it].key), LoadAll(codec, db, c, rest);
    if m.Some? {
      assert ([m.value] + tail)[1..] == tail;
    } else {
      assert [] + tail == tail;
    }
  }

  lemma {:induction false} MatchesAll(ms: seq<Message>, matches: (string, string) -> bool)
    ensures Matching(ms, matches, "") == ms
  {
    if ms != [] {
      MatchesAll(ms[1..], matches);
    }
  }
}
