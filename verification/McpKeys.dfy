/** The keys of the MCP message store on Badger. */
module McpKeys {
  import opened Lex
  import opened Text

  function MessageKey(context: string, id: string): string { "msg:" + context + ":" + id }

  function TimePrefix(context: string): string { "t:" + context + ":" }

  function TimeKey(context: string, ts: int, id: string): string {
    TimePrefix(context) + (Stamp(ts) + ":" + id)
  }

  function TypeKey(context: string, kind: string, ts: int, id: string): string {
    "type:" + context + ":" + kind + ":" + Stamp(ts) + ":" + id
  }

  /** `extractMessageIDFromTimeKey`. */
  function IdOfTimeKey(key: string): string {
    var parts := Split(key);
    if |parts| >= 4 then parts[3] else ""
  }

  /** A time key gives its message id back. */
  lemma TimeKeyGivesIdBack(context: string, ts: int, id: string)
    requires ColonFree(context) && ColonFree(id) && ts >= 0
    ensures IdOfTimeKey(TimeKey(context, ts, id)) == id
  {
    hide Stamp, Split;
    StampColonFree(ts);
    var k := TimeKey(context, ts, id);
    assert k == "t" + ":" + (context + ":" + (Stamp(ts) + ":" + id));
    SplitField("t", context + ":" + (Stamp(ts) + ":" + id));
    SplitField(context, Stamp(ts) + ":" + id);
    SplitField(Stamp(ts), id);
    SplitOne(id);
    assert Split(k) == ["t"] + ([context] + ([Stamp(ts)] + [id]));
  }

  lemma StampOrder(t: int, u: int)
    requires ValidTime(t) && ValidTime(u)
    ensures |Stamp(t)| == |Stamp(u)| == WIDTH
    ensures Less(Stamp(t), Stamp(u)) <==> t < u
    ensures Stamp(t) == Stamp(u) <==> t == u
  {
    hide Padded, Pow10, Less;
    FitsWidth(t);
    FitsWidth(u);
    PaddedOrder(t, u, WIDTH);
  }

  /** Within a context time keys order by time, then by message id. */
  lemma TimeKeyOrder(context: string, t: int, i: string, u: int, j: string)
    requires ValidTime(t) && ValidTime(u)
    ensures Less(TimeKey(context, t, i), TimeKey(context, u, j)) <==> t < u || (t == u && Less(i, j))
    ensures TimeKey(context, t, i) == TimeKey(context, u, j) <==> t == u && i == j
  {
    hide Stamp, Less, TimePrefix;
    StampOrder(t, u);
    var a, b := Stamp(t), Stamp(u);
    LessSamePrefix(TimePrefix(context), a + ":" + i, b + ":" + j);
    assert a + ":" + i == a + (":" + i) && b + ":" + j == b + (":" + j);
    LessEqualLength(a, b, ":" + i, ":" + j);
    LessSamePrefix(":", i, j);
    var n, k, l := |TimePrefix(context)|, TimeKey(context, t, i), TimeKey(context, u, j);
    assert k[n..n + WIDTH] == a && l[n..n + WIDTH] == b;
    assert k[n + WIDTH + 1..] == i && l[n + WIDTH + 1..] == j;
  }

  /** With colon-free contexts a prefix scan meets the context's own time keys only. */
  lemma TimePrefixExact(c: string, d: string, ts: int, id: string)
    requires ColonFree(c) && ColonFree(d)
    ensures HasPrefix(TimeKey(d, ts, id), TimePrefix(c)) <==> c == d
  {
    hide Stamp;
    var k, p := TimeKey(d, ts, id), TimePrefix(c);
    if HasPrefix(k, p) {
      assert k[..|p|] == p;
      assert p[2 + |c|] == ':' && k[2 + |d|] == ':';
      assert c == p[2..2 + |c|] && d == k[2..2 + |d|];
    }
  }

  /** The time key lies below the reverse start key of its context. */
  lemma TimeKeyBounded(context: string, ts: int, id: string, ones: string)
    requires ValidTime(ts) && ones != "" && ones[0] == 255 as char
    ensures Less(TimeKey(context, ts, id), TimePrefix(context) + ones)
  {
    var tail := Stamp(ts) + ":" + id;
    PaddedDigits(ts, WIDTH);
    assert tail[0] == Padded(ts, WIDTH)[0];
    LessSamePrefix(TimePrefix(context), tail, ones);
  }

  /** Only time keys start with "t:". */
  lemma OtherKeysApart(context: string, kind: string, ts: int, id: string)
    ensures !HasPrefix(MessageKey(context, id), "t:") && !HasPrefix(TypeKey(context, kind, ts, id), "t:")
    ensures HasPrefix(TimeKey(context, ts, id), "t:")
    ensures forall d, j :: MessageKey(d, j) != TypeKey(context, kind, ts, id)
  {
    hide Stamp;
    assert MessageKey(context, id)[0] == 'm' && TypeKey(context, kind, ts, id)[1] == 'y';
    assert TimeKey(context, ts, id)[..2] == "t:";
    forall d, j ensures MessageKey(d, j) != TypeKey(context, kind, ts, id) {
      assert MessageKey(d, j)[0] == 'm' && TypeKey(context, kind, ts, id)[0] == 't';
    }
  }

  lemma MessageKeyInjective(c: string, i: string, d: string, j: string)
    requires ColonFree(c) && ColonFree(d)
    ensures MessageKey(c, i) == MessageKey(d, j) <==> c == d && i == j
  {
    if MessageKey(c, i) == MessageKey(d, j) {
      var k := MessageKey(c, i);
      assert k[4 + |c|] == ':' && k[4 + |d|] == ':';
      assert c == k[4..4 + |c|] && d == k[4..4 + |d|];
      assert k[4 + |c| + 1..] == i && k[4 + |d| + 1..] == j;
    }
  }
}
