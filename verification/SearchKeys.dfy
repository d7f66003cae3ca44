/** The keys of the search index and what they say about a work unit. */
module SearchKeys {
  import opened Lex
  import opened Text

  /** The attributes with an index of their own; a metadata value is `key:value`. */
  datatype Field = Context | Agent | Kind | Word | Meta

  function Name(field: Field): string {
    match field
    case Context => "ctx"
    case Agent => "agent"
    case Kind => "type"
    case Word => "text"
    case Meta => "meta"
  }

  function FieldPrefix(field: Field, value: string): string { Name(field) + ":" + value + ":" }

  function FieldKey(field: Field, value: string, id: string): string { FieldPrefix(field, value) + id }

  function MetaValue(key: string, value: string): string { key + ":" + value }

  function UnitKey(id: string): string { "wu:" + id }

  function StampKey(context: string, ts: int, id: string): string { "ts:" + context + ":" + Stamp(ts) + ":" + id }

  /** `%d` of a work unit type. */
  function KindText(kind: int): string {
    if kind < 0 then "-" + Decimal(-kind) else Decimal(kind)
  }

  lemma KindTextInjective(k: int, l: int)
    ensures ColonFree(KindText(k))
    ensures KindText(k) == KindText(l) <==> k == l
  {
    NumberText(k);
    NumberText(l);
    DecimalInjective(if k < 0 then -k else k, if l < 0 then -l else l);
    if KindText(k) == KindText(l) && k < 0 && l < 0 {
      assert KindText(k)[1..] == Decimal(-k) && KindText(l)[1..] == Decimal(-l);
    }
  }

  lemma NumberText(k: int)
    ensures ColonFree(KindText(k)) && KindText(k) != "" && (KindText(k)[0] == '-' <==> k < 0)
  {
    DecimalReadsBack(if k < 0 then -k else k);
    if k >= 0 {
      DecimalStartsWithDigit(k);
    }
  }

  lemma {:induction false} DecimalStartsWithDigit(n: nat)
    ensures Decimal(n) != "" && IsDigit(Decimal(n)[0])
  {
    if n >= 10 {
      DecimalStartsWithDigit(n / 10);
    }
  }

  // ---------- keys of different kinds are apart ----------

  /** The first two bytes tell the kinds of keys apart. */
  lemma FieldKeyStart(field: Field, value: string, rest: string)
    ensures var k := FieldPrefix(field, value) + rest;
      && |k| >= 4 && k[0] == Name(field)[0] && k[1] == Name(field)[1]
      && !HasPrefix(k, "wu:") && !HasPrefix(k, "ts:")
  {
    var k := FieldPrefix(field, value) + rest;
    assert k[0] == Name(field)[0] && k[1] == Name(field)[1];
  }

  lemma FieldsApart(f: Field, value: string, id: string, g: Field, sought: string)
    requires HasPrefix(FieldKey(f, value, id), FieldPrefix(g, sought))
    ensures f == g
  {
    FieldKeyStart(f, value, id);
    FieldKeyStart(g, sought, "");
    var k, p := FieldKey(f, value, id), FieldPrefix(g, sought);
    assert p + "" == p;
    assert k[0] == p[0] && k[1] == p[1];
  }

  lemma UnitAndStampKeysApart(id: string, context: string, ts: int, field: Field, value: string)
    ensures !HasPrefix(UnitKey(id), FieldPrefix(field, value)) && !HasPrefix(StampKey(context, ts, id), FieldPrefix(field, value))
    ensures !HasPrefix(UnitKey(id), "ts:") && !HasPrefix(StampKey(context, ts, id), "wu:")
    ensures HasPrefix(UnitKey(id), "wu:") && HasPrefix(StampKey(context, ts, id), "ts:")
  {
    FieldKeyStart(field, value, "");
    var p, u, s := FieldPrefix(field, value), UnitKey(id), StampKey(context, ts, id);
    assert p + "" == p;
    assert u[0] == 'w' && s[0] == 't' && s[1] == 's';
    assert u[..3] == "wu:" && s[..3] == "ts:";
  }

  // ---------- a prefix scan is exact ----------

  /** The values that units with colon-free fields are indexed under. */
  ghost predicate Shaped(field: Field, value: string) {
    if field.Meta? then exists k, v :: ColonFree(k) && ColonFree(v) && value == MetaValue(k, v)
    else ColonFree(value)
  }

  /** With a colon-free id a scan finds the keys of exactly the sought value, whatever that is. */
  lemma PrefixExact(field: Field, value: string, id: string, sought: string)
    requires Shaped(field, value) && ColonFree(id) && (field.Meta? ==> ':' in sought)
    ensures HasPrefix(FieldKey(field, value, id), FieldPrefix(field, sought)) <==> value == sought
  {
    var k, p, n := FieldKey(field, value, id), FieldPrefix(field, sought), |Name(field)| + 1;
    assert k[n..] == value + ":" + id && p[n..] == sought + ":";
    if HasPrefix(k, p) {
      assert p[n..] == k[n..|p|];
      assert k[n..|p|] == (value + ":" + id)[..|sought| + 1];
      TailExact(field, value, id, sought);
    }
  }

  /** A colon in a unit's field lets the unit into the scans for the part before it. */
  lemma ColonLeaks(field: Field, value: string, more: string, id: string)
    ensures HasPrefix(FieldKey(field, value + ":" + more, id), FieldPrefix(field, value))
  {
    assert FieldKey(field, value + ":" + more, id) == FieldPrefix(field, value) + (more + ":" + id);
  }

  lemma TailExact(field: Field, value: string, id: string, sought: string)
    requires Shaped(field, value) && ColonFree(id) && (field.Meta? ==> ':' in sought)
    requires |sought| + 1 <= |value + ":" + id| && sought + ":" == (value + ":" + id)[..|sought| + 1]
    ensures value == sought
  {
    var s := value + ":" + id;
    assert s[|sought|] == (sought + ":")[|sought|] == ':';
    if field.Meta? {
      var i :| 0 <= i < |sought| && sought[i] == ':';
      assert s[i] == (sought + ":")[i] == ':';
      var k, v :| ColonFree(k) && ColonFree(v) && value == MetaValue(k, v);
      assert forall j :: 0 <= j < |s| && s[j] == ':' ==> j == |k| || j == |value|;
    } else {
      assert forall j :: 0 <= j < |s| && s[j] == ':' ==> j == |value|;
    }
    assert |sought| == |value|;
    assert sought == (sought + ":")[..|sought|] == s[..|sought|] == value;
  }

  /** A lookup finds the key of exactly this value and id. */
  lemma FieldKeyExact(f: Field, value: string, id: string, g: Field, sought: string, other: string)
    requires Shaped(f, value) && ColonFree(id) && (g.Meta? ==> ':' in sought)
    ensures FieldKey(f, value, id) == FieldKey(g, sought, other) <==> f == g && value == sought && id == other
  {
    if FieldKey(f, value, id) == FieldKey(g, sought, other) {
      assert HasPrefix(FieldKey(g, sought, other), FieldPrefix(g, sought));
      FieldsApart(f, value, id, g, sought);
      PrefixExact(f, value, id, sought);
      var n := |FieldPrefix(f, value)|;
      assert FieldKey(f, value, id)[n..] == id && FieldKey(g, sought, other)[n..] == other;
    }
  }

  // ---------- reading keys back ----------

  function LastPart(key: string): string {
    var parts := Split(key);
    parts[|parts| - 1]
  }

  /** The id is the last part of a field key. */
  lemma FieldKeyGivesIdBack(field: Field, value: string, id: string)
    requires Shaped(field, value) && ColonFree(id)
    ensures LastPart(FieldKey(field, value, id)) == id
    ensures |Split(FieldKey(field, value, id))| >= 3
  {
    hide Split, ColonFree;
    assert ColonFree(Name(field)) by { NameColonFree(field); }
    if field.Meta? {
      var k, v :| ColonFree(k) && ColonFree(v) && value == MetaValue(k, v);
      assert FieldKey(field, value, id) == Name(field) + ":" + (k + ":" + (v + ":" + id));
      SplitField(Name(field), k + ":" + (v + ":" + id));
      SplitField(k, v + ":" + id);
      SplitField(v, id);
    } else {
      assert FieldKey(field, value, id) == Name(field) + ":" + (value + ":" + id);
      SplitField(Name(field), value + ":" + id);
      SplitField(value, id);
    }
    SplitOne(id);
  }

  lemma NameColonFree(field: Field)
    ensures ColonFree(Name(field))
  {
  }

  predicate HasSuffix(s: string, suffix: string) {
    |suffix| <= |s| && s[|s| - |suffix|..] == suffix
  }

  /** A time stamp key names its unit by its end and holds its time as third part. */
  lemma StampKeyReadsBack(context: string, ts: int, id: string, sought: string)
    requires ColonFree(context) && ColonFree(id) && ColonFree(sought) && ValidTime(ts)
    ensures HasSuffix(StampKey(context, ts, id), ":" + sought) <==> id == sought
    ensures var parts := Split(StampKey(context, ts, id)); |parts| >= 3 && ParseDigits(parts[2]) == ts
  {
    hide Split, ParseDigits, Stamp;
    StampParts(context, ts, id);
    var k := StampKey(context, ts, id);
    assert k[|k| - |id| - 1..] == ":" + id;
    if HasSuffix(k, ":" + sought) {
      SuffixExact(k, id, sought);
    }
  }

  lemma SuffixExact(k: string, id: string, sought: string)
    requires ColonFree(id) && ColonFree(sought)
    requires HasSuffix(k, ":" + id) && HasSuffix(k, ":" + sought)
    ensures id == sought
  {
    LastColon(k, id);
    LastColon(k, sought);
    assert |id| == |sought|;
    assert (":" + id)[1..] == id && (":" + sought)[1..] == sought;
  }

  lemma LastColon(k: string, id: string)
    requires ColonFree(id) && HasSuffix(k, ":" + id)
    ensures k[|k| - |id| - 1] == ':' && forall j :: |k| - |id| <= j < |k| ==> k[j] != ':'
  {
    var n := |k| - |id| - 1;
    assert k[n..][0] == k[n];
    forall j | n < j < |k| ensures k[j] != ':' {
      assert k[j] == k[n..][j - n] == (":" + id)[j - n] == id[j - n - 1];
    }
  }

  lemma StampParts(context: string, ts: int, id: string)
    requires ColonFree(context) && ColonFree(id) && ValidTime(ts)
    ensures Split(StampKey(context, ts, id)) == ["ts", context, Stamp(ts), id]
    ensures ParseDigits(Stamp(ts)) == ts
  {
    hide Split, Padded, Pow10;
    StampColonFree(ts);
    assert StampKey(context, ts, id) == "ts" + ":" + (context + ":" + (Stamp(ts) + ":" + id));
    SplitField("ts", context + ":" + (Stamp(ts) + ":" + id));
    SplitField(context, Stamp(ts) + ":" + id);
    SplitField(Stamp(ts), id);
    SplitOne(id);
    FitsWidth(ts);
    ParsePadded(ts, WIDTH);
  }
}
