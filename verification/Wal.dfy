/** The write-ahead log of the Badger storage engine: the byte encoder of
    `syncWALBatch`, the parser of `replayWAL`, and what survives a crash. */
module Wal {
  import opened Bytes
  import opened Seqs

  /** One log record: a type tag, a time stamp in nanoseconds, and JSON bytes. */
  datatype Entry = Entry(kind: Byte, time: Int64, data: seq<Byte>)

  /** What a replay did: the records handed to the store, in order, and whether
      the replay returned without an error. */
  datatype Replay = Replay(applied: seq<Entry>, ok: bool)

  const MAGIC: nat := 0x454E4752
  const HEADER: nat := 13

  // ---------- the encoder ----------

  function EncodeEntry(e: Entry): (r: seq<Byte>)
    ensures |r| == HEADER + |e.data|
  {
    // uint32(len(data)) drops the high bits of an oversized length
    [e.kind] + LittleEndian(ToUnsigned(e.time), 8) + LittleEndian(|e.data| % TWO32, 4) + e.data
  }

  function EncodeAll(es: seq<Entry>): (r: seq<Byte>) {
    if es == [] then [] else EncodeEntry(es[0]) + EncodeAll(es[1..])
  }

  function File(es: seq<Entry>): (r: seq<Byte>)
    ensures |r| == 4 + |EncodeAll(es)|
  {
    LittleEndian(MAGIC, 4) + EncodeAll(es)
  }

  ghost predicate Fits(es: seq<Entry>) {
    forall i :: 0 <= i < |es| ==> |es[i].data| < TWO32
  }

  // ---------- the parser, as a specification ----------

  function ParseEntries(b: seq<Byte>): (r: Replay) {
    if b == [] then Replay([], true)
    else if |b| < HEADER then Replay([], false)
    else
      var n := LittleEndianValue(b[9..13]);
      if |b| < HEADER + n then Replay([], false)
      else
        var rest := ParseEntries(b[HEADER + n..]);
        Replay([HeadEntry(b)] + rest.applied, rest.ok)
  }

  /** The record at the front of a buffer that holds all of it. */
  function HeadEntry(b: seq<Byte>): (e: Entry)
    requires |b| >= HEADER && |b| >= HEADER + LittleEndianValue(b[9..13])
  {
    var n := LittleEndianValue(b[9..13]);
    TimeInRange(b[1..9]);
    Entry(b[0], ToSigned(LittleEndianValue(b[1..9])), b[HEADER..HEADER + n])
  }

  lemma TimeInRange(b: seq<Byte>)
    requires |b| == 8
    ensures LittleEndianValue(b) < TWO64
  {
    LittleEndianBound(b);
    Pow256Values();
  }

  function Prepend(es: seq<Entry>, r: Replay): Replay {
    Replay(es + r.applied, r.ok)
  }

  function ParseFile(f: seq<Byte>): (r: Replay) {
    if f == [] then Replay([], true)
    else if |f| < 4 || LittleEndianValue(f[..4]) != MAGIC then Replay([], false)
    else ParseEntries(f[4..])
  }

  lemma ParseEmpty()
    ensures ParseEntries([]) == Replay([], true)
  {
  }

  /** One turn of the read loop at position `pos`. */
  lemma ParseOne(f: seq<Byte>, pos: nat, done: seq<Entry>)
    requires pos < |f|
    ensures |f| < pos + 13 ==> Prepend(done, ParseEntries(f[pos..])) == Replay(done, false)
    ensures |f| >= pos + 13 ==>
      var n := LittleEndianValue(f[pos + 9..pos + 13]);
      && (|f| < pos + 13 + n ==> Prepend(done, ParseEntries(f[pos..])) == Replay(done, false))
      && (|f| >= pos + 13 + n ==>
           && LittleEndianValue(f[pos + 1..pos + 9]) < TWO64
           && var e := Entry(f[pos], ToSigned(LittleEndianValue(f[pos + 1..pos + 9])), f[pos + 13..pos + 13 + n]);
              Prepend(done, ParseEntries(f[pos..])) == Prepend(done + [e], ParseEntries(f[pos + 13 + n..])))
  {
    hide LittleEndianValue;
    var b := f[pos..];
    if |f| >= pos + 13 {
      assert b[1..9] == f[pos + 1..pos + 9] && b[9..13] == f[pos + 9..pos + 13];
      TimeInRange(b[1..9]);
      var n := LittleEndianValue(b[9..13]);
      if |f| >= pos + 13 + n {
        assert b[13..13 + n] == f[pos + 13..pos + 13 + n];
        assert b[13 + n..] == f[pos + 13 + n..];
      }
    }
  }

  // ---------- the log file ----------

  class LogFile {
    var bytes: seq<Byte>

    constructor ()
      ensures bytes == []
    {
      bytes := [];
    }

    /** The header written by `Start` when the file is still empty. */
    method Start()
      modifies this
      ensures bytes == if old(bytes) == [] then File([]) else old(bytes)
    {
      if |bytes| == 0 {
        bytes := LittleEndian(MAGIC, 4);
      }
    }

    /** `syncWALBatch`: build one buffer from the batch and append it. */
    method SyncBatch(entries: seq<Entry>)
      modifies this
      ensures bytes == old(bytes) + EncodeAll(entries)
    {
      hide EncodeAll, EncodeEntry, LittleEndian;
      EncodeNone();
      if |entries| == 0 {
        return;
      }
      var buf: seq<Byte> := [];
      for i := 0 to |entries|
        invariant buf == EncodeAll(entries[..i])
        invariant bytes == old(bytes)
      {
        var e := entries[i];
        ghost var before := buf;
        buf := buf + [e.kind];
        buf := buf + LittleEndian(ToUnsigned(e.time), 8);
        buf := buf + LittleEndian(|e.data| % TWO32, 4);
        buf := buf + e.data;
        AppendedEntry(before, e);
        EncodeSnoc(entries[..i], e);
        assert entries[..i + 1] == entries[..i] + [e];
      }
      assert entries[..|entries|] == entries;
      bytes := bytes + buf;
    }

    /** `replayWAL`: read the header, then records until end of file or an error. */
    method ReplayLog() returns (applied: seq<Entry>, ok: bool)
      ensures Replay(applied, ok) == ParseFile(bytes)
    {
      hide ParseEntries, LittleEndianValue;
      applied := [];
      if |bytes| == 0 {
        return [], true;
      }
      if |bytes| < 4 || LittleEndianValue(bytes[..4]) != MAGIC {
        return [], false;
      }
      var pos := 4;
      while pos < |bytes|
        invariant 4 <= pos <= |bytes|
        invariant ParseFile(bytes) == Prepend(applied, ParseEntries(bytes[pos..]))
      {
        ParseOne(bytes, pos, applied);
        var kind := bytes[pos];
        if |bytes| < pos + 9 {
          return applied, false;
        }
        var time := LittleEndianValue(bytes[pos + 1..pos + 9]);
        if |bytes| < pos + 13 {
          return applied, false;
        }
        var n := LittleEndianValue(bytes[pos + 9..pos + 13]);
        if |bytes| < pos + 13 + n {
          return applied, false;
        }
        TimeInRange(bytes[pos + 1..pos + 9]);
        var data := bytes[pos + 13..pos + 13 + n];
        applied := applied + [Entry(kind, ToSigned(time), data)];
        pos := pos + 13 + n;
      }
      ParseEmpty();
      assert bytes[pos..] == [];
      return applied, true;
    }
  }

  // ---------- encoding of concatenations ----------

  lemma EncodeNone()
    ensures EncodeAll([]) == []
  {
  }

  /** However the records are grouped into batches, the bytes are the same. */
  lemma {:induction false} EncodeConcat(a: seq<Entry>, b: seq<Entry>)
    ensures EncodeAll(a + b) == EncodeAll(a) + EncodeAll(b)
  {
    hide EncodeEntry;
    if a == [] {
      assert a + b == b;
    } else {
      EncodeConcat(a[1..], b);
      assert (a + b)[1..] == a[1..] + b && (a + b)[0] == a[0];
      var x, y, z := EncodeEntry(a[0]), EncodeAll(a[1..]), EncodeAll(b);
      Associative(x, y, z);
    }
  }

  /** The four writes of one record into the buffer append its encoding. */
  lemma AppendedEntry(buf: seq<Byte>, e: Entry)
    ensures buf + [e.kind] + LittleEndian(ToUnsigned(e.time), 8) + LittleEndian(|e.data| % TWO32, 4) + e.data
         == buf + EncodeEntry(e)
  {
    hide LittleEndian;
  }

  lemma EncodeSnoc(a: seq<Entry>, e: Entry)
    ensures EncodeAll(a + [e]) == EncodeAll(a) + EncodeEntry(e)
  {
    hide EncodeEntry;
    EncodeConcat(a, [e]);
    assert EncodeAll([e]) == EncodeEntry(e) + EncodeAll([]);
  }

  function Flatten(batches: seq<seq<Entry>>): (r: seq<Entry>) {
    if batches == [] then [] else batches[0] + Flatten(batches[1..])
  }

  function EncodeBatches(batches: seq<seq<Entry>>): (r: seq<Byte>) {
    if batches == [] then [] else EncodeAll(batches[0]) + EncodeBatches(batches[1..])
  }

  lemma {:induction false} BatchingIsInvisible(batches: seq<seq<Entry>>)
    ensures EncodeBatches(batches) == EncodeAll(Flatten(batches))
  {
    if batches != [] {
      BatchingIsInvisible(batches[1..]);
      EncodeConcat(batches[0], Flatten(batches[1..]));
    }
  }

  // ---------- one record at the front of a buffer ----------

  lemma EncodedFields(e: Entry, rest: seq<Byte>)
    ensures var b := EncodeEntry(e) + rest;
      && b[0] == e.kind
      && LittleEndianValue(b[1..9]) == ToUnsigned(e.time)
      && LittleEndianValue(b[9..13]) == |e.data| % TWO32
      && b[HEADER..HEADER + |e.data|] == e.data
      && b[HEADER + |e.data|..] == rest
  {
    hide LittleEndian, LittleEndianValue, Pow256;
    var b := EncodeEntry(e) + rest;
    Pow256Values();
    LittleEndianRoundTrip(ToUnsigned(e.time), 8);
    LittleEndianRoundTrip(|e.data| % TWO32, 4);
    assert b[1..9] == LittleEndian(ToUnsigned(e.time), 8);
    assert b[9..13] == LittleEndian(|e.data| % TWO32, 4);
  }

  lemma ParseCons(e: Entry, rest: seq<Byte>)
    requires |e.data| < TWO32
    ensures ParseEntries(EncodeEntry(e) + rest)
         == Replay([e] + ParseEntries(rest).applied, ParseEntries(rest).ok)
  {
    hide EncodeEntry, LittleEndianValue;
    var b := EncodeEntry(e) + rest;
    EncodedFields(e, rest);
    assert HeadEntry(b) == e;
  }

  /** A record that is cut short anywhere after its first byte is an error and is not applied. */
  lemma ParseTorn(e: Entry, c: nat)
    requires |e.data| < TWO32 && 0 < c < |EncodeEntry(e)|
    ensures ParseEntries(EncodeEntry(e)[..c]) == Replay([], false)
  {
    hide EncodeEntry, LittleEndianValue;
    EncodedFields(e, []);
    assert EncodeEntry(e) + [] == EncodeEntry(e);
    if c >= HEADER {
      assert EncodeEntry(e)[..c][9..13] == EncodeEntry(e)[9..13];
    }
  }

  // ---------- crash safety ----------

  /** `n` is the number of records of `es` that lie wholly inside the first `c` bytes. */
  ghost predicate WhollyBefore(es: seq<Entry>, c: nat, n: nat) {
    && n <= |es|
    && |EncodeAll(es[..n])| <= c
    && (n < |es| ==> c < |EncodeAll(es[..n + 1])|)
  }

  lemma {:induction false} CutEntries(es: seq<Entry>, c: nat) returns (n: nat)
    requires Fits(es) && c <= |EncodeAll(es)|
    ensures WhollyBefore(es, c, n)
    ensures ParseEntries(EncodeAll(es)[..c]) == Replay(es[..n], c == |EncodeAll(es[..n])|)
  {
    hide EncodeEntry, ParseEntries;
    if c == 0 {
      n := 0;
      ParseEmpty();
      assert EncodeAll(es)[..c] == [] && EncodeAll(es[..0]) == [] && es[..0] == [];
      if es != [] {
        assert es[..1][0] == es[0];
      }
    } else {
      var k := |EncodeEntry(es[0])|;
      if c < k {
        n := 0;
        assert EncodeAll(es)[..c] == EncodeEntry(es[0])[..c];
        ParseTorn(es[0], c);
        assert es[..1] == [es[0]] && EncodeAll([es[0]]) == EncodeEntry(es[0]) + EncodeAll([]);
      } else {
        var m := CutEntries(es[1..], c - k);
        n := m + 1;
        assert EncodeAll(es)[..c] == EncodeEntry(es[0]) + EncodeAll(es[1..])[..c - k];
        ParseCons(es[0], EncodeAll(es[1..])[..c - k]);
        assert es[..n][0] == es[0] && es[..n][1..] == es[1..][..m];
        if n < |es| {
          assert es[..n + 1][0] == es[0] && es[..n + 1][1..] == es[1..][..m + 1];
        }
        assert es[..n] == [es[0]] + es[1..][..m];
      }
    }
  }

  lemma MagicReadsBack(tail: seq<Byte>)
    ensures LittleEndianValue((LittleEndian(MAGIC, 4) + tail)[..4]) == MAGIC
    ensures (LittleEndian(MAGIC, 4) + tail)[4..] == tail
  {
    Pow256Values();
    LittleEndianRoundTrip(MAGIC, 4);
    assert (LittleEndian(MAGIC, 4) + tail)[..4] == LittleEndian(MAGIC, 4);
  }

  /** Crash safety.  Whatever byte the file is cut at, replay applies exactly the
      records that lie wholly before the cut, in order; it succeeds exactly when
      the cut is at 0, right after the magic number, or on a record boundary. */
  lemma CrashSafety(es: seq<Entry>, cut: nat) returns (n: nat)
    requires Fits(es) && cut <= |File(es)|
    ensures cut < 4 ==> n == 0 && ParseFile(File(es)[..cut]) == Replay([], cut == 0)
    ensures cut >= 4 ==>
      && WhollyBefore(es, cut - 4, n)
      && ParseFile(File(es)[..cut]) == Replay(es[..n], cut == 4 + |EncodeAll(es[..n])|)
  {
    hide EncodeAll, ParseEntries, LittleEndian, LittleEndianValue;
    if cut < 4 {
      n := 0;
    } else {
      n := CutEntries(es, cut - 4);
      assert File(es)[..cut] == LittleEndian(MAGIC, 4) + EncodeAll(es)[..cut - 4];
      MagicReadsBack(EncodeAll(es)[..cut - 4]);
    }
  }

  /** The count in `CrashSafety` is determined by the cut. */
  lemma WhollyBeforeUnique(es: seq<Entry>, c: nat, m: nat, n: nat)
    requires WhollyBefore(es, c, m) && WhollyBefore(es, c, n)
    ensures m == n
  {
    hide EncodeEntry, EncodeAll;
    if m < n {
      assert es[..n] == es[..m + 1] + es[m + 1..n];
      EncodeConcat(es[..m + 1], es[m + 1..n]);
    } else if n < m {
      assert es[..m] == es[..n + 1] + es[n + 1..m];
      EncodeConcat(es[..n + 1], es[n + 1..m]);
    }
  }

  // ---------- the uncut file ----------

  lemma {:induction false} ParseBackward(es: seq<Entry>)
    requires ParseEntries(EncodeAll(es)).applied == es
    ensures Fits(es)
  {
    if es != [] {
      hide EncodeEntry, LittleEndianValue;
      var b := EncodeAll(es);
      var rest := EncodeAll(es[1..]);
      EncodedFields(es[0], rest);
      assert HeadEntry(b) == es[0];
      assert |es[0].data| == |es[0].data| % TWO32;
      ParseCons(es[0], rest);
      assert ParseEntries(rest).applied == es[1..];
      ParseBackward(es[1..]);
    }
  }

  /** The whole file gives back every record exactly when each payload's length
      fits the 32-bit length field; an oversized payload is never read back. */
  lemma RoundTripExactlyWhenFits(es: seq<Entry>)
    ensures ParseFile(File(es)) == Replay(es, true) <==> Fits(es)
  {
    MagicReadsBack(EncodeAll(es));
    if Fits(es) {
      var n := CrashSafety(es, |File(es)|);
      assert File(es)[..|File(es)|] == File(es);
      assert WhollyBefore(es, |EncodeAll(es)|, |es|) by {
        assert es[..|es|] == es;
      }
      WhollyBeforeUnique(es, |EncodeAll(es)|, n, |es|);
      assert es[..|es|] == es;
    } else if ParseFile(File(es)) == Replay(es, true) {
      ParseBackward(es);
    }
  }

  /** Two different lists of records never share a file. */
  lemma FileInjective(a: seq<Entry>, b: seq<Entry>)
    requires Fits(a) && Fits(b) && File(a) == File(b)
    ensures a == b
  {
    RoundTripExactlyWhenFits(a);
    RoundTripExactlyWhenFits(b);
  }

  /** A cut file is a file again after a replay that succeeded: what a clean cut
      leaves is the encoding of the records it replays, so appending goes on from there. */
  lemma CleanCutIsAFile(es: seq<Entry>, cut: nat)
    requires Fits(es) && 4 <= cut <= |File(es)| && ParseFile(File(es)[..cut]).ok
    ensures File(es)[..cut] == File(ParseFile(File(es)[..cut]).applied)
  {
    hide EncodeAll, ParseEntries, LittleEndian, LittleEndianValue;
    var n := CrashSafety(es, cut);
    assert es == es[..n] + es[n..];
    EncodeConcat(es[..n], es[n..]);
  }

  // ---------- the format, byte by byte ----------

  /** The file starts with the bytes of the magic number, lowest first. */
  lemma FileStart(es: seq<Entry>)
    ensures File(es)[..4] == [0x52, 0x47, 0x4E, 0x45]
  {
    hide EncodeAll;
    forall i: nat | i < 4 ensures LittleEndian(MAGIC, 4)[i] == [0x52, 0x47, 0x4E, 0x45][i] {
      LittleEndianByte(MAGIC, 4, i);
      assert Pow256(1) == 256 && Pow256(2) == 65536 && Pow256(3) == 16777216;
    }
    assert File(es)[..4] == LittleEndian(MAGIC, 4);
  }

  /** A record is its type, eight bytes of time and four of length, lowest first, and its data. */
  lemma RecordLayout(e: Entry)
    ensures var b := EncodeEntry(e);
      && |b| == 13 + |e.data| && b[0] == e.kind
      && (forall i: nat :: i < 8 ==> b[1 + i] == ((if e.time < 0 then e.time + TWO64 else e.time) / Pow256(i)) % 256)
      && (forall i: nat :: i < 4 ==> b[9 + i] == ((|e.data| % TWO32) / Pow256(i)) % 256)
      && b[13..] == e.data
  {
    hide LittleEndian, Pow256;
    var b := EncodeEntry(e);
    forall i: nat | i < 8 ensures b[1 + i] == (ToUnsigned(e.time) / Pow256(i)) % 256 {
      LittleEndianByte(ToUnsigned(e.time), 8, i);
      assert b[1 + i] == LittleEndian(ToUnsigned(e.time), 8)[i];
    }
    forall i: nat | i < 4 ensures b[9 + i] == ((|e.data| % TWO32) / Pow256(i)) % 256 {
      LittleEndianByte(|e.data| % TWO32, 4, i);
      assert b[9 + i] == LittleEndian(|e.data| % TWO32, 4)[i];
    }
  }

  // ---------- replay of any bytes ----------

  lemma HeadReencodes(b: seq<Byte>)
    requires |b| >= HEADER && |b| >= HEADER + LittleEndianValue(b[9..13])
    ensures EncodeEntry(HeadEntry(b)) == b[..HEADER + LittleEndianValue(b[9..13])]
    ensures |HeadEntry(b).data| < TWO32
  {
    hide LittleEndian, LittleEndianValue, Pow256;
    var n := LittleEndianValue(b[9..13]);
    LittleEndianReadBack(b[1..9]);
    LittleEndianReadBack(b[9..13]);
    LittleEndianBound(b[9..13]);
    Pow256Values();
    TimeInRange(b[1..9]);
    var e := HeadEntry(b);
    assert ToUnsigned(e.time) == LittleEndianValue(b[1..9]);
    assert EncodeEntry(e) == [b[0]] + b[1..9] + b[9..13] + b[13..13 + n];
  }

  /** No whole record starts the bytes. */
  ghost predicate NoRecord(b: seq<Byte>) {
    |b| < HEADER || |b| < HEADER + LittleEndianValue(b[9..13])
  }

  lemma {:induction false} ParseIsInverse(b: seq<Byte>)
    ensures var r := ParseEntries(b);
      && Fits(r.applied) && EncodeAll(r.applied) <= b
      && NoRecord(b[|EncodeAll(r.applied)|..])
      && (r.ok <==> EncodeAll(r.applied) == b)
  {
    if !(b == [] || NoRecord(b)) {
      var n := HEADER + LittleEndianValue(b[9..13]);
      var rest := ParseEntries(b[n..]);
      ParseIsInverse(b[n..]);
      HeadReencodes(b);
      hide ParseEntries, EncodeEntry, HeadEntry, NoRecord, LittleEndianValue;
      HeadPrepends(b, n, HeadEntry(b), rest.applied);
    }
  }

  lemma HeadPrepends(b: seq<Byte>, n: nat, e: Entry, rest: seq<Entry>)
    requires n <= |b| && EncodeEntry(e) == b[..n] && EncodeAll(rest) <= b[n..] && Fits(rest) && |e.data| < TWO32
    ensures var all := EncodeAll([e] + rest);
      && all <= b && b[|all|..] == b[n..][|EncodeAll(rest)|..] && (all == b <==> EncodeAll(rest) == b[n..]) && Fits([e] + rest)
  {
    hide EncodeEntry;
    assert ([e] + rest)[1..] == rest;
    var all := EncodeAll([e] + rest);
    assert all == b[..n] + EncodeAll(rest);
    assert b == b[..n] + b[n..];
    assert all <= b by {
      assert b[..|all|] == b[..n] + b[n..][..|EncodeAll(rest)|];
    }
  }

  /** Replay of any bytes at all.  It succeeds if and only if the file is empty or is the file of
      the records it applies; otherwise it applies nothing when the magic number is wrong, and
      else the records the file starts with, up to where no whole record follows. */
  lemma ReplaySucceedsExactly(f: seq<Byte>)
    ensures var r := ParseFile(f);
      && (r.ok <==> f == [] || f == File(r.applied))
      && (if f != [] && (|f| < 4 || f[..4] != [0x52, 0x47, 0x4E, 0x45]) then r == Replay([], false)
          else f != [] ==> File(r.applied) <= f && NoRecord(f[|File(r.applied)|..]))
  {
    hide ParseEntries, EncodeAll, LittleEndian, LittleEndianValue, NoRecord;
    if |f| >= 4 {
      MagicExactly(f[..4]);
      ParseIsInverse(f[4..]);
      var r := ParseEntries(f[4..]);
      FileStart(r.applied);
      assert f == f[..4] + f[4..];
      if f[..4] == [0x52, 0x47, 0x4E, 0x45] {
        assert File(r.applied) == f[..4] + EncodeAll(r.applied);
        assert f[|File(r.applied)|..] == f[4..][|EncodeAll(r.applied)|..];
        assert f[..|File(r.applied)|] == f[..4] + f[4..][..|EncodeAll(r.applied)|];
      }
    }
    FileStart(ParseFile(f).applied);
  }

  lemma MagicExactly(b: seq<Byte>)
    requires |b| == 4
    ensures LittleEndianValue(b) == MAGIC <==> b == [0x52, 0x47, 0x4E, 0x45]
  {
    FileStart([]);
    assert File([])[..4] == LittleEndian(MAGIC, 4);
    LittleEndianReadBack(b);
    MagicReadsBack([]);
    assert (LittleEndian(MAGIC, 4) + [])[..4] == LittleEndian(MAGIC, 4);
  }
}
