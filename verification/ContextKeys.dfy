/** The keys of the Badger storage engine, and the composite context-time key. */
module ContextKeys {
  import opened Bytes
  import opened Lex
  import opened Text

  /** `v` in `n` bytes, most significant first. */
  function BigEndian(v: nat, n: nat): (r: string)
    ensures |r| == n
    decreases n
  {
    if n == 0 then "" else BigEndian(v / 256, n - 1) + [(v % 256) as char]
  }

  function UnitKey(id: string): string { "wu:" + id }
  function ContextKey(id: string): string { "ctx:" + id }
  function LockKey(path: string): string { "lock:" + path }

  /** The scan prefix of a context's entries in the time index. */
  function TimePrefix(context: string): string { "meta:" + context + ":" }

  /** `makeContextTimeKey`: prefix, context, separator, big-endian nanoseconds. */
  function TimeKey(context: string, ts: Int64): string {
    TimePrefix(context) + BigEndian(ToUnsigned(ts), 8)
  }

  // ---------- big-endian bytes order like numbers ----------

  lemma {:induction false} BigEndianOrder(v: nat, w: nat, n: nat)
    requires v < Pow256(n) && w < Pow256(n)
    ensures Less(BigEndian(v, n), BigEndian(w, n)) <==> v < w
    ensures BigEndian(v, n) == BigEndian(w, n) <==> v == w
    decreases n
  {
    if n > 0 {
      BigEndianOrder(v / 256, w / 256, n - 1);
      var a, b := BigEndian(v / 256, n - 1), BigEndian(w / 256, n - 1);
      LessSnoc(a, b, (v % 256) as char, (w % 256) as char);
      assert (a + [(v % 256) as char])[..n - 1] == a && (b + [(w % 256) as char])[..n - 1] == b;
      assert (a + [(v % 256) as char])[n - 1] == (v % 256) as char;
      assert (b + [(w % 256) as char])[n - 1] == (w % 256) as char;
      assert v == 256 * (v / 256) + v % 256 && w == 256 * (w / 256) + w % 256;
    }
  }

  lemma {:induction false} BigEndianAtMostAllOnes(v: nat, n: nat)
    ensures Leq(BigEndian(v, n), seq(n, i => 255 as char))
    decreases n
  {
    if n > 0 {
      BigEndianAtMostAllOnes(v / 256, n - 1);
      var a, b := BigEndian(v / 256, n - 1), seq(n - 1, i => 255 as char);
      LessSnoc(a, b, (v % 256) as char, 255 as char);
      assert seq(n, i => 255 as char) == b + [255 as char];
    }
  }

  lemma TimeBytesOrder(t: Int64, u: Int64)
    ensures Less(BigEndian(ToUnsigned(t), 8), BigEndian(ToUnsigned(u), 8)) <==> ToUnsigned(t) < ToUnsigned(u)
    ensures BigEndian(ToUnsigned(t), 8) == BigEndian(ToUnsigned(u), 8) <==> t == u
  {
    hide BigEndian, Less, Pow256;
    Pow256Values();
    BigEndianOrder(ToUnsigned(t), ToUnsigned(u), 8);
  }

  // ---------- the composite key ----------

  /** The key determines both the context and the time, whatever bytes the context holds. */
  lemma TimeKeyInjective(c: string, t: Int64, d: string, u: Int64)
    ensures TimeKey(c, t) == TimeKey(d, u) <==> c == d && t == u
  {
    hide BigEndian;
    if TimeKey(c, t) == TimeKey(d, u) {
      var k := TimeKey(c, t);
      assert |k| == 5 + |c| + 9 == 5 + |d| + 9;
      assert c == k[5..5 + |c|] && d == k[5..5 + |d|];
      assert k[5 + |c| + 1..] == BigEndian(ToUnsigned(t), 8);
      assert k[5 + |d| + 1..] == BigEndian(ToUnsigned(u), 8);
      TimeBytesOrder(t, u);
    }
  }

  /** Within one context byte order is time order, exactly when both times are on
      the same side of the epoch (negative times sort after positive ones). */
  lemma TimeKeyOrder(c: string, t: Int64, u: Int64)
    ensures (Less(TimeKey(c, t), TimeKey(c, u)) <==> t < u) <==> (t < 0) == (u < 0)
  {
    hide BigEndian;
    LessSamePrefix(TimePrefix(c), BigEndian(ToUnsigned(t), 8), BigEndian(ToUnsigned(u), 8));
    TimeBytesOrder(t, u);
  }

  /** With colon-free contexts a prefix scan meets the context's own keys and no others. */
  lemma PrefixScanExact(c: string, d: string, t: Int64)
    requires ColonFree(c) && ColonFree(d)
    ensures HasPrefix(TimeKey(d, t), TimePrefix(c)) <==> c == d
  {
    hide BigEndian;
    var k, p := TimeKey(d, t), TimePrefix(c);
    if HasPrefix(k, p) {
      assert k[..|p|] == p;
      assert p[5 + |c|] == ':' && k[5 + |d|] == ':';
      assert c == p[5..5 + |c|] && d == k[5..5 + |d|];
    }
  }

  /** In general a scan for `c` meets a key of `d` if and only if they are the same context, `d`
      goes on from `c` after a colon, or `c` goes on from `d` after a colon with bytes of the time. */
  lemma PrefixScanMeets(c: string, d: string, t: Int64)
    ensures HasPrefix(TimeKey(d, t), TimePrefix(c)) <==>
      || c == d
      || HasPrefix(d, c + ":")
      || (HasPrefix(c, d + ":") && HasPrefix(BigEndian(ToUnsigned(t), 8), c[|d| + 1..] + ":"))
  {
    hide BigEndian;
    var bytes := BigEndian(ToUnsigned(t), 8);
    var k, p := d + ":" + bytes, c + ":";
    assert TimeKey(d, t) == "meta:" + k && TimePrefix(c) == "meta:" + p;
    SameStart("meta:", k, p);
    TailMeets(c, d, bytes);
  }

  lemma SameStart(a: string, k: string, p: string)
    ensures HasPrefix(a + k, a + p) <==> HasPrefix(k, p)
  {
    if HasPrefix(k, p) {
      assert (a + k)[..|a + p|] == a + p;
    }
    if HasPrefix(a + k, a + p) {
      assert k == (a + k)[|a|..] && p == (a + p)[|a|..];
      assert k[..|p|] == (a + k)[|a|..|a| + |p|] == p;
    }
  }

  lemma TailMeets(c: string, d: string, bytes: string)
    ensures HasPrefix(d + ":" + bytes, c + ":") <==>
      c == d || HasPrefix(d, c + ":") || (HasPrefix(c, d + ":") && HasPrefix(bytes, c[|d| + 1..] + ":"))
  {
    var k, p := d + ":" + bytes, c + ":";
    if |c| < |d| {
      assert |p| <= |d| && k[..|p|] == d[..|p|];
    } else if |c| == |d| {
      assert k[..|p|] == d + ":";
      if HasPrefix(k, p) {
        assert c == p[..|c|] == k[..|c|] == d;
      }
    } else {
      if HasPrefix(k, p) {
        assert p[..|d| + 1] == k[..|d| + 1] == d + ":";
        assert c[..|d| + 1] == p[..|d| + 1];
      }
      if HasPrefix(c, d + ":") {
        var rest := c[|d| + 1..] + ":";
        assert c == (d + ":") + c[|d| + 1..];
        assert p == (d + ":") + rest && k == (d + ":") + bytes;
        SameStart(d + ":", bytes, rest);
      }
    }
  }

  /** So with colons a scan picks up other contexts' entries. */
  lemma PrefixScanLeaks(c: string, d: string, t: Int64)
    ensures HasPrefix(TimeKey(c + ":" + d, t), TimePrefix(c)) && c + ":" + d != c
  {
    PrefixScanMeets(c, c + ":" + d, t);
    assert (c + ":" + d)[..|c| + 1] == c + ":";
  }

  /** Keys of different kinds never meet: their first bytes differ. */
  lemma KindsApart(id: string, context: string, t: Int64, path: string, c: string)
    ensures UnitKey(id) != TimeKey(context, t) && UnitKey(id) != LockKey(path) && UnitKey(id) != ContextKey(c)
    ensures TimeKey(context, t) != LockKey(path) && TimeKey(context, t) != ContextKey(c)
    ensures LockKey(path) != ContextKey(c)
  {
    hide BigEndian;
    assert UnitKey(id)[0] == 'w' && TimeKey(context, t)[0] == 'm' && LockKey(path)[0] == 'l' && ContextKey(c)[0] == 'c';
  }

  lemma UnitKeyInjective(p: string, q: string)
    ensures UnitKey(p) == UnitKey(q) <==> p == q
  {
    assert UnitKey(p)[3..] == p && UnitKey(q)[3..] == q;
  }

  lemma LockKeyInjective(p: string, q: string)
    ensures LockKey(p) == LockKey(q) <==> p == q
  {
    assert LockKey(p)[5..] == p && LockKey(q)[5..] == q;
  }

  lemma ContextKeyInjective(p: string, q: string)
    ensures ContextKey(p) == ContextKey(q) <==> p == q
  {
    assert ContextKey(p)[4..] == p && ContextKey(q)[4..] == q;
  }
}
