/** Byte strings and their order.

    A Go string is a sequence of bytes; here it is a Dafny `string` with one
    character per byte.  Badger orders keys, and `sort.Strings` orders paths, by
    the lexicographic order below. */
module Lex {

  predicate Less(a: string, b: string) {
    |b| > 0 && (|a| == 0 || a[0] < b[0] || (a[0] == b[0] && Less(a[1..], b[1..])))
  }

  predicate Leq(a: string, b: string) {
    a == b || Less(a, b)
  }

  predicate HasPrefix(s: string, p: string) {
    p <= s
  }

  lemma {:induction false} LessIrreflexive(a: string)
    ensures !Less(a, a)
  {
    if |a| > 0 {
      LessIrreflexive(a[1..]);
    }
  }

  lemma {:induction false} LessTransitive(a: string, b: string, c: string)
    requires Less(a, b) && Less(b, c)
    ensures Less(a, c)
  {
    if |a| > 0 && a[0] == b[0] == c[0] {
      LessTransitive(a[1..], b[1..], c[1..]);
    }
  }

  lemma {:induction false} LessTotal(a: string, b: string)
    ensures Less(a, b) || a == b || Less(b, a)
  {
    if |a| > 0 && |b| > 0 && a[0] == b[0] {
      LessTotal(a[1..], b[1..]);
      assert a == [a[0]] + a[1..] && b == [b[0]] + b[1..];
    }
  }

  lemma LessAsymmetric(a: string, b: string)
    requires Less(a, b)
    ensures !Less(b, a) && a != b
  {
    LessIrreflexive(a);
    if Less(b, a) {
      LessTransitive(a, b, a);
    }
  }

  lemma LeqLess(a: string, b: string, c: string)
    requires (Leq(a, b) && Less(b, c)) || (Less(a, b) && Leq(b, c))
    ensures Less(a, c)
  {
    if a != b && b != c {
      LessTransitive(a, b, c);
    }
  }

  /** Prepending the same bytes to both sides does not change the order. */
  lemma {:induction false} LessSamePrefix(p: string, a: string, b: string)
    ensures Less(p + a, p + b) <==> Less(a, b)
  {
    if p == [] {
      assert p + a == a && p + b == b;
    } else {
      LessSamePrefix(p[1..], a, b);
      assert (p + a)[1..] == p[1..] + a && (p + b)[1..] == p[1..] + b;
    }
  }

  lemma {:induction false} LessSnoc(a: string, b: string, x: char, y: char)
    requires |a| == |b|
    ensures Less(a + [x], b + [y]) <==> Less(a, b) || (a == b && x < y)
  {
    if a == [] {
      assert a + [x] == [x] && b + [y] == [y];
      assert [x][1..] == [] && [y][1..] == [];
    } else {
      LessSnoc(a[1..], b[1..], x, y);
      assert (a + [x])[1..] == a[1..] + [x] && (b + [y])[1..] == b[1..] + [y];
      assert a == [a[0]] + a[1..] && b == [b[0]] + b[1..];
      LessIrreflexive(a);
    }
  }

  /** Strings that start with pieces of equal length compare by those pieces first. */
  lemma {:induction false} LessEqualLength(a: string, b: string, x: string, y: string)
    requires |a| == |b|
    ensures Less(a + x, b + y) <==> Less(a, b) || (a == b && Less(x, y))
  {
    if a == [] {
      assert a + x == x && b + y == y;
    } else {
      LessEqualLength(a[1..], b[1..], x, y);
      assert (a + x)[1..] == a[1..] + x && (b + y)[1..] == b[1..] + y;
      assert a == [a[0]] + a[1..] && b == [b[0]] + b[1..];
    }
  }

  /** A prefix is at most the string. */
  lemma {:induction false} PrefixLeq(p: string, s: string)
    requires HasPrefix(s, p)
    ensures Leq(p, s)
  {
    if |p| > 0 {
      PrefixLeq(p[1..], s[1..]);
      assert p == [p[0]] + p[1..] && s == [s[0]] + s[1..];
    }
  }

  /** The strings with a given prefix form an interval: a string that is at least
      the prefix and below a string without it, or between two with it, has it. */
  lemma {:induction false} PrefixInterval(p: string, b: string, c: string)
    requires Leq(p, b) && Leq(b, c) && HasPrefix(c, p)
    ensures HasPrefix(b, p)
  {
    if p != [] && b != p && b != c {
      assert b[0] == p[0];
      if b[1..] != c[1..] && p[1..] != b[1..] {
        PrefixInterval(p[1..], b[1..], c[1..]);
        assert p == [p[0]] + p[1..] && b == [b[0]] + b[1..];
      }
    }
  }

  // ---------- sorting: `sort.Strings` ----------

  ghost predicate Ascending(s: seq<string>) {
    forall i, j :: 0 <= i < j < |s| ==> Leq(s[i], s[j])
  }

  function Insert(x: string, s: seq<string>): (r: seq<string>)
    ensures multiset(r) == multiset(s) + multiset{x}
  {
    if s == [] then [x]
    else if Less(s[0], x) then
      assert s == [s[0]] + s[1..];
      [s[0]] + Insert(x, s[1..])
    else [x] + s
  }

  function SortStrings(s: seq<string>): (r: seq<string>)
    ensures multiset(r) == multiset(s)
    ensures |r| == |s|
  {
    if s == [] then []
    else
      assert s == [s[0]] + s[1..];
      var r := Insert(s[0], SortStrings(s[1..]));
      assert |multiset(r)| == |r| && |multiset(s)| == |s|;
      r
  }

  lemma {:induction false} InsertAscending(x: string, s: seq<string>)
    requires Ascending(s)
    ensures Ascending(Insert(x, s))
  {
    if s != [] {
      if Less(s[0], x) {
        InsertAscending(x, s[1..]);
        var t := Insert(x, s[1..]);
        forall i | 0 <= i < |t| ensures Leq(s[0], t[i]) {
          assert t[i] in multiset(t);
          assert t[i] == x || t[i] in s[1..];
        }
      } else {
        LessTotal(s[0], x);
        forall i | 0 <= i < |s| ensures Leq(x, s[i]) {
          if x != s[i] && s[0] != x {
            LeqLess2(x, s[0], s[i]);
          }
        }
      }
    }
  }

  lemma LeqLess2(a: string, b: string, c: string)
    requires Leq(a, b) && Leq(b, c)
    ensures Leq(a, c)
  {
    if a != b && b != c {
      LessTransitive(a, b, c);
    }
  }

  /** The result of sorting is ascending (and, by its contract, a permutation). */
  lemma {:induction false} SortAscending(s: seq<string>)
    ensures Ascending(SortStrings(s))
  {
    if s != [] {
      SortAscending(s[1..]);
      InsertAscending(s[0], SortStrings(s[1..]));
    }
  }
}
