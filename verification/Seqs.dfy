/** Facts about sequences that the solver is better told than left to find. */
module Seqs {

  lemma Associative<T>(a: seq<T>, b: seq<T>, c: seq<T>)
    ensures a + b + c == a + (b + c)
  {
  }

  ghost predicate Sorted<T(!new)>(s: seq<T>, above: (T, T) -> bool) {
    forall i, j :: 0 <= i < j < |s| ==> above(s[i], s[j])
  }

  ghost predicate Asymmetric<T(!new)>(above: (T, T) -> bool) {
    forall x, y :: above(x, y) ==> !above(y, x)
  }

  ghost predicate SameMembers<T(!new)>(a: seq<T>, b: seq<T>) {
    forall x :: x in a <==> x in b
  }

  /** Strictly sorted sequences with the same members are equal. */
  lemma {:induction false} SortedUnique<T(!new)>(a: seq<T>, b: seq<T>, above: (T, T) -> bool)
    requires Asymmetric(above) && Sorted(a, above) && Sorted(b, above) && SameMembers(a, b)
    ensures a == b
  {
    BothEmpty(a, b);
    if a != [] {
      assert a[0] in b && b[0] in a;
      var j :| 0 <= j < |b| && b[j] == a[0];
      var i :| 0 <= i < |a| && a[i] == b[0];
      assert a[0] == b[0];
      forall x ensures x in a[1..] <==> x in b[1..] {
        TailMembers(a, above, x);
        TailMembers(b, above, x);
      }
      SortedUnique(a[1..], b[1..], above);
    }
  }

  lemma BothEmpty<T(!new)>(a: seq<T>, b: seq<T>)
    requires SameMembers(a, b)
    ensures a == [] <==> b == []
  {
    if a != [] {
      assert a[0] in b;
    }
    if b != [] {
      assert b[0] in a;
    }
  }

  lemma TailMembers<T(!new)>(a: seq<T>, above: (T, T) -> bool, x: T)
    requires Asymmetric(above) && Sorted(a, above) && a != []
    ensures x in a[1..] <==> x in a && x != a[0]
  {
    assert a == [a[0]] + a[1..];
    assert forall i :: 0 < i < |a| ==> above(a[0], a[i]);
  }
}
