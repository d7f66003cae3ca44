/** How the search index reads texts: words, and the test for text payloads. */
module SearchWords {

  predicate WordChar(c: char) {
    'a' <= c <= 'z' || '0' <= c <= '9'
  }

  /** `t[i..j]` is a maximal run of word characters. */
  ghost predicate RunAt(t: string, i: int, j: int) {
    && 0 <= i < j <= |t|
    && (forall k :: i <= k < j ==> WordChar(t[k]))
    && (i == 0 || !WordChar(t[i - 1]))
    && (j == |t| || !WordChar(t[j]))
  }

  ghost predicate IsWord(t: string, w: string) {
    exists i, j :: RunAt(t, i, j) && t[i..j] == w
  }

  ghost predicate EndedBefore(t: string, w: string, n: int) {
    exists i, j :: RunAt(t, i, j) && j < n && t[i..j] == w
  }

  /** Nothing but word characters since `start`, where a run can begin. */
  ghost predicate Reading(t: string, start: int, n: int) {
    && 0 <= start <= n <= |t|
    && (forall k :: start <= k < n ==> WordChar(t[k]))
    && (start == 0 || !WordChar(t[start - 1]))
  }

  lemma RunEndsHere(t: string, start: int, n: int, w: string)
    requires Reading(t, start, n) && (n < |t| ==> !WordChar(t[n]))
    ensures EndedBefore(t, w, n + 1) <==> EndedBefore(t, w, n) || (start < n && w == t[start..n])
  {
    if start < n {
      assert RunAt(t, start, n);
    }
    if EndedBefore(t, w, n + 1) {
      var i, j :| RunAt(t, i, j) && j < n + 1 && t[i..j] == w;
      if j == n {
        assert WordChar(t[n - 1]);
        assert i == start;
      }
    }
  }

  lemma NoRunEndsHere(t: string, n: int, w: string)
    requires 0 <= n < |t| && WordChar(t[n])
    ensures EndedBefore(t, w, n + 1) <==> EndedBefore(t, w, n)
  {
  }

  /** The words of a lower-cased text, each once, in some order. */
  method SplitIntoWords(text: string, lower: string -> string) returns (result: seq<string>)
    ensures forall w :: w in result <==> IsWord(lower(text), w)
    ensures forall i, j :: 0 <= i < j < |result| ==> result[i] != result[j]
  {
    hide IsWord, EndedBefore;
    var t := lower(text);
    var words: set<string> := {};
    var current := "";
    ghost var start := 0;
    forall w ensures !EndedBefore(t, w, 0) { NothingEnded(t, w); }
    for n := 0 to |t|
      invariant Reading(t, start, n) && current == t[start..n]
      invariant forall w :: w in words <==> EndedBefore(t, w, n)
    {
      if ('a' <= t[n] <= 'z') || ('0' <= t[n] <= '9') {
        assert t[start..n + 1] == t[start..n] + [t[n]];
        current := current + [t[n]];
        forall w ensures EndedBefore(t, w, n + 1) <==> EndedBefore(t, w, n) {
          NoRunEndsHere(t, n, w);
        }
      } else {
        forall w ensures EndedBefore(t, w, n + 1) <==> EndedBefore(t, w, n) || (start < n && w == t[start..n]) {
          RunEndsHere(t, start, n, w);
        }
        if |current| > 0 {
          words := words + {current};
          current := "";
        }
        start := n + 1;
      }
    }
    forall w ensures IsWord(t, w) <==> EndedBefore(t, w, |t|) || (start < |t| && w == t[start..]) {
      LastWord(t, start, w);
    }
    if |current| > 0 {
      assert current == t[start..];
      words := words + {current};
    }
    assert forall w :: w in words <==> IsWord(t, w);
    result := Listed(words);
  }

  lemma NothingEnded(t: string, w: string)
    ensures !EndedBefore(t, w, 0)
  {
  }

  lemma LastWord(t: string, start: int, w: string)
    requires Reading(t, start, |t|)
    ensures IsWord(t, w) <==> EndedBefore(t, w, |t|) || (start < |t| && w == t[start..])
  {
    RunEndsHere(t, start, |t|, w);
    assert t[start..|t|] == t[start..];
    assert IsWord(t, w) <==> EndedBefore(t, w, |t| + 1);
  }

  /** Ranging over a set: every element once, in an order of the runtime's choosing. */
  method Listed(s: set<string>) returns (r: seq<string>)
    ensures forall x :: x in r <==> x in s
    ensures forall i, j :: 0 <= i < j < |r| ==> r[i] != r[j]
    ensures |r| == |s|
  {
    r := [];
    var todo := s;
    while todo != {}
      invariant todo <= s && |r| + |todo| == |s|
      invariant forall x :: x in r <==> x in s && x !in todo
      invariant forall i, j :: 0 <= i < j < |r| ==> r[i] != r[j]
      decreases todo
    {
      var x :| x in todo;
      r := r + [x];
      todo := todo - {x};
    }
  }

  predicate Printable(c: char) {
    c as int >= 32 || c as int in {9, 10, 13}
  }

  /** A payload counts as text when its first 512 bytes hold no control bytes but tab and line ends. */
  ghost predicate TextPayload(data: string) {
    forall i :: 0 <= i < |data| && i < 512 ==> Printable(data[i])
  }

  method IsTextPayload(data: string) returns (text: bool)
    ensures text <==> TextPayload(data)
  {
    var maxCheck := |data|;
    if maxCheck > 512 {
      maxCheck := 512;
    }
    for i := 0 to maxCheck
      invariant forall k :: 0 <= k < i ==> Printable(data[k])
    {
      if data[i] as int < 32 && data[i] as int != 9 && data[i] as int != 10 && data[i] as int != 13 {
        return false;
      }
    }
    return true;
  }
}
