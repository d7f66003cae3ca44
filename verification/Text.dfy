/** Text pieces that keys are made of: colon-separated fields and decimal numbers. */
module Text {
  import opened Lex

  predicate ColonFree(s: string) {
    forall i :: 0 <= i < |s| ==> s[i] != ':'
  }

  // ---------- strings.Split(s, ":") ----------

  function Split(s: string): (parts: seq<string>)
    ensures |parts| >= 1
  {
    if s == "" then [""]
    else if s[0] == ':' then [""] + Split(s[1..])
    else var rest := Split(s[1..]); [[s[0]] + rest[0]] + rest[1..]
  }

  lemma {:induction false} SplitOne(a: string)
    requires ColonFree(a)
    ensures Split(a) == [a]
  {
    if a != "" {
      SplitOne(a[1..]);
      assert a == [a[0]] + a[1..];
    }
  }

  lemma {:induction false} SplitField(a: string, rest: string)
    requires ColonFree(a)
    ensures Split(a + ":" + rest) == [a] + Split(rest)
  {
    var s := a + ":" + rest;
    if a == "" {
      assert s == ":" + rest && s[1..] == rest;
    } else {
      assert s[1..] == a[1..] + ":" + rest;
      SplitField(a[1..], rest);
      assert a == [a[0]] + a[1..];
    }
  }

  // ---------- decimal numbers ----------

  function Pow10(n: nat): (r: nat)
    ensures r > 0
  {
    if n == 0 then 1 else 10 * Pow10(n - 1)
  }

  function Digit(d: nat): char
    requires d < 10
  {
    (d + 48) as char
  }

  /** The last `width` decimal digits of `n`, with leading zeros. */
  function Padded(n: nat, width: nat): (r: string)
    ensures |r| == width
    decreases width
  {
    if width == 0 then "" else Padded(n / 10, width - 1) + [Digit(n % 10)]
  }

  predicate IsDigit(c: char) {
    '0' <= c <= '9'
  }

  lemma {:induction false} PaddedDigits(n: nat, width: nat)
    ensures forall i :: 0 <= i < width ==> IsDigit(Padded(n, width)[i])
    decreases width
  {
    if width > 0 {
      PaddedDigits(n / 10, width - 1);
    }
  }

  lemma DigitsColonFree(s: string)
    requires forall i :: 0 <= i < |s| ==> IsDigit(s[i])
    ensures ColonFree(s)
  {
  }

  /** Zero-padded numbers of one width order as strings like the numbers themselves. */
  lemma {:induction false} PaddedOrder(m: nat, n: nat, width: nat)
    requires m < Pow10(width) && n < Pow10(width)
    ensures Less(Padded(m, width), Padded(n, width)) <==> m < n
    ensures Padded(m, width) == Padded(n, width) <==> m == n
    decreases width
  {
    if width > 0 {
      PaddedOrder(m / 10, n / 10, width - 1);
      var a, b := Padded(m / 10, width - 1), Padded(n / 10, width - 1);
      LessSnoc(a, b, Digit(m % 10), Digit(n % 10));
      assert (a + [Digit(m % 10)])[..width - 1] == a && (b + [Digit(n % 10)])[..width - 1] == b;
      assert (a + [Digit(m % 10)])[width - 1] == Digit(m % 10) && (b + [Digit(n % 10)])[width - 1] == Digit(n % 10);
    }
  }

  /** Reading a run of digits back (`fmt.Sscanf` with `%d`). */
  function ParseDigits(s: string): nat {
    if s == "" || !IsDigit(s[|s| - 1]) then 0
    else 10 * ParseDigits(s[..|s| - 1]) + (s[|s| - 1] as int - 48)
  }

  lemma {:induction false} ParsePadded(n: nat, width: nat)
    requires n < Pow10(width)
    ensures ParseDigits(Padded(n, width)) == n
    decreases width
  {
    if width > 0 {
      ParsePadded(n / 10, width - 1);
      var s := Padded(n, width);
      assert s[..width - 1] == Padded(n / 10, width - 1) && s[width - 1] == Digit(n % 10);
    }
  }

  /** `%020d` of a non-negative 64-bit number. */
  const WIDTH: nat := 20

  lemma FitsWidth(n: int)
    requires 0 <= n < 0x8000_0000_0000_0000
    ensures n < Pow10(WIDTH)
  {
    assert Pow10(5) == 100000;
    assert Pow10(10) == 10000000000;
    assert Pow10(15) == 1000000000000000;
    assert Pow10(20) == 100000000000000000000;
  }

  /** `%020d` of a time stamp. */
  function Stamp(ts: int): string {
    if ts < 0 then "-" + Padded(-ts, WIDTH - 1) else Padded(ts, WIDTH)
  }

  predicate ValidTime(ts: int) {
    0 <= ts < 0x8000_0000_0000_0000
  }

  lemma StampColonFree(ts: int)
    requires ts >= 0
    ensures ColonFree(Stamp(ts))
  {
    PaddedDigits(ts, WIDTH);
    DigitsColonFree(Stamp(ts));
  }

  /** The plain decimal form of a natural number (`%d`). */
  function Decimal(n: nat): string {
    if n < 10 then [Digit(n)] else Decimal(n / 10) + [Digit(n % 10)]
  }

  lemma {:induction false} DecimalReadsBack(n: nat)
    ensures Decimal(n) != "" && ColonFree(Decimal(n)) && ParseDigits(Decimal(n)) == n
  {
    if n >= 10 {
      DecimalReadsBack(n / 10);
      var s := Decimal(n);
      assert s[..|s| - 1] == Decimal(n / 10) && s[|s| - 1] == Digit(n % 10);
    } else {
      assert [Digit(n)][..0] == "";
    }
  }

  /** Different numbers have different decimal forms. */
  lemma DecimalInjective(m: nat, n: nat)
    ensures Decimal(m) == Decimal(n) <==> m == n
  {
    DecimalReadsBack(m);
    DecimalReadsBack(n);
  }
}
