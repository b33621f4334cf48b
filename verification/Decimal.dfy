/** Unbounded decimal numerals and their length-then-lexicographic comparison. */
module Decimal {
  import opened Sorting

  predicate Digit(c: char) {
    '0' <= c <= '9'
  }

  predicate Digits(s: string) {
    forall i | 0 <= i < |s| :: Digit(s[i])
  }

  /** 0 or a numeral with no leading zero. */
  predicate Numeral(s: string) {
    s != [] && Digits(s) && (s[0] == '0' ==> |s| == 1)
  }

  function DigitChar(d: nat): (c: char)
    requires d < 10
    ensures Digit(c) && c as int - '0' as int == d
  {
    (d + '0' as int) as char
  }

  function Pow10(n: nat): (r: nat)
    ensures r > 0
  {
    if n == 0 then 1 else 10 * Pow10(n - 1)
  }

  function Value(s: string): (v: nat)
    requires Digits(s)
    ensures v < Pow10(|s|)
  {
    if s == [] then 0
    else
      var d := s[0] as int - '0' as int;
      var p := Pow10(|s| - 1);
      assert d * p <= 9 * p;
      d * p + Value(s[1..])
  }

  lemma {:induction false} Pow10Monotone(m: nat, n: nat)
    requires m <= n
    ensures Pow10(m) <= Pow10(n)
  {
    if m < n { Pow10Monotone(m, n - 1); }
  }

  lemma {:induction false} Pow10Add(m: nat, n: nat)
    ensures Pow10(m + n) == Pow10(m) * Pow10(n)
  {
    if m > 0 {
      Pow10Add(m - 1, n);
      assert m + n - 1 == (m - 1) + n;
      TenTimes(Pow10(m - 1), Pow10(n));
    }
  }

  lemma {:induction false} TenTimes(p: int, q: int)
    ensures 10 * (p * q) == (10 * p) * q
  {
  }

  lemma {:induction false} Distribute(d: int, p: int, v: int, q: int)
    ensures (d * p + v) * q == d * (p * q) + v * q
  {
    assert (d * p) * q == d * (p * q);
  }

  lemma {:induction false} LeadDominates(x: int, y: int, p: int, u: int, v: int)
    requires x < y && 0 <= u < p && 0 <= v
    ensures x * p + u < y * p + v
  {
    assert (x + 1) * p <= y * p;
  }

  lemma {:induction false} ValueAppend(a: string, b: string)
    requires Digits(a) && Digits(b)
    ensures Digits(a + b) && Value(a + b) == Value(a) * Pow10(|b|) + Value(b)
  {
    if a == [] {
      assert a + b == b;
    } else {
      ValueAppend(a[1..], b);
      assert (a + b)[1..] == a[1..] + b && Digits(a + b);
      Pow10Add(|a| - 1, |b|);
      var d, p, v, q := a[0] as int - '0' as int, Pow10(|a| - 1), Value(a[1..]), Pow10(|b|);
      Distribute(d, p, v, q);
      assert Value(a) == d * p + v;
      assert Value(a + b) == d * Pow10(|a + b| - 1) + (v * q + Value(b));
    }
  }

  /** The numeral of n, as JavaScript's toString prints it. */
  function ToDecimal(n: nat): string {
    if n < 10 then [DigitChar(n)] else ToDecimal(n / 10) + [DigitChar(n % 10)]
  }

  lemma {:induction false} ToDecimalValue(n: nat)
    ensures Numeral(ToDecimal(n)) && Value(ToDecimal(n)) == n
    ensures n > 0 ==> ToDecimal(n)[0] != '0'
  {
    if n < 10 {
      assert Pow10(0) == 1;
    } else {
      ToDecimalValue(n / 10);
      var last := [DigitChar(n % 10)];
      ValueAppend(ToDecimal(n / 10), last);
      assert Pow10(1) == 10 * Pow10(0) == 10 && Value(last) == n % 10 by { assert last[1..] == []; }
    }
  }

  /** The last w digits of n. */
  function ToFixed(n: nat, w: nat): (s: string)
    ensures |s| == w && Digits(s)
  {
    if w == 0 then [] else ToFixed(n / 10, w - 1) + [DigitChar(n % 10)]
  }

  lemma {:induction false} ToFixedValue(n: nat, w: nat)
    requires n < Pow10(w)
    ensures Value(ToFixed(n, w)) == n
  {
    if w > 0 {
      ToFixedValue(n / 10, w - 1);
      var last := [DigitChar(n % 10)];
      ValueAppend(ToFixed(n / 10, w - 1), last);
      assert Pow10(1) == 10 * Pow10(0) == 10 && Value(last) == n % 10 by { assert last[1..] == []; }
    }
  }

  function CharRank(c: char): int {
    c as int
  }

  /** JavaScript's `<` on strings. */
  predicate StringLess(a: string, b: string) {
    LexLeq(a, b, CharRank) && a != b
  }

  function CompareNumericIdentifiers(left: string, right: string): int {
    if |left| != |right| then (if |left| < |right| then -1 else 1)
    else if StringLess(left, right) then -1
    else if StringLess(right, left) then 1
    else 0
  }

  function Sign(n: int): int {
    if n < 0 then -1 else if n > 0 then 1 else 0
  }

  lemma {:induction false} SameLengthOrder(a: string, b: string)
    requires |a| == |b| && Digits(a) && Digits(b)
    ensures LexLeq(a, b, CharRank) <==> Value(a) <= Value(b)
    ensures a == b <==> Value(a) == Value(b)
  {
    if a != [] {
      SameLengthOrder(a[1..], b[1..]);
      var p, x, y := Pow10(|a| - 1), a[0] as int - '0' as int, b[0] as int - '0' as int;
      var u, v := Value(a[1..]), Value(b[1..]);
      assert Value(a) == x * p + u && Value(b) == y * p + v;
      assert a == [a[0]] + a[1..] && b == [b[0]] + b[1..];
      if x < y {
        LeadDominates(x, y, p, u, v);
      } else if y < x {
        LeadDominates(y, x, p, v, u);
      }
    }
  }

  lemma {:induction false} NumeralLowerBound(s: string)
    requires Numeral(s) && |s| > 1
    ensures Pow10(|s| - 1) <= Value(s)
  {
    var d, p := s[0] as int - '0' as int, Pow10(|s| - 1);
    assert 1 * p <= d * p;
  }

  lemma {:induction false} ShorterIsSmaller(a: string, b: string)
    requires Numeral(a) && Numeral(b) && |a| < |b|
    ensures Value(a) < Value(b)
  {
    NumeralLowerBound(b);
    Pow10Monotone(|a|, |b| - 1);
  }

  /** Comparing numerals without converting them agrees with comparing the numbers. */
  lemma {:induction false} CompareAgreesWithValue(left: string, right: string)
    requires Numeral(left) && Numeral(right)
    ensures CompareNumericIdentifiers(left, right) == Sign(Value(left) - Value(right))
  {
    if |left| < |right| {
      ShorterIsSmaller(left, right);
    } else if |right| < |left| {
      ShorterIsSmaller(right, left);
    } else {
      SameLengthOrder(left, right);
      SameLengthOrder(right, left);
    }
  }
}
