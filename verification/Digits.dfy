/** Digit strings, the order JavaScript gives strings, and the numbers digit strings stand for. */
module Digits {

  predicate IsDigit(c: char) {
    '0' <= c <= '9'
  }

  predicate AllDigits(s: string) {
    forall i :: 0 <= i < |s| ==> IsDigit(s[i])
  }

  function DigitValue(c: char): (d: int)
    requires IsDigit(c)
    ensures 0 <= d <= 9
  {
    c as int - '0' as int
  }

  function DigitChar(d: int): (c: char)
    requires 0 <= d <= 9
    ensures IsDigit(c) && DigitValue(c) == d
  {
    ('0' as int + d) as char
  }

  /** Character by character string order, a proper prefix first. */
  predicate LexLess(a: string, b: string) {
    b != "" && (a == "" || a[0] < b[0] || (a[0] == b[0] && LexLess(a[1..], b[1..])))
  }

  lemma {:induction false} LexIrreflexive(s: string)
    ensures !LexLess(s, s)
  {
    if s != "" {
      LexIrreflexive(s[1..]);
    }
  }

  lemma {:induction false} LexTotal(a: string, b: string)
    ensures a == b || LexLess(a, b) || LexLess(b, a)
    ensures !(LexLess(a, b) && LexLess(b, a))
  {
    if a != "" && b != "" {
      LexTotal(a[1..], b[1..]);
      assert a == [a[0]] + a[1..] && b == [b[0]] + b[1..];
    }
  }

  lemma {:induction false} LexTransitive(a: string, b: string, c: string)
    requires LexLess(a, b) && LexLess(b, c)
    ensures LexLess(a, c)
  {
    if a != "" {
      if a[0] == b[0] && b[0] == c[0] {
        LexTransitive(a[1..], b[1..], c[1..]);
      }
    }
  }

  function Pow10(n: nat): (p: int)
    ensures p >= 1
  {
    if n == 0 then 1 else 10 * Pow10(n - 1)
  }

  /** The number a digit string denotes, most significant digit first. */
  function Value(s: string): (v: int)
    requires AllDigits(s)
    ensures v >= 0
  {
    if s == "" then 0 else DigitValue(s[0]) * Pow10(|s| - 1) + Value(s[1..])
  }

  lemma {:induction false} ValueBound(s: string)
    requires AllDigits(s)
    ensures Value(s) < Pow10(|s|)
  {
    if s != "" {
      ValueBound(s[1..]);
      LeadingDigit(DigitValue(s[0]), 10, Pow10(|s| - 1), Value(s[1..]));
    }
  }

  /** A bigger leading digit outweighs everything after it. */
  lemma LeadingDigit(x: int, y: int, p: int, v: int)
    requires x < y && 0 <= v < p
    ensures x * p + v < y * p
  {
    var k := y - x - 1;
    assert k * p >= 0;
    assert y * p == (x + 1 + k) * p == x * p + p + k * p;
  }

  /** On digit strings of one length, string order is numeric order. */
  lemma {:induction false} SameLengthOrder(a: string, b: string)
    requires AllDigits(a) && AllDigits(b) && |a| == |b|
    ensures LexLess(a, b) <==> Value(a) < Value(b)
    ensures a == b <==> Value(a) == Value(b)
  {
    if a != "" {
      SameLengthOrder(a[1..], b[1..]);
      ValueBound(a[1..]);
      ValueBound(b[1..]);
      var x, y, p := DigitValue(a[0]), DigitValue(b[0]), Pow10(|a| - 1);
      assert a == [a[0]] + a[1..] && b == [b[0]] + b[1..];
      if x < y {
        LeadingDigit(x, y, p, Value(a[1..]));
      } else if y < x {
        LeadingDigit(y, x, p, Value(b[1..]));
      }
    }
  }

  /** A longer digit string without a leading zero is a larger number. */
  lemma LongerIsLarger(a: string, b: string)
    requires AllDigits(a) && AllDigits(b) && |a| < |b| && b[0] != '0'
    ensures Value(a) < Value(b)
  {
    ValueBound(a);
    Pow10Monotone(|a|, |b| - 1);
    LeadingDigit(0, DigitValue(b[0]), Pow10(|b| - 1), Value(a));
  }

  lemma {:induction false} Pow10Monotone(m: nat, n: nat)
    requires m <= n
    ensures Pow10(m) <= Pow10(n)
    decreases n
  {
    if m < n {
      Pow10Monotone(m, n - 1);
    }
  }

  lemma {:induction false} Pow10Sum(m: nat, n: nat)
    ensures Pow10(m + n) == Pow10(m) * Pow10(n)
  {
    if m > 0 {
      Pow10Sum(m - 1, n);
    }
  }

  lemma Distribute(d: int, p: int, q: int, v: int)
    ensures (d * p + v) * q == d * (p * q) + v * q
  {
    assert (d * p + v) * q == (d * p) * q + v * q;
  }

  lemma {:induction false} ValueConcat(a: string, b: string)
    requires AllDigits(a) && AllDigits(b)
    ensures AllDigits(a + b)
    ensures Value(a + b) == Value(a) * Pow10(|b|) + Value(b)
  {
    if a == "" {
      assert a + b == b;
    } else {
      assert (a + b)[1..] == a[1..] + b;
      ValueConcat(a[1..], b);
      Pow10Sum(|a| - 1, |b|);
      Distribute(DigitValue(a[0]), Pow10(|a| - 1), Pow10(|b|), Value(a[1..]));
    }
  }

  /** String order of two concatenations whose first parts have one length. */
  lemma {:induction false} LexConcat(a: string, b: string, c: string, d: string)
    requires |a| == |c|
    ensures LexLess(a + b, c + d) <==> LexLess(a, c) || (a == c && LexLess(b, d))
  {
    if a == "" {
      assert a + b == b && c + d == d;
    } else {
      assert (a + b)[1..] == a[1..] + b && (c + d)[1..] == c[1..] + d;
      assert a == [a[0]] + a[1..] && c == [c[0]] + c[1..];
      LexConcat(a[1..], b, c[1..], d);
    }
  }

  /** n in exactly w digits, as padStart(w, "0") prints a number that fits. */
  function Fixed(n: int, w: nat): (s: string)
    requires 0 <= n < Pow10(w)
    ensures |s| == w && AllDigits(s) && Value(s) == n
  {
    if w == 0 then ""
    else
      var rest := Fixed(n / 10, w - 1);
      var last := [DigitChar(n % 10)];
      ValueConcat(rest, last);
      assert Value(last) == n % 10 by {
        assert last[1..] == "";
      }
      assert Pow10(1) == 10;
      rest + last
  }

  lemma FixedOrder(m: int, n: int, w: nat)
    requires 0 <= m < Pow10(w) && 0 <= n < Pow10(w)
    ensures LexLess(Fixed(m, w), Fixed(n, w)) <==> m < n
    ensures Fixed(m, w) == Fixed(n, w) <==> m == n
  {
    SameLengthOrder(Fixed(m, w), Fixed(n, w));
  }

  /** The shortest decimal text of an integer, as String(n) prints it. */
  function Decimal(n: int): (s: string)
    ensures s != ""
    ensures n >= 0 ==> AllDigits(s)
    ensures n < 0 ==> s[0] == '-'
    decreases n < 0, if n < 0 then -n else n
  {
    if n < 0 then "-" + Decimal(-n)
    else if n < 10 then [DigitChar(n)]
    else Decimal(n / 10) + [DigitChar(n % 10)]
  }

  lemma {:induction false} DecimalValue(n: int)
    requires n >= 0
    ensures Value(Decimal(n)) == n
    ensures n > 0 ==> Pow10(|Decimal(n)| - 1) <= n
  {
    if n < 10 {
      assert Decimal(n)[1..] == "";
    } else {
      DecimalValue(n / 10);
      var last := [DigitChar(n % 10)];
      assert last[1..] == "";
      ValueConcat(Decimal(n / 10), last);
      assert Pow10(1) == 10;
    }
  }
}
