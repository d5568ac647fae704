/** Exact decimals as reals: which values the decimal parser admits, and half-even rounding. */
module Decimals {
  import opened Digits

  /** Most digits, and most fraction digits, a decimal may have to be read back. */
  const INPUT_DIGITS := 64
  const INPUT_PLACES := 24

  /** Multiplication under a name the verifier treats as one term. */
  function Times(x: real, p: real): real {
    x * p
  }

  predicate IsInteger(x: real) {
    x.Floor as real == x
  }

  /** v can be written with n fraction digits and no more than INPUT_DIGITS digits in all. */
  predicate FitsPlaces(v: real, n: nat)
    requires n <= INPUT_PLACES
  {
    && IsInteger(Times(v, Pow10(n) as real))
    && -Pow10(INPUT_DIGITS - n) as real < v < Pow10(INPUT_DIGITS - n) as real
  }

  /** The canonical text of v is accepted by the decimal parser. */
  predicate FitsText(v: real) {
    exists n :: 0 <= n <= INPUT_PLACES && FitsPlaces(v, n)
  }

  /** Integers of moderate size are always readable. */
  lemma SmallIntegersFit(k: int)
    requires -1000 < k < 1000
    ensures FitsText(k as real)
  {
    Pow10Monotone(3, INPUT_DIGITS);
    assert Pow10(3) == 1000;
    assert Pow10(0) == 1;
    assert Times(k as real, 1.0) == k as real;
    assert FitsPlaces(k as real, 0);
  }

  /** The integer nearest x, the even one of two equally near. */
  function HalfEven(x: real): (k: int)
    ensures -0.5 <= k as real - x <= 0.5
    ensures (k as real - x == 0.5 || k as real - x == -0.5) ==> k % 2 == 0
  {
    var f := x.Floor;
    var rest := x - f as real;
    if rest < 0.5 || (rest == 0.5 && f % 2 == 0) then f else f + 1
  }

  /** Rounding keeps order. */
  lemma HalfEvenMonotone(x: real, y: real)
    requires x <= y
    ensures HalfEven(x) <= HalfEven(y)
  {
    if x < y {
      assert (HalfEven(x) - HalfEven(y)) as real < 1.0;
    }
  }

  /** The two promises of HalfEven leave no other integer. */
  lemma HalfEvenUnique(x: real, k: int)
    requires -0.5 <= k as real - x <= 0.5
    requires (k as real - x == 0.5 || k as real - x == -0.5) ==> k % 2 == 0
    ensures k == HalfEven(x)
  {
    var h := HalfEven(x);
    assert -1.0 <= (k - h) as real <= 1.0;
  }

  /** x rounded half-even to a multiple of 1/p. */
  function RoundAt(x: real, p: real): real
    requires p > 0.0
  {
    HalfEven(Times(x, p)) as real / p
  }

  /** x rounded half-even to n fraction digits. */
  function RoundTo(x: real, n: nat): real {
    RoundAt(x, Pow10(n) as real)
  }

  lemma Quotient(k: real, p: real)
    requires p > 0.0
    ensures k / p == k * (1.0 / p) && 1.0 / p > 0.0
  {
  }

  lemma DivideMonotone(x: real, y: real, p: real)
    requires x <= y && p > 0.0
    ensures x / p <= y / p
  {
    Quotient(x, p);
    Quotient(y, p);
    var q := 1.0 / p;
    assert (y - x) * q >= 0.0;
    assert (y - x) * q == y * q - x * q;
  }

  lemma MultiplyMonotone(x: real, y: real, p: real)
    requires x <= y && p > 0.0
    ensures x * p <= y * p
  {
    assert (y - x) * p >= 0.0;
  }

  lemma TimesMonotone(x: real, y: real, p: real)
    requires x <= y && p > 0.0
    ensures Times(x, p) <= Times(y, p)
  {
    MultiplyMonotone(x, y, p);
  }

  lemma DivideSelf(p: real)
    requires p > 0.0
    ensures p / p == 1.0
  {
  }

  lemma DivideBack(x: real, p: real)
    requires p > 0.0
    ensures x * p / p == x
  {
  }

  lemma DivideDifference(x: real, y: real, p: real)
    requires p > 0.0
    ensures (x - y) / p == x / p - y / p
  {
    Quotient(x, p);
    Quotient(y, p);
    Quotient(x - y, p);
    var q := 1.0 / p;
    assert (x - y) * q == x * q - y * q;
  }

  /** Rounding to multiples of 1/p moves a value by at most half of one. */
  lemma RoundAtBound(x: real, p: real)
    requires p > 0.0
    ensures -0.5 / p <= RoundAt(x, p) - x <= 0.5 / p
  {
    var y := Times(x, p);
    var k := HalfEven(y) as real;
    DivideBack(x, p);
    DivideDifference(k, y, p);
    DivideMonotone(-0.5, k - y, p);
    DivideMonotone(k - y, 0.5, p);
  }

  lemma RoundAtMonotone(x: real, y: real, p: real)
    requires x <= y && p > 0.0
    ensures RoundAt(x, p) <= RoundAt(y, p)
  {
    TimesMonotone(x, y, p);
    HalfEvenMonotone(Times(x, p), Times(y, p));
    DivideMonotone(HalfEven(Times(x, p)) as real, HalfEven(Times(y, p)) as real, p);
  }

  /** A multiple of 1/p is left alone. */
  lemma RoundAtExact(k: int, p: real)
    requires p > 0.0
    ensures RoundAt(k as real / p, p) == k as real / p
  {
    var x := k as real / p;
    assert Times(x, p) == k as real;
    HalfEvenUnique(Times(x, p), k);
  }

  lemma IntegerTimes(x: real, y: int, z: int)
    requires x.Floor as real == x && y as real * x == z as real
    ensures z == y * x.Floor
  {
  }

  lemma IntegerScaled(v: real, b: int, a: int, k: int)
    requires IsInteger(Times(v, b as real)) && Times(v, (10 * a * b) as real) == k as real
    ensures k % 10 == 0
  {
    Rescale(v, 10 * a, b);
    IntegerTimes(Times(v, b as real), 10 * a, k);
    TenDivides(a, Times(v, b as real).Floor, k);
  }

  lemma Rescale(v: real, a: int, b: int)
    ensures a as real * Times(v, b as real) == Times(v, (a * b) as real)
  {
    assert (a * b) as real == a as real * b as real;
  }

  lemma TenDivides(a: int, b: int, k: int)
    requires k == 10 * a * b
    ensures k % 10 == 0
  {
    assert k == 10 * (a * b);
  }

  // Decimals as they are written: an integer and how many of its digits stand behind the point.

  datatype Scaled = Scaled(n: int, places: nat)

  function ValueOf(s: Scaled): real {
    s.n as real / Pow10(s.places) as real
  }

  function Product(a: Scaled, b: Scaled): Scaled {
    Scaled(a.n * b.n, a.places + b.places)
  }

  /** Trailing zeros behind the point dropped. */
  function Reduced(s: Scaled): (r: Scaled)
    ensures r.places > 0 ==> r.n % 10 != 0
    decreases s.places
  {
    if s.places > 0 && s.n % 10 == 0 then Reduced(Scaled(s.n / 10, s.places - 1)) else s
  }

  /** Read back by the parser: once reduced, no more than INPUT_PLACES places and INPUT_DIGITS digits. */
  predicate Reads(s: Scaled) {
    var r := Reduced(s);
    r.places <= INPUT_PLACES && -Pow10(INPUT_DIGITS) < r.n < Pow10(INPUT_DIGITS)
  }

  lemma ScaledBack(s: Scaled)
    ensures Times(ValueOf(s), Pow10(s.places) as real) == s.n as real
  {
  }

  lemma TenthOfTens(n: real, p: real)
    requires p > 0.0
    ensures (10.0 * n) / (10.0 * p) == n / p
  {
    var q := n / p;
    assert q * p == n;
    assert q * (10.0 * p) == 10.0 * n;
    DivideBack(q, 10.0 * p);
  }

  lemma {:induction false} ReducedSame(s: Scaled)
    ensures ValueOf(Reduced(s)) == ValueOf(s)
    decreases s.places
  {
    if s.places > 0 && s.n % 10 == 0 {
      var shorter := Scaled(s.n / 10, s.places - 1);
      TenthOfTens(shorter.n as real, Pow10(shorter.places) as real);
      ReducedSame(shorter);
    }
  }

  /** A reduced decimal needs all its places. */
  lemma NeedsPlaces(r: Scaled, k: nat)
    requires (r.places > 0 ==> r.n % 10 != 0) && k < r.places
    ensures !IsInteger(Times(ValueOf(r), Pow10(k) as real))
  {
    if IsInteger(Times(ValueOf(r), Pow10(k) as real)) {
      ScaledBack(r);
      Pow10Sum(r.places - k, k);
      IntegerScaled(ValueOf(r), Pow10(k), Pow10(r.places - k - 1), r.n);
    }
  }

  /** |v| stays below b exactly when |v| * p stays below b * p. */
  lemma BoundScales(v: real, b: real, p: real)
    requires p > 0.0
    ensures -b < v < b <==> -(b * p) < v * p < b * p
  {
    if v < b {
      LessTimes(v, b, p);
    } else {
      MultiplyMonotone(b, v, p);
    }
    if -b < v {
      LessTimes(-b, v, p);
    } else {
      MultiplyMonotone(v, -b, p);
    }
  }

  lemma LessTimes(x: real, y: real, p: real)
    requires x < y && p > 0.0
    ensures x * p < y * p
  {
    assert (y - x) * p > 0.0;
  }

  lemma CastProduct(x: int, y: int)
    ensures (x * y) as real == x as real * y as real
  {
  }

  /** With k of its places used up, a value has room for INPUT_DIGITS - k digits before the point. */
  lemma DigitsBound(v: real, k: nat, n: int)
    requires k <= INPUT_PLACES && Times(v, Pow10(k) as real) == n as real
    ensures -Pow10(INPUT_DIGITS - k) as real < v < Pow10(INPUT_DIGITS - k) as real
       <==> -Pow10(INPUT_DIGITS) < n < Pow10(INPUT_DIGITS)
  {
    Pow10Sum(INPUT_DIGITS - k, k);
    BoundCast(v, Pow10(INPUT_DIGITS - k), Pow10(k), n, Pow10(INPUT_DIGITS));
  }

  lemma BoundCast(v: real, b: int, p: int, n: int, big: int)
    requires p >= 1 && big == b * p && Times(v, p as real) == n as real
    ensures -b as real < v < b as real <==> -big < n < big
  {
    CastProduct(b, p);
    BoundScales(v, b as real, p as real);
  }

  lemma ShortIfRead(r: Scaled)
    requires (r.places > 0 ==> r.n % 10 != 0) && FitsText(ValueOf(r))
    ensures r.places <= INPUT_PLACES && -Pow10(INPUT_DIGITS) < r.n < Pow10(INPUT_DIGITS)
  {
    var v := ValueOf(r);
    var k :| 0 <= k <= INPUT_PLACES && FitsPlaces(v, k);
    if k < r.places {
      NeedsPlaces(r, k);
    }
    ScaledBack(r);
    Pow10Monotone(INPUT_DIGITS - k, INPUT_DIGITS - r.places);
    DigitsBound(v, r.places, r.n);
  }

  lemma ReadIfShort(r: Scaled)
    requires r.places <= INPUT_PLACES && -Pow10(INPUT_DIGITS) < r.n < Pow10(INPUT_DIGITS)
    ensures FitsText(ValueOf(r))
  {
    ScaledBack(r);
    DigitsBound(ValueOf(r), r.places, r.n);
    assert IsInteger(r.n as real);
    assert FitsPlaces(ValueOf(r), r.places);
  }

  /** The parser reads a value back if and only if its reduced form is short enough. */
  lemma ReadsIff(s: Scaled)
    ensures FitsText(ValueOf(s)) <==> Reads(s)
  {
    ReducedSame(s);
    if FitsText(ValueOf(s)) {
      ShortIfRead(Reduced(s));
    } else if Reads(s) {
      ReadIfShort(Reduced(s));
    }
  }

  lemma ProductValue(a: Scaled, b: Scaled)
    ensures ValueOf(Product(a, b)) == Times(ValueOf(a), ValueOf(b))
  {
    ScaledBack(a);
    ScaledBack(b);
    Pow10Sum(a.places, b.places);
    QuotientProduct(ValueOf(a), ValueOf(b), a.n, b.n, Pow10(a.places), Pow10(b.places));
  }

  lemma AtLeastOne(p: int, q: int)
    requires p >= 1 && q >= 1
    ensures p * q >= 1
  {
    assert (p - 1) * (q - 1) >= 0;
  }

  lemma QuotientProduct(x: real, y: real, m: int, n: int, p: int, q: int)
    requires p >= 1 && q >= 1 && Times(x, p as real) == m as real && Times(y, q as real) == n as real
    ensures p * q >= 1 && (m * n) as real / (p * q) as real == Times(x, y)
  {
    AtLeastOne(p, q);
    assert Times((m as real), (n as real)) == Times(x * y, (p * q) as real) by {
      FourFactors(x, p as real, y, q as real);
      CastProduct(p, q);
    }
    CastProduct(m, n);
    DivideBack(x * y, (p * q) as real);
  }

  lemma FourFactors(x: real, p: real, y: real, q: real)
    ensures (x * p) * (y * q) == (x * y) * (p * q)
  {
    assert (x * p) * (y * q) == x * (p * (y * q));
    assert p * (y * q) == y * (p * q);
  }
}
