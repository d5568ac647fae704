/** Exactly when a held, priced and converted security is valued, in terms of the digits of what is multiplied. */
module ValuedExactly {
  import opened Sequences
  import opened Digits
  import opened Decimals
  import opened Selection
  import opened Valuation
  import opened SingleHolding

  /** From here on an inverse rate is less than half a unit of its last place. */
  const INVERSE_LIMIT := 2000000000000000000.0

  lemma UnitPlaces()
    ensures Pow10(INVERSION_PLACES) as real == 1000000000000000000.0
  {
    Pow10Sum(9, 9);
    assert Pow10(3) == 1000;
    assert Pow10(6) == 1000000;
    assert Pow10(9) == 1000000000;
  }

  /** What an amount is multiplied by: the rate itself, or its inverse rounded to INVERSION_PLACES places. */
  function Multiplier(inverse: bool, rate: Scaled): Scaled
    requires ValueOf(rate) > 0.0
  {
    if inverse then Scaled(HalfEven(Times(1.0 / ValueOf(rate), Pow10(INVERSION_PLACES) as real)), INVERSION_PLACES) else rate
  }

  lemma DivideAbove(a: real, b: real, r: real)
    requires r > 0.0
    ensures a / r <= b <==> a <= b * r
  {
    var q := a / r;
    assert q * r == a;
    if q <= b {
      MultiplyMonotone(q, b, r);
    } else {
      LessTimes(b, q, r);
    }
  }

  /** An inverse rounds to nothing exactly from INVERSE_LIMIT on. */
  lemma InverseVanishesIff(rate: Scaled)
    requires ValueOf(rate) > 0.0
    ensures ValueOf(Multiplier(true, rate)) > 0.0 <==> ValueOf(rate) < INVERSE_LIMIT
  {
    UnitPlaces();
    var r, p := ValueOf(rate), 1000000000000000000.0;
    var x := Times(1.0 / r, p);
    assert x == p / r;
    DivideAbove(p, 0.5, r);
    var k := HalfEven(x);
    if x <= 0.5 {
      assert k <= 1;
      HalfStaysDown(x);
    } else {
      assert k >= 1;
    }
    SignKept(k, p);
  }

  lemma HalfStaysDown(x: real)
    requires 0.0 <= x <= 0.5
    ensures HalfEven(x) == 0
  {
    HalfEvenUnique(x, 0);
  }

  lemma SignKept(k: int, p: real)
    requires p > 0.0
    ensures k as real / p > 0.0 <==> k > 0
  {
    if k > 0 {
      Quotient(k as real, p);
      LessTimes(0.0, k as real, 1.0 / p);
    } else {
      DivideMonotone(k as real, 0.0, p);
    }
  }

  lemma ScaledSign(s: Scaled)
    ensures ValueOf(s) > 0.0 <==> s.n > 0
  {
    SignKept(s.n, Pow10(s.places) as real);
  }

  /** A rate that can be used: readable, positive, and not an inverse that rounds away. */
  predicate RateUsable(inverse: bool, rate: Scaled) {
    Reads(rate) && rate.n > 0 && (inverse ==> ValueOf(rate) < INVERSE_LIMIT)
  }

  /** A native amount converts exactly when the rate can be used and the product can be read back. */
  lemma ConvertsIff(native: Scaled, inverse: bool, rate: Scaled)
    ensures var home := HomeValue(ValueOf(native), FxQuote(inverse, ValueOf(rate)));
      if RateUsable(inverse, rate) && ValueOf(rate) > 0.0 then
        (home.Some? <==> Reads(Product(native, Multiplier(inverse, rate))))
        && (home.Some? ==> home.value == ValueOf(Product(native, Multiplier(inverse, rate))))
      else home.None?
  {
    ScaledSign(rate);
    ReadsIff(rate);
    if ValueOf(rate) > 0.0 {
      var factor := Multiplier(inverse, rate);
      if inverse {
        InverseVanishesIff(rate);
      }
      ProductValue(native, factor);
      ReadsIff(Product(native, factor));
    }
  }

  /** Every factor and the product can be read back: what a caller can check by counting digits. */
  predicate Valuable(quantity: Scaled, close: Scaled, foreign: bool, inverse: bool, rate: Scaled) {
    && Reads(quantity) && Reads(close)
    && if !foreign then Reads(Product(quantity, close))
       else RateUsable(inverse, rate) && ValueOf(rate) > 0.0
            && Reads(Product(Product(quantity, close), Multiplier(inverse, rate)))
  }

  function Worth(quantity: Scaled, close: Scaled, foreign: bool, inverse: bool, rate: Scaled): Scaled
    requires foreign ==> ValueOf(rate) > 0.0
  {
    var native := Product(quantity, close);
    if foreign then Product(native, Multiplier(inverse, rate)) else native
  }

  /** A held and priced security, converted if foreign, is valued if and only if its factors and product can be read back. */
  lemma ValuedIff(quantity: Scaled, close: Scaled, foreign: bool, inverse: bool, rate: Scaled, price: PriceRow)
    requires quantity.n > 0 && price.close == ValueOf(close)
    ensures var quote := if foreign then Some(FxQuote(inverse, ValueOf(rate))) else None;
      var o := Contribution(ValueOf(quantity), Some(price), foreign, quote);
      && (o.Valued? <==> Valuable(quantity, close, foreign, inverse, rate))
      && (o.Valued? ==> o.value == ValueOf(Worth(quantity, close, foreign, inverse, rate)))
      && (!o.Valued? ==> o.Unusable? || (o.BadQuantity? && !Reads(quantity)))
  {
    ScaledSign(quantity);
    ReadsIff(quantity);
    ReadsIff(close);
    ProductValue(quantity, close);
    ReadsIff(Product(quantity, close));
    if foreign {
      ConvertsIff(Product(quantity, close), inverse, rate);
    }
  }

  // Readable factors whose product is not.

  const FEW := Scaled(1, 3)
  const CHEAP := Scaled(1, 4)
  const FINE := Scaled(1, 18)

  lemma UnitReads(places: nat)
    requires places <= INPUT_PLACES
    ensures Reads(Scaled(1, places))
  {
    Pow10Monotone(1, INPUT_DIGITS);
    assert Pow10(1) == 10 * Pow10(0);
  }

  /** A thousandth of a share at a ten-thousandth, at a rate of 18 places: held and priced, and yet worth nothing. */
  lemma PreciseValueDropped()
    ensures Reads(FEW) && Reads(CHEAP) && Reads(FINE) && !Valuable(FEW, CHEAP, true, false, FINE)
    ensures QuoteFor(Single(ValueOf(FEW), ValueOf(CHEAP), false, ValueOf(FINE)), SHARE, 10, 0).Some?
    ensures Derive(Single(ValueOf(FEW), ValueOf(CHEAP), false, ValueOf(FINE)), 20, 20, 10, 0) == Point(None, false, 1, 0, false)
  {
    UnitReads(3);
    UnitReads(4);
    UnitReads(18);
    ScaledSign(FEW);
    ScaledSign(CHEAP);
    ScaledSign(FINE);
    ReadsIff(FEW);
    assert Product(Product(FEW, CHEAP), FINE) == Scaled(1, 25);
    ValuedIff(FEW, CHEAP, true, false, FINE, Closed(ValueOf(CHEAP)));
    SingleRows(ValueOf(FEW), ValueOf(CHEAP), false, ValueOf(FINE));
    SingleDerived(ValueOf(FEW), ValueOf(CHEAP), false, ValueOf(FINE));
    UnusablePoint();
  }

  // Amounts some rate converts.

  /** Up to INPUT_DIGITS digits, wherever the point stands: a power of ten makes it a whole number. */
  lemma FewDigitsConvert(native: Scaled)
    requires native.places < INPUT_DIGITS && -Pow10(INPUT_DIGITS) < native.n < Pow10(INPUT_DIGITS)
    ensures exists quote :: HomeValue(ValueOf(native), quote).Some?
  {
    var rate := Scaled(Pow10(native.places), 0);
    PowerReads(native.places);
    ScaledSign(rate);
    WholeAgain(native);
    ConvertsIff(native, false, rate);
    assert HomeValue(ValueOf(native), FxQuote(false, ValueOf(rate))).Some?;
  }

  lemma WholeValue(n: int)
    ensures ValueOf(Scaled(n, 0)) == n as real
  {
    assert Pow10(0) == 1;
  }

  lemma WholeAgain(native: Scaled)
    requires -Pow10(INPUT_DIGITS) < native.n < Pow10(INPUT_DIGITS)
    ensures Reads(Product(native, Scaled(Pow10(native.places), 0)))
  {
    var rate, whole := Scaled(Pow10(native.places), 0), Scaled(native.n, 0);
    WholeValue(Pow10(native.places));
    WholeValue(native.n);
    ScaledBack(native);
    ProductValue(native, rate);
    ReadsIff(whole);
    ReadsIff(Product(native, rate));
  }

  lemma PowerReads(k: nat)
    requires k < INPUT_DIGITS
    ensures Reads(Scaled(Pow10(k), 0))
  {
    Pow10Monotone(k, INPUT_DIGITS - 1);
    assert Pow10(INPUT_DIGITS) == 10 * Pow10(INPUT_DIGITS - 1);
  }

  // Amounts no rate converts.

  predicate CoprimeToTen(k: int) {
    k > 0 && k % 2 != 0 && k % 5 != 0
  }

  lemma Expand(p: int, a: int, q: int, b: int)
    ensures (10 * p + a) * (10 * q + b) == 10 * (p * (10 * q + b) + a * q) + a * b
  {
    assert (10 * p + a) * (10 * q + b) == 10 * p * (10 * q + b) + a * (10 * q + b);
    assert 10 * p * (10 * q + b) == 10 * (p * (10 * q + b));
  }

  lemma DigitProduct(a: int, b: int)
    requires (a == 1 || a == 3 || a == 7 || a == 9) && 0 <= b <= 9 && (a * b) % 10 == 0
    ensures b == 0
  {
  }

  lemma LastDigit(k: int, y: int)
    requires CoprimeToTen(k) && (k * y) % 10 == 0
    ensures y % 10 == 0
  {
    var p, a, q, b := k / 10, k % 10, y / 10, y % 10;
    Expand(p, a, q, b);
    TensAside(p * (10 * q + b) + a * q, a * b);
    DigitProduct(a, b);
  }

  lemma TensAside(x: int, r: int)
    ensures (10 * x + r) % 10 == r % 10
  {
  }

  /** A divisor without twos and fives divides a number once its trailing zeros are gone. */
  lemma {:induction false} DividesReduced(k: int, y: int, x: int, m: nat) returns (z: int)
    requires CoprimeToTen(k) && k * y == x * Pow10(m)
    ensures k * z == x
    decreases m
  {
    if m == 0 {
      z := y;
    } else {
      assert x * Pow10(m) == 10 * (x * Pow10(m - 1));
      LastDigit(k, y);
      assert k * y == 10 * (k * (y / 10)) by {
        assert y == 10 * (y / 10);
      }
      z := DividesReduced(k, y / 10, x, m - 1);
    }
  }

  lemma {:induction false} ReducedScales(s: Scaled)
    ensures Reduced(s).places <= s.places && s.n == Reduced(s).n * Pow10(s.places - Reduced(s).places)
    decreases s.places
  {
    if s.places > 0 && s.n % 10 == 0 {
      var shorter := Scaled(s.n / 10, s.places - 1);
      ReducedScales(shorter);
      var r := Reduced(shorter);
      assert s.n == 10 * (r.n * Pow10(shorter.places - r.places)) == r.n * (10 * Pow10(shorter.places - r.places));
    }
  }

  lemma MultipleTooLong(k: int, z: int, big: int)
    requires k >= big >= 0 && z != 0
    ensures !(-big < k * z < big)
  {
    if z > 0 {
      MultiplyAtLeast(k, z);
    } else {
      MultiplyAtLeast(k, -z);
      assert k * z == -(k * -z);
    }
  }

  lemma MultiplyAtLeast(k: int, z: int)
    requires k >= 0 && z >= 1
    ensures k * z >= k
  {
    assert k * z == k + k * (z - 1) && k * (z - 1) >= 0;
  }

  /** A multiple of a number without twos and fives that is itself too long can never be read back. */
  lemma LongMultipleUnread(s: Scaled, k: int, y: int)
    requires CoprimeToTen(k) && k >= Pow10(INPUT_DIGITS) && s.n == k * y && s.n != 0
    ensures !Reads(s)
  {
    var r := Reduced(s);
    ReducedScales(s);
    var z := DividesReduced(k, y, r.n, s.places - r.places);
    assert z != 0;
    MultipleTooLong(k, z, Pow10(INPUT_DIGITS));
  }

  lemma ReadableScaled(rate: real) returns (factor: Scaled)
    requires FitsText(rate)
    ensures ValueOf(factor) == rate
    ensures factor.places <= INPUT_PLACES && -Pow10(INPUT_DIGITS) < factor.n < Pow10(INPUT_DIGITS)
  {
    var n :| 0 <= n <= INPUT_PLACES && FitsPlaces(rate, n);
    var p := Pow10(n) as real;
    factor := Scaled(Times(rate, p).Floor, n);
    assert ValueOf(factor) == Times(rate, p) / p;
    DivideBack(rate, p);
    DigitsBound(rate, n, factor.n);
  }

  lemma InverseBelow(rate: real, p: int, unit: int)
    requires rate > 0.0 && p >= 1 && unit >= 1 && IsInteger(Times(rate, p as real))
    ensures HalfEven(Times(1.0 / rate, unit as real)) <= p * unit
  {
    LessTimes(0.0, rate, p as real);
    assert Times(rate, p as real) >= 1.0;
    DivideAbove(1.0, p as real, rate);
    MultiplyMonotone(1.0 / rate, p as real, unit as real);
    CastProduct(p, unit);
    HalfEvenMonotone(Times(1.0 / rate, unit as real), (p * unit) as real);
    HalfEvenUnique((p * unit) as real, p * unit);
  }

  lemma PlacesTogether(n: nat)
    requires n <= INPUT_PLACES
    ensures Pow10(n) * Pow10(INVERSION_PLACES) < Pow10(INPUT_DIGITS)
  {
    Pow10Sum(n, INVERSION_PLACES);
    Pow10Monotone(n + INVERSION_PLACES, INPUT_DIGITS - 1);
    assert Pow10(INPUT_DIGITS) == 10 * Pow10(INPUT_DIGITS - 1);
  }

  /** The inverse of a readable rate has at most 43 digits. */
  lemma InverseBound(rate: real)
    requires FitsText(rate) && rate > 0.0
    ensures HalfEven(Times(1.0 / rate, Pow10(INVERSION_PLACES) as real)) < Pow10(INPUT_DIGITS)
  {
    var n :| 0 <= n <= INPUT_PLACES && FitsPlaces(rate, n);
    InverseBelow(rate, Pow10(n), Pow10(INVERSION_PLACES));
    PlacesTogether(n);
  }

  /** What a usable quote multiplies by, written out. */
  lemma MultiplierOf(native: real, quote: FxQuote) returns (factor: Scaled)
    requires HomeValue(native, quote).Some?
    ensures FitsText(Times(native, ValueOf(factor)))
    ensures 0 < factor.n < Pow10(INPUT_DIGITS) && factor.places <= INPUT_PLACES
  {
    if quote.inverse {
      factor := Scaled(HalfEven(Times(1.0 / quote.rate, Pow10(INVERSION_PLACES) as real)), INVERSION_PLACES);
      assert ValueOf(factor) == RoundTo(1.0 / quote.rate, INVERSION_PLACES);
      InverseBound(quote.rate);
    } else {
      factor := ReadableScaled(quote.rate);
    }
    ScaledSign(factor);
  }

  lemma LongProductUnread(native: Scaled, factor: Scaled, k: int, y: int)
    requires CoprimeToTen(k) && k >= Pow10(INPUT_DIGITS) && native.n == k * y && native.n != 0 && factor.n > 0
    ensures !FitsText(Times(ValueOf(native), ValueOf(factor)))
  {
    var product := Product(native, factor);
    ProductValue(native, factor);
    ReadsIff(product);
    Associate(k, y, factor.n);
    LongMultipleUnread(product, k, y * factor.n);
  }

  lemma Associate(k: int, y: int, n: int)
    ensures (k * y) * n == k * (y * n)
    ensures k * y != 0 && n != 0 ==> k * (y * n) != 0
  {
  }

  /** No rate converts an amount with such a factor, however many twos and fives a rate could cancel. */
  lemma LongCoreRefused(native: Scaled, k: int, y: int)
    requires CoprimeToTen(k) && k >= Pow10(INPUT_DIGITS) && native.n == k * y && native.n != 0
    ensures forall quote :: HomeValue(ValueOf(native), quote).None?
  {
    forall quote ensures HomeValue(ValueOf(native), quote).None? {
      if HomeValue(ValueOf(native), quote).Some? {
        var factor := MultiplierOf(ValueOf(native), quote);
        LongProductUnread(native, factor, k, y);
      }
    }
  }
}
