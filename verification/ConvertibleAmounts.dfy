/** Exactly which amounts some FX rate converts: only rates made of twos and fives need to be tried. */
module ConvertibleAmounts {
  import opened Digits
  import opened Decimals
  import opened Valuation
  import opened ValuedExactly

  /** The factors of two and five of a number. */
  function Tens(n: int): (t: int)
    requires n > 0
    ensures 0 < t <= n
    decreases n
  {
    if n % 2 == 0 then 2 * Tens(n / 2)
    else if n % 5 == 0 then 5 * Tens(n / 5)
    else 1
  }

  /** What is left without them. */
  function Core(n: int): (c: int)
    requires n > 0
    ensures CoprimeToTen(c)
    decreases n
  {
    if n % 2 == 0 then Core(n / 2)
    else if n % 5 == 0 then Core(n / 5)
    else n
  }

  lemma Pulled(k: int, c: int, t: int)
    ensures c * (k * t) == k * (c * t)
  {
  }

  lemma {:induction false} CoreTimesTens(n: int)
    requires n > 0
    ensures Core(n) * Tens(n) == n
    decreases n
  {
    if n % 2 == 0 {
      Pulled(2, Core(n / 2), Tens(n / 2));
      CoreTimesTens(n / 2);
    } else if n % 5 == 0 {
      Pulled(5, Core(n / 5), Tens(n / 5));
      CoreTimesTens(n / 5);
    }
  }

  lemma FiveOdd(m: int)
    ensures (5 * m) % 2 == m % 2
  {
    assert 5 * m == 2 * (2 * m) + m;
  }

  lemma {:induction false} TensOdd(n: int)
    requires n > 0 && n % 2 != 0
    ensures Tens(n) % 2 != 0
    decreases n
  {
    if n % 5 == 0 {
      var m := n / 5;
      assert n == 5 * m;
      FiveOdd(m);
      TensOdd(m);
      FiveOdd(Tens(m));
    }
  }

  lemma TensOfDouble(t: int)
    requires t > 0
    ensures Tens(2 * t) == 2 * Tens(t)
  {
    assert (2 * t) / 2 == t;
  }

  lemma TensOfFivefold(t: int)
    requires t > 0 && t % 2 != 0
    ensures Tens(5 * t) == 5 * Tens(t)
  {
    FiveOdd(t);
    assert (5 * t) / 5 == t;
  }

  lemma {:induction false} TensTwice(n: int)
    requires n > 0
    ensures Tens(Tens(n)) == Tens(n)
    decreases n
  {
    if n % 2 == 0 {
      TensTwice(n / 2);
      TensOfDouble(Tens(n / 2));
    } else if n % 5 == 0 {
      var m := n / 5;
      assert n == 5 * m;
      FiveOdd(m);
      TensOdd(m);
      TensTwice(m);
      TensOfFivefold(Tens(m));
    }
  }

  /** The rates worth trying: twos and fives only, below 64 digits, at one of 25 scales. */
  predicate Simple(rate: Scaled) {
    rate.places <= INPUT_PLACES && 0 < rate.n < Pow10(INPUT_DIGITS) && Tens(rate.n) == rate.n
  }

  lemma TenDividesMultiple(c: int, m: int)
    requires CoprimeToTen(c)
    ensures (c * m) % 10 == 0 <==> m % 10 == 0
    ensures m % 10 == 0 ==> (c * m) / 10 == c * (m / 10)
  {
    if m % 10 == 0 {
      assert c * m == 10 * (c * (m / 10));
    } else if (c * m) % 10 == 0 {
      LastDigit(c, m);
    }
  }

  /** Reducing a multiple by a number without twos and fives drops the same zeros. */
  lemma {:induction false} ReducedMultiple(c: int, m: int, places: nat)
    requires CoprimeToTen(c)
    ensures var r := Reduced(Scaled(m, places)); Reduced(Scaled(c * m, places)) == Scaled(c * r.n, r.places)
    decreases places
  {
    TenDividesMultiple(c, m);
    if places > 0 && m % 10 == 0 {
      ReducedMultiple(c, m / 10, places - 1);
    }
  }

  lemma SmallerFactor(c: int, m: int, big: int)
    requires c >= 1 && -big < c * m < big
    ensures -big < m < big
  {
    if m >= 0 {
      assert c * m == m + (c - 1) * m && (c - 1) * m >= 0;
    } else {
      assert c * m == m - (c - 1) * (-m) && (c - 1) * (-m) >= 0;
    }
  }

  /** Dropping such a factor keeps a decimal readable. */
  lemma ReadsWithoutCore(c: int, m: int, places: nat)
    requires CoprimeToTen(c) && Reads(Scaled(c * m, places))
    ensures Reads(Scaled(m, places))
  {
    ReducedMultiple(c, m, places);
    SmallerFactor(c, Reduced(Scaled(m, places)).n, Pow10(INPUT_DIGITS));
  }

  lemma Regroup(n: int, c: int, t: int)
    ensures n * (c * t) == c * (n * t)
  {
  }

  lemma {:induction false} ReducedNoLonger(s: Scaled)
    ensures Reduced(s).places <= s.places
    ensures s.n >= 0 ==> 0 <= Reduced(s).n <= s.n
    decreases s.places
  {
    if s.places > 0 && s.n % 10 == 0 {
      ReducedNoLonger(Scaled(s.n / 10, s.places - 1));
    }
  }

  lemma SimpleUsable(rate: Scaled)
    requires Simple(rate)
    ensures RateUsable(false, rate) && ValueOf(rate) > 0.0
  {
    ReducedNoLonger(rate);
    ScaledSign(rate);
  }

  /** A rate that converts stays one when only its twos and fives are kept. */
  lemma SimplerConverts(native: Scaled, quote: FxQuote) returns (rate: Scaled)
    requires HomeValue(ValueOf(native), quote).Some?
    ensures Simple(rate) && Reads(Product(native, rate))
  {
    var factor := MultiplierOf(ValueOf(native), quote);
    var c, t := Core(factor.n), Tens(factor.n);
    rate := Scaled(t, factor.places);
    TensTwice(factor.n);
    CoreTimesTens(factor.n);
    ProductValue(native, factor);
    ReadsIff(Product(native, factor));
    Regroup(native.n, c, t);
    ReadsWithoutCore(c, native.n * t, native.places + factor.places);
  }

  /** Some rate converts an amount if and only if one of the simple ones gives a product that can be read back. */
  lemma ConvertibleIff(native: Scaled)
    ensures (exists quote :: HomeValue(ValueOf(native), quote).Some?)
       <==> (exists rate :: Simple(rate) && Reads(Product(native, rate)))
  {
    if quote :| HomeValue(ValueOf(native), quote).Some? {
      var rate := SimplerConverts(native, quote);
      assert Simple(rate) && Reads(Product(native, rate));
    }
    if rate :| Simple(rate) && Reads(Product(native, rate)) {
      SimpleUsable(rate);
      ConvertsIff(native, false, rate);
      assert HomeValue(ValueOf(native), FxQuote(false, ValueOf(rate))).Some?;
    }
  }
}
