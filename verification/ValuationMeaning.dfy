/** What a selected observation, a conversion and a value point promise, said without the code that computes them. */
module ValuationMeaning {
  import opened Sequences
  import opened Digits
  import opened Decimals
  import opened Selection
  import opened Valuation

  // The chosen observation.

  /** Seven steps down, by how an observation was made and what it is worth; two pairs of unlike observations tie. */
  function Standing(interval: Interval, quality: Quality): (step: nat)
    ensures step < 7
  {
    match (interval, quality)
    case (Delayed, Observed) => 0
    case (Delayed, Corrected) => 0
    case (Intraday, Observed) => 1
    case (Intraday, Corrected) => 1
    case (Eod, Observed) => 2
    case (Eod, Corrected) => 2
    case (Delayed, Indicative) => 2
    case (Intraday, Indicative) => 3
    case (Eod, Indicative) => 4
    case (Delayed, StaleCandidate) => 4
    case (Intraday, StaleCandidate) => 5
    case (Eod, StaleCandidate) => 6
  }

  /** Of one quality delayed beats intraday beats end-of-day; of one interval firsthand beats indicative beats stale. */
  lemma RankOrder(i: Interval, q: Quality)
    ensures ProviderRank(Delayed, q) < ProviderRank(Intraday, q) < ProviderRank(Eod, q)
    ensures ProviderRank(i, Observed) == ProviderRank(i, Corrected) < ProviderRank(i, Indicative) < ProviderRank(i, StaleCandidate)
    ensures ProviderRank(Eod, Observed) == ProviderRank(Delayed, Indicative) < ProviderRank(Intraday, Indicative)
    ensures ProviderRank(Eod, Indicative) == ProviderRank(Delayed, StaleCandidate) < ProviderRank(Intraday, StaleCandidate)
    ensures ProviderRank(Intraday, Indicative) < ProviderRank(Delayed, StaleCandidate)
  {
  }

  /** Ranks put any two observations in the order of the steps they stand on. */
  lemma RankIsStanding(i: Interval, q: Quality, j: Interval, r: Quality)
    ensures ProviderRank(i, q) < ProviderRank(j, r) <==> Standing(i, q) < Standing(j, r)
  {
  }

  /** Of the same day, x is no owner import unless r is, then stands no higher, then is no later. */
  predicate YieldsTo(x: PriceRow, r: PriceRow) {
    && (x.ownerImport ==> r.ownerImport)
    && (x.ownerImport == r.ownerImport ==>
          && Standing(r.interval, r.quality) <= Standing(x.interval, x.quality)
          && (Standing(r.interval, r.quality) == Standing(x.interval, x.quality) ==> x.stamp <= r.stamp))
  }

  predicate FxYieldsTo(x: FxRow, r: FxRow) {
    && Standing(r.interval, r.quality) <= Standing(x.interval, x.quality)
    && (Standing(r.interval, r.quality) == Standing(x.interval, x.quality) ==> x.stamp <= r.stamp)
  }

  /** Dated within the tolerance, seen by the valued day, of the holding's currency, and positive. */
  predicate MayPrice(x: PriceRow, d: int, tolerance: nat, currency: nat) {
    d - tolerance <= x.day <= d && x.seenOn.Some? && x.seenOn.value <= d && x.currency == currency && 0.0 < x.close
  }

  predicate MayConvert(x: FxRow, d: int, tolerance: nat, home: nat, currency: nat) {
    && d - tolerance <= x.day <= d && x.seenOn.Some? && x.seenOn.value <= d && 0.0 < x.rate
    && {x.base, x.quote} == {home, currency}
  }

  lemma PairIsSet(x: FxRow, home: nat, currency: nat)
    ensures Pairs(x, home, currency) <==> {x.base, x.quote} == {home, currency}
  {
    assert x.base in {x.base, x.quote} && x.quote in {x.base, x.quote};
    assert home in {home, currency} && currency in {home, currency};
  }

  lemma EligibleMeans(x: FxRow, d: int, tolerance: nat, home: nat, currency: nat)
    ensures FxEligible(d, tolerance, home, currency)(x) <==> MayConvert(x, d, tolerance, home, currency)
  {
    PairIsSet(x, home, currency);
  }

  /** Nothing eligible beats r, which is eligible itself. */
  lemma HeadYields<T(!new)>(better: (T, T) -> bool, eligible: T -> bool, rows: seq<T>)
    requires StrictWeak(better)
    ensures var r := FirstBest(better, Filter(eligible, rows));
      && (r.None? <==> forall x :: x in rows ==> !eligible(x))
      && (r.Some? ==> r.value in rows && eligible(r.value) && forall x :: x in rows && eligible(x) ==> !better(x, r.value))
  {
    var kept := Filter(eligible, rows);
    FirstBestMember(better, kept);
    if kept == [] {
      forall x | x in rows ensures !eligible(x) {
        assert x !in kept;
      }
    } else {
      var i := FirstBestIsHead(better, kept);
      forall x | x in rows && eligible(x) ensures !better(x, kept[i]) {
        assert x in kept;
        var j :| 0 <= j < |kept| && kept[j] == x;
        if j < i {
          assert better(kept[i], kept[j]);
        }
      }
      assert kept[i] in kept;
    }
  }

  /** The youngest eligible price; on its day an owner import if any, then the highest standing, then the latest instant. */
  lemma SelectedPrice(rows: seq<PriceRow>, d: int, tolerance: nat, currency: nat)
    ensures SelectPrice(rows, d, tolerance, currency).None? <==>
      forall x :: x in rows ==> !MayPrice(x, d, tolerance, currency)
    ensures SelectPrice(rows, d, tolerance, currency).Some? ==>
      var r := SelectPrice(rows, d, tolerance, currency).value;
      && r in rows && MayPrice(r, d, tolerance, currency)
      && (forall x :: x in rows && MayPrice(x, d, tolerance, currency) ==> x.day <= r.day && (x.day == r.day ==> YieldsTo(x, r)))
  {
    PriceOrder();
    HeadYields(PriceBetter, PriceEligible(d, tolerance, currency), rows);
    assert forall x :: PriceEligible(d, tolerance, currency)(x) <==> MayPrice(x, d, tolerance, currency);
    if SelectPrice(rows, d, tolerance, currency).Some? {
      var r := SelectPrice(rows, d, tolerance, currency).value;
      forall x | x in rows && MayPrice(x, d, tolerance, currency) ensures x.day <= r.day && (x.day == r.day ==> YieldsTo(x, r)) {
        RankIsStanding(x.interval, x.quality, r.interval, r.quality);
        RankIsStanding(r.interval, r.quality, x.interval, x.quality);
      }
    }
  }

  /** The youngest eligible rate of the pair, then the highest standing, then the latest instant. */
  lemma SelectedFx(rows: seq<FxRow>, d: int, tolerance: nat, home: nat, currency: nat)
    ensures SelectFx(rows, d, tolerance, home, currency).None? <==>
      forall x :: x in rows ==> !MayConvert(x, d, tolerance, home, currency)
    ensures SelectFx(rows, d, tolerance, home, currency).Some? ==>
      var r := SelectFx(rows, d, tolerance, home, currency).value;
      && r in rows && MayConvert(r, d, tolerance, home, currency)
      && (forall x :: x in rows && MayConvert(x, d, tolerance, home, currency) ==>
            x.day <= r.day && (x.day == r.day ==> FxYieldsTo(x, r)))
  {
    FxOrder();
    HeadYields(FxBetter, FxEligible(d, tolerance, home, currency), rows);
    forall x ensures FxEligible(d, tolerance, home, currency)(x) <==> MayConvert(x, d, tolerance, home, currency) {
      EligibleMeans(x, d, tolerance, home, currency);
    }
    if SelectFx(rows, d, tolerance, home, currency).Some? {
      var r := SelectFx(rows, d, tolerance, home, currency).value;
      forall x | x in rows && MayConvert(x, d, tolerance, home, currency)
        ensures x.day <= r.day && (x.day == r.day ==> FxYieldsTo(x, r))
      {
        RankIsStanding(x.interval, x.quality, r.interval, r.quality);
        RankIsStanding(r.interval, r.quality, x.interval, x.quality);
      }
    }
  }

  /** A holding's price is its own security's. */
  lemma HoldingPrice(f: Facts, h: Holding, d: int, tolerance: nat)
    ensures PriceFor(f, h, d, tolerance).None? <==>
      forall x :: x in f.prices && Some(x.security) == h.security ==> !MayPrice(x, d, tolerance, h.currency)
    ensures PriceFor(f, h, d, tolerance).Some? ==>
      var r := PriceFor(f, h, d, tolerance).value;
      && r in f.prices && Some(r.security) == h.security && MayPrice(r, d, tolerance, h.currency)
      && (forall x :: x in f.prices && Some(x.security) == h.security && MayPrice(x, d, tolerance, h.currency) ==>
            x.day <= r.day && (x.day == r.day ==> YieldsTo(x, r)))
  {
    SelectedPrice(Filter(OfSecurity(h.security), f.prices), d, tolerance, h.currency);
  }

  /** A quote is needed for a foreign holding only; it is inverse when the row is quoted from the home currency. */
  lemma HoldingQuote(f: Facts, h: Holding, d: int, tolerance: nat)
    ensures h.currency == f.home ==> QuoteFor(f, h, d, tolerance).None?
    ensures h.currency != f.home ==>
      (QuoteFor(f, h, d, tolerance).None? <==> forall x :: x in f.fx ==> !MayConvert(x, d, tolerance, f.home, h.currency))
    ensures QuoteFor(f, h, d, tolerance).Some? ==>
      exists x :: x in f.fx && MayConvert(x, d, tolerance, f.home, h.currency) && QuoteFor(f, h, d, tolerance).value.rate == x.rate
        && if QuoteFor(f, h, d, tolerance).value.inverse then x.base == f.home && x.quote == h.currency
           else x.base == h.currency && x.quote == f.home
  {
    SelectedFx(f.fx, d, tolerance, f.home, h.currency);
    if h.currency != f.home && SelectFx(f.fx, d, tolerance, f.home, h.currency).Some? {
      PairIsSet(SelectFx(f.fx, d, tolerance, f.home, h.currency).value, f.home, h.currency);
    }
  }

  /** Why a holding has no value: in this order of precedence, and for no other reason. */
  lemma ContributionMeaning(q: real, price: Option<PriceRow>, foreign: bool, fx: Option<FxQuote>)
    ensures var o := Contribution(q, price, foreign, fx);
      && (o.BadQuantity? <==> !FitsText(q))
      && (o.NotHeld? <==> q == 0.0)
      && (o.Unpriced? <==> FitsText(q) && q != 0.0 && price.None?)
      && (o.FxMissing? <==> FitsText(q) && q != 0.0 && price.Some? && foreign && fx.None?)
      && (o.Valued? ==> q > 0.0 && price.Some? && FitsText(price.value.close) && (foreign ==> fx.Some?))
      && (o.Valued? && foreign ==> HomeValue(Times(q, price.value.close), fx.value) == Some(o.value))
      && (o.Valued? && !foreign ==> o.value == Times(q, price.value.close) && FitsText(o.value))
  {
    SmallIntegersFit(0);
  }

  // Conversion.

  /** A direct rate multiplies; an inverse one divides, to within the rounding of the inverse. */
  lemma ConversionNear(native: real, quote: FxQuote)
    requires HomeValue(native, quote).Some?
    ensures !quote.inverse ==> HomeValue(native, quote).value == Times(native, quote.rate)
    ensures quote.inverse && native >= 0.0 ==>
      var bound := Times(native, 0.5 / Pow10(INVERSION_PLACES) as real);
      -bound <= HomeValue(native, quote).value - Times(native, 1.0 / quote.rate) <= bound
  {
    if quote.inverse && native >= 0.0 {
      var p := Pow10(INVERSION_PLACES) as real;
      var exact, rate := 1.0 / quote.rate, RoundTo(1.0 / quote.rate, INVERSION_PLACES);
      RoundAtBound(exact, p);
      HalfNegated(p);
      Spread(native, rate, exact, 0.5 / p);
    }
  }

  lemma HalfNegated(p: real)
    requires p > 0.0
    ensures -0.5 / p == -(0.5 / p)
  {
    Quotient(-0.5, p);
    Quotient(0.5, p);
  }

  lemma Spread(n: real, x: real, y: real, e: real)
    requires n >= 0.0 && -e <= x - y <= e
    ensures -Times(n, e) <= Times(n, x) - Times(n, y) <= Times(n, e)
  {
    assert n * (e - (x - y)) >= 0.0;
    assert n * (e + (x - y)) >= 0.0;
    assert n * (e - (x - y)) == n * e - n * x + n * y;
    assert n * (e + (x - y)) == n * e + n * x - n * y;
  }

  // The point.

  function ValueOf(o: Outcome): real {
    if o.Valued? then o.value else 0.0
  }

  function SumValues(outs: seq<Outcome>): real {
    if outs == [] then 0.0 else ValueOf(outs[0]) + SumValues(outs[1..])
  }

  lemma {:induction false} TotalIsSum(outs: seq<Outcome>)
    ensures Total(outs) == SumValues(outs)
  {
    if outs != [] {
      var n := |outs| - 1;
      TotalIsSum(outs[..n]);
      SumSnoc(outs[..n], outs[n]);
      assert outs == outs[..n] + [outs[n]];
    }
  }

  lemma {:induction false} SumSnoc(outs: seq<Outcome>, o: Outcome)
    ensures SumValues(outs + [o]) == SumValues(outs) + ValueOf(o)
  {
    if outs == [] {
      assert [o][1..] == [];
      assert outs + [o] == [o];
    } else {
      assert (outs + [o])[1..] == outs[1..] + [o];
      SumSnoc(outs[1..], o);
    }
  }

  function Places(p: Outcome -> bool, outs: seq<Outcome>): set<int> {
    set i | 0 <= i < |outs| && p(outs[i])
  }

  lemma {:induction false} CountIsSize(p: Outcome -> bool, outs: seq<Outcome>)
    ensures Count(p, outs) == |Places(p, outs)|
  {
    if outs != [] {
      var n := |outs| - 1;
      CountIsSize(p, outs[..n]);
      assert Places(p, outs) == Places(p, outs[..n]) + if p(outs[n]) then {n} else {};
    }
  }

  const HELD := (o: Outcome) => o.Unpriced? || o.FxMissing? || o.Unusable? || o.Valued?
  const PRICED := (o: Outcome) => o.Valued?

  /**
   * A point has a value exactly when some security could be valued, and then the value is the sum of those that
   * could; it is complete exactly when no security that is held, or may be, is left out. It counts the securities
   * held and those valued, and waits for a rate when none is valued and some lacks nothing else.
   */
  lemma PointMeaning(outs: seq<Outcome>)
    ensures PointOf(outs).value.Some? <==> exists i :: 0 <= i < |outs| && outs[i].Valued?
    ensures PointOf(outs).value.Some? ==> PointOf(outs).value.value == SumValues(outs)
    ensures PointOf(outs).complete <==> forall i :: 0 <= i < |outs| ==> outs[i].Valued? || outs[i].NotHeld?
    ensures PointOf(outs).held == |Places(HELD, outs)| && PointOf(outs).priced == |Places(PRICED, outs)|
    ensures PointOf(outs).complete ==> PointOf(outs).priced == PointOf(outs).held
    ensures PointOf(outs).fxBlocked <==>
      (forall i :: 0 <= i < |outs| ==> !outs[i].Valued?) && exists i :: 0 <= i < |outs| && outs[i].FxMissing?
  {
    CountPositive(IS_VALUED, outs);
    CountPositive(IS_MISSING, outs);
    CountPositive(IS_FX_MISSING, outs);
    CountIsSize(IS_HELD, outs);
    CountIsSize(IS_VALUED, outs);
    assert Places(HELD, outs) == Places(IS_HELD, outs) && Places(PRICED, outs) == Places(IS_VALUED, outs);
    TotalIsSum(outs);
    NoneOf(IS_VALUED, outs);
    NoneOf(IS_MISSING, outs);
    NoneOf(IS_FX_MISSING, outs);
    if PointOf(outs).complete {
      assert forall i :: 0 <= i < |outs| ==> !IS_MISSING(outs[i]);
      CountSame(IS_VALUED, IS_HELD, outs);
    } else {
      var i :| 0 <= i < |outs| && IS_MISSING(outs[i]);
      assert !(outs[i].Valued? || outs[i].NotHeld?);
    }
    if i :| 0 <= i < |outs| && outs[i].Valued? {
      assert IS_VALUED(outs[i]);
    }
    if i :| 0 <= i < |outs| && outs[i].FxMissing? {
      assert IS_FX_MISSING(outs[i]);
    }
  }

  lemma NoneOf(p: Outcome -> bool, outs: seq<Outcome>)
    requires Count(p, outs) == 0 ==> !exists i :: 0 <= i < |outs| && p(outs[i])
    ensures Count(p, outs) == 0 ==> forall i :: 0 <= i < |outs| ==> !p(outs[i])
  {
  }

  lemma {:induction false} CountSame(p: Outcome -> bool, q: Outcome -> bool, outs: seq<Outcome>)
    requires forall i :: 0 <= i < |outs| ==> p(outs[i]) == q(outs[i])
    ensures Count(p, outs) == Count(q, outs)
  {
    if outs != [] {
      CountSame(p, q, outs[..|outs| - 1]);
    }
  }
}
