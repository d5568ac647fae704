/** When an FX rate that arrives later can give a value to a date that was written off. */
module MarkSoundness {
  import opened Sequences
  import opened Digits
  import opened Decimals
  import opened Ledger
  import SharesHeld
  import opened Selection
  import opened Valuation
  import opened SingleHolding
  import opened ValuedExactly
  import ConvertibleAmounts

  function WithRate(f: Facts, k: nat, row: FxRow): Facts
    requires k <= |f.fx|
  {
    f.(fx := f.fx[..k] + [row] + f.fx[k..])
  }

  /** No value, and no security waiting for a rate: the condition under which a date is marked. */
  predicate WrittenOff(p: Point) {
    p.value.None? && !p.fxBlocked
  }

  ghost predicate Convertible(native: real) {
    exists quote :: HomeValue(native, quote).Some?
  }

  /**
   * A held, usably priced foreign security whose chosen rate was refused, though some other rate would do.
   * Such a security does not count as waiting for a rate.
   */
  ghost predicate Repairable(f: Facts, h: Holding, through: int, d: int, tolerance: nat) {
    var q, price := Quantity(f, h, through, d), PriceFor(f, h, d, tolerance);
    && h.currency != f.home
    && FitsText(q) && q > 0.0
    && price.Some? && FitsText(price.value.close)
    && QuoteFor(f, h, d, tolerance).Some?
    && HomeValue(Times(q, price.value.close), QuoteFor(f, h, d, tolerance).value).None?
    && Convertible(Times(q, price.value.close))
  }

  lemma SelectedStays(f: Facts, k: nat, row: FxRow, h: Holding, d: int, tolerance: nat)
    requires k <= |f.fx| && QuoteFor(f, h, d, tolerance).Some?
    ensures QuoteFor(WithRate(f, k, row), h, d, tolerance).Some?
  {
    var eligible := FxEligible(d, tolerance, f.home, h.currency);
    var before, after := Filter(eligible, f.fx), Filter(eligible, WithRate(f, k, row).fx);
    FirstBestMember(FxBetter, before);
    FirstBestMember(FxBetter, after);
    var r := FirstBest(FxBetter, before).value;
    assert f.fx == f.fx[..k] + f.fx[k..];
    assert r in after;
  }

  /** An unvalued contribution that neither waits for a rate nor is repairable ignores new rates. */
  lemma OutcomeStays(f: Facts, k: nat, row: FxRow, h: Holding, through: int, d: int, tolerance: nat)
    requires k <= |f.fx| && !Repairable(f, h, through, d, tolerance)
    requires var o := OutcomeFor(f, h, through, d, tolerance); !o.Valued? && !o.FxMissing?
    ensures OutcomeFor(WithRate(f, k, row), h, through, d, tolerance) == OutcomeFor(f, h, through, d, tolerance)
  {
    var g := WithRate(f, k, row);
    assert Quantity(g, h, through, d) == Quantity(f, h, through, d);
    assert PriceFor(g, h, d, tolerance) == PriceFor(f, h, d, tolerance);
    if OutcomeFor(f, h, through, d, tolerance) == Unusable && h.currency != f.home {
      SelectedStays(f, k, row, h, d, tolerance);
    }
  }

  lemma WrittenOffOutcomes(outs: seq<Outcome>)
    requires WrittenOff(PointOf(outs))
    ensures forall i :: 0 <= i < |outs| ==> !outs[i].Valued? && !outs[i].FxMissing?
  {
    CountPositive(IS_VALUED, outs);
    CountPositive(IS_FX_MISSING, outs);
    forall i | 0 <= i < |outs| ensures !outs[i].Valued? && !outs[i].FxMissing? {
      assert !IS_VALUED(outs[i]) && !IS_FX_MISSING(outs[i]);
    }
  }

  /** A date written off with nothing repairable keeps exactly its point, whatever rate arrives. */
  lemma MarkStays(f: Facts, k: nat, row: FxRow, through: int, today: int, d: int, tolerance: nat)
    requires k <= |f.fx| && d <= today
    requires WrittenOff(Derive(f, through, today, d, tolerance))
    requires forall i :: 0 <= i < |f.holdings| ==> !Repairable(f, f.holdings[i], through, d, tolerance)
    ensures Derive(WithRate(f, k, row), through, today, d, tolerance) == Derive(f, through, today, d, tolerance)
  {
    var hs := f.holdings;
    WrittenOffOutcomes(Outcomes(f, hs, through, d, tolerance));
    forall i | 0 <= i < |hs|
      ensures OutcomeFor(WithRate(f, k, row), hs[i], through, d, tolerance) == OutcomeFor(f, hs[i], through, d, tolerance)
    {
      assert Outcomes(f, hs, through, d, tolerance)[i] == OutcomeFor(f, hs[i], through, d, tolerance);
      OutcomeStays(f, k, row, hs[i], through, d, tolerance);
    }
    assert Outcomes(WithRate(f, k, row), hs, through, d, tolerance) == Outcomes(f, hs, through, d, tolerance);
  }

  /** A delayed, observed quote of the date itself, as fresh as the row chosen so far, goes in front of it. */
  function Replacement(f: Facts, h: Holding, d: int, quote: FxQuote, chosen: FxRow): FxRow {
    if quote.inverse then FxRow(f.home, h.currency, d, Some(d), chosen.stamp, Delayed, Observed, quote.rate)
    else FxRow(h.currency, f.home, d, Some(d), chosen.stamp, Delayed, Observed, quote.rate)
  }

  lemma ReplacementChosen(f: Facts, h: Holding, d: int, tolerance: nat, quote: FxQuote)
    requires h.currency != f.home && quote.rate > 0.0
    requires SelectFx(f.fx, d, tolerance, f.home, h.currency).Some?
    ensures var chosen := SelectFx(f.fx, d, tolerance, f.home, h.currency).value;
      QuoteFor(WithRate(f, 0, Replacement(f, h, d, quote, chosen)), h, d, tolerance) == Some(quote)
  {
    var eligible := FxEligible(d, tolerance, f.home, h.currency);
    FirstBestMember(FxBetter, Filter(eligible, f.fx));
    var chosen := SelectFx(f.fx, d, tolerance, f.home, h.currency).value;
    var row := Replacement(f, h, d, quote, chosen);
    assert eligible(row) && !FxBetter(chosen, row);
    var fx := WithRate(f, 0, row).fx;
    assert fx[0] == row && fx[1..] == f.fx;
    assert Filter(eligible, fx)[1..] == Filter(eligible, f.fx);
  }

  /** A repairable security has a rate that values the date. */
  lemma RateRepairs(f: Facts, i: nat, through: int, today: int, d: int, tolerance: nat) returns (row: FxRow)
    requires i < |f.holdings| && d <= today
    requires Repairable(f, f.holdings[i], through, d, tolerance)
    ensures Derive(WithRate(f, 0, row), through, today, d, tolerance).value.Some?
  {
    var h := f.holdings[i];
    var native := Times(Quantity(f, h, through, d), PriceFor(f, h, d, tolerance).value.close);
    var quote :| HomeValue(native, quote).Some?;
    var chosen := SelectFx(f.fx, d, tolerance, f.home, h.currency).value;
    row := Replacement(f, h, d, quote, chosen);
    ReplacementChosen(f, h, d, tolerance, quote);
    var g := WithRate(f, 0, row);
    assert Quantity(g, h, through, d) == Quantity(f, h, through, d);
    assert PriceFor(g, h, d, tolerance) == PriceFor(f, h, d, tolerance);
    var outs := Outcomes(g, g.holdings, through, d, tolerance);
    assert IS_VALUED(outs[i]);
    CountPositive(IS_VALUED, outs);
  }

  /** Some single rate, wherever it lands among the rows, gives the date a value. */
  ghost predicate RateCouldValue(f: Facts, through: int, today: int, d: int, tolerance: nat) {
    exists k: nat, row ::
      k <= |f.fx| && Derive(WithRate(f, k, row), through, today, d, tolerance).value.Some?
  }

  ghost predicate AnyRepairable(f: Facts, through: int, d: int, tolerance: nat) {
    exists i :: 0 <= i < |f.holdings| && Repairable(f, f.holdings[i], through, d, tolerance)
  }

  /** Some rates, arriving one after another anywhere among the rows. */
  function WithRates(f: Facts, arrivals: seq<(nat, FxRow)>): Facts
    decreases arrivals
  {
    if arrivals == [] then f
    else if arrivals[0].0 <= |f.fx| then WithRates(WithRate(f, arrivals[0].0, arrivals[0].1), arrivals[1..])
    else WithRates(f, arrivals[1..])
  }

  /** However many rates arrive, in the end the date has a value. */
  ghost predicate RatesCouldValue(f: Facts, through: int, today: int, d: int, tolerance: nat) {
    exists arrivals :: Derive(WithRates(f, arrivals), through, today, d, tolerance).value.Some?
  }

  /** While a date stays written off, a rate makes no security repairable that was not. */
  lemma RepairableBefore(f: Facts, k: nat, row: FxRow, i: nat, through: int, today: int, d: int, tolerance: nat)
    requires k <= |f.fx| && d <= today && i < |f.holdings|
    requires WrittenOff(Derive(f, through, today, d, tolerance))
    requires Repairable(WithRate(f, k, row), f.holdings[i], through, d, tolerance)
    ensures Repairable(f, f.holdings[i], through, d, tolerance)
  {
    var h, g, outs := f.holdings[i], WithRate(f, k, row), Outcomes(f, f.holdings, through, d, tolerance);
    assert Quantity(g, h, through, d) == Quantity(f, h, through, d);
    assert PriceFor(g, h, d, tolerance) == PriceFor(f, h, d, tolerance);
    WrittenOffOutcomes(outs);
    assert outs[i] == OutcomeFor(f, h, through, d, tolerance);
  }

  /** With nothing repairable the next rate changes neither the point nor that. */
  lemma OneArrival(f: Facts, k: nat, row: FxRow, through: int, today: int, d: int, tolerance: nat)
    requires k <= |f.fx| && d <= today
    requires WrittenOff(Derive(f, through, today, d, tolerance)) && !AnyRepairable(f, through, d, tolerance)
    ensures Derive(WithRate(f, k, row), through, today, d, tolerance) == Derive(f, through, today, d, tolerance)
    ensures !AnyRepairable(WithRate(f, k, row), through, d, tolerance)
  {
    MarkStays(f, k, row, through, today, d, tolerance);
    var g := WithRate(f, k, row);
    if AnyRepairable(g, through, d, tolerance) {
      var i :| 0 <= i < |g.holdings| && Repairable(g, g.holdings[i], through, d, tolerance);
      RepairableBefore(f, k, row, i, through, today, d, tolerance);
    }
  }

  /** So no number of rates changes it. */
  lemma {:induction false} ArrivalsKeep(f: Facts, arrivals: seq<(nat, FxRow)>, through: int, today: int, d: int, tolerance: nat)
    requires d <= today
    requires WrittenOff(Derive(f, through, today, d, tolerance)) && !AnyRepairable(f, through, d, tolerance)
    ensures Derive(WithRates(f, arrivals), through, today, d, tolerance) == Derive(f, through, today, d, tolerance)
    decreases arrivals
  {
    if arrivals != [] {
      if arrivals[0].0 <= |f.fx| {
        OneArrival(f, arrivals[0].0, arrivals[0].1, through, today, d, tolerance);
        ArrivalsKeep(WithRate(f, arrivals[0].0, arrivals[0].1), arrivals[1..], through, today, d, tolerance);
      } else {
        ArrivalsKeep(f, arrivals[1..], through, today, d, tolerance);
      }
    }
  }

  lemma SingleArrival(f: Facts, k: nat, row: FxRow)
    requires k <= |f.fx|
    ensures WithRates(f, [(k, row)]) == WithRate(f, k, row)
  {
    assert WithRates(WithRate(f, k, row), [(k, row)][1..]) == WithRate(f, k, row);
  }

  /** Refused although the amount has no more digits than the reader takes: what makes a security repairable, by counting. */
  lemma RepairableByDigits(f: Facts, h: Holding, through: int, d: int, tolerance: nat, native: Scaled)
    requires h.currency != f.home && PriceFor(f, h, d, tolerance).Some? && QuoteFor(f, h, d, tolerance).Some?
    requires OutcomeFor(f, h, through, d, tolerance) == Unusable && Quantity(f, h, through, d) > 0.0
    requires FitsText(PriceFor(f, h, d, tolerance).value.close)
    requires ValueOf(native) == Times(Quantity(f, h, through, d), PriceFor(f, h, d, tolerance).value.close)
    requires native.places < INPUT_DIGITS && -Pow10(INPUT_DIGITS) < native.n < Pow10(INPUT_DIGITS)
    ensures Repairable(f, h, through, d, tolerance)
  {
    FewDigitsConvert(native);
  }

  /** Refused, and some rate of twos and fives gives a readable product: exactly the repairable securities. */
  lemma RepairableIff(f: Facts, h: Holding, through: int, d: int, tolerance: nat, native: Scaled)
    requires PriceFor(f, h, d, tolerance).Some?
    requires ValueOf(native) == Times(Quantity(f, h, through, d), PriceFor(f, h, d, tolerance).value.close)
    ensures Repairable(f, h, through, d, tolerance) <==>
      && h.currency != f.home && QuoteFor(f, h, d, tolerance).Some?
      && Quantity(f, h, through, d) > 0.0 && FitsText(PriceFor(f, h, d, tolerance).value.close)
      && OutcomeFor(f, h, through, d, tolerance) == Unusable
      && exists rate :: ConvertibleAmounts.Simple(rate) && Reads(Product(native, rate))
  {
    ConvertibleAmounts.ConvertibleIff(native);
  }

  /** An amount with a factor free of twos and fives that is itself too long is beyond any rate: it stays written off. */
  lemma NotRepairableByDigits(f: Facts, h: Holding, through: int, d: int, tolerance: nat, native: Scaled, k: int, y: int)
    requires PriceFor(f, h, d, tolerance).Some?
    requires ValueOf(native) == Times(Quantity(f, h, through, d), PriceFor(f, h, d, tolerance).value.close)
    requires CoprimeToTen(k) && k >= Pow10(INPUT_DIGITS) && native.n == k * y && native.n != 0
    ensures !Repairable(f, h, through, d, tolerance)
  {
    LongCoreRefused(native, k, y);
  }

  lemma OneRateWill(f: Facts, through: int, today: int, d: int, tolerance: nat)
    requires d <= today && AnyRepairable(f, through, d, tolerance)
    ensures RateCouldValue(f, through, today, d, tolerance)
  {
    var i :| 0 <= i < |f.holdings| && Repairable(f, f.holdings[i], through, d, tolerance);
    var row := RateRepairs(f, i, through, today, d, tolerance);
    assert Derive(WithRate(f, 0, row), through, today, d, tolerance).value.Some?;
  }

  lemma OneIsSome(f: Facts, through: int, today: int, d: int, tolerance: nat)
    requires RateCouldValue(f, through, today, d, tolerance)
    ensures RatesCouldValue(f, through, today, d, tolerance)
  {
    var k: nat, row :| k <= |f.fx| && Derive(WithRate(f, k, row), through, today, d, tolerance).value.Some?;
    SingleArrival(f, k, row);
    assert Derive(WithRates(f, [(k, row)]), through, today, d, tolerance).value.Some?;
  }

  /** A written-off date can be valued by later rates, by one or by any number, if and only if it holds a repairable security. */
  lemma MarkSoundIff(f: Facts, through: int, today: int, d: int, tolerance: nat)
    requires d <= today && WrittenOff(Derive(f, through, today, d, tolerance))
    ensures RatesCouldValue(f, through, today, d, tolerance) <==> AnyRepairable(f, through, d, tolerance)
    ensures RateCouldValue(f, through, today, d, tolerance) <==> AnyRepairable(f, through, d, tolerance)
  {
    if AnyRepairable(f, through, d, tolerance) {
      OneRateWill(f, through, today, d, tolerance);
    } else if RatesCouldValue(f, through, today, d, tolerance) {
      var arrivals :| Derive(WithRates(f, arrivals), through, today, d, tolerance).value.Some?;
      ArrivalsKeep(f, arrivals, through, today, d, tolerance);
    }
    if RateCouldValue(f, through, today, d, tolerance) {
      OneIsSome(f, through, today, d, tolerance);
    }
  }

  // The failing case is reachable: a rate so large that its inverse rounds to nothing.

  const HUGE_RATE := 1000000000000000000000000.0

  const EXAMPLE := Single(1.0, 1.0, true, HUGE_RATE)

  lemma InverseRoundsAway()
    ensures RoundTo(1.0 / HUGE_RATE, INVERSION_PLACES) == 0.0
  {
    Pow10Sum(9, 9);
    assert Pow10(3) == 1000;
    assert Pow10(6) == 1000000;
    assert Pow10(9) == 1000000000;
    var p := Pow10(INVERSION_PLACES) as real;
    assert p == 1000000000000000000.0;
    assert Times(1.0 / HUGE_RATE, p) == 0.000001;
    HalfEvenUnique(0.000001, 0);
  }

  lemma Rates()
    ensures FitsText(1.0) && Times(1.0, 1.0) == 1.0
    ensures HomeValue(1.0, FxQuote(true, HUGE_RATE)).None?
    ensures HomeValue(1.0, FxQuote(false, 1.0)) == Some(1.0)
  {
    SmallIntegersFit(1);
    InverseRoundsAway();
  }

  lemma ExampleOutcome()
    ensures OutcomeFor(EXAMPLE, SHARE, 20, 10, 0) == Unusable
    ensures Repairable(EXAMPLE, SHARE, 20, 10, 0)
  {
    Rates();
    SingleQuantity(1.0, 1.0, true, HUGE_RATE);
    SingleRows(1.0, 1.0, true, HUGE_RATE);
    assert Convertible(1.0);
  }

  /** The date below is written off, and a rate that arrives later would value it. */
  lemma MarkUnsoundExample()
    ensures WrittenOff(Derive(EXAMPLE, 20, 20, 10, 0))
    ensures RateCouldValue(EXAMPLE, 20, 20, 10, 0)
  {
    Rates();
    SingleDerived(1.0, 1.0, true, HUGE_RATE);
    ExampleOutcome();
    UnusablePoint();
    assert EXAMPLE.holdings[0] == SHARE;
    assert AnyRepairable(EXAMPLE, 20, 10, 0);
    MarkSoundIff(EXAMPLE, 20, 20, 10, 0);
  }
}
