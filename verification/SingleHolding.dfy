/** One holding of a foreign security, bought once, priced and rated on one day: the smallest portfolio that converts. */
module SingleHolding {
  import opened Sequences
  import opened Decimals
  import opened Ledger
  import SharesHeld
  import opened Selection
  import opened Valuation

  const SHARE := Holding(1, Some(1), 1)

  function Bought(quantity: real): Tx {
    Tx(1, Some(1), Buy, Posted, 5, 5, Some(quantity), None, None)
  }

  function Closed(close: real): PriceRow {
    PriceRow(1, 10, Some(10), 0, false, Eod, Observed, 1, close)
  }

  /** A rate of day 10 between the home currency 0 and the security's currency 1. */
  function Rated(inverse: bool, rate: real): FxRow {
    FxRow(if inverse then 0 else 1, if inverse then 1 else 0, 10, Some(10), 0, Eod, Observed, rate)
  }

  function Single(quantity: real, close: real, inverse: bool, rate: real): Facts {
    Facts(0, [SHARE], [Bought(quantity)], [Closed(close)], [Rated(inverse, rate)])
  }

  lemma SingleQuantity(quantity: real, close: real, inverse: bool, rate: real)
    requires FitsText(quantity)
    ensures Quantity(Single(quantity, close, inverse, rate), SHARE, 20, 10) == quantity
  {
    var buy := Bought(quantity);
    FilterAll(SharesHeld.Loading(1, 20), [buy]);
    FilterAll(SharesHeld.Counting([buy]), [buy]);
    FilterAll(SharesHeld.UpTo(10), [buy]);
    assert SharesHeld.Sort([buy]) == [buy];
    assert SharesHeld.Replay(0.0, [buy]) == SharesHeld.Effect(0.0, buy);
  }

  lemma SingleRows(quantity: real, close: real, inverse: bool, rate: real)
    requires close > 0.0 && rate > 0.0
    ensures PriceFor(Single(quantity, close, inverse, rate), SHARE, 10, 0) == Some(Closed(close))
    ensures QuoteFor(Single(quantity, close, inverse, rate), SHARE, 10, 0) == Some(FxQuote(inverse, rate))
  {
    FilterAll(OfSecurity(Some(1)), [Closed(close)]);
    FilterAll(PriceEligible(10, 0, 1), [Closed(close)]);
    FilterAll(FxEligible(10, 0, 0, 1), [Rated(inverse, rate)]);
    FirstBestMember(PriceBetter, [Closed(close)]);
    FirstBestMember(FxBetter, [Rated(inverse, rate)]);
  }

  /** Its value on day 10 is that of its one contribution. */
  lemma SingleDerived(quantity: real, close: real, inverse: bool, rate: real)
    requires FitsText(quantity) && close > 0.0 && rate > 0.0
    ensures var o := Contribution(quantity, Some(Closed(close)), true, Some(FxQuote(inverse, rate)));
      && OutcomeFor(Single(quantity, close, inverse, rate), SHARE, 20, 10, 0) == o
      && Derive(Single(quantity, close, inverse, rate), 20, 20, 10, 0) == PointOf([o])
  {
    var f := Single(quantity, close, inverse, rate);
    SingleQuantity(quantity, close, inverse, rate);
    SingleRows(quantity, close, inverse, rate);
    assert Outcomes(f, [SHARE], 20, 10, 0) == [OutcomeFor(f, SHARE, 20, 10, 0)];
  }

  lemma UnusablePoint()
    ensures PointOf([Unusable]) == Point(None, false, 1, 0, false)
  {
    TallySnoc([], Unusable);
    assert [] + [Unusable] == [Unusable];
  }
}
