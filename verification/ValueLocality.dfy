/** What a date's value depends on, and what it does not. */
module ValueLocality {
  import opened Sequences
  import opened Decimals
  import opened Ledger
  import SharesHeld
  import opened Selection
  import opened Valuation

  // Reading fewer rows.

  datatype Window = Window(from: int, to: int)

  predicate InWindows(ws: seq<Window>, x: int) {
    exists i :: 0 <= i < |ws| && ws[i].from <= x <= ws[i].to
  }

  /** Every day a tolerance reaches back to from d lies in some window. */
  ghost predicate Covers(ws: seq<Window>, d: int, tolerance: nat) {
    forall x :: d - tolerance <= x <= d ==> InWindows(ws, x)
  }

  predicate Listed(hs: seq<Holding>, security: nat) {
    exists i :: 0 <= i < |hs| && hs[i].security == Some(security)
  }

  predicate Foreign(f: Facts, currency: nat) {
    exists i :: 0 <= i < |f.holdings| && f.holdings[i].currency == currency && currency != f.home
  }

  function PriceInWindows(f: Facts, ws: seq<Window>): PriceRow -> bool {
    (r: PriceRow) => InWindows(ws, r.day) && Listed(f.holdings, r.security)
  }

  function FxInWindows(f: Facts, ws: seq<Window>): FxRow -> bool {
    (r: FxRow) =>
      InWindows(ws, r.day) && ((r.base == f.home && Foreign(f, r.quote)) || (r.quote == f.home && Foreign(f, r.base)))
  }

  /** The facts one read loads: only rows in a window, only for what the portfolio lists. */
  function Narrow(f: Facts, ws: seq<Window>): Facts {
    f.(prices := Filter(PriceInWindows(f, ws), f.prices), fx := Filter(FxInWindows(f, ws), f.fx))
  }

  function PriceFits(h: Holding, d: int, tolerance: nat): PriceRow -> bool {
    (r: PriceRow) =>
      && Some(r.security) == h.security
      && 0 <= d - r.day <= tolerance
      && r.close > 0.0
      && r.seenOn.Some? && r.seenOn.value <= d
      && r.currency == h.currency
  }

  /** Rows outside what a search considers can be dropped from it. */
  lemma PriceForWithin(f: Facts, h: Holding, d: int, tolerance: nat, keep: PriceRow -> bool)
    requires forall r :: r in f.prices && PriceFits(h, d, tolerance)(r) ==> keep(r)
    ensures PriceFor(f.(prices := Filter(keep, f.prices)), h, d, tolerance) == PriceFor(f, h, d, tolerance)
  {
    var sec, eligible, fits := OfSecurity(h.security), PriceEligible(d, tolerance, h.currency), PriceFits(h, d, tolerance);
    FilterCompose(sec, eligible, fits, f.prices);
    FilterCompose(sec, eligible, fits, Filter(keep, f.prices));
    FilterWithin(keep, fits, f.prices);
  }

  lemma QuoteForWithin(f: Facts, h: Holding, d: int, tolerance: nat, keep: FxRow -> bool)
    requires forall r :: r in f.fx && h.currency != f.home && FxEligible(d, tolerance, f.home, h.currency)(r) ==> keep(r)
    ensures QuoteFor(f.(fx := Filter(keep, f.fx)), h, d, tolerance) == QuoteFor(f, h, d, tolerance)
  {
    if h.currency != f.home {
      FilterWithin(keep, FxEligible(d, tolerance, f.home, h.currency), f.fx);
    }
  }

  lemma NarrowOutcome(f: Facts, ws: seq<Window>, h: Holding, through: int, d: int, tolerance: nat)
    requires h in f.holdings && Covers(ws, d, tolerance)
    ensures OutcomeFor(Narrow(f, ws), h, through, d, tolerance) == OutcomeFor(f, h, through, d, tolerance)
  {
    var i :| 0 <= i < |f.holdings| && f.holdings[i] == h;
    var g := f.(prices := Filter(PriceInWindows(f, ws), f.prices));
    forall r | r in f.prices && PriceFits(h, d, tolerance)(r) ensures PriceInWindows(f, ws)(r) {
      assert f.holdings[i].security == Some(r.security);
    }
    PriceForWithin(f, h, d, tolerance, PriceInWindows(f, ws));
    forall r | r in f.fx && h.currency != f.home && FxEligible(d, tolerance, f.home, h.currency)(r)
      ensures FxInWindows(f, ws)(r)
    {
      assert Foreign(f, h.currency) by {
        assert f.holdings[i].currency == h.currency;
      }
    }
    QuoteForWithin(g, h, d, tolerance, FxInWindows(f, ws));
  }

  /** Windows that cover what the tolerance reaches give every date its full-history value. */
  lemma NarrowDerive(f: Facts, ws: seq<Window>, through: int, today: int, d: int, tolerance: nat)
    requires Covers(ws, d, tolerance)
    ensures Derive(Narrow(f, ws), through, today, d, tolerance) == Derive(f, through, today, d, tolerance)
  {
    forall i | 0 <= i < |f.holdings|
      ensures OutcomeFor(Narrow(f, ws), f.holdings[i], through, d, tolerance)
           == OutcomeFor(f, f.holdings[i], through, d, tolerance)
    {
      NarrowOutcome(f, ws, f.holdings[i], through, d, tolerance);
    }
    assert Outcomes(Narrow(f, ws), f.holdings, through, d, tolerance) == Outcomes(f, f.holdings, through, d, tolerance);
  }

  /** One window over a slice's own span covers each of its dates exactly. */
  lemma SpanCovers(first: int, last: int, d: int)
    requires first <= d <= last
    ensures Covers([Window(first, last)], d, 0)
  {
    assert [Window(first, last)][0] == Window(first, last);
  }

  /** The lookback windows of several requested dates, one each, overlapping or not. */
  function LookbackWindows(dates: seq<int>, tolerance: nat): seq<Window> {
    seq(|dates|, i requires 0 <= i < |dates| => Window(dates[i] - tolerance, dates[i]))
  }

  lemma LookbackCovers(dates: seq<int>, tolerance: nat, d: int)
    requires d in dates
    ensures Covers(LookbackWindows(dates, tolerance), d, tolerance)
  {
    var i :| 0 <= i < |dates| && dates[i] == d;
    assert LookbackWindows(dates, tolerance)[i] == Window(d - tolerance, d);
  }

  // Nothing later counts.

  function PriceKnownBy(d: int): PriceRow -> bool {
    (r: PriceRow) => r.day <= d && r.seenOn.Some? && r.seenOn.value <= d
  }

  function FxKnownBy(d: int): FxRow -> bool {
    (r: FxRow) => r.day <= d && r.seenOn.Some? && r.seenOn.value <= d
  }

  /** What was traded, priced and observed by the end of day d. */
  function KnownBy(f: Facts, d: int): Facts {
    f.(ledger := Filter(SharesHeld.UpTo(d), f.ledger),
       prices := Filter(PriceKnownBy(d), f.prices),
       fx := Filter(FxKnownBy(d), f.fx))
  }

  /** A date's value uses no trade, price or rate that came after it. */
  lemma NoLookAhead(f: Facts, through: int, today: int, d: int, tolerance: nat)
    requires Sound(f.ledger) && d <= through
    ensures Derive(KnownBy(f, d), d, today, d, tolerance) == Derive(f, through, today, d, tolerance)
  {
    var g := f.(prices := Filter(PriceKnownBy(d), f.prices));
    forall i | 0 <= i < |f.holdings|
      ensures OutcomeFor(KnownBy(f, d), f.holdings[i], d, d, tolerance)
           == OutcomeFor(f, f.holdings[i], through, d, tolerance)
    {
      var h := f.holdings[i];
      PriceForWithin(f, h, d, tolerance, PriceKnownBy(d));
      QuoteForWithin(g, h, d, tolerance, FxKnownBy(d));
      FilterWithin(SharesHeld.UpTo(d), SharesHeld.Loading(h.id, d), f.ledger);
      SharesHeld.HeldThrough(f.ledger, h.id, through, d, d);
    }
    assert Outcomes(KnownBy(f, d), f.holdings, d, d, tolerance) == Outcomes(f, f.holdings, through, d, tolerance);
  }

  // What each kind of write leaves alone.

  /** How much of the later ledger was read makes no difference. */
  lemma ThroughIrrelevant(f: Facts, through: int, later: int, today: int, d: int, tolerance: nat)
    requires Sound(f.ledger) && d <= through && d <= later
    ensures Derive(f, through, today, d, tolerance) == Derive(f, later, today, d, tolerance)
  {
    forall i | 0 <= i < |f.holdings|
      ensures OutcomeFor(f, f.holdings[i], through, d, tolerance) == OutcomeFor(f, f.holdings[i], later, d, tolerance)
    {
      SharesHeld.HeldThrough(f.ledger, f.holdings[i].id, through, later, d);
    }
    assert Outcomes(f, f.holdings, through, d, tolerance) == Outcomes(f, f.holdings, later, d, tolerance);
  }

  /** A ledger mutation leaves every date before its first affected day alone. */
  lemma LedgerLocal(f: Facts, m: Mutation, through: int, today: int, d: int, tolerance: nat)
    requires Sound(f.ledger) && Admissible(m, f.ledger) && Mutate(m, f.ledger).Some?
    requires d < Mutate(m, f.ledger).value.1 && d <= through
    ensures Derive(f.(ledger := Mutate(m, f.ledger).value.0), through, today, d, tolerance)
         == Derive(f, through, today, d, tolerance)
  {
    var g := f.(ledger := Mutate(m, f.ledger).value.0);
    forall i | 0 <= i < |f.holdings|
      ensures OutcomeFor(g, f.holdings[i], through, d, tolerance) == OutcomeFor(f, f.holdings[i], through, d, tolerance)
    {
      SharesHeld.HeldBefore(m, f.ledger, f.holdings[i].id, through, through, d);
    }
    assert Outcomes(g, f.holdings, through, d, tolerance) == Outcomes(f, f.holdings, through, d, tolerance);
  }

  function Untouched(f: Facts, days: set<int>): PriceRow -> bool {
    (r: PriceRow) => r.day !in days && Listed(f.holdings, r.security)
  }

  /** The price table changed only on these days, as far as this portfolio's securities go. */
  ghost predicate PricesChangedOn(f: Facts, prices: seq<PriceRow>, days: set<int>) {
    Filter(Untouched(f, days), prices) == Filter(Untouched(f, days), f.prices)
  }

  /** A wider set of days, such as all from the first to the last one written, will do as well. */
  lemma MoreDaysWillDo(f: Facts, prices: seq<PriceRow>, changed: set<int>, days: set<int>)
    requires PricesChangedOn(f, prices, changed) && changed <= days
    ensures PricesChangedOn(f, prices, days)
  {
    FilterWithin(Untouched(f, changed), Untouched(f, days), prices);
    FilterWithin(Untouched(f, changed), Untouched(f, days), f.prices);
  }

  function OnDay(f: Facts, d: int): PriceRow -> bool {
    (r: PriceRow) => r.day == d && Listed(f.holdings, r.security)
  }

  function OnFxDay(d: int): FxRow -> bool {
    (r: FxRow) => r.day == d
  }

  /** The day's own price rows, as far as this portfolio's securities go, are not the same in another table. */
  ghost predicate DayChanged(f: Facts, prices: seq<PriceRow>, d: int) {
    Filter(OnDay(f, d), prices) != Filter(OnDay(f, d), f.prices)
  }

  ghost predicate FxDayChanged(f: Facts, fx: seq<FxRow>, d: int) {
    Filter(OnFxDay(d), fx) != Filter(OnFxDay(d), f.fx)
  }

  lemma ChangedWithin(f: Facts, prices: seq<PriceRow>, days: set<int>, d: int)
    requires PricesChangedOn(f, prices, days) && d !in days
    ensures !DayChanged(f, prices, d)
  {
    FilterWithin(Untouched(f, days), OnDay(f, d), prices);
    FilterWithin(Untouched(f, days), OnDay(f, d), f.prices);
  }

  /** With exact-date lookup, a date's value depends on the prices of its own day only. */
  lemma PricesLocal(f: Facts, prices: seq<PriceRow>, through: int, today: int, d: int)
    requires !DayChanged(f, prices, d)
    ensures Derive(f.(prices := prices), through, today, d, 0) == Derive(f, through, today, d, 0)
  {
    var g := f.(prices := prices);
    forall i | 0 <= i < |f.holdings|
      ensures OutcomeFor(g, f.holdings[i], through, d, 0) == OutcomeFor(f, f.holdings[i], through, d, 0)
    {
      var h := f.holdings[i];
      assert forall r: PriceRow :: PriceFits(h, d, 0)(r) ==> f.holdings[i].security == Some(r.security);
      PriceForWithin(f, h, d, 0, OnDay(f, d));
      PriceForWithin(g, h, d, 0, OnDay(f, d));
    }
    assert Outcomes(g, f.holdings, through, d, 0) == Outcomes(f, f.holdings, through, d, 0);
  }

  /** And on the rates of its own day only. */
  lemma RatesLocal(f: Facts, fx: seq<FxRow>, through: int, today: int, d: int)
    requires !FxDayChanged(f, fx, d)
    ensures Derive(f.(fx := fx), through, today, d, 0) == Derive(f, through, today, d, 0)
  {
    var g := f.(fx := fx);
    forall i | 0 <= i < |f.holdings|
      ensures OutcomeFor(g, f.holdings[i], through, d, 0) == OutcomeFor(f, f.holdings[i], through, d, 0)
    {
      QuoteForWithin(f, f.holdings[i], d, 0, OnFxDay(d));
      QuoteForWithin(g, f.holdings[i], d, 0, OnFxDay(d));
    }
    assert Outcomes(g, f.holdings, through, d, 0) == Outcomes(f, f.holdings, through, d, 0);
  }

  /** Listing a security nobody has traded yet changes no date's value. */
  lemma NewHoldingLocal(f: Facts, h: Holding, through: int, today: int, d: int, tolerance: nat)
    requires forall tx :: tx in f.ledger ==> tx.holding != Some(h.id)
    ensures Derive(f.(holdings := f.holdings + [h]), through, today, d, tolerance)
         == Derive(f, through, today, d, tolerance)
  {
    var g := f.(holdings := f.holdings + [h]);
    var outs := Outcomes(f, f.holdings, through, d, tolerance);
    NeverTraded(g, h, through, d, tolerance);
    forall i | 0 <= i < |f.holdings|
      ensures OutcomeFor(g, f.holdings[i], through, d, tolerance) == outs[i]
    {
    }
    assert Outcomes(g, g.holdings, through, d, tolerance) == outs + [NotHeld];
    NotHeldAdds(outs);
  }

  lemma NeverTraded(f: Facts, h: Holding, through: int, d: int, tolerance: nat)
    requires forall tx :: tx in f.ledger ==> tx.holding != Some(h.id)
    ensures OutcomeFor(f, h, through, d, tolerance) == NotHeld
  {
    FilterNone(SharesHeld.Loading(h.id, through), f.ledger);
    SmallIntegersFit(0);
  }

  lemma NotHeldAdds(outs: seq<Outcome>)
    ensures PointOf(outs + [NotHeld]) == PointOf(outs)
  {
    TallySnoc(outs, NotHeld);
  }
}
