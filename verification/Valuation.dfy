/** A portfolio's securities-only value on one date, from the ledger, the prices and the FX rates. */
module Valuation {
  import opened Sequences
  import opened Digits
  import opened Decimals
  import opened Ledger
  import SharesHeld
  import opened Selection

  /** Places an inverted rate is rounded to. */
  const INVERSION_PLACES := 18

  datatype Holding = Holding(id: nat, security: Option<nat>, currency: nat)

  datatype Facts = Facts(home: nat, holdings: seq<Holding>, ledger: seq<Tx>, prices: seq<PriceRow>, fx: seq<FxRow>)

  datatype FxQuote = FxQuote(inverse: bool, rate: real)

  /** A native amount in the home currency; nothing when the rate, its inverse or the product cannot be used. */
  function HomeValue(native: real, quote: FxQuote): Option<real> {
    if !FitsText(quote.rate) || quote.rate <= 0.0 then None
    else
      var rate := if quote.inverse then RoundTo(1.0 / quote.rate, INVERSION_PLACES) else quote.rate;
      if rate <= 0.0 || !FitsText(Times(native, rate)) then None else Some(Times(native, rate))
  }

  /** What one holding contributes to a date. */
  datatype Outcome = NotHeld | BadQuantity | Unpriced | FxMissing | Unusable | Valued(value: real)

  function Contribution(q: real, price: Option<PriceRow>, foreign: bool, fx: Option<FxQuote>): Outcome {
    if !FitsText(q) then BadQuantity
    else if q == 0.0 then NotHeld
    else if price.None? then Unpriced
    else if foreign && fx.None? then FxMissing
    else if q < 0.0 || !FitsText(price.value.close) then Unusable
    else
      var native := Times(q, price.value.close);
      if foreign then
        var home := HomeValue(native, fx.value);
        if home.Some? then Valued(home.value) else Unusable
      else if FitsText(native) then Valued(native)
      else Unusable
  }

  function OfSecurity(security: Option<nat>): PriceRow -> bool {
    (r: PriceRow) => Some(r.security) == security
  }

  function PriceFor(f: Facts, h: Holding, d: int, tolerance: nat): Option<PriceRow> {
    SelectPrice(Filter(OfSecurity(h.security), f.prices), d, tolerance, h.currency)
  }

  function QuoteOf(home: nat, row: Option<FxRow>): Option<FxQuote> {
    if row.None? then None else Some(FxQuote(row.value.base == home, row.value.rate))
  }

  function QuoteFor(f: Facts, h: Holding, d: int, tolerance: nat): Option<FxQuote> {
    if h.currency == f.home then None else QuoteOf(f.home, SelectFx(f.fx, d, tolerance, f.home, h.currency))
  }

  function Quantity(f: Facts, h: Holding, through: int, d: int): real {
    SharesHeld.HeldAt(SharesHeld.Loaded(f.ledger, h.id, through), d)
  }

  function OutcomeFor(f: Facts, h: Holding, through: int, d: int, tolerance: nat): Outcome {
    Contribution(Quantity(f, h, through, d), PriceFor(f, h, d, tolerance),
                 h.currency != f.home, QuoteFor(f, h, d, tolerance))
  }

  function Outcomes(f: Facts, hs: seq<Holding>, through: int, d: int, tolerance: nat): (outs: seq<Outcome>)
    ensures |outs| == |hs|
    ensures forall i :: 0 <= i < |hs| ==> outs[i] == OutcomeFor(f, hs[i], through, d, tolerance)
  {
    seq(|hs|, i requires 0 <= i < |hs| => OutcomeFor(f, hs[i], through, d, tolerance))
  }

  // The point a date's contributions add up to.

  datatype Point = Point(value: Option<real>, complete: bool, held: nat, priced: nat, fxBlocked: bool)

  const FUTURE_POINT := Point(None, false, 0, 0, false)

  function Total(outs: seq<Outcome>): real {
    if outs == [] then 0.0
    else
      var last := outs[|outs| - 1];
      Total(outs[..|outs| - 1]) + if last.Valued? then last.value else 0.0
  }

  function Count(p: Outcome -> bool, outs: seq<Outcome>): nat {
    if outs == [] then 0
    else Count(p, outs[..|outs| - 1]) + if p(outs[|outs| - 1]) then 1 else 0
  }

  lemma {:induction false} CountPositive(p: Outcome -> bool, outs: seq<Outcome>)
    ensures Count(p, outs) > 0 <==> exists i :: 0 <= i < |outs| && p(outs[i])
  {
    if outs != [] {
      var n := |outs| - 1;
      CountPositive(p, outs[..n]);
      if i :| 0 <= i < |outs| && p(outs[i]) {
        assert i < n ==> outs[..n][i] == outs[i];
      }
    }
  }

  const IS_HELD := (o: Outcome) => !o.NotHeld? && !o.BadQuantity?
  const IS_VALUED := (o: Outcome) => o.Valued?
  const IS_MISSING := (o: Outcome) => !o.NotHeld? && !o.Valued?
  const IS_FX_MISSING := (o: Outcome) => o.FxMissing?

  /** The sum of what could be valued; no value at all when nothing could. */
  function PointOf(outs: seq<Outcome>): Point {
    var priced := Count(IS_VALUED, outs);
    Point(if priced > 0 then Some(Total(outs)) else None,
          Count(IS_MISSING, outs) == 0,
          Count(IS_HELD, outs),
          priced,
          priced == 0 && Count(IS_FX_MISSING, outs) > 0)
  }

  /** The exact derivation: a date after today has no value yet. */
  function Derive(f: Facts, through: int, today: int, d: int, tolerance: nat): Point {
    if d > today then FUTURE_POINT else PointOf(Outcomes(f, f.holdings, through, d, tolerance))
  }

  datatype IndexedHolding = IndexedHolding(holding: Holding, prices: map<int, seq<PriceRow>>,
                                           timeline: SharesHeld.Timeline)

  ghost predicate IndexedFrom(x: IndexedHolding, f: Facts, through: int) {
    && x.prices == GroupsOf(Filter(OfSecurity(x.holding.security), f.prices), PRICE_DAY)
    && SharesHeld.TimelineValid(x.timeline)
    && x.timeline.transactions == SharesHeld.Loaded(f.ledger, x.holding.id, through)
  }

  /** Every holding's own price index and share walk, built once for all dates. */
  method IndexHoldings(f: Facts, through: int) returns (xs: seq<IndexedHolding>)
    ensures |xs| == |f.holdings|
    ensures forall i :: 0 <= i < |xs| ==> xs[i].holding == f.holdings[i] && IndexedFrom(xs[i], f, through)
  {
    xs := [];
    for i := 0 to |f.holdings|
      invariant |xs| == i
      invariant forall j :: 0 <= j < i ==> xs[j].holding == f.holdings[j] && IndexedFrom(xs[j], f, through)
    {
      var h := f.holdings[i];
      var prices := GroupBy(Filter(OfSecurity(h.security), f.prices), PRICE_DAY);
      var timeline := SharesHeld.BuildTimeline(SharesHeld.Loaded(f.ledger, h.id, through));
      xs := xs + [IndexedHolding(h, prices, timeline)];
    }
  }

  /** One holding's contribution, looked up through its index and its share walk. */
  method ContributionAt(f: Facts, x: IndexedHolding, fxByDay: map<int, seq<FxRow>>, ghost through: int,
      d: int, tolerance: nat) returns (o: Outcome)
    requires IndexedFrom(x, f, through) && fxByDay == GroupsOf(f.fx, FX_DAY)
    ensures o == OutcomeFor(f, x.holding, through, d, tolerance)
  {
    var h := x.holding;
    var q := SharesHeld.HeldFromTimeline(x.timeline, d);
    ghost var rows := Filter(OfSecurity(h.security), f.prices);
    var candidates := WithinTolerance(x.prices, rows, PRICE_DAY, d, tolerance);
    PriceGathered(rows, d, tolerance, h.currency);
    var price := SelectPrice(candidates, d, tolerance, h.currency);
    var quote: Option<FxQuote> := None;
    if h.currency != f.home {
      var rates := WithinTolerance(fxByDay, f.fx, FX_DAY, d, tolerance);
      FxGathered(f.fx, d, tolerance, f.home, h.currency);
      quote := QuoteOf(f.home, SelectFx(rates, d, tolerance, f.home, h.currency));
    }
    o := Contribution(q, price, h.currency != f.home, quote);
  }

  /** The loop's six running variables after some securities. */
  datatype Tally = Tally(total: real, held: nat, priced: nat, known: bool, missing: bool, fxMissing: bool)

  ghost predicate Tallies(t: Tally, outs: seq<Outcome>) {
    && t.total == Total(outs)
    && t.held == Count(IS_HELD, outs)
    && t.priced == Count(IS_VALUED, outs)
    && (t.known <==> t.priced > 0)
    && (t.missing <==> Count(IS_MISSING, outs) > 0)
    && (t.fxMissing <==> Count(IS_FX_MISSING, outs) > 0)
  }

  lemma TallySnoc(outs: seq<Outcome>, o: Outcome)
    ensures Total(outs + [o]) == Total(outs) + if o.Valued? then o.value else 0.0
    ensures forall p :: Count(p, outs + [o]) == Count(p, outs) + if p(o) then 1 else 0
  {
    assert (outs + [o])[..|outs|] == outs;
  }

  /** What one more security adds to the running variables. */
  function Added(t: Tally, o: Outcome): Tally {
    match o
    case NotHeld => t
    case BadQuantity => t.(missing := true)
    case FxMissing => t.(held := t.held + 1, missing := true, fxMissing := true)
    case Valued(v) => t.(held := t.held + 1, priced := t.priced + 1, known := true, total := t.total + v)
    case _ => t.(held := t.held + 1, missing := true)
  }

  lemma TallyNext(t: Tally, outs: seq<Outcome>, o: Outcome)
    requires Tallies(t, outs)
    ensures Tallies(Added(t, o), outs + [o])
  {
    TallySnoc(outs, o);
  }

  lemma TallyPoint(t: Tally, outs: seq<Outcome>)
    requires Tallies(t, outs)
    ensures PointOf(outs) == Point(if t.known then Some(t.total) else None, !t.missing, t.held, t.priced,
                                   !t.known && t.held > 0 && t.fxMissing)
  {
    if t.fxMissing {
      CountPositive(IS_FX_MISSING, outs);
      var i :| 0 <= i < |outs| && IS_FX_MISSING(outs[i]);
      assert IS_HELD(outs[i]);
      CountPositive(IS_HELD, outs);
    }
  }

  /** The running variables, one security after another, end in the specified point. */
  method AddUp(outs: seq<Outcome>) returns (p: Point)
    ensures p == PointOf(outs)
  {
    var total, held, priced := 0.0, 0, 0;
    var known, missing, fxMissing := false, false, false;
    for i := 0 to |outs|
      invariant Tallies(Tally(total, held, priced, known, missing, fxMissing), outs[..i])
    {
      TallyNext(Tally(total, held, priced, known, missing, fxMissing), outs[..i], outs[i]);
      assert outs[..i + 1] == outs[..i] + [outs[i]];
      match outs[i] {
        case NotHeld =>
        case BadQuantity => missing := true;
        case FxMissing => held, missing, fxMissing := held + 1, true, true;
        case Valued(v) => held, priced, known, total := held + 1, priced + 1, true, total + v;
        case _ => held, missing := held + 1, true;
      }
    }
    assert outs[..|outs|] == outs;
    TallyPoint(Tally(total, held, priced, known, missing, fxMissing), outs);
    p := Point(if known then Some(total) else None, !missing, held, priced, !known && held > 0 && fxMissing);
  }

  /** One date's value over every security, through the indices. */
  method ValuePointAtDate(f: Facts, xs: seq<IndexedHolding>, fxByDay: map<int, seq<FxRow>>, ghost through: int,
      d: int, tolerance: nat) returns (p: Point)
    requires |xs| == |f.holdings|
    requires forall i :: 0 <= i < |xs| ==> xs[i].holding == f.holdings[i] && IndexedFrom(xs[i], f, through)
    requires fxByDay == GroupsOf(f.fx, FX_DAY)
    ensures p == PointOf(Outcomes(f, f.holdings, through, d, tolerance))
  {
    ghost var wanted := Outcomes(f, f.holdings, through, d, tolerance);
    var outs: seq<Outcome> := [];
    for i := 0 to |xs|
      invariant outs == wanted[..i]
    {
      var o := ContributionAt(f, xs[i], fxByDay, through, d, tolerance);
      outs := outs + [o];
    }
    assert wanted[..|xs|] == wanted;
    p := AddUp(outs);
  }

  /** Every requested date, valued on one set of indices. */
  method ComputeSeries(f: Facts, through: int, today: int, dates: seq<int>, tolerance: nat) returns (points: seq<Point>)
    ensures |points| == |dates|
    ensures forall i :: 0 <= i < |dates| ==> points[i] == Derive(f, through, today, dates[i], tolerance)
  {
    var xs := IndexHoldings(f, through);
    var fxByDay := GroupBy(f.fx, FX_DAY);
    points := [];
    for i := 0 to |dates|
      invariant |points| == i
      invariant forall j :: 0 <= j < i ==> points[j] == Derive(f, through, today, dates[j], tolerance)
    {
      if dates[i] > today {
        points := points + [FUTURE_POINT];
      } else {
        var p := ValuePointAtDate(f, xs, fxByDay, through, dates[i], tolerance);
        points := points + [p];
      }
    }
  }
}
