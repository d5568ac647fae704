/** Price changes whose rows and marks are not deleted with them: when that matters, and that it happens. */
module StalePrices {
  import opened Sequences
  import opened Decimals
  import opened Ledger
  import SharesHeld
  import opened Selection
  import opened Valuation
  import opened ValueLocality
  import opened MarkSoundness
  import opened SingleHolding
  import opened ValueHistory
  import opened ValueHistoryProgress
  import Rollup

  // When a changed price alters a date.

  /** The close a holding is valued at, if any. */
  function CloseFor(f: Facts, h: Holding, d: int): Option<real> {
    var price := PriceFor(f, h, d, 0);
    if price.Some? then Some(price.value.close) else None
  }

  /** Of the price, only the close counts. */
  lemma CloseDecides(f: Facts, prices: seq<PriceRow>, h: Holding, through: int, d: int)
    requires CloseFor(f.(prices := prices), h, d) == CloseFor(f, h, d)
    ensures OutcomeFor(f.(prices := prices), h, through, d, 0) == OutcomeFor(f, h, through, d, 0)
  {
  }

  function ValueAt(o: Outcome): real {
    if o.Valued? then o.value else 0.0
  }

  lemma {:induction false} TotalUpdate(outs: seq<Outcome>, i: nat, o: Outcome)
    requires i < |outs|
    ensures Total(outs[i := o]) == Total(outs) - ValueAt(outs[i]) + ValueAt(o)
  {
    var n := |outs| - 1;
    if i < n {
      TotalUpdate(outs[..n], i, o);
      assert outs[i := o][..n] == outs[..n][i := o];
    } else {
      assert outs[i := o][..n] == outs[..n];
    }
  }

  lemma ProductDiffers(x: real, y: real, p: real)
    requires p > 0.0 && x != y
    ensures Times(x, p) != Times(y, p) && Times(p, x) != Times(p, y)
  {
    if x < y {
      LessTimes(x, y, p);
    } else {
      LessTimes(y, x, p);
    }
  }

  function RateOf(fx: FxQuote): real {
    if fx.rate <= 0.0 then 0.0 else if fx.inverse then RoundTo(1.0 / fx.rate, INVERSION_PLACES) else fx.rate
  }

  /** A valued holding is worth quantity times close, times the rate if it is foreign. */
  lemma ContributionIs(q: real, a: PriceRow, foreign: bool, fx: Option<FxQuote>)
    requires Contribution(q, Some(a), foreign, fx).Valued?
    ensures q > 0.0 && (foreign ==> fx.Some? && RateOf(fx.value) > 0.0)
    ensures Contribution(q, Some(a), foreign, fx).value
         == if foreign then Times(Times(q, a.close), RateOf(fx.value)) else Times(q, a.close)
  {
    SmallIntegersFit(0);
  }

  /** Two closes of one valued holding give two values. */
  lemma CloseMovesValue(q: real, a: PriceRow, b: PriceRow, foreign: bool, fx: Option<FxQuote>)
    requires a.close != b.close
    requires Contribution(q, Some(a), foreign, fx).Valued? && Contribution(q, Some(b), foreign, fx).Valued?
    ensures Contribution(q, Some(a), foreign, fx).value != Contribution(q, Some(b), foreign, fx).value
  {
    ContributionIs(q, a, foreign, fx);
    ContributionIs(q, b, foreign, fx);
    ProductDiffers(a.close, b.close, q);
    if foreign {
      ProductDiffers(Times(q, a.close), Times(q, b.close), RateOf(fx.value));
    }
  }

  lemma OneOutcome(f: Facts, prices: seq<PriceRow>, i: nat, through: int, d: int)
    requires i < |f.holdings|
    requires forall j :: 0 <= j < |f.holdings| && j != i ==>
      CloseFor(f.(prices := prices), f.holdings[j], d) == CloseFor(f, f.holdings[j], d)
    ensures Outcomes(f.(prices := prices), f.holdings, through, d, 0)
         == Outcomes(f, f.holdings, through, d, 0)[i := OutcomeFor(f.(prices := prices), f.holdings[i], through, d, 0)]
  {
    var hs := f.holdings;
    forall j | 0 <= j < |hs| && j != i
      ensures OutcomeFor(f.(prices := prices), hs[j], through, d, 0) == OutcomeFor(f, hs[j], through, d, 0)
    {
      CloseDecides(f, prices, hs[j], through, d);
    }
  }

  lemma ValuedMoves(f: Facts, prices: seq<PriceRow>, h: Holding, through: int, d: int)
    requires OutcomeFor(f, h, through, d, 0).Valued? && OutcomeFor(f.(prices := prices), h, through, d, 0).Valued?
    requires CloseFor(f.(prices := prices), h, d) != CloseFor(f, h, d)
    ensures OutcomeFor(f.(prices := prices), h, through, d, 0).value != OutcomeFor(f, h, through, d, 0).value
  {
    CloseMovesValue(Quantity(f, h, through, d), PriceFor(f, h, d, 0).value, PriceFor(f.(prices := prices), h, d, 0).value,
                    h.currency != f.home, QuoteFor(f, h, d, 0));
  }

  lemma {:induction false} CountUpdate(p: Outcome -> bool, outs: seq<Outcome>, i: nat, o: Outcome)
    requires i < |outs|
    ensures Count(p, outs[i := o]) == Count(p, outs) - (if p(outs[i]) then 1 else 0) + if p(o) then 1 else 0
  {
    var n := |outs| - 1;
    if i < n {
      CountUpdate(p, outs[..n], i, o);
      assert outs[i := o][..n] == outs[..n][i := o];
    } else {
      assert outs[i := o][..n] == outs[..n];
    }
  }

  /** Only this outcome decides whether the date as a whole waits for a rate. */
  predicate Decisive(outs: seq<Outcome>, i: nat) {
    forall j :: 0 <= j < |outs| && j != i ==> !outs[j].Valued? && !outs[j].FxMissing?
  }

  lemma DecisiveIff(outs: seq<Outcome>, i: nat)
    requires i < |outs|
    ensures Decisive(outs, i) <==> Count(IS_VALUED, outs[i := Unpriced]) == 0 && Count(IS_FX_MISSING, outs[i := Unpriced]) == 0
  {
    var others := outs[i := Unpriced];
    CountPositive(IS_VALUED, others);
    CountPositive(IS_FX_MISSING, others);
    if Decisive(outs, i) {
      assert forall j :: 0 <= j < |others| ==> !IS_VALUED(others[j]) && !IS_FX_MISSING(others[j]);
    } else {
      var j :| 0 <= j < |outs| && j != i && (outs[j].Valued? || outs[j].FxMissing?);
      assert IS_VALUED(others[j]) || IS_FX_MISSING(others[j]);
    }
  }

  /** An outcome that a price can give: the number of shares is known and not zero. */
  predicate Counted(o: Outcome) {
    !o.NotHeld? && !o.BadQuantity?
  }

  /** When one outcome in place of another gives a date another point. */
  predicate OutcomeMatters(outs: seq<Outcome>, i: nat, o: Outcome)
    requires i < |outs|
  {
    if outs[i].Valued? || o.Valued? then outs[i] != o
    else outs[i].FxMissing? != o.FxMissing? && Decisive(outs, i)
  }

  lemma PointMovesIff(outs: seq<Outcome>, i: nat, o: Outcome)
    requires i < |outs| && Counted(outs[i]) && Counted(o)
    ensures PointOf(outs[i := o]) != PointOf(outs) <==> OutcomeMatters(outs, i, o)
  {
    TotalUpdate(outs, i, o);
    CountUpdate(IS_VALUED, outs, i, o);
    CountUpdate(IS_FX_MISSING, outs, i, o);
    CountUpdate(IS_MISSING, outs, i, o);
    CountUpdate(IS_HELD, outs, i, o);
    CountUpdate(IS_VALUED, outs, i, Unpriced);
    CountUpdate(IS_FX_MISSING, outs, i, Unpriced);
    DecisiveIff(outs, i);
  }

  /** The price decides neither whether a holding is held nor how many shares. */
  lemma StillCounted(f: Facts, prices: seq<PriceRow>, h: Holding, through: int, d: int)
    ensures var o, n := OutcomeFor(f, h, through, d, 0), OutcomeFor(f.(prices := prices), h, through, d, 0);
      Counted(o) == Counted(n) && (!Counted(o) ==> o == n)
  {
  }

  /** The one holding's outcome is another, in a way that shows. */
  predicate Shows(f: Facts, prices: seq<PriceRow>, i: nat, through: int, d: int)
    requires i < |f.holdings|
  {
    var before, after := OutcomeFor(f, f.holdings[i], through, d, 0), OutcomeFor(f.(prices := prices), f.holdings[i], through, d, 0);
    if before.Valued? && after.Valued? then CloseFor(f.(prices := prices), f.holdings[i], d) != CloseFor(f, f.holdings[i], d)
    else if before.Valued? || after.Valued? then true
    else before.FxMissing? != after.FxMissing? && Decisive(Outcomes(f, f.holdings, through, d, 0), i)
  }

  lemma ValuedSameIff(f: Facts, prices: seq<PriceRow>, h: Holding, through: int, d: int)
    requires OutcomeFor(f, h, through, d, 0).Valued? && OutcomeFor(f.(prices := prices), h, through, d, 0).Valued?
    ensures OutcomeFor(f.(prices := prices), h, through, d, 0) == OutcomeFor(f, h, through, d, 0) <==>
      CloseFor(f.(prices := prices), h, d) == CloseFor(f, h, d)
  {
    if CloseFor(f.(prices := prices), h, d) == CloseFor(f, h, d) {
      CloseDecides(f, prices, h, through, d);
    } else {
      ValuedMoves(f, prices, h, through, d);
    }
  }

  lemma ShowsIff(f: Facts, prices: seq<PriceRow>, i: nat, through: int, d: int)
    requires i < |f.holdings|
    ensures Shows(f, prices, i, through, d) <==>
      OutcomeMatters(Outcomes(f, f.holdings, through, d, 0), i, OutcomeFor(f.(prices := prices), f.holdings[i], through, d, 0))
  {
    var before, after := OutcomeFor(f, f.holdings[i], through, d, 0), OutcomeFor(f.(prices := prices), f.holdings[i], through, d, 0);
    assert Outcomes(f, f.holdings, through, d, 0)[i] == before;
    if before.Valued? && after.Valued? {
      ValuedSameIff(f, prices, f.holdings[i], through, d);
    }
  }

  /**
   * Where all others keep their closes, a price change alters the date's derivation if and only if the holding gains
   * or loses its value, or keeps one at another close, or alone decides that the date waits for a rate: with WrongIff,
   * exactly when a row left behind is wrong.
   */
  lemma AltersIff(f: Facts, prices: seq<PriceRow>, i: nat, through: int, today: int, d: int)
    requires i < |f.holdings| && d <= today
    requires forall j :: 0 <= j < |f.holdings| && j != i ==>
      CloseFor(f.(prices := prices), f.holdings[j], d) == CloseFor(f, f.holdings[j], d)
    ensures Derive(f.(prices := prices), through, today, d, 0) != Derive(f, through, today, d, 0) <==>
      Shows(f, prices, i, through, d)
  {
    var outs, o := Outcomes(f, f.holdings, through, d, 0), OutcomeFor(f.(prices := prices), f.holdings[i], through, d, 0);
    OneOutcome(f, prices, i, through, d);
    StillCounted(f, prices, f.holdings[i], through, d);
    ShowsIff(f, prices, i, through, d);
    if Counted(outs[i]) {
      PointMovesIff(outs, i, o);
    } else {
      assert outs[i := o] == outs;
    }
  }

  // That it happens: one share, its price changed by a writer that stops before the deletion, or never deletes.

  const HOME_SHARE := Holding(1, Some(1), 0)

  function Quote(ownerImport: bool, close: real): PriceRow {
    PriceRow(1, 10, Some(10), 0, ownerImport, Eod, Observed, 0, close)
  }

  function Portfolio(prices: seq<PriceRow>): Facts {
    Facts(0, [HOME_SHARE], [Bought(1.0)], prices, [])
  }

  /** Some prices of day 10, of which chosen is the one selected. */
  ghost predicate Chosen(prices: seq<PriceRow>, chosen: PriceRow) {
    && (forall r :: r in prices ==> r.day == 10 && r.security == 1)
    && SelectPrice(prices, 10, 0, 0) == Some(chosen)
    && chosen in prices && chosen.close > 0.0 && FitsText(chosen.close)
  }

  function Worth(chosen: PriceRow): Point {
    Point(Some(chosen.close), true, 1, 1, false)
  }

  lemma OneShare(prices: seq<PriceRow>, through: int)
    requires through >= 5
    ensures Quantity(Portfolio(prices), HOME_SHARE, through, 10) == 1.0
  {
    var buy := Bought(1.0);
    SmallIntegersFit(1);
    FilterAll(SharesHeld.Loading(1, through), [buy]);
    FilterAll(SharesHeld.Counting([buy]), [buy]);
    FilterAll(SharesHeld.UpTo(10), [buy]);
    assert SharesHeld.Sort([buy]) == [buy];
    assert SharesHeld.Replay(0.0, [buy]) == SharesHeld.Effect(0.0, buy);
  }

  lemma ValuedPoint(v: real)
    ensures PointOf([Valued(v)]) == Point(Some(v), true, 1, 1, false)
  {
    TallySnoc([], Valued(v));
    assert [] + [Valued(v)] == [Valued(v)];
  }

  lemma WorthOf(prices: seq<PriceRow>, chosen: PriceRow, through: int, today: int)
    requires Chosen(prices, chosen) && through >= 5 && today >= 10
    ensures Derive(Portfolio(prices), through, today, 10, 0) == Worth(chosen)
  {
    var f := Portfolio(prices);
    OneShare(prices, through);
    SmallIntegersFit(1);
    FilterAll(OfSecurity(Some(1)), prices);
    assert OutcomeFor(f, HOME_SHARE, through, 10, 0) == Valued(chosen.close);
    assert Outcomes(f, [HOME_SHARE], through, 10, 0) == [Valued(chosen.close)];
    ValuedPoint(chosen.close);
  }

  lemma OneDate(s: State, prices: seq<PriceRow>, chosen: PriceRow)
    requires s.facts == Portfolio(prices) && s.localDay == 20 && Chosen(prices, chosen)
    ensures Candidates(s) == [10]
  {
    assert EarliestTrade([Bought(1.0)]) == Some(5);
    assert RangeFrom(s) == 5;
    assert s.facts.holdings[0].security == Some(1);
    assert Listed(s.facts.holdings, 1);
    var i :| 0 <= i < |prices| && prices[i] == chosen;
    CandidatesBounded(s);
    var dates := Candidates(s);
    assert IsCandidate(s.facts, 10);
    assert 10 in dates;
    forall d | d in dates ensures d == 10 {
      var k :| 0 <= k < |prices| && prices[k].day == d && Listed(s.facts.holdings, prices[k].security);
      assert prices[k] in prices;
    }
    Singleton(dates, 10);
  }

  lemma Singleton(s: seq<int>, x: int)
    requires Increasing(s) && x in s && forall d :: d in s ==> d == x
    ensures s == [x]
  {
    IncreasingSize(s);
    assert SetOf(s) == {x};
    assert s[0] in s;
  }

  function Unfilled(prices: seq<PriceRow>, t: int): State {
    Empty(Portfolio(prices), t, 20)
  }

  function FilledBy(prices: seq<PriceRow>, chosen: PriceRow, t: int): State {
    Unfilled(prices, t).(stored := map[10 := Row(Worth(chosen), t)])
  }

  lemma WrittenOne(point: int -> Point, chosen: PriceRow, t: int)
    requires point(10) == Worth(chosen)
    ensures Filled(map[], [10], point, t) == map[10 := Row(Worth(chosen), t)]
    ensures MarkedOff(map[], [10], point, t) == map[]
  {
    assert ValuedIn([10], point) == {10} && WrittenOffIn([10], point, t) == {};
  }

  lemma SweepsOne(s: State, point: int -> Point, chosen: PriceRow)
    requires s.stored == map[] && s.marked == map[] && Candidates(s) == [10]
    requires point == DerivedBy(s) && point(10) == Worth(chosen)
    ensures Missing(s) == [10]
    ensures Sweep(s, Oldest, 1) == s.(stored := map[10 := Row(Worth(chosen), s.now)])
  {
    FilterAll(Open(s), [10]);
    assert Slice([10], Oldest, 1) == [10];
    WrittenOne(point, chosen, s.now);
  }

  lemma TickSweeps(s: State, bound: int)
    requires s.marker == None && Missing(s) != [] && bound > 0
    ensures Leads(s, Tick(bound), Sweep(s, Oldest, bound))
  {
  }

  lemma FillingTick(prices: seq<PriceRow>, chosen: PriceRow, t: int)
    requires Chosen(prices, chosen) && UtcDay(t) == 20
    ensures Leads(Unfilled(prices, t), Tick(1), FilledBy(prices, chosen, t))
  {
    var s := Unfilled(prices, t);
    OneDate(s, prices, chosen);
    WorthOf(prices, chosen, 20, 20);
    SweepsOne(s, DerivedBy(s), chosen);
    TickSweeps(s, 1);
  }

  function Repriced(before: seq<PriceRow>, was: PriceRow, after: seq<PriceRow>, t: int): State {
    FilledBy(before, was, t).(facts := Portfolio(after))
  }

  lemma Repricing(before: seq<PriceRow>, was: PriceRow, after: seq<PriceRow>, t: int)
    ensures Leads(FilledBy(before, was, t), PriceWrite(after, {}), Repriced(before, was, after, t))
  {
    var s := FilledBy(before, was, t);
    var n := Without(s.(facts := s.facts.(prices := after)), Among({}));
    assert n.stored == s.stored && n.marked == s.marked;
  }

  lemma StaleSeries(before: seq<PriceRow>, was: PriceRow, after: seq<PriceRow>, now: PriceRow, t: int)
    requires Chosen(after, now) && UtcDay(t) == 20
    ensures ReadSeries(Repriced(before, was, after, t)) == [Dated(10, Worth(was))]
    ensures Exact(Repriced(before, was, after, t), 10) == Worth(now)
  {
    var s := Repriced(before, was, after, t);
    OneDate(s, after, now);
    WorthOf(after, now, 10, 20);
    assert [10][1..] == [];
    assert Series(s, SliceOf(s, Newest, MAX_DERIVE_DATES_PER_READ), [10]) == [Dated(10, s.stored[10].point)];
  }

  lemma StaleReached(before: seq<PriceRow>, was: PriceRow, after: seq<PriceRow>, t: int)
    requires Chosen(before, was) && UtcDay(t) == 20
    ensures Reaches(Unfilled(before, t), Repricings(after), Repriced(before, was, after, t))
  {
    var stale := Repriced(before, was, after, t);
    FillingTick(before, was, t);
    Repricing(before, was, after, t);
    assert Reaches(stale, [], stale);
    TwoSteps(Unfilled(before, t), Tick(1), FilledBy(before, was, t), PriceWrite(after, {}), stale, [], stale);
  }

  lemma OwedTwo(s: State, a: Step, b: Step)
    ensures OwedAfter(s, [a] + ([b] + []), {}) == Owed(Apply(s, a), b, Owed(s, a, {}))
  {
    OwedFirst(s, a, [b] + [], {});
    OwedFirst(Apply(s, a), b, [], Owed(s, a, {}));
  }

  lemma OwedFirst(s: State, step: Step, rest: seq<Step>, owed: set<int>)
    ensures OwedAfter(s, [step] + rest, owed) == OwedAfter(Apply(s, step), rest, Owed(s, step, owed))
  {
    assert ([step] + rest)[1..] == rest;
  }

  lemma DayDiffers(before: seq<PriceRow>, was: PriceRow, after: seq<PriceRow>, now: PriceRow)
    requires Chosen(before, was) && Chosen(after, now) && was.close != now.close
    ensures DayChanged(Portfolio(before), after, 10)
  {
    WorthOf(before, was, 10, 20);
    WorthOf(after, now, 10, 20);
    if !DayChanged(Portfolio(before), after, 10) {
      PricesLocal(Portfolio(before), after, 10, 20, 10);
    }
  }

  /** The two steps owe the day an invalidation. */
  lemma StaleOwed(before: seq<PriceRow>, was: PriceRow, after: seq<PriceRow>, now: PriceRow, t: int)
    requires Chosen(before, was) && Chosen(after, now) && was.close != now.close && UtcDay(t) == 20
    ensures OwedAfter(Unfilled(before, t), Repricings(after), {}) == {10}
  {
    OwedTwo(Unfilled(before, t), Tick(1), PriceWrite(after, {}));
    FillingTick(before, was, t);
    DayDiffers(before, was, after, now);
  }

  /** One tick stores the day, the price changes with nothing deleted, and from then on reads show the old value. */
  lemma StaleShown(before: seq<PriceRow>, was: PriceRow, after: seq<PriceRow>, now: PriceRow, t: int)
    requires Chosen(before, was) && Chosen(after, now) && was.close != now.close && UtcDay(t) == 20
    ensures Reaches(Unfilled(before, t), Repricings(after), Repriced(before, was, after, t))
    ensures ReadSeries(Repriced(before, was, after, t)) == [Dated(10, Worth(was))]
    ensures Exact(Repriced(before, was, after, t), 10) == Worth(now) != Worth(was)
    ensures OwedAfter(Unfilled(before, t), Repricings(after), {}) == {10}
  {
    StaleOwed(before, was, after, now, t);
    StaleReached(before, was, after, t);
    StaleSeries(before, was, after, now, t);
  }

  function Repricings(after: seq<PriceRow>): seq<Step> {
    [Tick(1)] + ([PriceWrite(after, {})] + [])
  }

  lemma SingleChosen(r: PriceRow)
    requires r.security == 1 && r.day == 10 && r.seenOn == Some(10) && r.currency == 0 && r.close > 0.0 && FitsText(r.close)
    ensures Chosen([r], r)
  {
    FilterAll(PriceEligible(10, 0, 0), [r]);
    assert FirstBest(PriceBetter, [r][1..]) == None;
  }

  lemma ImportChosen(r: PriceRow, other: PriceRow)
    requires r == Quote(true, r.close) && r.close > 0.0 && FitsText(r.close) && other == Quote(false, other.close) && other.close > 0.0
    ensures Chosen([r, other], r)
  {
    FilterAll(PriceEligible(10, 0, 0), [r, other]);
    assert [r, other][1..] == [other] && [other][1..] == [];
    assert FirstBest(PriceBetter, [other]) == Some(other);
  }

  /** The shared row of day 10 as a rollup leaves it. */
  function SharedRow(o: Rollup.Observation): PriceRow {
    PriceRow(1, 10, Some(10), o.at, false, Delayed, Observed, 0, o.price)
  }

  const SHARED := Rollup.SharedPlace(1, 10)
  const EARLY := map[SHARED := Rollup.Observation(0, 1.0)]

  /** A tick of the same day, later than what the shared row holds. */
  function LateTick(user: nat): Rollup.Tick {
    Rollup.Tick(user, Rollup.Yahoo, 1, 10, 1, 2.0)
  }

  const LATE := map[SHARED := Rollup.Observation(1, 2.0)]

  /** The failing write, and its retry: the day is owed after the first and after the second, which writes nothing. */
  ghost predicate RollupOwes(tick: Rollup.Tick) {
    var pair := Rollup.PairOf(tick);
    var first := Rollup.OwedAfter({}, !Rollup.Guarded(EARLY, tick), Rollup.FailsAfterWrite(false), pair);
    && Rollup.Promote(EARLY, tick) == LATE == Rollup.Promote(LATE, tick)
    && first == {pair}
    && Rollup.OwedAfter(first, !Rollup.Guarded(LATE, tick), Rollup.Succeeds, pair) == first
  }

  lemma LateTickOwes(user: nat)
    ensures RollupOwes(LateTick(user))
  {
    Rollup.RetryOwesIff({}, EARLY, LateTick(user));
  }

  /**
   * A rollup that writes the day's later price over the shared row and fails before it deletes: reads go on showing the
   * old value, and the retry, finding the row as new already, succeeds without writing and leaves the day owed.
   */
  lemma RollupLeavesStale(user: nat, t: int)
    requires UtcDay(t) == 20
    ensures RollupOwes(LateTick(user))
    ensures var before, after := [SharedRow(EARLY[SHARED])], [SharedRow(LATE[SHARED])];
      && ReadSeries(After(Unfilled(before, t), Repricings(after))) == [Dated(10, Worth(before[0]))]
      && Exact(After(Unfilled(before, t), Repricings(after)), 10) == Worth(after[0]) != Worth(before[0])
      && OwedAfter(Unfilled(before, t), Repricings(after), {}) == {10}
  {
    var early, late := SharedRow(EARLY[SHARED]), SharedRow(LATE[SHARED]);
    LateTickOwes(user);
    SmallIntegersFit(1);
    SmallIntegersFit(2);
    SingleChosen(early);
    SingleChosen(late);
    StaleShown([early], early, [late], late, t);
  }

  /** An import stopped behind its price batch, before its deletions. */
  lemma StoppedImportLeavesStale(t: int)
    requires UtcDay(t) == 20
    ensures var both := [Quote(true, 2.0), Quote(false, 1.0)];
      && ReadSeries(After(Unfilled([Quote(false, 1.0)], t), Repricings(both))) == [Dated(10, Worth(Quote(false, 1.0)))]
      && Exact(After(Unfilled([Quote(false, 1.0)], t), Repricings(both)), 10) == Worth(Quote(true, 2.0))
  {
    SmallIntegersFit(1);
    SmallIntegersFit(2);
    SingleChosen(Quote(false, 1.0));
    ImportChosen(Quote(true, 2.0), Quote(false, 1.0));
    StaleShown([Quote(false, 1.0)], Quote(false, 1.0), [Quote(true, 2.0), Quote(false, 1.0)], Quote(true, 2.0), t);
  }

  /** Deleting an upload takes its prices away and leaves the rows derived from them. */
  lemma DeletedUploadLeavesStale(t: int)
    requires UtcDay(t) == 20
    ensures var both := [Quote(true, 2.0), Quote(false, 1.0)];
      ReadSeries(After(Unfilled(both, t), Repricings([Quote(false, 1.0)]))) == [Dated(10, Worth(Quote(true, 2.0)))]
    ensures var both := [Quote(true, 2.0), Quote(false, 1.0)];
      Exact(After(Unfilled(both, t), Repricings([Quote(false, 1.0)])), 10) == Worth(Quote(false, 1.0))
  {
    SmallIntegersFit(1);
    SmallIntegersFit(2);
    SingleChosen(Quote(false, 1.0));
    ImportChosen(Quote(true, 2.0), Quote(false, 1.0));
    StaleShown([Quote(true, 2.0), Quote(false, 1.0)], Quote(true, 2.0), [Quote(false, 1.0)], Quote(false, 1.0), t);
  }
}
