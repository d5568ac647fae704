/** What a tick that trusts the convergence marker can and cannot miss. */
module ConvergenceSkip {
  import opened Sequences
  import opened Ledger
  import opened Selection
  import opened Valuation
  import opened ValueLocality
  import opened MarkSoundness
  import opened ValueHistory

  lemma MissingEmptyIff(s: State)
    ensures Missing(s) == [] <==> forall d :: d in Candidates(s) ==> Accounted(s, d)
  {
    if Missing(s) == [] {
      forall d | d in Candidates(s) ensures Accounted(s, d) {
        assert d !in Missing(s);
      }
    } else {
      var d := Missing(s)[0];
      assert d in Missing(s);
      assert d in Candidates(s) && Open(s)(d) && !Accounted(s, d);
    }
  }

  /** A sweep only adds rows and marks, and stamps them with the present. */
  lemma SweepOnlyAdds(s: State, end: End, bound: nat)
    ensures forall d :: d in Sweep(s, end, bound).stored ==>
      (d in s.stored && Sweep(s, end, bound).stored[d] == s.stored[d])
      || Sweep(s, end, bound).stored[d].computedAt == s.now
    ensures forall d :: d in Sweep(s, end, bound).marked ==>
      (d in s.marked && Sweep(s, end, bound).marked[d] == s.marked[d])
      || Sweep(s, end, bound).marked[d] == s.now
    ensures Sweep(s, end, bound).now == s.now
  {
  }

  /** Every step keeps a row or mark as it is, drops it, or writes it anew with the present stamp. */
  lemma StepStamps(s: State, step: Step)
    requires Allowed(s, step)
    ensures s.now <= Apply(s, step).now
    ensures forall d :: d in Apply(s, step).stored ==>
      (d in s.stored && Apply(s, step).stored[d] == s.stored[d]) || Apply(s, step).stored[d].computedAt == s.now
    ensures forall d :: d in Apply(s, step).marked ==>
      (d in s.marked && Apply(s, step).marked[d] == s.marked[d]) || Apply(s, step).marked[d] == s.now
  {
    match step {
      case Read => SweepOnlyAdds(s, Newest, MAX_DERIVE_DATES_PER_READ);
      case Tick(bound) =>
        if bound > 0 {
          SweepOnlyAdds(s, Oldest, bound);
        }
      case _ => WritesOnlyClear(s, step);
    }
  }

  /** The latest time a row was computed, or a mark attempted. */
  ghost predicate LatestRow(s: State, latest: Option<int>) {
    if latest.None? then s.stored == map[]
    else (exists d :: d in s.stored && s.stored[d].computedAt == latest.value)
         && forall d :: d in s.stored ==> s.stored[d].computedAt <= latest.value
  }

  ghost predicate LatestMark(s: State, latest: Option<int>) {
    if latest.None? then s.marked == map[]
    else (exists d :: d in s.marked && s.marked[d] == latest.value) && forall d :: d in s.marked ==> s.marked[d] <= latest.value
  }

  ghost predicate DayRange(s: State, first: Option<int>, last: Option<int>) {
    if s.stored == map[] then first.None? && last.None?
    else
      && first.Some? && first.value in s.stored && last.Some? && last.value in s.stored
      && forall d :: d in s.stored ==> first.value <= d <= last.value
  }

  ghost predicate LastCandidate(f: Facts, top: Option<int>) {
    if top.None? then forall d :: !IsCandidate(f, d)
    else IsCandidate(f, top.value) && forall d :: IsCandidate(f, d) ==> d <= top.value
  }

  /** What a fingerprint records: how many rows and marks, the ends of the rows' days, the latest stamps, the last priced day. */
  lemma FingerprintRecords(s: State)
    ensures var p := FingerprintOf(s);
      && p.rowCount == |s.stored| && p.markCount == |s.marked| && DayRange(s, p.minDay, p.maxDay)
      && LatestRow(s, p.maxComputedAt) && LatestMark(s, p.maxAttemptedAt) && LastCandidate(s.facts, p.candidateMax)
  {
    var stamps, tries := (set d | d in s.stored :: s.stored[d].computedAt), (set d | d in s.marked :: s.marked[d]);
    assert forall d :: d in s.stored ==> s.stored[d].computedAt in stamps;
    assert forall d :: d in s.marked ==> s.marked[d] in tries;
    assert s.stored != map[] ==> exists d :: d in s.stored;
    CandidateDaysAre(s.facts);
  }

  lemma CandidateDaysAre(f: Facts)
    ensures forall d :: IsCandidate(f, d) <==> d in CandidateDays(f)
  {
    forall d | d in CandidateDays(f) ensures IsCandidate(f, d) {
      var r :| r in f.prices && Listed(f.holdings, r.security) && r.day == d;
      var i :| 0 <= i < |f.prices| && f.prices[i] == r;
    }
    forall d | IsCandidate(f, d) ensures d in CandidateDays(f) {
      CandidateDay(f, d);
    }
  }

  /** No row or mark is dated after now. */
  ghost predicate Stamped(s: State) {
    && (forall d :: d in s.stored ==> s.stored[d].computedAt <= s.now)
    && (forall d :: d in s.marked ==> s.marked[d] <= s.now)
  }

  lemma StampedStep(s: State, step: Step)
    requires Stamped(s) && Allowed(s, step)
    ensures Stamped(Apply(s, step))
  {
    StepStamps(s, step);
  }

  // By time stamps.

  /** Whatever the tables hold that is no younger than the marker was there, unchanged, at the marker. */
  ghost predicate OldRowsKept(s: State, origin: State) {
    && origin.now < s.now
    && (forall d :: d in s.stored && s.stored[d].computedAt <= origin.now ==>
          d in origin.stored && origin.stored[d] == s.stored[d])
    && (forall d :: d in s.marked && s.marked[d] <= origin.now ==>
          d in origin.marked && origin.marked[d] == s.marked[d])
  }

  lemma OldRowsStep(s: State, origin: State, step: Step)
    requires OldRowsKept(s, origin) && Allowed(s, step)
    ensures OldRowsKept(Apply(s, step), origin)
  {
    StepStamps(s, step);
  }

  lemma {:induction false} OldRowsRun(s: State, origin: State, steps: seq<Step>)
    requires OldRowsKept(s, origin) && AllowedRun(s, steps)
    ensures OldRowsKept(After(s, steps), origin)
    decreases steps
  {
    if steps != [] {
      OldRowsStep(s, origin, steps[0]);
      OldRowsRun(Apply(s, steps[0]), origin, steps[1..]);
    }
  }

  lemma SameSizeSameMap<V>(a: map<int, V>, b: map<int, V>)
    requires forall d :: d in a ==> d in b && b[d] == a[d]
    requires |a| == |b|
    ensures a == b
  {
    var ka, kb := (set d | d in a), (set d | d in b);
    assert ka == a.Keys && kb == b.Keys;
    assert |ka| == |a| && |kb| == |b|;
    forall d | d in ka ensures d in kb {
      assert d in a;
    }
    SubsetSameSize(ka, kb);
    forall d | d in b ensures d in a && a[d] == b[d] {
      assert d in kb;
    }
  }

  /** A matching fingerprint means neither table changed at all. */
  lemma MatchingTables(s: State, origin: State)
    requires Stamped(origin) && OldRowsKept(s, origin)
    requires FingerprintOf(s) == FingerprintOf(origin)
    ensures s.stored == origin.stored && s.marked == origin.marked
  {
    var computed, computed0 := (set d | d in s.stored :: s.stored[d].computedAt),
                               (set d | d in origin.stored :: origin.stored[d].computedAt);
    assert MaxOf(computed) == MaxOf(computed0);
    forall d | d in s.stored ensures s.stored[d].computedAt <= origin.now {
      assert s.stored[d].computedAt in computed;
      var top := MaxOf(computed).value;
      var d0 :| d0 in origin.stored && origin.stored[d0].computedAt == top;
    }
    var attempted, attempted0 := (set d | d in s.marked :: s.marked[d]),
                                 (set d | d in origin.marked :: origin.marked[d]);
    assert MaxOf(attempted) == MaxOf(attempted0);
    forall d | d in s.marked ensures s.marked[d] <= origin.now {
      assert s.marked[d] in attempted;
      var top := MaxOf(attempted).value;
      assert top in attempted0;
      var d0 :| d0 in origin.marked && origin.marked[d0] == top;
    }
    SameSizeSameMap(s.stored, origin.stored);
    SameSizeSameMap(s.marked, origin.marked);
  }

  /**
   * Let any steps at all follow the marker once the clock has moved past it. A skip on that marker then
   * hides no missing date if and only if every candidate now in range was accounted for back then.
   */
  lemma SkipSoundIff(origin: State, steps: seq<Step>)
    requires origin.marker == Some(Marker(origin.now, FingerprintOf(origin)))
    requires Stamped(origin) && AllowedRun(origin, steps)
    requires steps != [] && steps[0].Clock? && steps[0].now > origin.now
    requires After(origin, steps).marker == origin.marker && Skips(After(origin, steps))
    ensures After(origin, steps).stored == origin.stored && After(origin, steps).marked == origin.marked
    ensures Missing(After(origin, steps)) == [] <==>
      forall d :: d in Candidates(After(origin, steps)) ==> Accounted(origin, d)
  {
    OldRowsRun(Apply(origin, steps[0]), origin, steps[1..]);
    MatchingTables(After(origin, steps), origin);
    MissingEmptyIff(After(origin, steps));
  }

  // By counting, whatever the clock did.

  predicate UpToMax(origin: State, d: int) {
    var max := FingerprintOf(origin).candidateMax;
    max.Some? && d <= max.value
  }

  /** No candidate in range, at or below the recorded maximum, that was not accounted for at the marker. */
  ghost predicate NoneAdded(s: State, origin: State) {
    forall d :: d in Candidates(s) && UpToMax(origin, d) ==> Accounted(origin, d)
  }

  ghost predicate NoneAddedRun(s: State, origin: State, steps: seq<Step>)
    decreases steps
  {
    NoneAdded(s, origin) && (steps != [] ==> NoneAddedRun(Apply(s, steps[0]), origin, steps[1..]))
  }

  ghost predicate NothingNew(s: State, origin: State) {
    forall d :: Accounted(s, d) && UpToMax(origin, d) ==> Accounted(origin, d)
  }

  lemma SweepNothingNew(s: State, origin: State, end: End, bound: nat)
    requires NothingNew(s, origin) && NoneAdded(s, origin)
    ensures NothingNew(Sweep(s, end, bound), origin)
  {
    var slice := Slice(Missing(s), end, bound);
    PersistTables(s, slice);
    var t := Persist(s, slice);
    forall d | Accounted(t, d) && UpToMax(origin, d) ensures Accounted(origin, d) {
      if !Accounted(s, d) {
        assert d in t.stored.Keys || d in t.marked.Keys;
        assert d in slice;
        assert d in Missing(s);
      }
    }
  }

  lemma NothingNewStep(s: State, origin: State, step: Step)
    requires NothingNew(s, origin) && NoneAdded(s, origin) && Allowed(s, step)
    ensures NothingNew(Apply(s, step), origin)
  {
    match step {
      case Read => SweepNothingNew(s, origin, Newest, MAX_DERIVE_DATES_PER_READ);
      case Tick(bound) =>
        if bound > 0 {
          SweepNothingNew(s, origin, Oldest, bound);
          assert forall d :: Accounted(Apply(s, step), d) ==> Accounted(s, d) || Accounted(Sweep(s, Oldest, bound), d);
        }
      case _ =>
        WritesOnlyClear(s, step);
        assert forall d :: Accounted(Apply(s, step), d) ==> Accounted(s, d);
    }
  }

  lemma {:induction false} NothingNewRun(s: State, origin: State, steps: seq<Step>)
    requires NothingNew(s, origin) && NoneAddedRun(s, origin, steps) && AllowedRun(s, steps)
    ensures NothingNew(After(s, steps), origin) && NoneAdded(After(s, steps), origin)
    decreases steps
  {
    if steps != [] {
      NothingNewStep(s, origin, steps[0]);
      NothingNewRun(Apply(s, steps[0]), origin, steps[1..]);
    }
  }

  lemma CandidateDay(f: Facts, d: int)
    requires IsCandidate(f, d)
    ensures d in CandidateDays(f)
  {
    var i :| 0 <= i < |f.prices| && f.prices[i].day == d && Listed(f.holdings, f.prices[i].security);
    assert f.prices[i] in f.prices;
  }

  /** Disjoint tables inside others of the same two sizes cover the same dates. */
  lemma SameCounts(s: State, origin: State)
    requires forall d :: Accounted(s, d) ==> Accounted(origin, d)
    requires s.stored.Keys !! s.marked.Keys && origin.stored.Keys !! origin.marked.Keys
    requires |s.stored| == |origin.stored| && |s.marked| == |origin.marked|
    ensures forall d :: Accounted(origin, d) ==> Accounted(s, d)
  {
    var now, then0 := s.stored.Keys + s.marked.Keys, origin.stored.Keys + origin.marked.Keys;
    assert |s.stored.Keys| == |s.stored| && |origin.stored.Keys| == |origin.stored|;
    assert |s.marked.Keys| == |s.marked| && |origin.marked.Keys| == |origin.marked|;
    forall d | d in now ensures d in then0 {
      assert Accounted(s, d);
    }
    SubsetSameSize(now, then0);
    forall d | Accounted(origin, d) ensures Accounted(s, d) {
      assert d in then0;
      assert d in now;
    }
  }

  /** Every row and mark stands on a date some security of the portfolio still has a price on. */
  ghost predicate Priced(s: State) {
    forall d :: Accounted(s, d) ==> IsCandidate(s.facts, d)
  }

  /**
   * If no candidate in range at or below the recorded maximum was added since the marker, a tick that skips on
   * a matching fingerprint hides no missing date, whatever was deleted and derived again in between.
   */
  lemma SkipSoundByCounting(origin: State, steps: seq<Step>)
    requires origin.marker == Some(Marker(origin.now, FingerprintOf(origin)))
    requires Tidy(origin) && AllowedRun(origin, steps) && NoneAddedRun(origin, origin, steps)
    requires Priced(After(origin, steps))
    requires After(origin, steps).marker == origin.marker && Skips(After(origin, steps))
    ensures Missing(After(origin, steps)) == []
  {
    var s := After(origin, steps);
    NothingNewRun(origin, origin, steps);
    TidyRun(origin, steps);
    assert FingerprintOf(s) == FingerprintOf(origin);
    forall d | IsCandidate(s.facts, d) ensures UpToMax(origin, d) {
      CandidateDay(s.facts, d);
    }
    CandidatesBounded(s);
    SameCounts(s, origin);
    MissingEmptyIff(s);
  }

  // Deleting prices only together with their rows keeps every row and mark on a priced date.

  lemma PriceWriteCandidate(f: Facts, prices: seq<PriceRow>, days: set<int>, d: int)
    requires PricesChangedOn(f, prices, days) && d !in days && IsCandidate(f, d)
    ensures IsCandidate(f.(prices := prices), d)
  {
    var i :| 0 <= i < |f.prices| && f.prices[i].day == d && Listed(f.holdings, f.prices[i].security);
    var row := f.prices[i];
    assert row in Filter(Untouched(f, days), f.prices);
    assert row in Filter(Untouched(f, days), prices);
    var j :| 0 <= j < |prices| && prices[j] == row;
  }

  lemma ListedMore(hs: seq<Holding>, h: Holding, security: nat)
    requires Listed(hs, security)
    ensures Listed(hs + [h], security)
  {
    var i :| 0 <= i < |hs| && hs[i].security == Some(security);
    assert (hs + [h])[i] == hs[i];
  }

  lemma CandidateSurvives(s: State, step: Step, d: int)
    requires Paired(s, step) && !Clears(s, step, d) && IsCandidate(s.facts, d)
    ensures IsCandidate(Apply(s, step).facts, d)
  {
    var i :| 0 <= i < |s.facts.prices| && s.facts.prices[i].day == d && Listed(s.facts.holdings, s.facts.prices[i].security);
    if step.PriceWrite? {
      PriceWriteCandidate(s.facts, step.prices, step.days, d);
    } else if step.NewHolding? {
      ListedMore(s.facts.holdings, step.h, s.facts.prices[i].security);
    }
  }

  lemma SweepPriced(s: State, end: End, bound: nat)
    requires Tidy(s) && Priced(s)
    ensures Priced(Sweep(s, end, bound))
  {
    SliceFillable(s, end, bound);
    PersistTables(s, Slice(Missing(s), end, bound));
  }

  lemma PricedStep(s: State, step: Step)
    requires Tidy(s) && Priced(s) && Allowed(s, step) && Paired(s, step)
    ensures Priced(Apply(s, step))
  {
    if step.Read? || step.Tick? {
      SweepPriced(s, Newest, MAX_DERIVE_DATES_PER_READ);
      if step.Tick? && step.bound > 0 {
        SweepPriced(s, Oldest, step.bound);
      }
    } else {
      WritesOnlyClear(s, step);
      forall d | Accounted(Apply(s, step), d) ensures IsCandidate(Apply(s, step).facts, d) {
        CandidateSurvives(s, step, d);
      }
    }
  }

  lemma {:induction false} PricedRun(s: State, steps: seq<Step>)
    requires Tidy(s) && Priced(s) && AllowedRun(s, steps) && PairedRun(s, steps)
    ensures Priced(After(s, steps))
    decreases steps
  {
    if steps != [] {
      TidyStep(s, steps[0]);
      PricedStep(s, steps[0]);
      PricedRun(Apply(s, steps[0]), steps[1..]);
    }
  }

  /** In particular when every price is deleted only together with the rows and marks of its day. */
  lemma PairedSkipSound(origin: State, steps: seq<Step>)
    requires origin.marker == Some(Marker(origin.now, FingerprintOf(origin)))
    requires Tidy(origin) && Priced(origin) && AllowedRun(origin, steps) && PairedRun(origin, steps)
    requires NoneAddedRun(origin, origin, steps)
    requires After(origin, steps).marker == origin.marker && Skips(After(origin, steps))
    ensures Missing(After(origin, steps)) == []
  {
    PricedRun(origin, steps);
    SkipSoundByCounting(origin, steps);
  }

  // The condition is not met for free: a price for an older date, added later, stays hidden.

  const LISTED := Holding(1, Some(1), 0)
  const FEE := Tx(1, None, OtherKind, Posted, 5, 5, None, None, None)
  const TENTH := PriceRow(1, 10, Some(10), 0, false, Eod, Observed, 0, 1.0)
  const SEVENTH := TENTH.(day := 7, seenOn := Some(7))
  const HOUR_MS := 3600000

  /** Nothing derived yet, on day 20 at time t. */
  function Unfilled(t: int): State {
    State(Facts(0, [LISTED], [FEE], [TENTH], []), map[], map[], None, t, 20)
  }

  function History(t: int): seq<Step> {
    [Tick(20)] + ([Tick(20)] + Later(t))
  }

  /** A listing is determined by its members. */
  lemma {:induction false} SameMembers(x: seq<int>, y: seq<int>)
    requires Increasing(x) && Increasing(y) && forall d :: d in x <==> d in y
    ensures x == y
  {
    assert x != [] ==> x[0] in x && x[0] in y;
    assert y != [] ==> y[0] in y && y[0] in x;
    if x != [] && y != [] {
      forall d ensures d in x[1..] <==> d in y[1..] {
        assert d in x[1..] <==> d in x && d != x[0];
        assert d in y[1..] <==> d in y && d != y[0];
      }
      SameMembers(x[1..], y[1..]);
      assert x == [x[0]] + x[1..] && y == [y[0]] + y[1..];
    }
  }

  lemma ExampleRange(s: State)
    requires s.facts.ledger == [FEE] && s.localDay == 20
    ensures RangeFrom(s) == 5
  {
    assert EarliestTrade([FEE]) == Some(5);
  }

  lemma ExampleDates(f: Facts, d: int)
    requires f.holdings == [LISTED]
    ensures f.prices == [TENTH] ==> (IsCandidate(f, d) <==> d == 10)
    ensures f.prices == [TENTH, SEVENTH] ==> (IsCandidate(f, d) <==> d == 7 || d == 10)
  {
    assert f.holdings[0].security == Some(1);
    assert Listed(f.holdings, 1);
    if f.prices == [TENTH] {
      assert f.prices[0].day == 10;
    } else if f.prices == [TENTH, SEVENTH] {
      assert f.prices[0].day == 10 && f.prices[1].day == 7;
    }
  }

  lemma ExampleCandidates(s: State)
    requires s.facts.ledger == [FEE] && s.facts.holdings == [LISTED] && s.localDay == 20
    ensures s.facts.prices == [TENTH] ==> Candidates(s) == [10]
    ensures s.facts.prices == [TENTH, SEVENTH] ==> Candidates(s) == [7, 10]
  {
    ExampleRange(s);
    CandidatesBounded(s);
    var dates := Candidates(s);
    forall d
      ensures s.facts.prices == [TENTH] ==> (d in dates <==> d == 10)
      ensures s.facts.prices == [TENTH, SEVENTH] ==> (d in dates <==> d == 7 || d == 10)
    {
      ExampleDates(s.facts, d);
    }
    if s.facts.prices == [TENTH] {
      SameMembers(dates, [10]);
    } else if s.facts.prices == [TENTH, SEVENTH] {
      SameMembers(dates, [7, 10]);
    }
  }

  lemma ExampleNothingHeld(t: int)
    requires UtcDay(t) == 20
    ensures Derived(Unfilled(t), 10) == Point(None, true, 0, 0, false)
  {
    var f := Unfilled(t).facts;
    NeverTraded(f, LISTED, 20, 10, 0);
    assert Outcomes(f, f.holdings, 20, 10, 0) == [] + [NotHeld];
    TallySnoc([], NotHeld);
  }

  function Marked(t: int): State {
    Unfilled(t).(marked := map[10 := t])
  }

  lemma ExampleWritten(t: int, point: int -> Point)
    requires UtcDay(t) == 20 && point(10) == Point(None, true, 0, 0, false)
    ensures Filled(map[], [10], point, t) == map[]
    ensures MarkedOff(map[], [10], point, t) == map[10 := t]
  {
    assert ValuedIn([10], point) == {} && WrittenOffIn([10], point, t) == {10};
  }

  lemma ExampleTick(t: int)
    requires UtcDay(t) == 20
    ensures Apply(Unfilled(t), Tick(20)) == Marked(t)
  {
    var s := Unfilled(t);
    ExampleCandidates(s);
    ExampleNothingHeld(t);
    FilterAll(Open(s), [10]);
    assert Slice([10], Oldest, 20) == [10];
    ExampleWritten(t, DerivedBy(s));
  }

  lemma ExampleSameFingerprint(s: State, t: State)
    requires s.stored == t.stored == map[] && s.marked == t.marked
    requires s.facts.holdings == t.facts.holdings == [LISTED]
    requires s.facts.prices == [TENTH] && t.facts.prices == [TENTH, SEVENTH]
    ensures FingerprintOf(s) == FingerprintOf(t)
  {
    assert s.facts.holdings[0].security == Some(1);
    assert Listed(s.facts.holdings, 1);
    assert TENTH in s.facts.prices && TENTH in t.facts.prices;
    assert 10 in CandidateDays(s.facts) && 10 in CandidateDays(t.facts);
    assert forall d :: d in CandidateDays(s.facts) || d in CandidateDays(t.facts) ==> d <= 10;
  }

  function Converged(t: int): State {
    Marked(t).(marker := Some(Marker(t, FingerprintOf(Marked(t)))))
  }

  function Repriced(t: int): State {
    Converged(t).(now := t + HOUR_MS, facts := Marked(t).facts.(prices := [TENTH, SEVENTH]))
  }

  lemma ExampleConverges(t: int)
    ensures Apply(Marked(t), Tick(20)) == Converged(t)
  {
    var s := Marked(t);
    ExampleCandidates(s);
    FilterNone(Open(s), [10]);
    assert Missing(s) == [] && Slice([], Oldest, 20) == [];
    NothingPersisted(s);
    assert Sweep(s, Oldest, 20) == s;
  }

  lemma ExampleReprices(t: int, s: State)
    requires s == Converged(t).(now := t + HOUR_MS)
    ensures Allowed(s, PriceWrite([TENTH, SEVENTH], {7}))
    ensures Apply(s, PriceWrite([TENTH, SEVENTH], {7})) == Repriced(t)
  {
    FilterConcat(Untouched(s.facts, {7}), [TENTH], [SEVENTH]);
    assert [TENTH, SEVENTH] == [TENTH] + [SEVENTH];
    assert Without(s, Among({7})).marked == s.marked;
  }

  lemma ExampleHidden(t: int)
    ensures Skips(Repriced(t)) && Missing(Repriced(t)) == [7]
  {
    var s := Repriced(t);
    ExampleCandidates(s);
    ExampleSameFingerprint(Marked(t), s);
    FilterAll(Open(s), [7]);
    FilterNone(Open(s), [10]);
    FilterConcat(Open(s), [7], [10]);
    assert [7] + [10] == [7, 10];
  }

  lemma ClockLeads(s: State, now: int)
    requires s.now <= now
    ensures Leads(s, Clock(now, s.localDay), s.(now := now))
  {
  }

  lemma LaterReaches(t: int)
    ensures Reaches(Converged(t), Later(t), Repriced(t))
  {
    var later := Converged(t).(now := t + HOUR_MS);
    ClockLeads(Converged(t), t + HOUR_MS);
    assert Leads(later, PriceWrite([TENTH, SEVENTH], {7}), Repriced(t)) by {
      ExampleReprices(t, later);
    }
    assert Reaches(Repriced(t), [], Repriced(t));
    TwoSteps(Converged(t), Clock(t + HOUR_MS, 20), later, PriceWrite([TENTH, SEVENTH], {7}), Repriced(t), [], Repriced(t));
  }

  lemma FillLeads(t: int)
    requires UtcDay(t) == 20
    ensures Leads(Unfilled(t), Tick(20), Marked(t))
  {
    ExampleTick(t);
  }

  lemma ConvergeLeads(t: int)
    ensures Leads(Marked(t), Tick(20), Converged(t))
  {
    ExampleConverges(t);
  }

  function Later(t: int): seq<Step> {
    [Clock(t + HOUR_MS, 20)] + ([PriceWrite([TENTH, SEVENTH], {7})] + [])
  }

  lemma HistoryReaches(t: int)
    requires UtcDay(t) == 20
    ensures Reaches(Unfilled(t), History(t), Repriced(t))
  {
    FillLeads(t);
    ConvergeLeads(t);
    LaterReaches(t);
    TwoSteps(Unfilled(t), Tick(20), Marked(t), Tick(20), Converged(t), Later(t), Repriced(t));
  }

  /** Two ticks converge; a price written later for day 7 is missing, and the next tick skips it. */
  lemma InteriorAdditionHidden(t: int)
    requires UtcDay(t) == 20
    ensures AllowedRun(Unfilled(t), History(t))
    ensures Skips(After(Unfilled(t), History(t))) && Missing(After(Unfilled(t), History(t))) == [7]
  {
    HistoryReaches(t);
    ExampleHidden(t);
  }
}
