/** The stored value series, its written-off marks, and every step that reads, fills or invalidates them. */
module ValueHistory {
  import opened Sequences
  import opened Ledger
  import opened Selection
  import opened Valuation
  import opened ValueLocality
  import opened MarkSoundness

  const MAX_CANDIDATE_DATES := 3660
  const MAX_DERIVE_DATES_PER_READ := 10
  const CONVERGENCE_RECHECK_MS := 6 * 60 * 60 * 1000
  const DAY_MS := 86400000

  datatype Row = Row(point: Point, computedAt: int)

  datatype Fingerprint = Fingerprint(rowCount: nat, minDay: Option<int>, maxDay: Option<int>,
                                     maxComputedAt: Option<int>, candidateMax: Option<int>,
                                     markCount: nat, maxAttemptedAt: Option<int>)

  datatype Marker = Marker(verifiedAt: int, fingerprint: Fingerprint)

  /** marked gives each written-off date the time it was attempted; localDay is today in the portfolio's zone. */
  datatype State = State(facts: Facts, stored: map<int, Row>, marked: map<int, int>,
                         marker: Option<Marker>, now: int, localDay: int)

  function UtcDay(now: int): int {
    now / DAY_MS
  }

  // The dates considered.

  function EarliestTrade(ledger: seq<Tx>): Option<int> {
    if ledger == [] then None
    else
      var rest := EarliestTrade(ledger[1..]);
      if ledger[0].status == Superseded then rest
      else if rest.Some? && rest.value < ledger[0].day then rest
      else Some(ledger[0].day)
  }

  /** The earliest day any row that was not superseded trades on, if there is such a row. */
  lemma {:induction false} EarliestTradeIff(ledger: seq<Tx>)
    ensures EarliestTrade(ledger).None? <==> forall tx :: tx in ledger ==> tx.status == Superseded
    ensures EarliestTrade(ledger).Some? ==>
      && (exists tx :: tx in ledger && tx.status != Superseded && tx.day == EarliestTrade(ledger).value)
      && (forall tx :: tx in ledger && tx.status != Superseded ==> EarliestTrade(ledger).value <= tx.day)
  {
    if ledger != [] {
      EarliestTradeIff(ledger[1..]);
      assert forall tx :: tx in ledger <==> tx == ledger[0] || tx in ledger[1..];
    }
  }

  function RangeFrom(s: State): (from: int)
    ensures s.localDay - (MAX_CANDIDATE_DATES - 1) <= from <= s.localDay
  {
    var earliest := EarliestTrade(s.facts.ledger);
    var from := if earliest.Some? then earliest.value else s.localDay;
    var allowed := s.localDay - (MAX_CANDIDATE_DATES - 1);
    var clamped := if from < allowed then allowed else from;
    if clamped > s.localDay then s.localDay else clamped
  }

  /** Some security of the portfolio has a price row on this date. */
  predicate IsCandidate(f: Facts, d: int) {
    exists i :: 0 <= i < |f.prices| && f.prices[i].day == d && Listed(f.holdings, f.prices[i].security)
  }

  function CandidatesIn(f: Facts, from: int, last: int): seq<int>
    decreases last + 1 - from
  {
    if from > last then []
    else (if IsCandidate(f, from) then [from] else []) + CandidatesIn(f, from + 1, last)
  }

  function Candidates(s: State): seq<int> {
    CandidatesIn(s.facts, RangeFrom(s), s.localDay)
  }

  lemma {:induction false} CandidatesInSpec(f: Facts, from: int, last: int)
    ensures forall d :: d in CandidatesIn(f, from, last) <==> from <= d <= last && IsCandidate(f, d)
    ensures Increasing(CandidatesIn(f, from, last))
    ensures from <= last + 1 ==> |CandidatesIn(f, from, last)| <= last - from + 1
    decreases last + 1 - from
  {
    if from <= last {
      CandidatesInSpec(f, from + 1, last);
      var rest := CandidatesIn(f, from + 1, last);
      assert forall i :: 0 <= i < |rest| ==> rest[i] in rest;
    }
  }

  /** The clamped range holds at most MAX_CANDIDATE_DATES dates, so no read limit ever drops one. */
  lemma CandidatesBounded(s: State)
    ensures |Candidates(s)| <= MAX_CANDIDATE_DATES
    ensures Increasing(Candidates(s))
    ensures forall d :: d in Candidates(s) <==> RangeFrom(s) <= d <= s.localDay && IsCandidate(s.facts, d)
  {
    CandidatesInSpec(s.facts, RangeFrom(s), s.localDay);
  }

  function Open(s: State): int -> bool {
    (d: int) => d !in s.stored && d !in s.marked
  }

  /** Candidates neither stored nor written off, ascending. */
  function Missing(s: State): seq<int> {
    Filter(Open(s), Candidates(s))
  }

  // One bounded derive-and-persist slice.

  datatype End = Newest | Oldest

  function Slice(missing: seq<int>, end: End, bound: nat): (r: seq<int>)
    ensures forall d :: d in r ==> d in missing
  {
    if |missing| <= bound then missing
    else if end == Newest then missing[|missing| - bound..]
    else missing[..bound]
  }

  function AtMostOf(bound: nat, n: nat): nat {
    if bound < n then bound else n
  }

  /** What an attempt takes, said without taking it: bound dates, or all there are, all on one side of those left out. */
  ghost predicate TakesEnd(missing: seq<int>, taken: seq<int>, end: End, bound: nat) {
    && Increasing(taken) && |taken| == AtMostOf(bound, |missing|)
    && (forall d :: d in taken ==> d in missing)
    && forall d, e :: d in taken && e in missing && e !in taken ==> if end == Newest then e < d else d < e
  }

  /** A read's slice is later than every missing date it leaves out, a tick's earlier. */
  lemma SliceTakesEnd(missing: seq<int>, end: End, bound: nat)
    requires Increasing(missing)
    ensures TakesEnd(missing, Slice(missing, end, bound), end, bound)
  {
    var taken := Slice(missing, end, bound);
    forall e | e in missing && e !in taken && |missing| > bound
      ensures if end == Newest then e in missing[..|missing| - bound] else e in missing[bound..]
    {
      assert missing == if end == Newest then missing[..|missing| - bound] + taken else taken + missing[bound..];
    }
  }

  /** The direct derivation of a date from the current facts. */
  function Exact(s: State, d: int): Point {
    Derive(s.facts, d, UtcDay(s.now), d, 0)
  }

  /** The derivation as a slice performs it, on the ledger read through today. */
  function Derived(s: State, d: int): Point {
    Derive(s.facts, s.localDay, UtcDay(s.now), d, 0)
  }

  function DerivedBy(s: State): int -> Point {
    (d: int) => Derived(s, d)
  }

  function ValuedIn(slice: seq<int>, point: int -> Point): set<int> {
    set d | d in slice && point(d).value.Some?
  }

  /** A future date is not yet due, and a date waiting for a rate is retried: neither is written off. */
  function WrittenOffIn(slice: seq<int>, point: int -> Point, now: int): set<int> {
    set d | d in slice && d <= UtcDay(now) && WrittenOff(point(d))
  }

  /** A row for each date of the slice that has a value. */
  function Filled(stored: map<int, Row>, slice: seq<int>, point: int -> Point, now: int): map<int, Row> {
    stored + map d | d in ValuedIn(slice, point) :: Row(point(d), now)
  }

  /** A mark for each date of the slice that is past and written off. */
  function MarkedOff(marked: map<int, int>, slice: seq<int>, point: int -> Point, now: int): map<int, int> {
    marked + map d | d in WrittenOffIn(slice, point, now) :: now
  }

  function Stores(s: State, slice: seq<int>): set<int> {
    ValuedIn(slice, DerivedBy(s))
  }

  function Marks(s: State, slice: seq<int>): set<int> {
    WrittenOffIn(slice, DerivedBy(s), s.now)
  }

  function Persist(s: State, slice: seq<int>): State {
    s.(stored := Filled(s.stored, slice, DerivedBy(s), s.now), marked := MarkedOff(s.marked, slice, DerivedBy(s), s.now))
  }

  lemma NothingFilled(stored: map<int, Row>, marked: map<int, int>, point: int -> Point, now: int)
    ensures ValuedIn([], point) == {} && Filled(stored, [], point, now) == stored
    ensures MarkedOff(marked, [], point, now) == marked
  {
    assert ValuedIn([], point) == {};
  }

  lemma NothingPersisted(s: State)
    ensures Persist(s, []) == s && Stores(s, []) == {}
  {
    NothingFilled(s.stored, s.marked, DerivedBy(s), s.now);
  }

  function Sweep(s: State, end: End, bound: nat): State {
    Persist(s, Slice(Missing(s), end, bound))
  }

  // The convergence marker.

  function CandidateDays(f: Facts): set<int> {
    set r | r in f.prices && Listed(f.holdings, r.security) :: r.day
  }

  function FingerprintOf(s: State): Fingerprint {
    Fingerprint(|s.stored|, MinOf(s.stored.Keys), MaxOf(s.stored.Keys),
                MaxOf(set d | d in s.stored :: s.stored[d].computedAt),
                MaxOf(CandidateDays(s.facts)),
                |s.marked|, MaxOf(set d | d in s.marked :: s.marked[d]))
  }

  /** A marker younger than the recheck interval, not from the future, that matches the tables. */
  predicate Skips(s: State) {
    && s.marker.Some?
    && 0 <= s.now - s.marker.value.verifiedAt < CONVERGENCE_RECHECK_MS
    && s.marker.value.fingerprint == FingerprintOf(s)
  }

  function Backfill(s: State, bound: int): State {
    if bound <= 0 || Skips(s) then s
    else
      var t := Sweep(s, Oldest, bound);
      if Missing(s) == [] then t.(marker := Some(Marker(s.now, FingerprintOf(t)))) else t
  }

  // Steps.

  /**
   * A price write deletes the rows and marks of some days in the same batch, of those it changed or of none at all;
   * an invalidation deletes some on its own, in a later call that may never come.
   */
  datatype Step =
    | Read
    | Tick(bound: int)
    | Mutating(m: Mutation)
    | PriceWrite(prices: seq<PriceRow>, days: set<int>)
    | Invalidate(days: set<int>)
    | NewHolding(h: Holding)
    | FxInsert(k: nat, row: FxRow)
    | FxWrite(fx: seq<FxRow>)
    | Clock(now: int, localDay: int)

  function From(d: int): int -> bool {
    (x: int) => x >= d
  }

  /** Deleting the rows and marks of some days. */
  function Without(s: State, gone: int -> bool): State {
    s.(stored := map d | d in s.stored && !gone(d) :: s.stored[d],
       marked := map d | d in s.marked && !gone(d) :: s.marked[d])
  }

  function Among(days: set<int>): int -> bool {
    (x: int) => x in days
  }

  ghost predicate Allowed(s: State, step: Step) {
    match step
    case Read => true
    case Tick(_) => true
    case Mutating(m) => Admissible(m, s.facts.ledger)
    case PriceWrite(_, _) => true
    case Invalidate(_) => true
    case NewHolding(h) => forall tx :: tx in s.facts.ledger ==> tx.holding != Some(h.id)
    case FxInsert(k, _) => k <= |s.facts.fx|
    case FxWrite(_) => true
    case Clock(now, _) => s.now <= now
  }

  function Apply(s: State, step: Step): State {
    match step
    case Read => Sweep(s, Newest, MAX_DERIVE_DATES_PER_READ)
    case Tick(bound) => Backfill(s, bound)
    case Mutating(m) =>
      (match Mutate(m, s.facts.ledger)
       case None => s
       case Some((ledger, from)) => Without(s.(facts := s.facts.(ledger := ledger)), From(from)))
    case PriceWrite(prices, days) => Without(s.(facts := s.facts.(prices := prices)), Among(days))
    case Invalidate(days) => Without(s, Among(days))
    case NewHolding(h) => s.(facts := s.facts.(holdings := s.facts.holdings + [h]))
    case FxInsert(k, row) => if k <= |s.facts.fx| then s.(facts := WithRate(s.facts, k, row)) else s
    case FxWrite(fx) => s.(facts := s.facts.(fx := fx))
    case Clock(now, localDay) => s.(now := now, localDay := localDay)
  }

  /** A new holding brings in the dates its own security is priced on, and takes none away. */
  lemma NewHoldingCandidates(s: State, h: Holding, d: int)
    ensures IsCandidate(Apply(s, NewHolding(h)).facts, d) <==>
      IsCandidate(s.facts, d)
      || exists i :: 0 <= i < |s.facts.prices| && s.facts.prices[i].day == d && h.security == Some(s.facts.prices[i].security)
  {
    var f, hs := s.facts, s.facts.holdings + [h];
    forall security: nat ensures Listed(hs, security) <==> Listed(f.holdings, security) || h.security == Some(security) {
      if i :| 0 <= i < |f.holdings| && f.holdings[i].security == Some(security) {
        assert hs[i] == f.holdings[i];
      }
      assert hs[|f.holdings|] == h;
    }
  }

  // What holds in every state.

  predicate Accounted(s: State, d: int) {
    d in s.stored || d in s.marked
  }

  /** Stored and marked dates are disjoint and past, and every stored row has a value. */
  ghost predicate Tidy(s: State) {
    && Sound(s.facts.ledger)
    && (forall d :: d in s.stored ==> d !in s.marked && d <= UtcDay(s.now) && s.stored[d].point.value.Some?)
    && (forall d :: d in s.marked ==> d <= UtcDay(s.now))
  }

  /** What the tables say of a date: the direct derivation from the current facts, or that it derives to no value. */
  ghost predicate Right(s: State, d: int) {
    && (d in s.stored ==> s.stored[d].point == Exact(s, d))
    && (d in s.marked ==> WrittenOff(Exact(s, d)))
  }

  /** Every row and mark is right, but for the dates some change is still owed an invalidation on. */
  ghost predicate Coherent(s: State, owed: set<int>) {
    Tidy(s) && forall d :: Accounted(s, d) && d !in owed ==> Right(s, d)
  }

  /** Every stored row is the direct derivation of its date from the current facts, and has a value. */
  ghost predicate RowsExact(s: State) {
    forall d :: d in s.stored ==> s.stored[d].point == Exact(s, d) && s.stored[d].point.value.Some?
  }

  /** Every marked date is past and derives to no value. */
  ghost predicate MarksExact(s: State) {
    forall d :: d in s.marked ==> d <= UtcDay(s.now) && WrittenOff(Exact(s, d))
  }

  lemma CoherentIff(s: State)
    ensures Coherent(s, {}) <==> Tidy(s) && RowsExact(s) && MarksExact(s)
  {
    if Coherent(s, {}) {
      forall d | d in s.stored ensures s.stored[d].point == Exact(s, d) {
        assert Accounted(s, d);
      }
      forall d | d in s.marked ensures WrittenOff(Exact(s, d)) {
        assert Accounted(s, d);
      }
    }
  }

  lemma DerivedIsExact(s: State, d: int)
    requires Sound(s.facts.ledger) && d <= s.localDay
    ensures Derived(s, d) == Exact(s, d)
  {
    ThroughIrrelevant(s.facts, s.localDay, d, UtcDay(s.now), d, 0);
  }

  lemma SliceDates(s: State, end: End, bound: nat, d: int)
    requires d in Slice(Missing(s), end, bound)
    ensures RangeFrom(s) <= d <= s.localDay && IsCandidate(s.facts, d) && d !in s.stored && d !in s.marked
  {
    CandidatesBounded(s);
    assert d in Missing(s);
  }

  /** What filling a slice relies on, date by date. */
  ghost predicate Fillable(s: State, slice: seq<int>) {
    forall d :: d in slice ==>
      Derived(s, d) == Exact(s, d) && IsCandidate(s.facts, d) && d !in s.stored && d !in s.marked
  }

  lemma SliceFillable(s: State, end: End, bound: nat)
    requires Tidy(s)
    ensures Fillable(s, Slice(Missing(s), end, bound))
  {
    forall d | d in Slice(Missing(s), end, bound)
      ensures Derived(s, d) == Exact(s, d) && IsCandidate(s.facts, d) && d !in s.stored && d !in s.marked
    {
      SliceDates(s, end, bound, d);
      DerivedIsExact(s, d);
    }
  }

  lemma TablesWritten(stored: map<int, Row>, marked: map<int, int>, slice: seq<int>, point: int -> Point, now: int)
    ensures Filled(stored, slice, point, now).Keys == stored.Keys + ValuedIn(slice, point)
    ensures MarkedOff(marked, slice, point, now).Keys == marked.Keys + WrittenOffIn(slice, point, now)
    ensures ValuedIn(slice, point) !! WrittenOffIn(slice, point, now)
  {
  }

  lemma PersistTables(s: State, slice: seq<int>)
    ensures Persist(s, slice).stored.Keys == s.stored.Keys + Stores(s, slice)
    ensures Persist(s, slice).marked.Keys == s.marked.Keys + Marks(s, slice)
    ensures Stores(s, slice) !! Marks(s, slice)
  {
    TablesWritten(s.stored, s.marked, slice, DerivedBy(s), s.now);
  }

  lemma PersistTidy(s: State, slice: seq<int>)
    requires Tidy(s) && Fillable(s, slice)
    ensures Tidy(Persist(s, slice))
  {
    PersistTables(s, slice);
    var t := Persist(s, slice);
    forall d | d in t.stored ensures d !in t.marked && d <= UtcDay(t.now) && t.stored[d].point.value.Some? {
      if d !in s.stored {
        assert d in slice && Derived(s, d).value.Some?;
      }
    }
  }

  /** Filling a slice writes nothing wrong and settles no debt. */
  lemma SweepKeeps(s: State, end: End, bound: nat, owed: set<int>)
    requires Coherent(s, owed)
    ensures Coherent(Sweep(s, end, bound), owed)
  {
    var slice := Slice(Missing(s), end, bound);
    var t := Persist(s, slice);
    SliceFillable(s, end, bound);
    PersistTidy(s, slice);
    PersistTables(s, slice);
    forall d | Accounted(t, d) && d !in owed ensures Right(t, d) {
      assert Exact(t, d) == Exact(s, d);
      if Accounted(s, d) {
        assert Right(s, d);
        assert d !in slice;
      }
    }
  }

  // What each step deletes, and what it changes without deleting.

  predicate Clears(s: State, step: Step, d: int) {
    match step
    case Mutating(m) => Mutate(m, s.facts.ledger).Some? && Mutate(m, s.facts.ledger).value.1 <= d
    case PriceWrite(_, days) => d in days
    case Invalidate(days) => d in days
    case _ => false
  }

  /** The step changes something the date's derivation reads, other than in the ledger; of a mark, if it can matter. */
  ghost predicate Alters(s: State, step: Step, d: int) {
    match step
    case PriceWrite(prices, _) => DayChanged(s.facts, prices, d)
    case FxInsert(_, row) => d == row.day && (d in s.stored || AnyRepairable(s.facts, d, d, 0))
    case FxWrite(fx) => FxDayChanged(s.facts, fx, d)
    case _ => false
  }

  /** Dates with a row or mark from before a change to their day's prices or rates that nothing has deleted since. */
  ghost function Owed(s: State, step: Step, owed: set<int>): set<int> {
    set d | d in owed + s.stored.Keys + s.marked.Keys && !Clears(s, step, d) && (d in owed || Alters(s, step, d))
  }

  lemma InsertChangesOneDay(f: Facts, k: nat, row: FxRow, d: int)
    requires k <= |f.fx| && d != row.day
    ensures !FxDayChanged(f, WithRate(f, k, row).fx, d)
  {
    var p := OnFxDay(d);
    FilterConcat(p, f.fx[..k] + [row], f.fx[k..]);
    FilterConcat(p, f.fx[..k], [row]);
    FilterConcat(p, f.fx[..k], f.fx[k..]);
    assert f.fx[..k] + f.fx[k..] == f.fx;
  }

  /** A step that neither clears nor alters a past date leaves its derivation alone. */
  lemma ExactKept(s: State, step: Step, d: int)
    requires Sound(s.facts.ledger) && Allowed(s, step) && d <= UtcDay(s.now)
    requires !step.Read? && !step.Tick? && !step.FxInsert? && !Clears(s, step, d) && !Alters(s, step, d)
    ensures Exact(Apply(s, step), d) == Exact(s, d)
  {
    match step {
      case Mutating(m) =>
        if Mutate(m, s.facts.ledger).Some? {
          LedgerLocal(s.facts, m, d, UtcDay(s.now), d, 0);
        }
      case PriceWrite(prices, days) =>
        PricesLocal(s.facts, prices, d, UtcDay(s.now), d);
      case NewHolding(h) =>
        NewHoldingLocal(s.facts, h, d, UtcDay(s.now), d, 0);
      case FxWrite(fx) =>
        RatesLocal(s.facts, fx, d, UtcDay(s.now), d);
      case _ =>
    }
  }

  /** Writes delete what they clear, and keep the rest of both tables as it was. */
  lemma WritesOnlyClear(s: State, step: Step)
    requires Allowed(s, step) && !step.Read? && !step.Tick?
    ensures forall d :: d in Apply(s, step).stored <==> d in s.stored && !Clears(s, step, d)
    ensures forall d :: d in Apply(s, step).marked <==> d in s.marked && !Clears(s, step, d)
    ensures forall d :: d in Apply(s, step).stored ==> Apply(s, step).stored[d] == s.stored[d]
    ensures forall d :: d in Apply(s, step).marked ==> Apply(s, step).marked[d] == s.marked[d]
  {
  }

  /** A rate arriving while no marked date holds a security it could repair. */
  ghost predicate Harmless(s: State, step: Step) {
    step.FxInsert? ==> forall d :: d in s.marked ==> !AnyRepairable(s.facts, d, d, 0)
  }

  /** The deletion comes with the price change, on every day it changed; no rate is rewritten. */
  ghost predicate Paired(s: State, step: Step) {
    && (step.PriceWrite? ==> PricesChangedOn(s.facts, step.prices, step.days))
    && !step.FxWrite?
  }

  lemma MarkerIrrelevant(s: State, marker: Option<Marker>, owed: set<int>)
    ensures Tidy(s) ==> Tidy(s.(marker := marker))
    ensures Coherent(s, owed) ==> Coherent(s.(marker := marker), owed)
  {
    var t := s.(marker := marker);
    assert forall d {:trigger Exact(t, d)} :: Exact(t, d) == Exact(s, d);
    assert forall d {:trigger Right(t, d)} :: Right(t, d) == Right(s, d);
  }

  lemma BackfillKeeps(s: State, bound: int, owed: set<int>)
    requires Coherent(s, owed)
    ensures Coherent(Backfill(s, bound), owed)
  {
    if bound > 0 && !Skips(s) {
      SweepKeeps(s, Oldest, bound, owed);
      var t := Sweep(s, Oldest, bound);
      MarkerIrrelevant(t, Some(Marker(s.now, FingerprintOf(t))), owed);
    }
  }

  lemma WriteKeepsTidy(s: State, step: Step)
    requires Tidy(s) && Allowed(s, step) && !step.Read? && !step.Tick?
    ensures Tidy(Apply(s, step))
  {
    WritesOnlyClear(s, step);
    assert UtcDay(s.now) <= UtcDay(Apply(s, step).now);
    if step.Mutating? && Mutate(step.m, s.facts.ledger).Some? {
      MutateSound(step.m, s.facts.ledger);
    }
  }

  /** Disjointness needs no more than the step itself. */
  lemma TidyStep(s: State, step: Step)
    requires Tidy(s) && Allowed(s, step)
    ensures Tidy(Apply(s, step))
  {
    match step {
      case Read =>
        SliceFillable(s, Newest, MAX_DERIVE_DATES_PER_READ);
        PersistTidy(s, Slice(Missing(s), Newest, MAX_DERIVE_DATES_PER_READ));
      case Tick(bound) =>
        if bound > 0 {
          SliceFillable(s, Oldest, bound);
          PersistTidy(s, Slice(Missing(s), Oldest, bound));
        }
      case _ =>
        WriteKeepsTidy(s, step);
    }
  }

  /** A rate leaves right what does not stand on its day, and marks it cannot repair. */
  lemma RateKeepsRight(s: State, k: nat, row: FxRow, d: int)
    requires Tidy(s) && k <= |s.facts.fx| && Accounted(s, d) && Right(s, d) && !Alters(s, FxInsert(k, row), d)
    ensures Right(Apply(s, FxInsert(k, row)), d)
  {
    var f, g := s.facts, WithRate(s.facts, k, row);
    assert g == f.(fx := g.fx);
    if d != row.day {
      InsertChangesOneDay(f, k, row, d);
      RatesLocal(f, g.fx, d, UtcDay(s.now), d);
    } else if d in s.marked {
      assert !AnyRepairable(f, d, d, 0);
      MarkStays(f, k, row, d, UtcDay(s.now), d, 0);
    }
  }

  lemma WriteKeepsRight(s: State, step: Step, d: int)
    requires Tidy(s) && Allowed(s, step) && !step.Read? && !step.Tick?
    requires Accounted(s, d) && Right(s, d) && !Clears(s, step, d) && !Alters(s, step, d)
    ensures Right(Apply(s, step), d)
  {
    if step.FxInsert? {
      RateKeepsRight(s, step.k, step.row, d);
    } else {
      WritesOnlyClear(s, step);
      ExactKept(s, step, d);
    }
  }

  lemma WriteKeeps(s: State, step: Step, owed: set<int>)
    requires Coherent(s, owed) && Allowed(s, step) && !step.Read? && !step.Tick?
    ensures Coherent(Apply(s, step), Owed(s, step, owed))
  {
    WriteKeepsTidy(s, step);
    WritesOnlyClear(s, step);
    forall d | Accounted(Apply(s, step), d) && d !in Owed(s, step, owed) ensures Right(Apply(s, step), d) {
      assert Accounted(s, d) && !Clears(s, step, d);
      WriteKeepsRight(s, step, d);
    }
  }

  lemma FillOwes(s: State, step: Step, owed: set<int>)
    requires step.Read? || step.Tick?
    ensures Owed(s, step, owed) == owed
  {
  }

  lemma FillKeeps(s: State, step: Step, owed: set<int>)
    requires Coherent(s, owed) && (step.Read? || step.Tick?)
    ensures Coherent(Apply(s, step), owed)
  {
    if step.Read? {
      SweepKeeps(s, Newest, MAX_DERIVE_DATES_PER_READ, owed);
    } else {
      BackfillKeeps(s, step.bound, owed);
    }
  }

  /** One step of any kind: everything is right but for the dates now owed. */
  lemma StepKeeps(s: State, step: Step, owed: set<int>)
    requires Coherent(s, owed) && Allowed(s, step)
    ensures Coherent(Apply(s, step), Owed(s, step, owed))
  {
    if step.Read? || step.Tick? {
      FillKeeps(s, step, owed);
      FillOwes(s, step, owed);
    } else {
      WriteKeeps(s, step, owed);
    }
  }

  // Whole runs.

  function After(s: State, steps: seq<Step>): State
    decreases steps
  {
    if steps == [] then s else After(Apply(s, steps[0]), steps[1..])
  }

  ghost predicate AllowedRun(s: State, steps: seq<Step>)
    decreases steps
  {
    steps != [] ==> Allowed(s, steps[0]) && AllowedRun(Apply(s, steps[0]), steps[1..])
  }

  ghost predicate Leads(s: State, step: Step, t: State) {
    Allowed(s, step) && Apply(s, step) == t
  }

  /** A run of these steps from s is allowed and ends in t. */
  ghost predicate Reaches(s: State, steps: seq<Step>, t: State) {
    AllowedRun(s, steps) && After(s, steps) == t
  }

  lemma AfterFirst(s: State, steps: seq<Step>)
    requires steps != []
    ensures After(s, steps) == After(Apply(s, steps[0]), steps[1..])
    ensures AllowedRun(s, steps) <==> Allowed(s, steps[0]) && AllowedRun(Apply(s, steps[0]), steps[1..])
  {
  }

  lemma ReachesFirst(s: State, step: Step, t: State, rest: seq<Step>, end: State)
    requires Leads(s, step, t) && Reaches(t, rest, end)
    ensures Reaches(s, [step] + rest, end)
  {
    assert ([step] + rest)[1..] == rest;
    AfterFirst(s, [step] + rest);
  }

  lemma TwoSteps(s: State, a: Step, t: State, b: Step, u: State, rest: seq<Step>, end: State)
    requires Leads(s, a, t) && Leads(t, b, u) && Reaches(u, rest, end)
    ensures Reaches(s, [a] + ([b] + rest), end)
  {
    ReachesFirst(t, b, u, rest, end);
    ReachesFirst(s, a, t, [b] + rest, end);
  }

  lemma {:induction false} TidyRun(s: State, steps: seq<Step>)
    requires Tidy(s) && AllowedRun(s, steps)
    ensures Tidy(After(s, steps))
    decreases steps
  {
    if steps != [] {
      TidyStep(s, steps[0]);
      TidyRun(Apply(s, steps[0]), steps[1..]);
    }
  }

  ghost function OwedAfter(s: State, steps: seq<Step>, owed: set<int>): set<int>
    decreases steps
  {
    if steps == [] then owed else OwedAfter(Apply(s, steps[0]), steps[1..], Owed(s, steps[0], owed))
  }

  /**
   * Over every run whatever: each stored row is the direct derivation of its date, each marked date derives to no
   * value, and no date is both, unless a change of that day's prices or rates is still owed an invalidation.
   */
  lemma {:induction false} CacheCoherent(s: State, steps: seq<Step>, owed: set<int>)
    requires Coherent(s, owed) && AllowedRun(s, steps)
    ensures Coherent(After(s, steps), OwedAfter(s, steps, owed))
    decreases steps
  {
    if steps != [] {
      StepKeeps(s, steps[0], owed);
      CacheCoherent(Apply(s, steps[0]), steps[1..], Owed(s, steps[0], owed));
    }
  }

  /** Nothing stored, nothing marked, nothing verified. */
  function Empty(facts: Facts, now: int, localDay: int): State {
    State(facts, map[], map[], None, now, localDay)
  }

  /** From empty tables on, so with nothing assumed about what was cached before. */
  lemma CoherentFromEmpty(facts: Facts, now: int, localDay: int, steps: seq<Step>)
    requires Sound(facts.ledger) && AllowedRun(Empty(facts, now, localDay), steps)
    ensures var s, owed := After(Empty(facts, now, localDay), steps), OwedAfter(Empty(facts, now, localDay), steps, {});
      && (forall d :: d in s.stored ==> d !in s.marked && (d !in owed ==> s.stored[d].point == Exact(s, d)))
      && (forall d :: d in s.marked && d !in owed ==> Exact(s, d).value.None?)
  {
    CacheCoherent(Empty(facts, now, localDay), steps, {});
    var s, owed := After(Empty(facts, now, localDay), steps), OwedAfter(Empty(facts, now, localDay), steps, {});
    forall d | d in s.stored && d !in owed ensures s.stored[d].point == Exact(s, d) {
      assert Accounted(s, d);
    }
    forall d | d in s.marked && d !in owed ensures Exact(s, d).value.None? {
      assert Accounted(s, d);
    }
  }

  // Exactly when something owed is wrong.

  ghost predicate NeverCleared(s: State, steps: seq<Step>, d: int)
    decreases steps
  {
    steps != [] ==> !Clears(s, steps[0], d) && NeverCleared(Apply(s, steps[0]), steps[1..], d)
  }

  lemma SweepPasses(s: State, end: End, bound: nat, d: int)
    requires Tidy(s) && Accounted(s, d)
    ensures var t := Sweep(s, end, bound);
      && (d in s.stored ==> d in t.stored && t.stored[d] == s.stored[d])
      && (d in s.marked ==> d in t.marked)
  {
    SliceFillable(s, end, bound);
    assert d !in Slice(Missing(s), end, bound);
  }

  lemma EntryStays(s: State, step: Step, d: int)
    requires Tidy(s) && Allowed(s, step) && Accounted(s, d) && !Clears(s, step, d)
    ensures d in s.stored ==> d in Apply(s, step).stored && Apply(s, step).stored[d] == s.stored[d]
    ensures d in s.marked ==> d in Apply(s, step).marked
  {
    match step {
      case Read => SweepPasses(s, Newest, MAX_DERIVE_DATES_PER_READ, d);
      case Tick(bound) =>
        if bound > 0 {
          SweepPasses(s, Oldest, bound, d);
        }
      case _ => WritesOnlyClear(s, step);
    }
  }

  /** No read and no tick ever touches a date that has a row or mark: it stays until something clears it. */
  lemma {:induction false} EntryStaysRun(s: State, steps: seq<Step>, d: int)
    requires Tidy(s) && AllowedRun(s, steps) && Accounted(s, d) && NeverCleared(s, steps, d)
    ensures Tidy(After(s, steps))
    ensures d in s.stored ==> d in After(s, steps).stored && After(s, steps).stored[d] == s.stored[d]
    ensures d in s.marked ==> d in After(s, steps).marked
    decreases steps
  {
    if steps != [] {
      EntryStays(s, steps[0], d);
      TidyStep(s, steps[0]);
      EntryStaysRun(Apply(s, steps[0]), steps[1..], d);
    }
  }

  /** A date that was right and is never cleared turns wrong if and only if what it derives to has changed. */
  lemma WrongIff(s: State, steps: seq<Step>, d: int)
    requires Tidy(s) && AllowedRun(s, steps) && Accounted(s, d) && Right(s, d) && NeverCleared(s, steps, d)
    ensures d in s.stored ==> (!Right(After(s, steps), d) <==> Exact(After(s, steps), d) != Exact(s, d))
    ensures d in s.marked ==> (!Right(After(s, steps), d) <==> !WrittenOff(Exact(After(s, steps), d)))
  {
    EntryStaysRun(s, steps, d);
  }

  // Nothing owed.

  ghost predicate PairedRun(s: State, steps: seq<Step>)
    decreases steps
  {
    steps != [] ==> Paired(s, steps[0]) && PairedRun(Apply(s, steps[0]), steps[1..])
  }

  lemma PairedOwes(s: State, step: Step, owed: set<int>)
    requires Paired(s, step)
    ensures !step.FxInsert? ==> Owed(s, step, owed) <= owed
    ensures step.FxInsert? && Harmless(s, step) ==> Owed(s, step, owed) <= owed + s.stored.Keys
  {
    if step.PriceWrite? {
      forall d | d in Owed(s, step, owed) ensures d in owed {
        if d !in owed {
          ChangedWithin(s.facts, step.prices, step.days, d);
        }
      }
    }
  }

  lemma {:induction false} PairedOwesNothing(s: State, steps: seq<Step>)
    requires PairedRun(s, steps) && forall i :: 0 <= i < |steps| ==> !steps[i].FxInsert?
    ensures OwedAfter(s, steps, {}) == {}
    decreases steps
  {
    if steps != [] {
      PairedOwes(s, steps[0], {});
      assert Owed(s, steps[0], {}) == {};
      PairedOwesNothing(Apply(s, steps[0]), steps[1..]);
    }
  }

  /** When every price change comes with its deletion and no rate arrives, rows and marks are exact without exception. */
  lemma PairedCoherent(s: State, steps: seq<Step>)
    requires Tidy(s) && MarksExact(s) && RowsExact(s)
    requires AllowedRun(s, steps) && PairedRun(s, steps) && forall i :: 0 <= i < |steps| ==> !steps[i].FxInsert?
    ensures Tidy(After(s, steps)) && MarksExact(After(s, steps)) && RowsExact(After(s, steps))
  {
    CoherentIff(s);
    CacheCoherent(s, steps, {});
    PairedOwesNothing(s, steps);
    CoherentIff(After(s, steps));
  }

  /** Only rows are owed anything. */
  ghost predicate OwedRows(s: State, owed: set<int>) {
    owed <= s.stored.Keys && Tidy(s)
  }

  lemma OwedRowsStep(s: State, step: Step, owed: set<int>)
    requires OwedRows(s, owed) && Allowed(s, step) && Harmless(s, step) && Paired(s, step)
    ensures OwedRows(Apply(s, step), Owed(s, step, owed))
  {
    TidyStep(s, step);
    PairedOwes(s, step, owed);
    forall d | d in Owed(s, step, owed) ensures d in Apply(s, step).stored {
      assert d in s.stored;
      EntryStays(s, step, d);
    }
  }

  ghost predicate HarmlessRun(s: State, steps: seq<Step>)
    decreases steps
  {
    steps != [] ==> Harmless(s, steps[0]) && HarmlessRun(Apply(s, steps[0]), steps[1..])
  }

  lemma {:induction false} OwedRowsRun(s: State, steps: seq<Step>, owed: set<int>)
    requires OwedRows(s, owed) && AllowedRun(s, steps) && HarmlessRun(s, steps) && PairedRun(s, steps)
    ensures OwedRows(After(s, steps), OwedAfter(s, steps, owed))
    decreases steps
  {
    if steps != [] {
      OwedRowsStep(s, steps[0], owed);
      OwedRowsRun(Apply(s, steps[0]), steps[1..], Owed(s, steps[0], owed));
    }
  }

  /** With rates arriving too, marks stay exact as long as none arrives while it could repair a marked date. */
  lemma MarksStaySound(s: State, steps: seq<Step>)
    requires Tidy(s) && MarksExact(s)
    requires AllowedRun(s, steps) && HarmlessRun(s, steps) && PairedRun(s, steps)
    ensures Tidy(After(s, steps)) && MarksExact(After(s, steps))
  {
    var owed, t := s.stored.Keys, After(s, steps);
    CacheCoherent(s, steps, owed);
    OwedRowsRun(s, steps, owed);
    forall d | d in t.marked ensures WrittenOff(Exact(t, d)) {
      assert Accounted(t, d) && d !in t.stored;
    }
  }

  /** Nothing but rates arriving and time passing. */
  predicate OnlyRates(steps: seq<Step>) {
    forall i :: 0 <= i < |steps| ==> steps[i].FxInsert? || steps[i].Clock?
  }

  ghost predicate BeyondRepair(s: State, d: int) {
    d <= UtcDay(s.now) && WrittenOff(Exact(s, d)) && !AnyRepairable(s.facts, d, d, 0)
  }

  lemma BeyondRepairStep(s: State, step: Step, d: int)
    requires Allowed(s, step) && (step.FxInsert? || step.Clock?) && BeyondRepair(s, d)
    ensures BeyondRepair(Apply(s, step), d) && Exact(Apply(s, step), d) == Exact(s, d)
  {
    if step.FxInsert? {
      OneArrival(s.facts, step.k, step.row, d, UtcDay(s.now), d, 0);
    } else {
      assert UtcDay(s.now) <= UtcDay(step.now);
    }
  }

  /** A written-off date that holds nothing repairable stays as it is, however many rates arrive. */
  lemma {:induction false} BeyondRepairRun(s: State, steps: seq<Step>, d: int)
    requires AllowedRun(s, steps) && OnlyRates(steps) && BeyondRepair(s, d)
    ensures Exact(After(s, steps), d) == Exact(s, d)
    decreases steps
  {
    if steps != [] {
      BeyondRepairStep(s, steps[0], d);
      BeyondRepairRun(Apply(s, steps[0]), steps[1..], d);
    }
  }

  /** Whether a run of rates is harmless is decided where it starts. */
  lemma {:induction false} HarmlessFromStart(s: State, steps: seq<Step>)
    requires AllowedRun(s, steps) && OnlyRates(steps)
    requires forall d :: d in s.marked ==> BeyondRepair(s, d)
    ensures HarmlessRun(s, steps) && PairedRun(s, steps)
    decreases steps
  {
    if steps != [] {
      var t := Apply(s, steps[0]);
      forall d | d in t.marked ensures BeyondRepair(t, d) {
        BeyondRepairStep(s, steps[0], d);
      }
      HarmlessFromStart(t, steps[1..]);
    }
  }

  /** Some rates, arriving from now on, would give the date a value. */
  ghost predicate RatesArriving(s: State, d: int) {
    exists steps :: AllowedRun(s, steps) && OnlyRates(steps) && Exact(After(s, steps), d).value.Some?
  }

  lemma OneRateArrives(s: State, k: nat, row: FxRow, d: int)
    requires k <= |s.facts.fx| && Derive(WithRate(s.facts, k, row), d, UtcDay(s.now), d, 0).value.Some?
    ensures RatesArriving(s, d)
  {
    var steps := [FxInsert(k, row)];
    assert steps[1..] == [];
    assert After(s, steps) == Apply(s, steps[0]);
    assert AllowedRun(s, steps) && OnlyRates(steps);
  }

  /** Soundness of a mark may be lost to rates, however many, exactly when its date holds a security one could repair now. */
  lemma UnsoundExactly(s: State, d: int)
    requires Tidy(s) && MarksExact(s) && d in s.marked
    ensures AnyRepairable(s.facts, d, d, 0) <==> RatesArriving(s, d)
  {
    if AnyRepairable(s.facts, d, d, 0) {
      MarkSoundIff(s.facts, d, UtcDay(s.now), d, 0);
      var k: nat, row :| k <= |s.facts.fx|
        && Derive(WithRate(s.facts, k, row), d, UtcDay(s.now), d, 0).value.Some?;
      OneRateArrives(s, k, row, d);
    } else if RatesArriving(s, d) {
      var steps :| AllowedRun(s, steps) && OnlyRates(steps) && Exact(After(s, steps), d).value.Some?;
      BeyondRepairRun(s, steps, d);
    }
  }
}
