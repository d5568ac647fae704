/** How the missing set shrinks, when it cannot, and what a read returns. */
module ValueHistoryProgress {
  import opened Sequences
  import opened Selection
  import opened Valuation
  import opened ValueLocality
  import opened MarkSoundness
  import opened ValueHistory

  // Progress of one slice.

  /** Attempting the date ends with a row or a mark. */
  predicate Settles(s: State, d: int) {
    Exact(s, d).value.Some? || (d <= UtcDay(s.now) && WrittenOff(Exact(s, d)))
  }

  /** A date that never settles is in the future or waits for a rate. */
  lemma UnsettledIff(s: State, d: int)
    ensures !Settles(s, d) <==> d > UtcDay(s.now) || (Exact(s, d).value.None? && Exact(s, d).fxBlocked)
  {
  }

  function SliceOf(s: State, end: End, bound: nat): seq<int> {
    Slice(Missing(s), end, bound)
  }

  function StillMissing(s: State, slice: seq<int>): int -> bool {
    (d: int) => !(d in slice && Settles(s, d))
  }

  lemma PersistOpen(s: State, slice: seq<int>, d: int)
    requires Fillable(s, slice)
    ensures Open(Persist(s, slice))(d) <==> Open(s)(d) && StillMissing(s, slice)(d)
  {
    PersistTables(s, slice);
    var t := Persist(s, slice);
    assert d in t.stored <==> d in s.stored || d in Stores(s, slice);
    assert d in t.marked <==> d in s.marked || d in Marks(s, slice);
  }

  /** The dates considered depend on the facts and the clock only. */
  lemma CandidatesAgree(s: State, t: State)
    requires t.facts == s.facts && t.localDay == s.localDay
    ensures Candidates(t) == Candidates(s)
  {
  }

  lemma PersistMissing(s: State, slice: seq<int>)
    requires Fillable(s, slice)
    ensures Missing(Persist(s, slice)) == Filter(StillMissing(s, slice), Missing(s))
  {
    var t := Persist(s, slice);
    var candidates := Candidates(s);
    CandidatesAgree(s, t);
    forall d | d in candidates
      ensures Open(t)(d) <==> Open(s)(d) && StillMissing(s, slice)(d)
    {
      PersistOpen(s, slice, d);
    }
    FilterCompose(Open(s), StillMissing(s, slice), Open(t), candidates);
  }

  /** A sweep removes from the missing dates exactly those of its slice that settle. */
  lemma SweepMissing(s: State, end: End, bound: nat)
    requires Tidy(s)
    ensures Missing(Sweep(s, end, bound)) == Filter(StillMissing(s, SliceOf(s, end, bound)), Missing(s))
  {
    SliceFillable(s, end, bound);
    PersistMissing(s, SliceOf(s, end, bound));
  }

  /** Some date of the slice settles. */
  predicate Productive(s: State, end: End, bound: nat) {
    exists i :: 0 <= i < |SliceOf(s, end, bound)| && Settles(s, SliceOf(s, end, bound)[i])
  }

  lemma {:induction false} FilterSmaller<T(!new)>(p: T -> bool, s: seq<T>)
    ensures |Filter(p, s)| <= |s|
    ensures |Filter(p, s)| == |s| <==> forall x :: x in s ==> p(x)
  {
    if s != [] {
      FilterSmaller(p, s[1..]);
      if p(s[0]) && |Filter(p, s)| == |s| {
        forall x | x in s ensures p(x) {
          assert x == s[0] || x in s[1..];
        }
      }
    }
  }

  lemma NothingSettles(s: State, slice: seq<int>)
    requires Fillable(s, slice) && forall d :: d in slice ==> !Settles(s, d)
    ensures Persist(s, slice) == s
  {
    assert Stores(s, slice) == {};
    assert Marks(s, slice) == {};
    var t := Persist(s, slice);
    assert t.stored == s.stored && t.marked == s.marked;
  }

  lemma ProductiveIff(s: State, end: End, bound: nat)
    ensures Productive(s, end, bound) <==> exists d :: d in SliceOf(s, end, bound) && Settles(s, d)
  {
    var slice := SliceOf(s, end, bound);
    if d :| d in slice && Settles(s, d) {
      var i :| 0 <= i < |slice| && slice[i] == d;
    }
  }

  /** A sweep shrinks the missing set if some date of its slice settles, and otherwise changes neither table. */
  lemma SweepProgress(s: State, end: End, bound: nat)
    requires Tidy(s)
    ensures |Missing(Sweep(s, end, bound))| <= |Missing(s)|
    ensures Productive(s, end, bound) <==> |Missing(Sweep(s, end, bound))| < |Missing(s)|
    ensures !Productive(s, end, bound) ==> Sweep(s, end, bound) == s
  {
    var slice := SliceOf(s, end, bound);
    var kept := StillMissing(s, slice);
    ProductiveIff(s, end, bound);
    SweepMissing(s, end, bound);
    FilterSmaller(kept, Missing(s));
    if Productive(s, end, bound) {
      var d :| d in slice && Settles(s, d);
      assert d in Missing(s) && !kept(d);
    } else {
      SliceFillable(s, end, bound);
      NothingSettles(s, slice);
    }
  }

  // Any mix of reads and ticks.

  predicate Filling(step: Step, bound: nat) {
    step == Read || step == Tick(bound)
  }

  /** The step would settle a date now: some date of its slice settles, and a tick does not trust its marker instead. */
  predicate Useful(s: State, step: Step, bound: nat) {
    if step.Read? then Productive(s, Newest, MAX_DERIVE_DATES_PER_READ) else !Skips(s) && Productive(s, Oldest, bound)
  }

  /** Dates are missing, and neither a read nor a tick would settle one. */
  predicate Stuck(s: State, bound: nat) {
    Missing(s) != [] && !Useful(s, Read, bound) && !Useful(s, Tick(bound), bound)
  }

  /** Finished: nothing is missing, or nothing can be done. */
  predicate Done(s: State, bound: nat) {
    Missing(s) == [] || Stuck(s, bound)
  }

  /** The date is in the future, or waits for a rate. */
  predicate NotDue(s: State, d: int) {
    d > UtcDay(s.now) || (Exact(s, d).value.None? && Exact(s, d).fxBlocked)
  }

  /** With dates missing, a step shrinks the missing set or changes nothing at all. */
  lemma UsefulStep(s: State, step: Step, bound: nat)
    requires Tidy(s) && bound > 0 && Filling(step, bound) && Missing(s) != []
    ensures Useful(s, step, bound) ==> |Missing(Apply(s, step))| < |Missing(s)|
    ensures !Useful(s, step, bound) ==> Apply(s, step) == s
    ensures Apply(s, step).marker == s.marker && Apply(s, step).now == s.now && Apply(s, step).localDay == s.localDay
  {
    SweepProgress(s, Newest, MAX_DERIVE_DATES_PER_READ);
    SweepProgress(s, Oldest, bound);
  }

  /** Stuck means the newest dates are all not due, and a tick skips or finds the oldest ones not due either. */
  lemma StuckIff(s: State, bound: nat)
    ensures Stuck(s, bound) <==>
      && Missing(s) != []
      && (forall d :: d in SliceOf(s, Newest, MAX_DERIVE_DATES_PER_READ) ==> NotDue(s, d))
      && (Skips(s) || forall d :: d in SliceOf(s, Oldest, bound) ==> NotDue(s, d))
  {
    ProductiveIff(s, Newest, MAX_DERIVE_DATES_PER_READ);
    ProductiveIff(s, Oldest, bound);
    assert forall d :: Settles(s, d) <==> !NotDue(s, d);
  }

  /** Stuck is exactly the state in which dates are missing and neither a read nor a tick changes anything. */
  lemma StuckStill(s: State, bound: nat)
    requires Tidy(s) && bound > 0
    ensures Stuck(s, bound) <==> Missing(s) != [] && Apply(s, Read) == s && Apply(s, Tick(bound)) == s
  {
    if Missing(s) != [] {
      UsefulStep(s, Read, bound);
      UsefulStep(s, Tick(bound), bound);
    }
  }

  /** The missing dates follow from the tables, the facts and the local day. */
  lemma SameMissing(s: State, t: State)
    requires t.facts == s.facts && t.stored == s.stored && t.marked == s.marked && t.localDay == s.localDay
    ensures Missing(t) == Missing(s)
  {
    CandidatesAgree(s, t);
    FilterAgree(Open(t), Open(s), Candidates(s));
  }

  lemma NothingLeft(s: State, step: Step, bound: nat)
    requires Tidy(s) && bound > 0 && Missing(s) == [] && Filling(step, bound)
    ensures Apply(s, step) == s.(marker := Apply(s, step).marker)
    ensures Apply(s, step).marker == s.marker || (Apply(s, step).marker.Some? && Apply(s, step).marker.value.verifiedAt == s.now)
    ensures Missing(Apply(s, step)) == []
  {
    SweepProgress(s, Newest, MAX_DERIVE_DATES_PER_READ);
    SweepProgress(s, Oldest, bound);
    SameMissing(s, Apply(s, step));
  }

  /** Nothing missing, or stuck: another read or tick changes neither table. */
  lemma DoneStays(s: State, step: Step, bound: nat)
    requires Tidy(s) && bound > 0 && Done(s, bound) && Filling(step, bound)
    ensures Apply(s, step) == s.(marker := Apply(s, step).marker)
    ensures Done(Apply(s, step), bound)
  {
    if Missing(s) == [] {
      NothingLeft(s, step, bound);
    } else {
      UsefulStep(s, step, bound);
    }
  }

  // Time between the steps.

  /** A read, a tick, or time passing within the portfolio's local day. */
  predicate Quiet(step: Step, bound: nat, localDay: int) {
    Filling(step, bound) || (step.Clock? && step.localDay == localDay)
  }

  /** The marker, if any, was not written in the future. */
  predicate MarkerPast(s: State) {
    s.marker.Some? ==> s.marker.value.verifiedAt <= s.now
  }

  /** What settles a date now settles it later. */
  lemma SettlesLater(s: State, now: int, d: int)
    requires s.now <= now && Settles(s, d)
    ensures Settles(s.(now := now), d)
  {
    assert UtcDay(s.now) <= UtcDay(now);
    assert d <= UtcDay(s.now);
    assert Exact(s.(now := now), d) == Exact(s, d);
  }

  lemma ProductiveLater(s: State, now: int, end: End, bound: nat)
    requires s.now <= now && Productive(s, end, bound)
    ensures Productive(s.(now := now), end, bound)
  {
    SameMissing(s, s.(now := now));
    var i :| 0 <= i < |SliceOf(s, end, bound)| && Settles(s, SliceOf(s, end, bound)[i]);
    SettlesLater(s, now, SliceOf(s, end, bound)[i]);
    assert Settles(s.(now := now), SliceOf(s.(now := now), end, bound)[i]);
  }

  /** Waiting takes no use away: dates stay due, and a marker that is not trusted only grows older. */
  lemma UsefulLater(s: State, now: int, step: Step, bound: nat)
    requires MarkerPast(s) && s.now <= now && Filling(step, bound) && Useful(s, step, bound)
    ensures Useful(s.(now := now), step, bound)
  {
    var t := s.(now := now);
    if step.Read? {
      ProductiveLater(s, now, Newest, MAX_DERIVE_DATES_PER_READ);
    } else {
      ProductiveLater(s, now, Oldest, bound);
      assert FingerprintOf(t) == FingerprintOf(s);
    }
  }

  /** Where only the marker holds a tick back, six hours end it. */
  lemma SkipLapses(s: State, now: int, bound: nat)
    requires s.now <= now && Productive(s, Oldest, bound)
    requires s.marker.Some? ==> now - s.marker.value.verifiedAt >= CONVERGENCE_RECHECK_MS
    ensures !Stuck(s.(now := now), bound)
  {
    ProductiveLater(s, now, Oldest, bound);
  }

  /** No step of the quiet kind ever adds a missing date. */
  lemma QuietStep(s: State, step: Step, bound: nat)
    requires Tidy(s) && bound > 0 && Quiet(step, bound, s.localDay) && Allowed(s, step)
    ensures Tidy(Apply(s, step)) && Apply(s, step).localDay == s.localDay
    ensures MarkerPast(s) ==> MarkerPast(Apply(s, step))
    ensures |Missing(Apply(s, step))| <= |Missing(s)|
  {
    TidyStep(s, step);
    if step.Clock? {
      SameMissing(s, Apply(s, step));
    } else if Missing(s) == [] {
      NothingLeft(s, step, bound);
    } else {
      UsefulStep(s, step, bound);
    }
  }

  ghost predicate QuietRun(s: State, steps: seq<Step>, bound: nat) {
    AllowedRun(s, steps) && forall i :: 0 <= i < |steps| ==> Quiet(steps[i], bound, s.localDay)
  }

  /** No time passes between the steps. */
  predicate Untimed(steps: seq<Step>) {
    forall i :: 0 <= i < |steps| ==> !steps[i].Clock?
  }

  lemma {:induction false} QuietRunKeeps(s: State, steps: seq<Step>, bound: nat)
    requires Tidy(s) && bound > 0 && QuietRun(s, steps, bound)
    ensures Tidy(After(s, steps)) && After(s, steps).localDay == s.localDay
    ensures MarkerPast(s) ==> MarkerPast(After(s, steps))
    ensures |Missing(After(s, steps))| <= |Missing(s)|
    decreases steps
  {
    if steps != [] {
      QuietStep(s, steps[0], bound);
      QuietRunKeeps(Apply(s, steps[0]), steps[1..], bound);
    }
  }

  /** A quiet step shrinks the missing set, or leaves a step that would be useful as useful as it was. */
  lemma UsefulNext(s: State, step: Step, later: Step, bound: nat)
    requires Tidy(s) && bound > 0 && Quiet(step, bound, s.localDay) && Allowed(s, step) && Missing(s) != []
    requires MarkerPast(s) || !step.Clock?
    requires Filling(later, bound) && Useful(s, later, bound)
    ensures var t := Apply(s, step);
      |Missing(t)| < |Missing(s)| || (step != later && Useful(t, later, bound) && Missing(t) == Missing(s))
  {
    if step.Clock? {
      SameMissing(s, Apply(s, step));
      UsefulLater(s, step.now, later, bound);
    } else {
      UsefulStep(s, step, bound);
    }
  }

  /** A run with one step that would be useful now shrinks the missing set. */
  lemma {:induction false} UsefulRun(s: State, steps: seq<Step>, bound: nat, i: nat)
    requires Tidy(s) && bound > 0 && QuietRun(s, steps, bound) && Missing(s) != []
    requires MarkerPast(s) || Untimed(steps)
    requires i < |steps| && Filling(steps[i], bound) && Useful(s, steps[i], bound)
    ensures |Missing(After(s, steps))| < |Missing(s)|
    decreases steps
  {
    var t := Apply(s, steps[0]);
    QuietStep(s, steps[0], bound);
    UsefulNext(s, steps[0], steps[i], bound);
    if |Missing(t)| < |Missing(s)| {
      QuietRunKeeps(t, steps[1..], bound);
    } else {
      UsefulRun(t, steps[1..], bound, i - 1);
    }
  }

  // Stretches of the history with at least one read and one tick each, in any order and any number.

  function AfterBlocks(s: State, blocks: seq<seq<Step>>): State
    decreases blocks
  {
    if blocks == [] then s else AfterBlocks(After(s, blocks[0]), blocks[1..])
  }

  ghost predicate Mixed(s: State, block: seq<Step>, bound: nat) {
    QuietRun(s, block, bound) && Read in block && Tick(bound) in block
  }

  ghost predicate MixedBlocks(s: State, blocks: seq<seq<Step>>, bound: nat)
    decreases blocks
  {
    blocks != [] ==> Mixed(s, blocks[0], bound) && MixedBlocks(After(s, blocks[0]), blocks[1..], bound)
  }

  predicate UntimedBlocks(blocks: seq<seq<Step>>) {
    forall i :: 0 <= i < |blocks| ==> Untimed(blocks[i])
  }

  /** How many of the blocks start stuck. */
  function StuckStarts(s: State, blocks: seq<seq<Step>>, bound: nat): nat
    decreases blocks
  {
    if blocks == [] then 0
    else (if Stuck(s, bound) then 1 else 0) + StuckStarts(After(s, blocks[0]), blocks[1..], bound)
  }

  /** A block that starts with dates missing and not stuck ends with fewer missing. */
  lemma MixedShrinks(s: State, block: seq<Step>, bound: nat)
    requires Tidy(s) && bound > 0 && Mixed(s, block, bound) && !Done(s, bound)
    requires MarkerPast(s) || Untimed(block)
    ensures |Missing(After(s, block))| < |Missing(s)|
  {
    var step := if Useful(s, Read, bound) then Read else Tick(bound);
    var i :| 0 <= i < |block| && block[i] == step;
    UsefulRun(s, block, bound, i);
  }

  /**
   * Facts fixed, time passing or not: every block settles a date, but for those that start stuck, until nothing is
   * missing. With as many blocks as dates are missing, nothing is missing in the end or some block started stuck.
   */
  lemma {:induction false} ConvergesInTime(s: State, blocks: seq<seq<Step>>, bound: nat)
    requires Tidy(s) && bound > 0 && MixedBlocks(s, blocks, bound)
    requires MarkerPast(s) || UntimedBlocks(blocks)
    ensures var left := |Missing(AfterBlocks(s, blocks))|;
      left == 0 || left + |blocks| <= |Missing(s)| + StuckStarts(s, blocks, bound)
    ensures |Missing(AfterBlocks(s, blocks))| <= |Missing(s)|
    decreases blocks
  {
    if blocks != [] {
      var t := After(s, blocks[0]);
      QuietRunKeeps(s, blocks[0], bound);
      ConvergesInTime(t, blocks[1..], bound);
      if !Done(s, bound) {
        MixedShrinks(s, blocks[0], bound);
      }
    }
  }

  lemma {:induction false} DoneRun(s: State, steps: seq<Step>, bound: nat)
    requires Tidy(s) && bound > 0 && QuietRun(s, steps, bound) && Untimed(steps) && Done(s, bound)
    ensures Done(After(s, steps), bound)
    decreases steps
  {
    if steps != [] {
      TidyStep(s, steps[0]);
      DoneStays(s, steps[0], bound);
      DoneRun(Apply(s, steps[0]), steps[1..], bound);
    }
  }

  /** With no time passing, any mix of reads and ticks empties the missing set or reaches the exact stall and stays there. */
  lemma {:induction false} Converges(s: State, blocks: seq<seq<Step>>, bound: nat)
    requires Tidy(s) && bound > 0 && MixedBlocks(s, blocks, bound) && UntimedBlocks(blocks)
    requires Done(s, bound) || |blocks| >= |Missing(s)|
    ensures Done(AfterBlocks(s, blocks), bound)
    decreases blocks
  {
    if blocks != [] {
      QuietRunKeeps(s, blocks[0], bound);
      if Done(s, bound) {
        DoneRun(s, blocks[0], bound);
      } else {
        MixedShrinks(s, blocks[0], bound);
      }
      Converges(After(s, blocks[0]), blocks[1..], bound);
    }
  }

  // What a read returns.

  datatype Dated = Dated(day: int, point: Point)

  /** Stored points and this read's own derivations, in date order; other missing dates are absent. */
  function Series(s: State, slice: seq<int>, dates: seq<int>): seq<Dated> {
    if dates == [] then []
    else
      var d := dates[0];
      (if d in s.stored then [Dated(d, s.stored[d].point)]
       else if d in slice then [Dated(d, Derived(s, d))]
       else []) + Series(s, slice, dates[1..])
  }

  function ReadSeries(s: State): seq<Dated> {
    Series(s, SliceOf(s, Newest, MAX_DERIVE_DATES_PER_READ), Candidates(s))
  }

  /** The direct derivation of every date that has a value. */
  function Direct(s: State, dates: seq<int>): seq<Dated> {
    if dates == [] then []
    else
      (if Exact(s, dates[0]).value.Some? then [Dated(dates[0], Exact(s, dates[0]))] else []) + Direct(s, dates[1..])
  }

  predicate ShownOwed(s: State, owed: set<int>, x: Dated) {
    x.day in owed && x.day in s.stored && x.point == s.stored[x.day].point
  }

  predicate Shown(s: State, slice: seq<int>, x: Dated) {
    if x.day in s.stored then x.point == s.stored[x.day].point else x.day in slice && x.point == Derived(s, x.day)
  }

  /** A read shows each date it has with the stored point, or with the one it just derived. */
  lemma {:induction false} SeriesMembers(s: State, slice: seq<int>, dates: seq<int>)
    ensures forall x :: x in Series(s, slice, dates) ==> x.day in dates && Shown(s, slice, x)
    ensures forall d :: d in dates && d in s.stored ==> Dated(d, s.stored[d].point) in Series(s, slice, dates)
    ensures forall d :: d in dates && d !in s.stored && d in slice ==> Dated(d, Derived(s, d)) in Series(s, slice, dates)
  {
    if dates != [] {
      SeriesMembers(s, slice, dates[1..]);
    }
  }

  /**
   * Whatever a read shows is exact but on a date still owed an invalidation, where it shows the stored row; and it
   * leaves out only marked dates and missing dates beyond its slice.
   */
  lemma ReadExact(s: State, owed: set<int>)
    requires Coherent(s, owed)
    ensures forall x :: x in ReadSeries(s) ==> x.day in Candidates(s) && (x.point == Exact(s, x.day) || ShownOwed(s, owed, x))
    ensures forall d :: d in Candidates(s) && (d in s.stored || d in SliceOf(s, Newest, MAX_DERIVE_DATES_PER_READ)) ==>
      exists x :: x in ReadSeries(s) && x.day == d
    ensures forall d :: d in Candidates(s) && d !in s.stored && d !in SliceOf(s, Newest, MAX_DERIVE_DATES_PER_READ) ==>
      d in s.marked || d in Missing(s)
  {
    var slice := SliceOf(s, Newest, MAX_DERIVE_DATES_PER_READ);
    SliceFillable(s, Newest, MAX_DERIVE_DATES_PER_READ);
    SeriesMembers(s, slice, Candidates(s));
    forall x | x in ReadSeries(s) && x.day in s.stored && x.day !in owed ensures x.point == Exact(s, x.day) {
      assert Accounted(s, x.day) && Right(s, x.day);
    }
    forall d | d in Candidates(s) && (d in s.stored || d in slice) ensures exists x :: x in ReadSeries(s) && x.day == d {
      var x := Dated(d, if d in s.stored then s.stored[d].point else Derived(s, d));
      assert x in ReadSeries(s);
    }
  }

  lemma {:induction false} SeriesDirect(s: State, dates: seq<int>)
    requires RowsExact(s) && MarksExact(s)
    requires forall d :: d in dates ==> d in s.stored || d in s.marked
    requires forall d :: d in s.stored ==> d !in s.marked
    ensures Series(s, [], dates) == Direct(s, dates)
  {
    if dates != [] {
      SeriesDirect(s, dates[1..]);
      var d := dates[0];
      assert d in dates;
    }
  }

  /** Once nothing is missing the series is the direct derivation of every candidate that has a value. */
  lemma ConvergedSeries(s: State)
    requires Tidy(s) && RowsExact(s) && MarksExact(s) && Missing(s) == []
    ensures ReadSeries(s) == Direct(s, Candidates(s))
  {
    forall d | d in Candidates(s) ensures d in s.stored || d in s.marked {
      assert d !in Missing(s);
    }
    SeriesDirect(s, Candidates(s));
  }
}
