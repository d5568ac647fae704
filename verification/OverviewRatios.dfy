/** The overview's bar heights and allocation percentages, exact until the last half-even rounding. */
module OverviewRatios {
  import opened Sequences
  import opened Decimals

  /** Shown figures have two places. */
  const HUNDREDTHS := 100.0

  datatype Value = Missing | Readable(v: real) | Unreadable

  // Bar heights.

  function Height(v: real, low: real, high: real): real {
    RoundAt(if high == low then 60.0 else 20.0 + (v - low) / (high - low) * 80.0, HUNDREDTHS)
  }

  lemma RatioBounds(v: real, low: real, high: real)
    requires low <= v <= high && low < high
    ensures 0.0 <= (v - low) / (high - low) <= 1.0
  {
    DivideMonotone(0.0, v - low, high - low);
    DivideMonotone(v - low, high - low, high - low);
    DivideSelf(high - low);
  }

  /** A number with at most two places is shown as it is. */
  lemma ShownExactly(k: int)
    ensures RoundAt(k as real, HUNDREDTHS) == k as real
  {
    RoundAtExact(100 * k, HUNDREDTHS);
    assert (100 * k) as real / HUNDREDTHS == k as real;
  }

  /** Every bar is between 20 and 100 high, and a larger value never has a lower bar. */
  lemma HeightsInOrder(v: real, w: real, low: real, high: real)
    requires low <= v <= w <= high
    ensures 20.0 <= Height(v, low, high) <= Height(w, low, high) <= 100.0
  {
    ShownExactly(20);
    ShownExactly(60);
    ShownExactly(100);
    if low < high {
      RatioBounds(v, low, high);
      RatioBounds(w, low, high);
      DivideMonotone(v - low, w - low, high - low);
      var x, y := 20.0 + (v - low) / (high - low) * 80.0, 20.0 + (w - low) / (high - low) * 80.0;
      RoundAtMonotone(20.0, x, HUNDREDTHS);
      RoundAtMonotone(x, y, HUNDREDTHS);
      RoundAtMonotone(y, 100.0, HUNDREDTHS);
    }
  }

  /** The smallest value has height 20 and the largest 100, unless all values are one, which has 60. */
  lemma HeightEnds(low: real, high: real)
    requires low <= high
    ensures low < high ==> Height(low, low, high) == 20.0 && Height(high, low, high) == 100.0
    ensures low == high ==> Height(low, low, high) == 60.0
  {
    ShownExactly(20);
    ShownExactly(60);
    ShownExactly(100);
    if low < high {
      DivideSelf(high - low);
    }
  }

  /** Between its ends a bar stands in proportion: 80 for the whole range, to within half of the last place shown. */
  lemma HeightInProportion(v: real, low: real, high: real)
    requires low < high
    ensures -0.005 * (high - low) <= Times(Height(v, low, high) - 20.0, high - low) - 80.0 * (v - low) <= 0.005 * (high - low)
  {
    var ratio := (v - low) / (high - low);
    RoundAtBound(20.0 + ratio * 80.0, HUNDREDTHS);
    HalfHundredth();
    ErrorScales(Height(v, low, high) - 20.0, ratio, 80.0, high - low);
    ShareBack(v - low, high - low);
  }

  lemma HalfHundredth()
    ensures 0.5 / HUNDREDTHS == 0.005 && -0.5 / HUNDREDTHS == -0.005
  {
  }

  /** What is shown for a ratio of some whole, taken times the whole. */
  lemma ErrorScales(shown: real, ratio: real, factor: real, whole: real)
    requires whole > 0.0 && -0.005 <= shown - ratio * factor <= 0.005
    ensures -0.005 * whole <= Times(shown, whole) - Times(factor, Times(ratio, whole)) <= 0.005 * whole
  {
    ErrorBound(shown - ratio * factor, whole);
    Distribute(shown, ratio, factor, whole);
  }

  lemma ErrorBound(error: real, whole: real)
    requires whole > 0.0 && -0.005 <= error <= 0.005
    ensures -0.005 * whole <= Times(error, whole) <= 0.005 * whole
  {
    MultiplyMonotone(-0.005, error, whole);
    MultiplyMonotone(error, 0.005, whole);
  }

  lemma Distribute(shown: real, ratio: real, factor: real, whole: real)
    ensures Times(shown - ratio * factor, whole) == Times(shown, whole) - Times(factor, Times(ratio, whole))
  {
    assert ratio * factor * whole == factor * (ratio * whole);
  }

  predicate Charted(values: seq<Value>) {
    && (exists i :: 0 <= i < |values| && values[i].Readable?)
    && (forall i :: 0 <= i < |values| ==> !values[i].Unreadable?)
  }

  /** low and high are the extreme readable values. */
  ghost predicate Extremes(values: seq<Value>, low: real, high: real) {
    && (forall i :: 0 <= i < |values| && values[i].Readable? ==> low <= values[i].v <= high)
    && (exists i :: 0 <= i < |values| && values[i] == Readable(low))
    && (exists i :: 0 <= i < |values| && values[i] == Readable(high))
  }

  /** A height for each point with a value; one unreadable value leaves every bar as it was. */
  method AddChartHeights(values: seq<Value>) returns (heights: seq<Option<real>>, ghost low: real, ghost high: real)
    ensures |heights| == |values|
    ensures !Charted(values) ==> forall i :: 0 <= i < |values| ==> heights[i] == None
    ensures Charted(values) ==> Extremes(values, low, high)
    ensures Charted(values) ==> forall i :: 0 <= i < |values| ==>
      heights[i] == if values[i].Readable? then Some(Height(values[i].v, low, high)) else None
  {
    var minimum, maximum: Option<real> := None, None;
    low, high := 0.0, 0.0;
    for i := 0 to |values|
      invariant minimum.Some? <==> maximum.Some?
      invariant forall j :: 0 <= j < i ==> !values[j].Unreadable?
      invariant minimum.None? ==> forall j :: 0 <= j < i ==> !values[j].Readable?
      invariant minimum.Some? ==> Extremes(values[..i], minimum.value, maximum.value)
    {
      assert values[..i + 1] == values[..i] + [values[i]];
      match values[i] {
        case Missing =>
        case Unreadable =>
          heights := seq(|values|, k => None);
          return;
        case Readable(v) =>
          ExtremesSnoc(values[..i], minimum, maximum, v);
          minimum := Some(if minimum.None? || v < minimum.value then v else minimum.value);
          maximum := Some(if maximum.None? || v > maximum.value then v else maximum.value);
      }
    }
    assert values[..|values|] == values;
    if minimum.None? {
      heights := seq(|values|, k => None);
      return;
    }
    low, high := minimum.value, maximum.value;
    heights := [];
    for i := 0 to |values|
      invariant |heights| == i
      invariant forall j :: 0 <= j < i ==>
        heights[j] == if values[j].Readable? then Some(Height(values[j].v, low, high)) else None
    {
      heights := heights + [if values[i].Readable? then Some(Height(values[i].v, minimum.value, maximum.value)) else None];
    }
  }

  lemma ExtremesSnoc(values: seq<Value>, low: Option<real>, high: Option<real>, v: real)
    requires low.Some? <==> high.Some?
    requires low.None? ==> forall j :: 0 <= j < |values| ==> !values[j].Readable?
    requires low.Some? ==> Extremes(values, low.value, high.value)
    ensures Extremes(values + [Readable(v)], if low.None? || v < low.value then v else low.value,
                     if high.None? || v > high.value then v else high.value)
  {
    var after := values + [Readable(v)];
    assert after[|values|] == Readable(v);
    if low.Some? {
      var i :| 0 <= i < |values| && values[i] == Readable(low.value);
      var j :| 0 <= j < |values| && values[j] == Readable(high.value);
      assert after[i] == values[i] && after[j] == values[j];
    }
  }

  // Allocation percentages.

  function Sum(values: seq<real>): real {
    if values == [] then 0.0 else values[0] + Sum(values[1..])
  }

  function Percent(v: real, total: real): real
    requires total > 0.0
  {
    RoundAt(v / total * 100.0, HUNDREDTHS)
  }

  function Percents(values: seq<real>, total: real): (r: seq<real>)
    requires total > 0.0
    ensures |r| == |values|
  {
    if values == [] then [] else [Percent(values[0], total)] + Percents(values[1..], total)
  }

  lemma QuotientSum(x: real, y: real, total: real)
    requires total > 0.0
    ensures (x + y) / total == x / total + y / total
  {
    DivideDifference(x + y, y, total);
  }

  /** The shown percentages of any values differ from their exact sum by at most 0.005 for each. */
  lemma {:induction false} PercentsNearShare(values: seq<real>, total: real)
    requires total > 0.0
    ensures -0.005 * |values| as real <= Sum(Percents(values, total)) - Sum(values) / total * 100.0 <= 0.005 * |values| as real
  {
    if values != [] {
      PercentsNearShare(values[1..], total);
      RoundAtBound(values[0] / total * 100.0, HUNDREDTHS);
      QuotientSum(values[0], Sum(values[1..]), total);
      assert Percents(values, total)[1..] == Percents(values[1..], total);
      assert 0.5 / HUNDREDTHS == 0.005 && -0.5 / HUNDREDTHS == -0.005;
    }
  }

  /** A shown percentage is a hundredfold of the share, to within half of the last place shown. */
  lemma PercentNear(v: real, total: real)
    requires total > 0.0
    ensures -0.005 * total <= Times(Percent(v, total), total) - 100.0 * v <= 0.005 * total
  {
    RoundAtBound(v / total * 100.0, HUNDREDTHS);
    HalfHundredth();
    ErrorScales(Percent(v, total), v / total, 100.0, total);
    ShareBack(v, total);
  }

  lemma ShareBack(v: real, total: real)
    requires total > 0.0
    ensures Times(v / total, total) == v
  {
  }

  lemma WholeShare(total: real)
    requires total > 0.0
    ensures total / total * 100.0 == 100.0
  {
    DivideSelf(total);
  }

  // The allocation rows: a row without a value keeps its place and shows nothing.

  function Known(rows: seq<Option<real>>): seq<real> {
    if rows == [] then []
    else (if rows[0].Some? then [rows[0].value] else []) + Known(rows[1..])
  }

  datatype Allocation = Unavailable | Shown(complete: bool, percents: seq<Option<real>>)

  function ShowRows(rows: seq<Option<real>>, total: real): (r: seq<Option<real>>)
    requires total > 0.0
    ensures |r| == |rows|
  {
    if rows == [] then []
    else [if rows[0].Some? then Some(Percent(rows[0].value, total)) else None] + ShowRows(rows[1..], total)
  }

  function Allocate(rows: seq<Option<real>>): Allocation {
    var total := Sum(Known(rows));
    if total > 0.0 then Shown(|Known(rows)| == |rows|, ShowRows(rows, total)) else Unavailable
  }

  lemma {:induction false} KnownShown(rows: seq<Option<real>>, total: real)
    requires total > 0.0
    ensures Known(ShowRows(rows, total)) == Percents(Known(rows), total)
    ensures |Known(rows)| <= |rows|
    ensures |Known(rows)| == |rows| <==> forall i :: 0 <= i < |rows| ==> rows[i].Some?
  {
    if rows != [] {
      KnownShown(rows[1..], total);
      assert ShowRows(rows, total)[1..] == ShowRows(rows[1..], total);
      var shown, known := Known(ShowRows(rows[1..], total)), Known(rows[1..]);
      if rows[0].Some? {
        assert Known(rows) == [rows[0].value] + known && Known(rows)[1..] == known;
        assert Known(ShowRows(rows, total)) == [Percent(rows[0].value, total)] + shown;
      } else {
        assert Known(rows) == known && Known(ShowRows(rows, total)) == shown;
      }
      assert (forall i :: 0 <= i < |rows| ==> rows[i].Some?) <==>
             rows[0].Some? && forall i :: 0 <= i < |rows[1..]| ==> rows[1..][i].Some? by {
        assert forall i :: 0 < i < |rows| ==> rows[i] == rows[1..][i - 1];
      }
    }
  }

  /** Shown percentages of the priced rows total 100 to within 0.005 a row; complete means every row is priced. */
  lemma AllocationTotals(rows: seq<Option<real>>)
    requires Allocate(rows).Shown?
    ensures var shown := Known(Allocate(rows).percents);
      && |shown| == |Known(rows)|
      && -0.005 * |shown| as real <= Sum(shown) - 100.0 <= 0.005 * |shown| as real
    ensures Allocate(rows).complete <==> forall i :: 0 <= i < |rows| ==> rows[i].Some?
  {
    var total := Sum(Known(rows));
    KnownShown(rows, total);
    PercentsNearShare(Known(rows), total);
    WholeShare(total);
  }

  /** Percentages are shown exactly when the known values sum to something positive. */
  lemma ShownIff(rows: seq<Option<real>>)
    ensures Allocate(rows).Shown? <==> Sum(Known(rows)) > 0.0
  {
  }

  /** Rows with larger values never show smaller percentages. */
  lemma PercentOrder(v: real, w: real, total: real)
    requires total > 0.0 && v <= w
    ensures Percent(v, total) <= Percent(w, total)
  {
    DivideMonotone(v, w, total);
    RoundAtMonotone(v / total * 100.0, w / total * 100.0, HUNDREDTHS);
  }
}
