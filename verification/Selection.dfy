/** Choosing the price or FX observation that values a date, directly and through an index by date. */
module Selection {
  import opened Sequences

  datatype Interval = Eod | Delayed | Intraday
  datatype Quality = Observed | Corrected | Indicative | StaleCandidate

  /** day is the market date; seenOn the portfolio-local date of the observation instant, when it has one. */
  datatype PriceRow = PriceRow(security: nat, day: int, seenOn: Option<int>, stamp: int, ownerImport: bool,
                               interval: Interval, quality: Quality, currency: nat, close: real)
  datatype FxRow = FxRow(base: nat, quote: nat, day: int, seenOn: Option<int>, stamp: int,
                         interval: Interval, quality: Quality, rate: real)

  function ProviderRank(interval: Interval, quality: Quality): (r: int)
    ensures r >= 0
    ensures r == 0 <==> interval == Delayed && (quality == Observed || quality == Corrected)
  {
    (match interval case Eod => 2 case Delayed => 0 case Intraday => 1)
    + (match quality case StaleCandidate => 4 case Indicative => 2 case _ => 0)
  }

  /** Younger first, then the owner's own import, then provider rank, then the later instant. */
  predicate PriceBetter(a: PriceRow, b: PriceRow) {
    var ra, rb := ProviderRank(a.interval, a.quality), ProviderRank(b.interval, b.quality);
    || a.day > b.day
    || (a.day == b.day && a.ownerImport && !b.ownerImport)
    || (a.day == b.day && a.ownerImport == b.ownerImport && ra < rb)
    || (a.day == b.day && a.ownerImport == b.ownerImport && ra == rb && a.stamp > b.stamp)
  }

  predicate FxBetter(a: FxRow, b: FxRow) {
    var ra, rb := ProviderRank(a.interval, a.quality), ProviderRank(b.interval, b.quality);
    || a.day > b.day
    || (a.day == b.day && ra < rb)
    || (a.day == b.day && ra == rb && a.stamp > b.stamp)
  }

  function PriceEligible(d: int, tolerance: nat, currency: nat): PriceRow -> bool {
    (r: PriceRow) =>
      && 0 <= d - r.day <= tolerance
      && r.close > 0.0
      && r.seenOn.Some? && r.seenOn.value <= d
      && r.currency == currency
  }

  predicate Pairs(r: FxRow, home: nat, currency: nat) {
    (r.base == home && r.quote == currency) || (r.base == currency && r.quote == home)
  }

  function FxEligible(d: int, tolerance: nat, home: nat, currency: nat): FxRow -> bool {
    (r: FxRow) =>
      && Pairs(r, home, currency)
      && 0 <= d - r.day <= tolerance
      && r.rate > 0.0
      && r.seenOn.Some? && r.seenOn.value <= d
  }

  // What a stable sort puts first.

  /** A strict order under which being incomparable is transitive. */
  ghost predicate StrictWeak<T(!new)>(better: (T, T) -> bool) {
    && (forall a :: !better(a, a))
    && (forall a, b, c :: better(a, b) && better(b, c) ==> better(a, c))
    && (forall a, b, c :: better(a, c) ==> better(a, b) || better(b, c))
  }

  /** The first of the best elements. */
  function FirstBest<T>(better: (T, T) -> bool, s: seq<T>): Option<T> {
    if s == [] then None
    else
      var rest := FirstBest(better, s[1..]);
      if rest.Some? && better(rest.value, s[0]) then rest else Some(s[0])
  }

  /** It beats everything before it and loses to nothing after it, which is the head of a stable sort. */
  lemma {:induction false} FirstBestIsHead<T(!new)>(better: (T, T) -> bool, s: seq<T>) returns (i: nat)
    requires StrictWeak(better) && s != []
    ensures i < |s| && FirstBest(better, s) == Some(s[i])
    ensures forall j :: 0 <= j < i ==> better(s[i], s[j])
    ensures forall j :: i <= j < |s| ==> !better(s[j], s[i])
  {
    i := 0;
    if |s| > 1 {
      var k := FirstBestIsHead(better, s[1..]);
      if better(s[1..][k], s[0]) {
        i := k + 1;
        forall j | 0 <= j < i ensures better(s[i], s[j]) {
          assert j == 0 || s[j] == s[1..][j - 1];
        }
        forall j | i <= j < |s| ensures !better(s[j], s[i]) {
          assert s[j] == s[1..][j - 1];
        }
      } else {
        forall j | 0 < j < |s| ensures !better(s[j], s[0]) {
          assert s[j] == s[1..][j - 1];
        }
      }
    }
  }

  /** Elements all beaten by a kept one can be left out. */
  lemma {:induction false} FirstBestWithin<T(!new)>(better: (T, T) -> bool, p: T -> bool, s: seq<T>)
    requires StrictWeak(better)
    requires forall a, b :: a in s && b in s && p(a) && !p(b) ==> better(a, b)
    requires exists a :: a in s && p(a)
    ensures FirstBest(better, s) == FirstBest(better, Filter(p, s))
  {
    var kept := Filter(p, s);
    var i := FirstBestIsHead(better, s);
    var a :| a in s && p(a);
    assert p(s[i]) by {
      var j :| 0 <= j < |s| && s[j] == a;
    }
    FirstBestKept(better, p, s, i);
  }

  /** The head of a stable sort is still the head once other elements are dropped. */
  lemma {:induction false} FirstBestKept<T(!new)>(better: (T, T) -> bool, p: T -> bool, s: seq<T>, i: nat)
    requires StrictWeak(better)
    requires i < |s| && p(s[i])
    requires forall j :: 0 <= j < i ==> better(s[i], s[j])
    requires forall j :: i <= j < |s| ==> !better(s[j], s[i])
    ensures FirstBest(better, Filter(p, s)) == Some(s[i])
  {
    if i == 0 {
      var rest := Filter(p, s[1..]);
      assert Filter(p, s)[1..] == rest;
      if rest != [] {
        var k := FirstBestIsHead(better, rest);
        assert rest[k] in rest;
      }
    } else {
      FirstBestKept(better, p, s[1..], i - 1);
      if p(s[0]) {
        assert Filter(p, s)[1..] == Filter(p, s[1..]);
      }
    }
  }

  function SelectPrice(rows: seq<PriceRow>, d: int, tolerance: nat, currency: nat): (r: Option<PriceRow>)
  {
    FirstBest(PriceBetter, Filter(PriceEligible(d, tolerance, currency), rows))
  }

  function SelectFx(rows: seq<FxRow>, d: int, tolerance: nat, home: nat, currency: nat): Option<FxRow> {
    FirstBest(FxBetter, Filter(FxEligible(d, tolerance, home, currency), rows))
  }

  lemma {:induction false} FirstBestMember<T(!new)>(better: (T, T) -> bool, s: seq<T>)
    ensures FirstBest(better, s).Some? <==> s != []
    ensures FirstBest(better, s).Some? ==> FirstBest(better, s).value in s
  {
    if s != [] {
      FirstBestMember(better, s[1..]);
    }
  }

  // The index by market date.

  /** The rows of day d - from, then of the day before, down to day d - tolerance. */
  function Gather<T(!new)>(rows: seq<T>, day: T -> int, d: int, from: nat, tolerance: nat): seq<T>
    decreases tolerance + 1 - from
  {
    if from > tolerance then []
    else Filter(Keyed(day, d - from), rows) + Gather(rows, day, d, from + 1, tolerance)
  }

  lemma {:induction false} GatherSnoc<T(!new)>(rows: seq<T>, day: T -> int, d: int, from: nat, tolerance: nat)
    requires from <= tolerance + 1
    ensures Gather(rows, day, d, from, tolerance + 1)
         == Gather(rows, day, d, from, tolerance) + Filter(Keyed(day, d - tolerance - 1), rows)
    decreases tolerance + 1 - from
  {
    if from <= tolerance {
      GatherSnoc(rows, day, d, from + 1, tolerance);
    } else {
      assert Gather(rows, day, d, tolerance + 2, tolerance + 1) == [];
    }
  }

  /** What the first n lookups collect. */
  ghost function FirstDays<T(!new)>(rows: seq<T>, day: T -> int, d: int, n: nat): seq<T> {
    if n == 0 then [] else Gather(rows, day, d, 0, n - 1)
  }

  lemma OneMoreDay<T(!new)>(rows: seq<T>, day: T -> int, d: int, n: nat)
    ensures FirstDays(rows, day, d, n + 1) == FirstDays(rows, day, d, n) + Filter(Keyed(day, d - n), rows)
  {
    if n == 0 {
      assert Gather(rows, day, d, 1, 0) == [];
    } else {
      GatherSnoc(rows, day, d, 0, n - 1);
    }
  }

  /** A bounded number of lookups in the index collects the rows a tolerance reaches. */
  method WithinTolerance<T(!new)>(m: map<int, seq<T>>, ghost rows: seq<T>, ghost day: T -> int, d: int, tolerance: nat)
    returns (candidates: seq<T>)
    requires m == GroupsOf(rows, day)
    ensures candidates == Gather(rows, day, d, 0, tolerance)
  {
    candidates := [];
    for offset := 0 to tolerance + 1
      invariant candidates == FirstDays(rows, day, d, offset)
    {
      OneMoreDay(rows, day, d, offset);
      GroupIsFilter(rows, day, d - offset);
      if d - offset in m {
        candidates := candidates + m[d - offset];
      }
    }
  }

  function ElderThan<T>(eligible: T -> bool, day: T -> int, d: int): T -> bool {
    (r: T) => eligible(r) && day(r) <= d
  }

  function Exactly<T>(eligible: T -> bool, day: T -> int, d: int): T -> bool {
    (r: T) => eligible(r) && day(r) == d
  }

  lemma {:induction false} GatherDays<T(!new)>(rows: seq<T>, day: T -> int, d: int, from: nat, tolerance: nat)
    ensures forall r :: r in Gather(rows, day, d, from, tolerance) ==> day(r) <= d - from
    decreases tolerance + 1 - from
  {
    if from <= tolerance {
      GatherDays(rows, day, d, from + 1, tolerance);
    }
  }

  /** A non-empty part that beats the rest decides alone. */
  lemma {:induction false} FirstPart<T(!new)>(better: (T, T) -> bool, a: seq<T>, b: seq<T>)
    requires a != []
    requires forall x, y :: x in a && y in b ==> !better(y, x)
    ensures FirstBest(better, a + b) == FirstBest(better, a)
  {
    assert (a + b)[1..] == a[1..] + b;
    if |a| == 1 {
      assert a[1..] + b == b;
      FirstBestMember(better, b);
    } else {
      FirstPart(better, a[1..], b);
    }
  }

  /** Among rows no younger than day x, those of day x decide when there are any. */
  lemma NewestDecides<T(!new)>(better: (T, T) -> bool, eligible: T -> bool, rows: seq<T>, day: T -> int, x: int)
    requires StrictWeak(better) && YoungerWins(better, day)
    requires Filter(Exactly(eligible, day, x), rows) != []
    ensures FirstBest(better, Filter(ElderThan(eligible, day, x), rows))
         == FirstBest(better, Filter(Exactly(eligible, day, x), rows))
  {
    var elder, exactly := ElderThan(eligible, day, x), Exactly(eligible, day, x);
    var best := Filter(exactly, rows);
    assert best[0] in best;
    assert best[0] in Filter(elder, rows);
    FirstBestWithin(better, Keyed(day, x), Filter(elder, rows));
    FilterCompose(elder, Keyed(day, x), exactly, rows);
  }

  lemma NoneOfDay<T(!new)>(eligible: T -> bool, rows: seq<T>, day: T -> int, x: int)
    requires Filter(Exactly(eligible, day, x), rows) == []
    ensures Filter(ElderThan(eligible, day, x), rows) == Filter(ElderThan(eligible, day, x - 1), rows)
  {
    forall r | r in rows ensures ElderThan(eligible, day, x)(r) == ElderThan(eligible, day, x - 1)(r) {
      assert r !in Filter(Exactly(eligible, day, x), rows);
    }
    FilterAgree(ElderThan(eligible, day, x), ElderThan(eligible, day, x - 1), rows);
  }

  /** The youngest bucket's eligible rows come first. */
  lemma GatherStep<T(!new)>(eligible: T -> bool, rows: seq<T>, day: T -> int, d: int, from: nat, tolerance: nat)
    requires from <= tolerance
    ensures Filter(eligible, Gather(rows, day, d, from, tolerance))
         == Filter(Exactly(eligible, day, d - from), rows)
            + Filter(eligible, Gather(rows, day, d, from + 1, tolerance))
  {
    var x := d - from;
    var bucket, rest := Filter(Keyed(day, x), rows), Gather(rows, day, d, from + 1, tolerance);
    assert Gather(rows, day, d, from, tolerance) == bucket + rest;
    FilterConcat(eligible, bucket, rest);
    FilterCompose(Keyed(day, x), eligible, Exactly(eligible, day, x), rows);
  }

  ghost predicate YoungerWins<T(!new)>(better: (T, T) -> bool, day: T -> int) {
    forall a, b :: day(a) > day(b) ==> better(a, b) && !better(b, a)
  }

  /** The youngest bucket with an eligible row decides. */
  lemma GatherHere<T(!new)>(better: (T, T) -> bool, eligible: T -> bool, rows: seq<T>, day: T -> int,
                            d: int, from: nat, tolerance: nat)
    requires YoungerWins(better, day) && from <= tolerance
    requires Filter(Exactly(eligible, day, d - from), rows) != []
    ensures FirstBest(better, Filter(eligible, Gather(rows, day, d, from, tolerance)))
         == FirstBest(better, Filter(Exactly(eligible, day, d - from), rows))
  {
    var best := Filter(Exactly(eligible, day, d - from), rows);
    var late := Filter(eligible, Gather(rows, day, d, from + 1, tolerance));
    GatherStep(eligible, rows, day, d, from, tolerance);
    GatherDays(rows, day, d, from + 1, tolerance);
    FirstPart(better, best, late);
  }

  lemma GatherNext<T(!new)>(eligible: T -> bool, rows: seq<T>, day: T -> int, d: int, from: nat, tolerance: nat)
    requires from <= tolerance && Filter(Exactly(eligible, day, d - from), rows) == []
    ensures Filter(eligible, Gather(rows, day, d, from, tolerance))
         == Filter(eligible, Gather(rows, day, d, from + 1, tolerance))
  {
    var late := Filter(eligible, Gather(rows, day, d, from + 1, tolerance));
    GatherStep(eligible, rows, day, d, from, tolerance);
    assert [] + late == late;
  }

  lemma NoneReached<T(!new)>(eligible: T -> bool, rows: seq<T>, day: T -> int, d: int, from: nat, tolerance: nat)
    requires from > tolerance && forall r :: eligible(r) ==> d - tolerance <= day(r)
    ensures Filter(ElderThan(eligible, day, d - from), rows) == []
  {
    FilterNone(ElderThan(eligible, day, d - from), rows);
  }

  /** Searching the buckets from d - from down finds what searching every row that old finds. */
  ghost predicate Agrees<T(!new)>(better: (T, T) -> bool, eligible: T -> bool, rows: seq<T>, day: T -> int,
                                  d: int, from: nat, tolerance: nat) {
    FirstBest(better, Filter(eligible, Gather(rows, day, d, from, tolerance)))
    == FirstBest(better, Filter(ElderThan(eligible, day, d - from), rows))
  }

  lemma AgreesStep<T(!new)>(better: (T, T) -> bool, eligible: T -> bool, rows: seq<T>, day: T -> int,
                            d: int, from: nat, tolerance: nat)
    requires StrictWeak(better) && YoungerWins(better, day) && from <= tolerance
    requires Agrees(better, eligible, rows, day, d, from + 1, tolerance)
    ensures Agrees(better, eligible, rows, day, d, from, tolerance)
  {
    if Filter(Exactly(eligible, day, d - from), rows) == [] {
      GatherNext(eligible, rows, day, d, from, tolerance);
      NoneOfDay(eligible, rows, day, d - from);
    } else {
      GatherHere(better, eligible, rows, day, d, from, tolerance);
      NewestDecides(better, eligible, rows, day, d - from);
    }
  }

  lemma {:induction false} GatheredBest<T(!new)>(better: (T, T) -> bool, eligible: T -> bool, rows: seq<T>,
      day: T -> int, d: int, from: nat, tolerance: nat)
    requires StrictWeak(better) && YoungerWins(better, day)
    requires forall r :: eligible(r) ==> d - tolerance <= day(r)
    ensures Agrees(better, eligible, rows, day, d, from, tolerance)
    decreases tolerance + 1 - from
  {
    if from > tolerance {
      NoneReached(eligible, rows, day, d, from, tolerance);
      assert Gather(rows, day, d, from, tolerance) == [];
    } else {
      GatheredBest(better, eligible, rows, day, d, from + 1, tolerance);
      AgreesStep(better, eligible, rows, day, d, from, tolerance);
    }
  }

  lemma NoneYounger<T(!new)>(eligible: T -> bool, rows: seq<T>, day: T -> int, d: int)
    requires forall r :: eligible(r) ==> day(r) <= d
    ensures Filter(ElderThan(eligible, day, d), rows) == Filter(eligible, rows)
  {
    FilterAgree(ElderThan(eligible, day, d), eligible, rows);
  }

  /** The same over the whole tolerance, for any order in which the younger row wins. */
  lemma IndexFindsBest<T(!new)>(better: (T, T) -> bool, eligible: T -> bool, rows: seq<T>, day: T -> int,
                                d: int, tolerance: nat)
    requires StrictWeak(better) && YoungerWins(better, day)
    requires forall r :: eligible(r) ==> 0 <= d - day(r) <= tolerance
    ensures FirstBest(better, Filter(eligible, Gather(rows, day, d, 0, tolerance)))
         == FirstBest(better, Filter(eligible, rows))
  {
    GatheredBest(better, eligible, rows, day, d, 0, tolerance);
    NoneYounger(eligible, rows, day, d);
  }

  const PRICE_DAY := (r: PriceRow) => r.day
  const FX_DAY := (r: FxRow) => r.day

  lemma PriceOrder()
    ensures StrictWeak(PriceBetter) && YoungerWins(PriceBetter, PRICE_DAY)
  {
  }

  lemma FxOrder()
    ensures StrictWeak(FxBetter) && YoungerWins(FxBetter, FX_DAY)
  {
  }

  /** The index finds the price a search of every row finds. */
  lemma PriceGathered(rows: seq<PriceRow>, d: int, tolerance: nat, currency: nat)
    ensures SelectPrice(Gather(rows, PRICE_DAY, d, 0, tolerance), d, tolerance, currency)
         == SelectPrice(rows, d, tolerance, currency)
  {
    var e := PriceEligible(d, tolerance, currency);
    PriceOrder();
    IndexFindsBest(PriceBetter, e, rows, PRICE_DAY, d, tolerance);
  }

  /** The index finds the FX rate a search of every row finds. */
  lemma FxGathered(rows: seq<FxRow>, d: int, tolerance: nat, home: nat, currency: nat)
    ensures SelectFx(Gather(rows, FX_DAY, d, 0, tolerance), d, tolerance, home, currency)
         == SelectFx(rows, d, tolerance, home, currency)
  {
    var e := FxEligible(d, tolerance, home, currency);
    FxOrder();
    IndexFindsBest(FxBetter, e, rows, FX_DAY, d, tolerance);
  }
}
