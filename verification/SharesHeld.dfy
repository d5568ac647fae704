/** Shares held at a date, by replaying the ledger and by one precomputed walk. */
module SharesHeld {
  import opened Sequences
  import opened Digits
  import opened Decimals
  import opened Ledger

  /** Places a split's exact ratio is rounded to. */
  const SPLIT_RATIO_PLACES := 24

  /** The rows one read maps: superseded rows are dropped, later days are not read. */
  function Loading(h: nat, through: int): Tx -> bool {
    (tx: Tx) => tx.status != Superseded && tx.holding == Some(h) && tx.day <= through
  }

  function Loaded(txs: seq<Tx>, h: nat, through: int): seq<Tx> {
    Filter(Loading(h, through), txs)
  }

  predicate IsReversed(txs: seq<Tx>, id: nat) {
    exists i :: 0 <= i < |txs| && txs[i].reverses == Some(id)
  }

  /** Rows that count: posted, not a reversal, not reversed. */
  function Counting(txs: seq<Tx>): Tx -> bool {
    (tx: Tx) => tx.status == Posted && tx.reverses.None? && !IsReversed(txs, tx.id)
  }

  function Usable(txs: seq<Tx>): seq<Tx> {
    Filter(Counting(txs), txs)
  }

  function UpTo(d: int): Tx -> bool {
    (tx: Tx) => tx.day <= d
  }

  predicate Before(a: Tx, b: Tx) {
    a.at < b.at || (a.at == b.at && a.id <= b.id)
  }

  function Insert(x: Tx, s: seq<Tx>): seq<Tx> {
    if s == [] || Before(x, s[0]) then [x] + s else [s[0]] + Insert(x, s[1..])
  }

  /** Ledger order: trade instant, then id. */
  function Sort(s: seq<Tx>): seq<Tx> {
    if s == [] then [] else Insert(s[0], Sort(s[1..]))
  }

  predicate InOrder(s: seq<Tx>) {
    forall i, j :: 0 <= i < j < |s| ==> Before(s[i], s[j])
  }

  lemma {:induction false} InsertPermutes(x: Tx, s: seq<Tx>)
    ensures multiset(Insert(x, s)) == multiset(s) + multiset{x}
  {
    if s != [] {
      assert s == [s[0]] + s[1..];
      InsertPermutes(x, s[1..]);
    }
  }

  lemma {:induction false} InsertInOrder(x: Tx, s: seq<Tx>)
    requires InOrder(s)
    ensures InOrder(Insert(x, s))
  {
    if s != [] && !Before(x, s[0]) {
      InsertInOrder(x, s[1..]);
      InsertPermutes(x, s[1..]);
      var r := Insert(x, s[1..]);
      forall i | 0 <= i < |r| ensures Before(s[0], r[i]) {
        assert r[i] in multiset(r);
        assert r[i] == x || r[i] in s[1..];
      }
    }
  }

  /** Sorting is the ordered rearrangement of the rows. */
  lemma {:induction false} SortInOrder(s: seq<Tx>)
    ensures InOrder(Sort(s)) && multiset(Sort(s)) == multiset(s)
  {
    if s != [] {
      SortInOrder(s[1..]);
      InsertInOrder(s[0], Sort(s[1..]));
      InsertPermutes(s[0], Sort(s[1..]));
      assert s == [s[0]] + s[1..];
    }
  }

  lemma {:induction false} FilterInsert(p: Tx -> bool, x: Tx, s: seq<Tx>)
    requires InOrder(s)
    ensures Filter(p, Insert(x, s)) == if p(x) then Insert(x, Filter(p, s)) else Filter(p, s)
  {
    if s == [] {
    } else if Before(x, s[0]) {
      assert Insert(x, s)[1..] == s;
      var kept := Filter(p, s);
      if p(x) && kept != [] {
        assert kept[0] in kept;
        var i :| 0 <= i < |s| && s[i] == kept[0];
        assert i == 0 || Before(s[0], s[i]);
      }
    } else {
      assert Insert(x, s)[1..] == Insert(x, s[1..]);
      FilterInsert(p, x, s[1..]);
      if p(s[0]) {
        assert Filter(p, s)[1..] == Filter(p, s[1..]);
      }
    }
  }

  /** Dropping rows before or after sorting makes no difference. */
  lemma {:induction false} FilterSort(p: Tx -> bool, s: seq<Tx>)
    ensures Filter(p, Sort(s)) == Sort(Filter(p, s))
  {
    if s != [] {
      FilterSort(p, s[1..]);
      SortInOrder(s[1..]);
      FilterInsert(p, s[0], Sort(s[1..]));
    }
  }

  function PositiveOrNone(v: Option<real>): Option<real> {
    if v.Some? && v.value > 0.0 && FitsText(v.value) then v else None
  }

  /** One row's effect on the running total. */
  function Effect(total: real, tx: Tx): real {
    match tx.kind
    case Buy => if tx.quantity.Some? && FitsText(tx.quantity.value) then total + tx.quantity.value else total
    case Sell => if tx.quantity.Some? && FitsText(tx.quantity.value) then total - tx.quantity.value else total
    case Split =>
      var n, d := PositiveOrNone(tx.quantity), PositiveOrNone(tx.price);
      if n.Some? && d.Some? then RoundTo(Times(total, n.value) / d.value, SPLIT_RATIO_PLACES) else total
    case OtherKind => total
  }

  function Replay(total: real, s: seq<Tx>): real
    decreases s
  {
    if s == [] then total else Replay(Effect(total, s[0]), s[1..])
  }

  lemma {:induction false} ReplaySnoc(total: real, s: seq<Tx>, x: Tx)
    ensures Replay(total, s + [x]) == Effect(Replay(total, s), x)
    decreases s
  {
    if s == [] {
      assert (s + [x])[1..] == [];
    } else {
      assert (s + [x])[1..] == s[1..] + [x];
      ReplaySnoc(Effect(total, s[0]), s[1..], x);
    }
  }

  /** The quantity held at the end of day d: the definition, replayed row by row. */
  function HeldAt(txs: seq<Tx>, d: int): real {
    Replay(0.0, Sort(Filter(UpTo(d), Usable(txs))))
  }

  predicate DaysMonotone(s: seq<Tx>) {
    forall i :: 0 < i < |s| ==> s[i - 1].day <= s[i].day
  }

  lemma {:induction false} DaysSpread(s: seq<Tx>, i: nat, j: nat)
    requires DaysMonotone(s) && i <= j < |s|
    ensures s[i].day <= s[j].day
    decreases j
  {
    if i < j {
      DaysSpread(s, i, j - 1);
    }
  }

  /** Along monotone days, the rows up to a day are a prefix. */
  lemma {:induction false} CutoffIsPrefix(s: seq<Tx>, d: int, k: nat)
    requires k <= |s|
    requires forall i :: 0 <= i < k ==> s[i].day <= d
    requires forall i :: k <= i < |s| ==> s[i].day > d
    ensures Filter(UpTo(d), s) == s[..k]
  {
    var p := UpTo(d);
    if k == 0 {
      FilterNone(p, s);
    } else {
      CutoffIsPrefix(s[1..], d, k - 1);
      assert s[..k] == [s[0]] + s[1..][..k - 1];
    }
  }

  datatype Checkpoint = Checkpoint(day: int, total: real)
  datatype Timeline = Timeline(checkpoints: Option<seq<Checkpoint>>, transactions: seq<Tx>)

  /** t is what one walk over its own transactions leaves. */
  ghost predicate TimelineValid(t: Timeline) {
    var order := Sort(Usable(t.transactions));
    t.checkpoints.Some? ==>
      && DaysMonotone(order)
      && |t.checkpoints.value| == |order|
      && forall k :: 0 <= k < |order| ==>
           t.checkpoints.value[k] == Checkpoint(order[k].day, Replay(0.0, order[..k + 1]))
  }

  /** The running total after each row. */
  method Walk(order: seq<Tx>) returns (checkpoints: seq<Checkpoint>)
    ensures |checkpoints| == |order|
    ensures forall k :: 0 <= k < |order| ==> checkpoints[k] == Checkpoint(order[k].day, Replay(0.0, order[..k + 1]))
  {
    var total := 0.0;
    checkpoints := [];
    for k := 0 to |order|
      invariant total == Replay(0.0, order[..k])
      invariant |checkpoints| == k
      invariant forall j :: 0 <= j < k ==> checkpoints[j] == Checkpoint(order[j].day, Replay(0.0, order[..j + 1]))
    {
      ReplaySnoc(0.0, order[..k], order[k]);
      assert order[..k + 1] == order[..k] + [order[k]];
      total := Effect(total, order[k]);
      checkpoints := checkpoints + [Checkpoint(order[k].day, total)];
    }
  }

  /** One walk over the rows; no checkpoints when the days run backwards along the ledger order. */
  method BuildTimeline(txs: seq<Tx>) returns (t: Timeline)
    ensures t.transactions == txs && TimelineValid(t)
    ensures t.checkpoints.Some? <==> DaysMonotone(Sort(Usable(txs)))
  {
    var order := Sort(Usable(txs));
    var i := 1;
    while i < |order|
      invariant 1 <= i && (order == [] || i <= |order|)
      invariant forall j :: 0 < j < i && j < |order| ==> order[j - 1].day <= order[j].day
    {
      if order[i].day < order[i - 1].day {
        return Timeline(None, txs);
      }
      i := i + 1;
    }
    var checkpoints := Walk(order);
    t := Timeline(Some(checkpoints), txs);
  }

  /** A replay stopped at day d is the walk's checkpoint before the first later row. */
  lemma HeldAtPrefix(txs: seq<Tx>, d: int, k: nat)
    requires var order := Sort(Usable(txs));
      && k <= |order|
      && (forall i :: 0 <= i < k ==> order[i].day <= d)
      && (forall i :: k <= i < |order| ==> order[i].day > d)
    ensures HeldAt(txs, d) == Replay(0.0, Sort(Usable(txs))[..k])
  {
    FilterSort(UpTo(d), Usable(txs));
    CutoffIsPrefix(Sort(Usable(txs)), d, k);
  }

  /** The binary search over checkpoints answers exactly what the replay answers, for every date. */
  method HeldFromTimeline(t: Timeline, d: int) returns (q: real)
    requires TimelineValid(t)
    ensures q == HeldAt(t.transactions, d)
  {
    if t.checkpoints.None? {
      return HeldAt(t.transactions, d);
    }
    var checkpoints := t.checkpoints.value;
    ghost var order := Sort(Usable(t.transactions));
    var low, high, found := 0, |checkpoints| - 1, -1;
    while low <= high
      invariant 0 <= low <= high + 1 <= |checkpoints|
      invariant found == low - 1
      invariant forall i :: 0 <= i < low ==> order[i].day <= d
      invariant forall i :: high < i < |order| ==> order[i].day > d
      decreases high - low
    {
      var mid := (low + high) / 2;
      if checkpoints[mid].day <= d {
        forall i | 0 <= i <= mid ensures order[i].day <= d {
          DaysSpread(order, i, mid);
        }
        found, low := mid, mid + 1;
      } else {
        forall i | mid <= i < |order| ensures order[i].day > d {
          DaysSpread(order, mid, i);
        }
        high := mid - 1;
      }
    }
    HeldAtPrefix(t.transactions, d, low);
    q := if found == -1 then 0.0 else checkpoints[found].total;
  }

  /** For a sound ledger the exclusions come down to the effective rows. */
  lemma EffectiveRow(txs: seq<Tx>, h: nat, through: int, d: int, tx: Tx)
    requires Sound(txs) && d <= through && tx in Loaded(txs, h, through)
    ensures Effective(h, d)(tx) <==> Counting(Loaded(txs, h, through))(tx) && UpTo(d)(tx)
  {
    var rows := Loaded(txs, h, through);
    if IsReversed(rows, tx.id) {
      var i :| 0 <= i < |rows| && rows[i].reverses == Some(tx.id);
      assert rows[i] in rows;
    }
  }

  lemma UsableEffective(txs: seq<Tx>, h: nat, through: int, d: int)
    requires Sound(txs) && d <= through
    ensures Filter(UpTo(d), Usable(Loaded(txs, h, through))) == Filter(Effective(h, d), txs)
  {
    var rows := Loaded(txs, h, through);
    forall tx | tx in rows
      ensures Effective(h, d)(tx) <==> Counting(rows)(tx) && UpTo(d)(tx)
    {
      EffectiveRow(txs, h, through, d, tx);
    }
    FilterCompose(Counting(rows), UpTo(d), Effective(h, d), rows);
    FilterWithin(Loading(h, through), Effective(h, d), txs);
  }

  /** A holding before a mutation's first affected day is what it was, however far either read reaches. */
  lemma HeldBefore(m: Mutation, txs: seq<Tx>, h: nat, through: int, later: int, d: int)
    requires Sound(txs) && Admissible(m, txs) && Mutate(m, txs).Some?
    requires d < Mutate(m, txs).value.1 && d <= through && d <= later
    ensures HeldAt(Loaded(Mutate(m, txs).value.0, h, later), d) == HeldAt(Loaded(txs, h, through), d)
  {
    MutateSound(m, txs);
    MutateBefore(m, txs, h, d);
    UsableEffective(txs, h, through, d);
    UsableEffective(Mutate(m, txs).value.0, h, later, d);
  }

  /** How far past d the ledger was read does not matter. */
  lemma HeldThrough(txs: seq<Tx>, h: nat, through: int, later: int, d: int)
    requires Sound(txs) && d <= through && d <= later
    ensures HeldAt(Loaded(txs, h, through), d) == HeldAt(Loaded(txs, h, later), d)
  {
    UsableEffective(txs, h, through, d);
    UsableEffective(txs, h, later, d);
  }

  // The order of the replay, said in instants and ids.

  /** Along the replay instants never go back, and rows of one instant come in the order of their ids. */
  lemma SortByInstant(s: seq<Tx>)
    ensures forall i, j :: 0 <= i < j < |Sort(s)| ==>
      Sort(s)[i].at < Sort(s)[j].at || (Sort(s)[i].at == Sort(s)[j].at && Sort(s)[i].id <= Sort(s)[j].id)
    ensures multiset(Sort(s)) == multiset(s)
  {
    SortInOrder(s);
  }

  function EarlierThan(x: Tx): Tx -> bool {
    (tx: Tx) => tx.at < x.at || (tx.at == x.at && tx.id < x.id)
  }

  function LaterThan(x: Tx): Tx -> bool {
    (tx: Tx) => x.at < tx.at || (x.at == tx.at && x.id < tx.id)
  }

  /** No other row has this row's id. */
  ghost predicate OnlyOne(s: seq<Tx>, x: Tx) {
    x in s && multiset(s)[x] == 1 && forall y :: y in s && y.id == x.id ==> y == x
  }

  lemma HeadAlone(s: seq<Tx>, x: Tx)
    requires InOrder(s) && OnlyOne(s, x) && s[0] == x
    ensures forall y :: y in s[1..] ==> LaterThan(x)(y) && !EarlierThan(x)(y)
  {
    assert s == [x] + s[1..];
    assert x !in multiset(s[1..]);
    forall y | y in s[1..] ensures LaterThan(x)(y) && !EarlierThan(x)(y) {
      var i :| 0 <= i < |s[1..]| && s[1..][i] == y;
      assert Before(s[0], s[i + 1]);
    }
  }

  lemma HeadBefore(s: seq<Tx>, x: Tx)
    requires InOrder(s) && OnlyOne(s, x) && s[0] != x
    ensures EarlierThan(x)(s[0]) && !LaterThan(x)(s[0])
    ensures InOrder(s[1..]) && OnlyOne(s[1..], x)
  {
    assert s == [s[0]] + s[1..];
    assert multiset(s)[x] == multiset(s[1..])[x];
    var i :| 0 <= i < |s| && s[i] == x;
    assert Before(s[0], s[i]);
  }

  lemma {:induction false} SplitAround(s: seq<Tx>, x: Tx)
    requires InOrder(s) && OnlyOne(s, x)
    ensures s == Filter(EarlierThan(x), s) + ([x] + Filter(LaterThan(x), s))
  {
    assert s == [s[0]] + s[1..];
    if s[0] == x {
      HeadAlone(s, x);
      FilterAll(LaterThan(x), s[1..]);
      FilterNone(EarlierThan(x), s[1..]);
    } else {
      HeadBefore(s, x);
      SplitAround(s[1..], x);
    }
  }

  lemma {:induction false} ReplayConcat(total: real, a: seq<Tx>, b: seq<Tx>)
    ensures Replay(total, a + b) == Replay(Replay(total, a), b)
    decreases a
  {
    if a == [] {
      assert a + b == b;
    } else {
      assert (a + b)[1..] == a[1..] + b;
      ReplayConcat(Effect(total, a[0]), a[1..], b);
    }
  }

  /** The rows before any one row are replayed before it, and those after it behind it. */
  lemma ReplayAround(rows: seq<Tx>, x: Tx)
    requires OnlyOne(rows, x)
    ensures Replay(0.0, Sort(rows))
         == Replay(Effect(Replay(0.0, Sort(Filter(EarlierThan(x), rows))), x), Sort(Filter(LaterThan(x), rows)))
  {
    var order := Sort(rows);
    SortInOrder(rows);
    forall y ensures y in order <==> y in rows {
      assert y in multiset(order) <==> y in multiset(rows);
    }
    SplitAround(order, x);
    FilterSort(EarlierThan(x), rows);
    FilterSort(LaterThan(x), rows);
    var early, late := Filter(EarlierThan(x), order), Filter(LaterThan(x), order);
    ReplayConcat(0.0, early, [x] + late);
    assert ([x] + late)[1..] == late;
  }

  lemma {:induction false} OnlyOneKept(p: Tx -> bool, s: seq<Tx>, x: Tx)
    requires UniqueIds(s) && x in Filter(p, s)
    ensures OnlyOne(Filter(p, s), x)
  {
    if s[0] == x {
      assert x !in s[1..];
      assert s == [x] + s[1..];
      if p(x) {
        assert Filter(p, s) == [x] + Filter(p, s[1..]);
        assert multiset(Filter(p, s)) == multiset{x} + multiset(Filter(p, s[1..]));
        assert x !in multiset(Filter(p, s[1..]));
      }
    } else {
      OnlyOneKept(p, s[1..], x);
      assert p(s[0]) ==> multiset(Filter(p, s)) == multiset{s[0]} + multiset(Filter(p, s[1..])) by {
        assert p(s[0]) ==> Filter(p, s) == [s[0]] + Filter(p, s[1..]);
      }
    }
    UniqueInside(p, s, x);
  }

  lemma UniqueInside(p: Tx -> bool, s: seq<Tx>, x: Tx)
    requires UniqueIds(s) && x in s
    ensures forall y :: y in Filter(p, s) && y.id == x.id ==> y == x
  {
    var i :| 0 <= i < |s| && s[i] == x;
    forall y | y in Filter(p, s) && y.id == x.id ensures y == x {
      var j :| 0 <= j < |s| && s[j] == y;
    }
  }

  // What the quantity means.

  /** Shares a row brings in (positive) or takes out (negative), a split aside. */
  function Signed(tx: Tx): real {
    if tx.quantity.None? || !FitsText(tx.quantity.value) then 0.0
    else if tx.kind == Buy then tx.quantity.value
    else if tx.kind == Sell then -tx.quantity.value
    else 0.0
  }

  function SignedSum(s: seq<Tx>): real {
    if s == [] then 0.0 else Signed(s[0]) + SignedSum(s[1..])
  }

  lemma {:induction false} ReplayIsSum(total: real, s: seq<Tx>)
    requires forall x :: x in s ==> x.kind != Split
    ensures Replay(total, s) == total + SignedSum(s)
    decreases s
  {
    if s != [] {
      assert s[0] in s;
      ReplayIsSum(Effect(total, s[0]), s[1..]);
    }
  }

  lemma {:induction false} InsertSum(x: Tx, s: seq<Tx>)
    ensures SignedSum(Insert(x, s)) == Signed(x) + SignedSum(s)
  {
    if s == [] || Before(x, s[0]) {
      assert ([x] + s)[1..] == s;
    } else {
      InsertSum(x, s[1..]);
      assert ([s[0]] + Insert(x, s[1..]))[1..] == Insert(x, s[1..]);
    }
  }

  lemma {:induction false} SortSum(s: seq<Tx>)
    ensures SignedSum(Sort(s)) == SignedSum(s)
  {
    if s != [] {
      SortSum(s[1..]);
      InsertSum(s[0], Sort(s[1..]));
    }
  }

  /** Without splits the quantity held is what was bought less what was sold by then, in whatever order. */
  lemma HeldIsBoughtLessSold(txs: seq<Tx>, d: int)
    requires forall x :: x in txs ==> x.kind != Split
    ensures HeldAt(txs, d) == SignedSum(Filter(UpTo(d), Usable(txs)))
  {
    var rows := Filter(UpTo(d), Usable(txs));
    SortInOrder(rows);
    forall x | x in Sort(rows) ensures x.kind != Split {
      assert x in multiset(Sort(rows));
    }
    ReplayIsSum(0.0, Sort(rows));
    SortSum(rows);
  }

  /** A split whose numerator and denominator are both positive and readable. */
  predicate IsRatio(tx: Tx) {
    && tx.kind == Split && tx.quantity.Some? && tx.price.Some?
    && 0.0 < tx.quantity.value && FitsText(tx.quantity.value)
    && 0.0 < tx.price.value && FitsText(tx.price.value)
  }

  /** Any other split, and any row that is no trade, leaves the quantity alone. */
  lemma NoEffect(total: real, tx: Tx)
    requires (tx.kind == Split && !IsRatio(tx)) || tx.kind == OtherKind
    ensures Effect(total, tx) == total
  {
  }

  /** A split of n for d turns a holding into n / d of it, to within half a unit of the last place kept. */
  lemma SplitScales(total: real, tx: Tx)
    requires IsRatio(tx)
    ensures -0.5 / Pow10(SPLIT_RATIO_PLACES) as real
         <= Effect(total, tx) - Times(total, tx.quantity.value) / tx.price.value
         <= 0.5 / Pow10(SPLIT_RATIO_PLACES) as real
  {
    RoundAtBound(Times(total, tx.quantity.value) / tx.price.value, Pow10(SPLIT_RATIO_PLACES) as real);
  }

  function Counted(txs: seq<Tx>, d: int): seq<Tx> {
    Filter(UpTo(d), Usable(txs))
  }

  function Ratio(total: real, tx: Tx): real
    requires IsRatio(tx)
  {
    Times(total, tx.quantity.value) / tx.price.value
  }

  lemma CountedOnce(txs: seq<Tx>, d: int, x: Tx)
    requires UniqueIds(txs) && x in Counted(txs, d)
    ensures OnlyOne(Counted(txs, d), x)
  {
    FilterCompose(Counting(txs), UpTo(d), (y: Tx) => Counting(txs)(y) && UpTo(d)(y), txs);
    OnlyOneKept((y: Tx) => Counting(txs)(y) && UpTo(d)(y), txs, x);
  }

  lemma SumWithoutSplits(p: Tx -> bool, rows: seq<Tx>, total: real)
    requires forall y :: y in rows && p(y) ==> y.kind != Split
    ensures Replay(total, Sort(Filter(p, rows))) == total + SignedSum(Filter(p, rows))
  {
    var kept := Filter(p, rows);
    SortInOrder(kept);
    forall y | y in Sort(kept) ensures y.kind != Split {
      assert y in multiset(Sort(kept));
    }
    ReplayIsSum(total, Sort(kept));
    SortSum(kept);
  }

  lemma AroundSplit(txs: seq<Tx>, d: int, x: Tx)
    requires UniqueIds(txs) && x in Counted(txs, d) && forall y :: y in Counted(txs, d) && y != x ==> y.kind != Split
    ensures HeldAt(txs, d) == Effect(SignedSum(Filter(EarlierThan(x), Counted(txs, d))), x)
                              + SignedSum(Filter(LaterThan(x), Counted(txs, d)))
  {
    CountedOnce(txs, d, x);
    SplitAmong(Counted(txs, d), x);
  }

  lemma SplitAmong(rows: seq<Tx>, x: Tx)
    requires OnlyOne(rows, x) && forall y :: y in rows && y != x ==> y.kind != Split
    ensures Replay(0.0, Sort(rows)) == Effect(SignedSum(Filter(EarlierThan(x), rows)), x) + SignedSum(Filter(LaterThan(x), rows))
  {
    ReplayAround(rows, x);
    SumWithoutSplits(EarlierThan(x), rows, 0.0);
    SumWithoutSplits(LaterThan(x), rows, Effect(SignedSum(Filter(EarlierThan(x), rows)), x));
  }

  /** With one split, what was traded before it is scaled and what was traded after it is not. */
  lemma OneSplit(txs: seq<Tx>, d: int, x: Tx)
    requires UniqueIds(txs) && x in Counted(txs, d)
    requires IsRatio(x)
    requires forall y :: y in Counted(txs, d) && y != x ==> y.kind != Split
    ensures var before, after := SignedSum(Filter(EarlierThan(x), Counted(txs, d))), SignedSum(Filter(LaterThan(x), Counted(txs, d)));
      -0.5 / Pow10(SPLIT_RATIO_PLACES) as real <= HeldAt(txs, d) - after - Ratio(before, x) <= 0.5 / Pow10(SPLIT_RATIO_PLACES) as real
  {
    AroundSplit(txs, d, x);
    SplitScales(SignedSum(Filter(EarlierThan(x), Counted(txs, d))), x);
  }

  function Except(x: Tx): Tx -> bool {
    (tx: Tx) => tx != x
  }

  lemma ReversedWithout(txs: seq<Tx>, x: Tx, id: nat)
    requires x.reverses.None?
    ensures IsReversed(Filter(Except(x), txs), id) <==> IsReversed(txs, id)
  {
    var others := Filter(Except(x), txs);
    if IsReversed(txs, id) {
      var i :| 0 <= i < |txs| && txs[i].reverses == Some(id);
      assert txs[i] in others;
    }
    if IsReversed(others, id) {
      var i :| 0 <= i < |others| && others[i].reverses == Some(id);
      assert others[i] in others;
    }
  }

  lemma CountedWithout(txs: seq<Tx>, d: int, x: Tx)
    requires x.reverses.None?
    ensures Counted(Filter(Except(x), txs), d) == Filter(Except(x), Counted(txs, d))
  {
    var others := Filter(Except(x), txs);
    var counting := (y: Tx) => Counting(txs)(y) && UpTo(d)(y);
    var kept := (y: Tx) => counting(y) && y != x;
    forall y | y in others ensures Counting(others)(y) == Counting(txs)(y) {
      ReversedWithout(txs, x, y.id);
    }
    FilterAgree(Counting(others), Counting(txs), others);
    FilterCompose(Counting(txs), UpTo(d), counting, others);
    FilterCompose(Except(x), counting, kept, txs);
    FilterCompose(Counting(txs), UpTo(d), counting, txs);
    FilterCompose(counting, Except(x), kept, txs);
  }

  /** A split later than everything else scales the holding there would be without it, earlier splits included. */
  lemma LastSplit(txs: seq<Tx>, d: int, x: Tx)
    requires UniqueIds(txs) && x in Counted(txs, d)
    requires IsRatio(x)
    requires forall y :: y in Counted(txs, d) && y != x ==> y.at < x.at
    ensures -0.5 / Pow10(SPLIT_RATIO_PLACES) as real
         <= HeldAt(txs, d) - Ratio(HeldAt(Filter(Except(x), txs), d), x)
         <= 0.5 / Pow10(SPLIT_RATIO_PLACES) as real
  {
    var rows := Counted(txs, d);
    CountedOnce(txs, d, x);
    ReplayAround(rows, x);
    FilterNone(LaterThan(x), rows);
    FilterAgree(EarlierThan(x), Except(x), rows);
    CountedWithout(txs, d, x);
    SplitScales(HeldAt(Filter(Except(x), txs), d), x);
  }
}
