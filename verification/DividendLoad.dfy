/** Loading dividend facts for a whole portfolio or for one holding, and keeping announced payouts apart from paid ones. */
module DividendLoad {
  import opened Sequences

  const MAX_SECURITIES := 500
  const MAX_EVENTS := 20000
  const MAX_TRANSACTIONS := 100000
  const MAX_PENDING := 500
  const PROXIMITY_WINDOW_DAYS := 7

  datatype Identity = Identity(id: nat, security: nat, held: bool)

  /** A row that belongs to a holding; fact stands for the rest of it. */
  datatype Owned = Owned(holding: nat, fact: nat)
  datatype Event = Event(security: nat, fact: nat)
  datatype Manual = Manual(holding: nat, id: nat, paymentDay: int, reference: Option<nat>)
  datatype Franking = Franking(holding: nat, record: nat, total: real)
  datatype Pending = Pending(holding: Option<nat>, id: nat, reference: nat, paymentDay: int)

  /** One portfolio's tables; references are compared after the committed prefix is put on both. */
  datatype Tables = Tables(identities: seq<Identity>, events: seq<Event>, overrides: seq<Owned>, manual: seq<Manual>,
                           franking: seq<Franking>, receipts: seq<Owned>, assumptions: seq<Owned>,
                           transactions: seq<Owned>, pending: seq<Pending>)

  /** A committed record with its owner's franking override, when it has one. */
  datatype ManualFact = ManualFact(record: Manual, frankingTotal: Option<real>)

  /** Everything the per-security derivation is given. */
  datatype Inputs = Inputs(identity: Identity, events: seq<Event>, overrides: seq<Owned>, manual: seq<ManualFact>,
                           announced: seq<Pending>, receipts: seq<Owned>, transactions: seq<Owned>, assumption: Option<Owned>)

  datatype Counts = Counts(byIdentity: nat, byProximity: nat, unresolved: nat, included: nat)

  datatype Load =
    | TooManySecurities
    | TooManyEvents
    | TooManyTransactions
    | Loaded(securities: seq<Inputs>, counts: Counts, truncated: bool)

  const OWNED_BY := (r: Owned) => r.holding
  const MANUAL_OF := (r: Manual) => r.holding
  const EVENT_OF := (r: Event) => r.security
  const FRANKING_OF := (r: Franking) => r.holding

  // The reads.

  /** The held holdings a load is for: all of them, or those asked for. */
  function Requested(only: Option<seq<nat>>): Identity -> bool {
    (x: Identity) => x.held && (only.Some? ==> x.id in only.value)
  }

  /** Exactly one holding asked for: three tables are then read for that holding alone. */
  function Single(only: Option<seq<nat>>): Option<nat> {
    if only.Some? && |only.value| == 1 then Some(only.value[0]) else None
  }

  function ReadFor<T(!new)>(rows: seq<T>, key: T -> int, single: Option<nat>): seq<T> {
    if single.Some? then Filter(Keyed(key, single.value), rows) else rows
  }

  function ForSecurities(identities: seq<Identity>): Event -> bool {
    (e: Event) => exists i :: 0 <= i < |identities| && identities[i].security == e.security
  }

  function ForHoldings(identities: seq<Identity>): Owned -> bool {
    (t: Owned) => exists i :: 0 <= i < |identities| && identities[i].id == t.holding
  }

  function Capped(rows: seq<Pending>): seq<Pending> {
    if |rows| > MAX_PENDING then rows[..MAX_PENDING] else rows
  }

  // Announced payouts.

  predicate HasTwin(manual: seq<Manual>, p: Pending) {
    exists i :: 0 <= i < |manual| && manual[i].reference == Some(p.reference)
  }

  predicate Near(a: int, b: int) {
    -PROXIMITY_WINDOW_DAYS <= a - b <= PROXIMITY_WINDOW_DAYS
  }

  /** A committed record of the same holding was paid within a week of it. */
  predicate HasNeighbour(manual: seq<Manual>, p: Pending) {
    exists i :: 0 <= i < |manual| && Some(manual[i].holding) == p.holding && Near(manual[i].paymentDay, p.paymentDay)
  }

  datatype Fate = Skipped | Unresolved | PaidByIdentity | PaidByProximity | Included

  predicate IsRequested(identities: seq<Identity>, holding: Option<nat>) {
    exists i :: 0 <= i < |identities| && Some(identities[i].id) == holding
  }

  function FateOf(p: Pending, only: Option<seq<nat>>, identities: seq<Identity>, manual: seq<Manual>): Fate {
    if only.Some? && (p.holding.None? || p.holding.value !in only.value) then Skipped
    else if !IsRequested(identities, p.holding) then Unresolved
    else if HasTwin(manual, p) then PaidByIdentity
    else if HasNeighbour(manual, p) then PaidByProximity
    else Included
  }

  /** The payout is for one of the holdings asked for. */
  predicate Asked(p: Pending, only: Option<seq<nat>>) {
    only.None? || (p.holding.Some? && p.holding.value in only.value)
  }

  ghost predicate Held(p: Pending, identities: seq<Identity>) {
    exists x :: x in identities && p.holding == Some(x.id)
  }

  ghost predicate CommittedAs(p: Pending, manual: seq<Manual>) {
    exists m :: m in manual && m.reference == Some(p.reference)
  }

  /** A record of its own holding is dated from seven days before it to seven days after. */
  ghost predicate PaidThatWeek(p: Pending, manual: seq<Manual>) {
    exists m :: m in manual && p.holding == Some(m.holding) && p.paymentDay - 7 <= m.paymentDay <= p.paymentDay + 7
  }

  /** Which fate befalls a payout, whatever the order of the tests. */
  lemma FateIff(p: Pending, only: Option<seq<nat>>, identities: seq<Identity>, manual: seq<Manual>)
    ensures var fate := FateOf(p, only, identities, manual);
      && (fate == Skipped <==> !Asked(p, only))
      && (fate == Unresolved <==> Asked(p, only) && !Held(p, identities))
      && (fate == PaidByIdentity <==> Asked(p, only) && Held(p, identities) && CommittedAs(p, manual))
      && (fate == PaidByProximity <==> Asked(p, only) && Held(p, identities) && !CommittedAs(p, manual) && PaidThatWeek(p, manual))
      && (fate == Included <==> Asked(p, only) && Held(p, identities) && !CommittedAs(p, manual) && !PaidThatWeek(p, manual))
  {
    assert IsRequested(identities, p.holding) <==> Held(p, identities);
    assert HasTwin(manual, p) <==> CommittedAs(p, manual);
    assert HasNeighbour(manual, p) <==> PaidThatWeek(p, manual);
  }

  function WithFate(fate: Fate, only: Option<seq<nat>>, identities: seq<Identity>, manual: seq<Manual>): Pending -> bool {
    (p: Pending) => FateOf(p, only, identities, manual) == fate
  }

  function IncludedFor(id: nat, only: Option<seq<nat>>, identities: seq<Identity>, manual: seq<Manual>): Pending -> bool {
    (p: Pending) => p.holding == Some(id) && FateOf(p, only, identities, manual) == Included
  }

  function Total(c: Counts): nat {
    c.byIdentity + c.byProximity + c.unresolved + c.included
  }

  /** The counters and the lists the loop leaves. */
  ghost predicate Sorted(rows: seq<Pending>, only: Option<seq<nat>>, identities: seq<Identity>, manual: seq<Manual>,
                         counts: Counts, lists: map<int, seq<Pending>>) {
    && counts.byIdentity == |Filter(WithFate(PaidByIdentity, only, identities, manual), rows)|
    && counts.byProximity == |Filter(WithFate(PaidByProximity, only, identities, manual), rows)|
    && counts.unresolved == |Filter(WithFate(Unresolved, only, identities, manual), rows)|
    && counts.included == |Filter(WithFate(Included, only, identities, manual), rows)|
    && forall id: nat :: Group(lists, id) == Filter(IncludedFor(id, only, identities, manual), rows)
  }

  lemma FateSnoc(fate: Fate, rows: seq<Pending>, p: Pending, only: Option<seq<nat>>, identities: seq<Identity>, manual: seq<Manual>)
    ensures var counted := WithFate(fate, only, identities, manual);
      |Filter(counted, rows + [p])| == |Filter(counted, rows)| + if counted(p) then 1 else 0
  {
    FilterConcat(WithFate(fate, only, identities, manual), rows, [p]);
  }

  /** One more row, with whatever the counters and lists become. */
  lemma SortedSnoc(rows: seq<Pending>, p: Pending, only: Option<seq<nat>>, identities: seq<Identity>, manual: seq<Manual>,
                   counts: Counts, lists: map<int, seq<Pending>>, after: Counts, listsAfter: map<int, seq<Pending>>)
    requires Sorted(rows, only, identities, manual, counts, lists)
    requires var fate := FateOf(p, only, identities, manual);
      && after == Counts(counts.byIdentity + (if fate == PaidByIdentity then 1 else 0),
                         counts.byProximity + (if fate == PaidByProximity then 1 else 0),
                         counts.unresolved + (if fate == Unresolved then 1 else 0),
                         counts.included + (if fate == Included then 1 else 0))
      && (fate == Included ==> p.holding.Some?)
      && listsAfter == (if fate == Included then lists[p.holding.value := Group(lists, p.holding.value) + [p]] else lists)
    ensures Sorted(rows + [p], only, identities, manual, after, listsAfter)
  {
    FateSnoc(PaidByIdentity, rows, p, only, identities, manual);
    FateSnoc(PaidByProximity, rows, p, only, identities, manual);
    FateSnoc(Unresolved, rows, p, only, identities, manual);
    FateSnoc(Included, rows, p, only, identities, manual);
    forall id: nat ensures Group(listsAfter, id) == Filter(IncludedFor(id, only, identities, manual), rows + [p]) {
      FilterConcat(IncludedFor(id, only, identities, manual), rows, [p]);
    }
  }

  /** Each announced payout gets one fate, and the four counters say how many of each. */
  method SortPending(rows: seq<Pending>, only: Option<seq<nat>>, identities: seq<Identity>, manual: seq<Manual>)
    returns (counts: Counts, lists: map<int, seq<Pending>>)
    ensures Sorted(rows, only, identities, manual, counts, lists)
  {
    var byIdentity, byProximity, unresolved, included := 0, 0, 0, 0;
    lists := map[];
    for i := 0 to |rows|
      invariant Sorted(rows[..i], only, identities, manual, Counts(byIdentity, byProximity, unresolved, included), lists)
    {
      var p := rows[i];
      assert rows[..i + 1] == rows[..i] + [p];
      ghost var counted, listed := Counts(byIdentity, byProximity, unresolved, included), lists;
      match FateOf(p, only, identities, manual) {
        case Skipped =>
        case Unresolved => unresolved := unresolved + 1;
        case PaidByIdentity => byIdentity := byIdentity + 1;
        case PaidByProximity => byProximity := byProximity + 1;
        case Included =>
          included := included + 1;
          lists := lists[p.holding.value := Group(lists, p.holding.value) + [p]];
      }
      SortedSnoc(rows[..i], p, only, identities, manual, counted, listed,
                 Counts(byIdentity, byProximity, unresolved, included), lists);
    }
    assert rows[..|rows|] == rows;
    counts := Counts(byIdentity, byProximity, unresolved, included);
  }

  /** In a whole load the four counters account for every row read. */
  lemma {:induction false} CountsAddUp(rows: seq<Pending>, identities: seq<Identity>, manual: seq<Manual>)
    ensures |Filter(WithFate(PaidByIdentity, None, identities, manual), rows)|
          + |Filter(WithFate(PaidByProximity, None, identities, manual), rows)|
          + |Filter(WithFate(Unresolved, None, identities, manual), rows)|
          + |Filter(WithFate(Included, None, identities, manual), rows)| == |rows|
  {
    if rows != [] {
      CountsAddUp(rows[1..], identities, manual);
    }
  }

  // The whole load, as filters.

  /** The override a record ends up with when they are put in a map in row order. */
  function LastTotal(franking: seq<Franking>, record: nat): Option<real> {
    if franking == [] then None
    else
      var last := franking[|franking| - 1];
      if last.record == record then Some(last.total) else LastTotal(franking[..|franking| - 1], record)
  }

  ghost predicate IsLastOf(franking: seq<Franking>, record: nat, k: int) {
    0 <= k < |franking| && franking[k].record == record && forall j :: k < j < |franking| ==> franking[j].record != record
  }

  /** Of several overrides of a record the last one counts. */
  lemma {:induction false} LastTotalIff(franking: seq<Franking>, record: nat)
    ensures LastTotal(franking, record).None? <==> forall f :: f in franking ==> f.record != record
    ensures forall k :: IsLastOf(franking, record, k) ==> LastTotal(franking, record) == Some(franking[k].total)
  {
    if franking != [] {
      var n := |franking| - 1;
      LastTotalIff(franking[..n], record);
      assert franking == franking[..n] + [franking[n]];
      forall k | IsLastOf(franking, record, k) ensures LastTotal(franking, record) == Some(franking[k].total) {
        if k < n {
          assert IsLastOf(franking[..n], record, k);
        }
      }
    }
  }

  function FactsOf(records: seq<Manual>, franking: seq<Franking>): (r: seq<ManualFact>)
    ensures |r| == |records|
  {
    seq(|records|, i requires 0 <= i < |records| => ManualFact(records[i], LastTotal(franking, records[i].id)))
  }

  function First<T>(rows: seq<T>): Option<T> {
    if rows == [] then None else Some(rows[0])
  }

  function ManualRead(t: Tables, only: Option<seq<nat>>): seq<Manual> {
    ReadFor(t.manual, MANUAL_OF, Single(only))
  }

  function Identities(t: Tables, only: Option<seq<nat>>): seq<Identity> {
    Filter(Requested(only), t.identities)
  }

  function Announced(t: Tables, only: Option<seq<nat>>, id: nat): seq<Pending> {
    Filter(IncludedFor(id, only, Identities(t, only), ManualRead(t, only)), Capped(t.pending))
  }

  /** What a load hands the derivation of one holding. */
  function InputsFor(t: Tables, only: Option<seq<nat>>, x: Identity): Inputs {
    Inputs(x,
           Filter(Keyed(EVENT_OF, x.security), t.events),
           Filter(Keyed(OWNED_BY, x.id), t.overrides),
           FactsOf(Filter(Keyed(MANUAL_OF, x.id), t.manual), ReadFor(t.franking, FRANKING_OF, Single(only))),
           Announced(t, only, x.id),
           Filter(Keyed(OWNED_BY, x.id), t.receipts),
           Filter(Keyed(OWNED_BY, x.id), t.transactions),
           var own := Filter(Keyed(OWNED_BY, x.id), t.assumptions); if own == [] then None else Some(own[0]))
  }

  /** A load is for the held holdings asked for, and considers at most 500 announcements, the first ones. */
  lemma LoadScope(t: Tables, only: Option<seq<nat>>)
    ensures forall x :: x in Identities(t, only) <==> x in t.identities && x.held && (only.None? || x.id in only.value)
    ensures |Capped(t.pending)| == (if |t.pending| < 500 then |t.pending| else 500) && Capped(t.pending) <= t.pending
  {
  }

  function EventRows(t: Tables, only: Option<seq<nat>>): seq<Event> {
    Filter(ForSecurities(Identities(t, only)), t.events)
  }

  function TransactionRows(t: Tables, only: Option<seq<nat>>): seq<Owned> {
    Filter(ForHoldings(Identities(t, only)), t.transactions)
  }

  // The narrowed load against the whole one.

  /** The payout's committed twin is recorded under another holding only, and no record of its own is near it. */
  predicate TwinElsewhere(manual: seq<Manual>, id: nat, p: Pending) {
    && p.holding == Some(id)
    && HasTwin(manual, p)
    && !HasTwin(Filter(Keyed(MANUAL_OF, id), manual), p)
    && !HasNeighbour(manual, p)
  }

  lemma NeighbourOwn(manual: seq<Manual>, id: nat, p: Pending)
    requires p.holding == Some(id)
    ensures HasNeighbour(Filter(Keyed(MANUAL_OF, id), manual), p) <==> HasNeighbour(manual, p)
  {
    var own := Filter(Keyed(MANUAL_OF, id), manual);
    if HasNeighbour(manual, p) {
      var i :| 0 <= i < |manual| && Some(manual[i].holding) == p.holding && Near(manual[i].paymentDay, p.paymentDay);
      assert manual[i] in own;
      var j :| 0 <= j < |own| && own[j] == manual[i];
    }
    if HasNeighbour(own, p) {
      var j :| 0 <= j < |own| && Some(own[j].holding) == p.holding && Near(own[j].paymentDay, p.paymentDay);
      assert own[j] in own;
      var i :| 0 <= i < |manual| && manual[i] == own[j];
    }
  }

  lemma TwinOwn(manual: seq<Manual>, id: nat, p: Pending)
    ensures HasTwin(Filter(Keyed(MANUAL_OF, id), manual), p) ==> HasTwin(manual, p)
  {
    var own := Filter(Keyed(MANUAL_OF, id), manual);
    if HasTwin(own, p) {
      var j :| 0 <= j < |own| && own[j].reference == Some(p.reference);
      assert own[j] in own;
      var i :| 0 <= i < |manual| && manual[i] == own[j];
    }
  }

  lemma RequestedEitherWay(t: Tables, only: Option<seq<nat>>, x: Identity)
    requires x in t.identities && x.held && (only.Some? ==> x.id in only.value)
    ensures IsRequested(Identities(t, only), Some(x.id))
  {
    assert x in Identities(t, only);
    var i :| 0 <= i < |Identities(t, only)| && Identities(t, only)[i] == x;
  }

  /** A row is included by the narrowed load and not by the whole one exactly when its twin is elsewhere. */
  lemma IncludedDiffers(t: Tables, x: Identity, p: Pending)
    requires x in t.identities && x.held
    ensures var whole := IncludedFor(x.id, None, Identities(t, None), ManualRead(t, None))(p);
      var narrow := IncludedFor(x.id, Some([x.id]), Identities(t, Some([x.id])), ManualRead(t, Some([x.id])))(p);
      && (whole ==> narrow)
      && (narrow && !whole <==> TwinElsewhere(t.manual, x.id, p))
  {
    RequestedEitherWay(t, None, x);
    RequestedEitherWay(t, Some([x.id]), x);
    if p.holding == Some(x.id) {
      NeighbourOwn(t.manual, x.id, p);
      TwinOwn(t.manual, x.id, p);
    }
  }

  /** Of two filters, one inside the other, the results agree only when the filters do. */
  lemma {:induction false} FilterInsideIff<T(!new)>(p: T -> bool, q: T -> bool, s: seq<T>)
    requires forall x :: x in s && p(x) ==> q(x)
    ensures Filter(p, s) == Filter(q, s) <==> forall x :: x in s && q(x) ==> p(x)
  {
    if forall x :: x in s && q(x) ==> p(x) {
      FilterAgree(p, q, s);
    }
    if Filter(p, s) == Filter(q, s) {
      forall x | x in s && q(x) ensures p(x) {
        assert x in Filter(q, s);
      }
    }
  }

  ghost predicate FrankingWithRecords(t: Tables) {
    forall f, m :: f in t.franking && m in t.manual && f.record == m.id ==> f.holding == m.holding
  }

  lemma FilterSnoc<T(!new)>(p: T -> bool, s: seq<T>)
    requires s != []
    ensures Filter(p, s) == Filter(p, s[..|s| - 1]) + if p(s[|s| - 1]) then [s[|s| - 1]] else []
  {
    var last := [s[|s| - 1]];
    assert s == s[..|s| - 1] + last;
    FilterConcat(p, s[..|s| - 1], last);
    assert last[1..] == [];
  }

  lemma {:induction false} LastTotalOwn(franking: seq<Franking>, id: nat, record: nat)
    requires forall f :: f in franking && f.record == record ==> f.holding == id
    ensures LastTotal(Filter(Keyed(FRANKING_OF, id), franking), record) == LastTotal(franking, record)
  {
    if franking != [] {
      var n := |franking| - 1;
      LastTotalOwn(franking[..n], id, record);
      FilterSnoc(Keyed(FRANKING_OF, id), franking);
      var before, all := Filter(Keyed(FRANKING_OF, id), franking[..n]), Filter(Keyed(FRANKING_OF, id), franking);
      if franking[n].holding == id {
        assert all[..|all| - 1] == before;
      } else {
        assert all == before;
      }
    }
  }

  lemma FactsOwn(t: Tables, id: nat)
    requires FrankingWithRecords(t)
    ensures FactsOf(Filter(Keyed(MANUAL_OF, id), t.manual), Filter(Keyed(FRANKING_OF, id), t.franking))
         == FactsOf(Filter(Keyed(MANUAL_OF, id), t.manual), t.franking)
  {
    var records := Filter(Keyed(MANUAL_OF, id), t.manual);
    forall i | 0 <= i < |records|
      ensures LastTotal(Filter(Keyed(FRANKING_OF, id), t.franking), records[i].id) == LastTotal(t.franking, records[i].id)
    {
      assert records[i] in records;
      LastTotalOwn(t.franking, id, records[i].id);
    }
  }

  /**
   * Loading one holding alone gives its derivation what the whole load gives it, if and only if no announced
   * payout within the cap has its committed twin under another holding without a nearby record of its own.
   */
  lemma NarrowedEqualsWholeIff(t: Tables, x: Identity)
    requires x in t.identities && x.held && FrankingWithRecords(t)
    ensures InputsFor(t, Some([x.id]), x) == InputsFor(t, None, x) <==>
      forall p :: p in Capped(t.pending) ==> !TwinElsewhere(t.manual, x.id, p)
  {
    var whole := IncludedFor(x.id, None, Identities(t, None), ManualRead(t, None));
    var narrow := IncludedFor(x.id, Some([x.id]), Identities(t, Some([x.id])), ManualRead(t, Some([x.id])));
    forall p | p in Capped(t.pending)
      ensures whole(p) ==> narrow(p)
      ensures narrow(p) && !whole(p) <==> TwinElsewhere(t.manual, x.id, p)
    {
      IncludedDiffers(t, x, p);
    }
    FilterInsideIff(whole, narrow, Capped(t.pending));
    FactsOwn(t, x.id);
  }

  // The two loads do differ: an announced payout whose committed twin was recorded under another holding.

  const OWN := Identity(1, 1, true)
  const OTHER := Identity(2, 2, true)
  const TWIN := Manual(2, 10, 100, Some(7))
  const ANNOUNCED := Pending(Some(1), 20, 7, 50)
  const APART := Tables([OWN, OTHER], [], [], [TWIN], [], [], [], [], [ANNOUNCED])

  /** Loaded alone the holding announces the payout; in the whole load it counts as paid. */
  lemma LoadsDiffer()
    ensures Announced(APART, Some([OWN.id]), OWN.id) == [ANNOUNCED] && Announced(APART, None, OWN.id) == []
    ensures InputsFor(APART, Some([OWN.id]), OWN) != InputsFor(APART, None, OWN)
  {
    var whole := IncludedFor(1, None, Identities(APART, None), ManualRead(APART, None));
    var narrow := IncludedFor(1, Some([1]), Identities(APART, Some([1])), ManualRead(APART, Some([1])));
    assert APART.identities[0] == OWN && APART.manual[0] == TWIN;
    IncludedDiffers(APART, OWN, ANNOUNCED);
    FilterNone(Keyed(MANUAL_OF, 1), [TWIN]);
    assert TwinElsewhere([TWIN], 1, ANNOUNCED);
    FilterAll(narrow, [ANNOUNCED]);
    FilterNone(whole, [ANNOUNCED]);
  }

  /** With several holdings asked for nothing is read more narrowly, so each gets what the whole load gives it. */
  lemma SeveralEqualWhole(t: Tables, only: seq<nat>, x: Identity)
    requires x in t.identities && x.held && x.id in only && |only| != 1
    ensures InputsFor(t, Some(only), x) == InputsFor(t, None, x)
  {
    RequestedEitherWay(t, None, x);
    RequestedEitherWay(t, Some(only), x);
    var whole := IncludedFor(x.id, None, Identities(t, None), ManualRead(t, None));
    var narrow := IncludedFor(x.id, Some(only), Identities(t, Some(only)), ManualRead(t, Some(only)));
    FilterAgree(whole, narrow, Capped(t.pending));
  }

  // The load as the program builds it.

  /** Nothing over a cap: what both kinds of load need to go through. */
  predicate WithinCaps(t: Tables, only: Option<seq<nat>>) {
    && |Identities(t, only)| <= MAX_SECURITIES
    && |EventRows(t, only)| <= MAX_EVENTS
    && |TransactionRows(t, only)| <= MAX_TRANSACTIONS
  }

  lemma GroupedEvents(t: Tables, only: Option<seq<nat>>, x: Identity)
    requires x in Identities(t, only)
    ensures Filter(Keyed(EVENT_OF, x.security), EventRows(t, only)) == Filter(Keyed(EVENT_OF, x.security), t.events)
    ensures Filter(Keyed(OWNED_BY, x.id), TransactionRows(t, only)) == Filter(Keyed(OWNED_BY, x.id), t.transactions)
  {
    var i :| 0 <= i < |Identities(t, only)| && Identities(t, only)[i] == x;
    FilterWithin(ForSecurities(Identities(t, only)), Keyed(EVENT_OF, x.security), t.events);
    FilterWithin(ForHoldings(Identities(t, only)), Keyed(OWNED_BY, x.id), t.transactions);
  }

  lemma GroupedRead<T(!new)>(rows: seq<T>, key: T -> int, only: Option<seq<nat>>, id: nat)
    requires only.Some? ==> id in only.value
    ensures Filter(Keyed(key, id), ReadFor(rows, key, Single(only))) == Filter(Keyed(key, id), rows)
  {
    if Single(only).Some? {
      FilterWithin(Keyed(key, id), Keyed(key, id), rows);
    }
  }

  /** The reads' groupings, one map per table. */
  datatype Grouped = Grouped(events: map<int, seq<Event>>, overrides: map<int, seq<Owned>>, manual: map<int, seq<Manual>>,
                             receipts: map<int, seq<Owned>>, assumptions: map<int, seq<Owned>>,
                             transactions: map<int, seq<Owned>>)

  ghost predicate GroupedFrom(g: Grouped, t: Tables, only: Option<seq<nat>>) {
    && g.events == GroupsOf(EventRows(t, only), EVENT_OF)
    && g.overrides == GroupsOf(ReadFor(t.overrides, OWNED_BY, Single(only)), OWNED_BY)
    && g.manual == GroupsOf(ManualRead(t, only), MANUAL_OF)
    && g.receipts == GroupsOf(t.receipts, OWNED_BY)
    && g.assumptions == GroupsOf(ReadFor(t.assumptions, OWNED_BY, Single(only)), OWNED_BY)
    && g.transactions == GroupsOf(TransactionRows(t, only), OWNED_BY)
  }

  /** One holding's inputs, looked up in the groupings. */
  function Assemble(x: Identity, g: Grouped, franking: seq<Franking>, announced: map<int, seq<Pending>>): Inputs {
    Inputs(x, Group(g.events, x.security), Group(g.overrides, x.id), FactsOf(Group(g.manual, x.id), franking),
           Group(announced, x.id), Group(g.receipts, x.id), Group(g.transactions, x.id),
           First(Group(g.assumptions, x.id)))
  }

  lemma AssembleExact(t: Tables, only: Option<seq<nat>>, x: Identity, g: Grouped, announced: map<int, seq<Pending>>)
    requires x in Identities(t, only) && GroupedFrom(g, t, only)
    requires Group(announced, x.id) == Announced(t, only, x.id)
    ensures Assemble(x, g, ReadFor(t.franking, FRANKING_OF, Single(only)), announced) == InputsFor(t, only, x)
  {
    GroupedEvents(t, only, x);
    GroupIsFilter(EventRows(t, only), EVENT_OF, x.security);
    GroupedRead(t.overrides, OWNED_BY, only, x.id);
    GroupIsFilter(ReadFor(t.overrides, OWNED_BY, Single(only)), OWNED_BY, x.id);
    GroupedRead(t.manual, MANUAL_OF, only, x.id);
    GroupIsFilter(ManualRead(t, only), MANUAL_OF, x.id);
    GroupIsFilter(t.receipts, OWNED_BY, x.id);
    GroupedRead(t.assumptions, OWNED_BY, only, x.id);
    GroupIsFilter(ReadFor(t.assumptions, OWNED_BY, Single(only)), OWNED_BY, x.id);
    GroupIsFilter(TransactionRows(t, only), OWNED_BY, x.id);
  }

  /** One pass per table. */
  method GroupTables(t: Tables, only: Option<seq<nat>>) returns (g: Grouped)
    ensures GroupedFrom(g, t, only)
  {
    var events := GroupBy(EventRows(t, only), EVENT_OF);
    var overrides := GroupBy(ReadFor(t.overrides, OWNED_BY, Single(only)), OWNED_BY);
    var manual := GroupBy(ManualRead(t, only), MANUAL_OF);
    var receipts := GroupBy(t.receipts, OWNED_BY);
    var assumptions := GroupBy(ReadFor(t.assumptions, OWNED_BY, Single(only)), OWNED_BY);
    var transactions := GroupBy(TransactionRows(t, only), OWNED_BY);
    g := Grouped(events, overrides, manual, receipts, assumptions, transactions);
  }

  ghost predicate IsAnnounced(announced: map<int, seq<Pending>>, t: Tables, only: Option<seq<nat>>) {
    forall x :: x in Identities(t, only) ==> Group(announced, x.id) == Announced(t, only, x.id)
  }

  /** One entry per held holding, in their order. */
  method AssembleAll(t: Tables, only: Option<seq<nat>>, g: Grouped, announced: map<int, seq<Pending>>)
    returns (securities: seq<Inputs>)
    requires GroupedFrom(g, t, only) && IsAnnounced(announced, t, only)
    ensures |securities| == |Identities(t, only)|
    ensures forall i :: 0 <= i < |securities| ==> securities[i] == InputsFor(t, only, Identities(t, only)[i])
  {
    var identities, franking := Identities(t, only), ReadFor(t.franking, FRANKING_OF, Single(only));
    forall i | 0 <= i < |identities|
      ensures Assemble(identities[i], g, franking, announced) == InputsFor(t, only, identities[i])
    {
      assert identities[i] in identities;
      AssembleExact(t, only, identities[i], g, announced);
    }
    securities := seq(|identities|, i requires 0 <= i < |identities| => Assemble(identities[i], g, franking, announced));
  }

  /** With nothing held there is nothing to read. */
  lemma NothingHeld(t: Tables, only: Option<seq<nat>>)
    requires Identities(t, only) == []
    ensures EventRows(t, only) == [] && TransactionRows(t, only) == []
  {
    FilterNone(ForSecurities([]), t.events);
    FilterNone(ForHoldings([]), t.transactions);
  }

  /** How many announcements met which fate; with nothing held only a whole load counts them, as unresolved. */
  ghost predicate CountsShown(t: Tables, only: Option<seq<nat>>, counts: Counts) {
    var identities, manual, rows := Identities(t, only), ManualRead(t, only), Capped(t.pending);
    if identities == [] then counts == Counts(0, 0, if only.None? then |rows| else 0, 0)
    else
      && counts.byIdentity == |Filter(WithFate(PaidByIdentity, only, identities, manual), rows)|
      && counts.byProximity == |Filter(WithFate(PaidByProximity, only, identities, manual), rows)|
      && counts.unresolved == |Filter(WithFate(Unresolved, only, identities, manual), rows)|
      && counts.included == |Filter(WithFate(Included, only, identities, manual), rows)|
  }

  /** One load: the reads, the groupings, the announced payouts, then one entry per held holding. */
  method LoadHistory(t: Tables, only: Option<seq<nat>>) returns (load: Load)
    ensures load.Loaded? <==> WithinCaps(t, only)
    ensures load.TooManySecurities? <==> |Identities(t, only)| > MAX_SECURITIES
    ensures load.Loaded? ==>
      && |load.securities| == |Identities(t, only)|
      && (forall i :: 0 <= i < |load.securities| ==> load.securities[i] == InputsFor(t, only, Identities(t, only)[i]))
      && (load.truncated <==> |t.pending| > 500 && (only.None? || Identities(t, only) != []))
      && (only.None? ==> Total(load.counts) == |Capped(t.pending)|)
      && CountsShown(t, only, load.counts)
    ensures load.TooManyEvents? <==> |Identities(t, only)| <= MAX_SECURITIES && |EventRows(t, only)| > MAX_EVENTS
  {
    var identities := Identities(t, only);
    if |identities| > MAX_SECURITIES {
      return TooManySecurities;
    }
    if identities == [] {
      // Every announcement is still disclosed as unresolved, but only by a whole load.
      NothingHeld(t, only);
      return Loaded([], Counts(0, 0, if only.None? then |Capped(t.pending)| else 0, 0), |t.pending| > MAX_PENDING && only.None?);
    }
    if |EventRows(t, only)| > MAX_EVENTS {
      return TooManyEvents;
    }
    if |TransactionRows(t, only)| > MAX_TRANSACTIONS {
      return TooManyTransactions;
    }
    var g := GroupTables(t, only);
    var counts, announced := SortPending(Capped(t.pending), only, identities, ManualRead(t, only));
    if only.None? {
      CountsAddUp(Capped(t.pending), identities, ManualRead(t, only));
    }
    var securities := AssembleAll(t, only, g, announced);
    load := Loaded(securities, counts, |t.pending| > MAX_PENDING);
  }

  lemma {:induction false} FilterShrinks<T(!new)>(p: T -> bool, q: T -> bool, s: seq<T>)
    requires forall x :: x in s && p(x) ==> q(x)
    ensures |Filter(p, s)| <= |Filter(q, s)|
  {
    if s != [] {
      FilterShrinks(p, q, s[1..]);
    }
  }

  /** A load for some holdings meets no cap the whole load does not meet. */
  lemma NarrowedWithinCaps(t: Tables, only: seq<nat>)
    requires WithinCaps(t, None)
    ensures WithinCaps(t, Some(only))
  {
    var few, all := Identities(t, Some(only)), Identities(t, None);
    FilterShrinks(Requested(Some(only)), Requested(None), t.identities);
    forall x | x in few ensures exists i :: 0 <= i < |all| && all[i] == x {
      assert x in all;
    }
    forall e | ForSecurities(few)(e) ensures ForSecurities(all)(e) {
      var i :| 0 <= i < |few| && few[i].security == e.security;
      assert few[i] in few;
      var j :| 0 <= j < |all| && all[j] == few[i];
    }
    FilterShrinks(ForSecurities(few), ForSecurities(all), t.events);
    forall r | ForHoldings(few)(r) ensures ForHoldings(all)(r) {
      var i :| 0 <= i < |few| && few[i].id == r.holding;
      assert few[i] in few;
      var j :| 0 <= j < |all| && all[j] == few[i];
    }
    FilterShrinks(ForHoldings(few), ForHoldings(all), t.transactions);
  }
}
