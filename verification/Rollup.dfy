/** Capturing intraday ticks, promoting each day's last one, and purging only what was promoted. */
module Rollup {
  import opened Sequences

  const WINDOW_OPEN_MINUTES := 10 * 60 + 25
  const WINDOW_CLOSE_MINUTES := 16 * 60 + 25
  const MAX_PAIRS_PER_USER := 100

  datatype Provider = Sharesight | Yahoo

  /** One cached tick; at is the provider's observation instant. */
  datatype Tick = Tick(user: nat, provider: Provider, security: nat, day: int, at: int, price: real)

  datatype Pair = Pair(day: int, security: nat)

  /** Where a day's price lives: a user's own row, or the one everybody shares. */
  datatype Place = OwnPlace(user: nat, security: nat, day: int) | SharedPlace(security: nat, day: int)

  datatype Observation = Observation(at: int, price: real)

  /** A market's local calendar day and minute. */
  datatype LocalTime = LocalTime(day: int, minutes: int, weekday: bool)

  datatype Setting = Setting(user: nat, provider: Provider)

  function PairOf(t: Tick): Pair {
    Pair(t.day, t.security)
  }

  function PlaceOf(t: Tick): Place {
    if t.provider.Sharesight? then OwnPlace(t.user, t.security, t.day) else SharedPlace(t.security, t.day)
  }

  predicate WithinWindow(now: LocalTime) {
    now.weekday && WINDOW_OPEN_MINUTES <= now.minutes <= WINDOW_CLOSE_MINUTES
  }

  predicate Eligible(day: int, now: LocalTime) {
    day < now.day || (day == now.day && now.minutes > WINDOW_CLOSE_MINUTES)
  }

  predicate Earlier(a: LocalTime, b: LocalTime) {
    a.day < b.day || (a.day == b.day && a.minutes <= b.minutes)
  }

  /** Eligible days are those whose window is over for good: from now on no tick of the day can be captured. */
  lemma EligibleIff(day: int, now: LocalTime)
    ensures Eligible(day, now) <==> forall later :: Earlier(now, later) ==> !(later.day == day && WithinWindow(later))
  {
    if !Eligible(day, now) {
      var later := LocalTime(day, if now.day == day && now.minutes > WINDOW_OPEN_MINUTES then now.minutes else WINDOW_OPEN_MINUTES, true);
      assert Earlier(now, later) && WithinWindow(later);
    }
  }

  predicate Of(t: Tick, user: nat, provider: Provider) {
    t.user == user && t.provider == provider
  }

  function InPair(user: nat, provider: Provider, pair: Pair): Tick -> bool {
    (t: Tick) => Of(t, user, provider) && PairOf(t) == pair
  }

  function NotInPair(user: nat, provider: Provider, pair: Pair): Tick -> bool {
    (t: Tick) => !(Of(t, user, provider) && PairOf(t) == pair)
  }

  // The rollup candidates of one owner.

  predicate PairBefore(a: Pair, b: Pair) {
    a.day < b.day || (a.day == b.day && a.security < b.security)
  }

  function InsertPair(p: Pair, pairs: seq<Pair>): seq<Pair> {
    if pairs == [] || PairBefore(p, pairs[0]) then [p] + pairs
    else if p == pairs[0] then pairs
    else [pairs[0]] + InsertPair(p, pairs[1..])
  }

  ghost predicate PairsAscend(pairs: seq<Pair>) {
    forall i, j :: 0 <= i < j < |pairs| ==> PairBefore(pairs[i], pairs[j])
  }

  lemma {:induction false} InsertPairAscends(p: Pair, pairs: seq<Pair>)
    requires PairsAscend(pairs)
    ensures PairsAscend(InsertPair(p, pairs))
    ensures forall x :: x in InsertPair(p, pairs) <==> x == p || x in pairs
  {
    if pairs != [] && !PairBefore(p, pairs[0]) && p != pairs[0] {
      InsertPairAscends(p, pairs[1..]);
      var rest := InsertPair(p, pairs[1..]);
      forall j | 0 <= j < |rest| ensures PairBefore(pairs[0], rest[j]) {
        assert rest[j] in rest;
      }
    }
  }

  /** The distinct cached days and securities of one owner and provider, oldest day first. */
  function Candidates(cache: seq<Tick>, user: nat, provider: Provider): seq<Pair> {
    if cache == [] then []
    else if Of(cache[0], user, provider) then InsertPair(PairOf(cache[0]), Candidates(cache[1..], user, provider))
    else Candidates(cache[1..], user, provider)
  }

  lemma {:induction false} CandidatesSpec(cache: seq<Tick>, user: nat, provider: Provider)
    ensures PairsAscend(Candidates(cache, user, provider))
    ensures forall p :: p in Candidates(cache, user, provider) <==> Filter(InPair(user, provider, p), cache) != []
  {
    if cache != [] {
      CandidatesSpec(cache[1..], user, provider);
      if Of(cache[0], user, provider) {
        InsertPairAscends(PairOf(cache[0]), Candidates(cache[1..], user, provider));
      }
    }
  }

  /** The candidates are the days and securities of the owner's own ticks from that provider. */
  lemma CandidatesAre(cache: seq<Tick>, user: nat, provider: Provider)
    ensures forall p :: p in Candidates(cache, user, provider) <==>
      exists t :: t in cache && t.user == user && t.provider == provider && t.day == p.day && t.security == p.security
  {
    CandidatesSpec(cache, user, provider);
    forall p ensures p in Candidates(cache, user, provider) <==>
      exists t :: t in cache && t.user == user && t.provider == provider && t.day == p.day && t.security == p.security
    {
      var own := Filter(InPair(user, provider, p), cache);
      if own != [] {
        assert own[0] in own;
      }
      if t :| t in cache && t.user == user && t.provider == provider && t.day == p.day && t.security == p.security {
        assert t in own;
      }
    }
  }

  // Promotion.

  /** The newest of some ticks. */
  function Newest(ticks: seq<Tick>): (r: Tick)
    requires ticks != []
    ensures r in ticks
    ensures forall t :: t in ticks ==> t.at <= r.at
  {
    if |ticks| == 1 then ticks[0]
    else
      var rest := Newest(ticks[1..]);
      if rest.at > ticks[0].at then rest else ticks[0]
  }

  /** A user's own row is overwritten; the shared row only by a newer observation. */
  function Promote(promoted: map<Place, Observation>, t: Tick): map<Place, Observation> {
    if t.provider.Yahoo? && PlaceOf(t) in promoted && promoted[PlaceOf(t)].at >= t.at then promoted
    else promoted[PlaceOf(t) := Observation(t.at, t.price)]
  }

  /**
   * A price refresh of the user's own row, or the price fetched when a security joins a watch list, of the shared one.
   * The shared row and a refresh of an earlier day only take a newer observation, a refresh of today takes any.
   */
  function Upserted(promoted: map<Place, Observation>, place: Place, o: Observation, guarded: bool): map<Place, Observation> {
    if guarded && place in promoted && promoted[place].at >= o.at then promoted else promoted[place := o]
  }

  /** The write puts an older observation in place of a newer one. */
  predicate Downgrades(promoted: map<Place, Observation>, place: Place, o: Observation, guarded: bool) {
    !guarded && place in promoted && promoted[place].at > o.at
  }

  /** How the external steps of one pair's rollup go. */
  datatype Verdict = NoMapping | FailsBeforeWrite | FailsAfterWrite(invalidated: bool) | Succeeds

  /** Days of a security whose price a rollup wrote and whose cached valuations were not deleted since. */
  function OwedAfter(owed: set<Pair>, written: bool, verdict: Verdict, pair: Pair): set<Pair> {
    if !written then owed
    else if verdict.Succeeds? || (verdict.FailsAfterWrite? && verdict.invalidated) then owed - {pair}
    else owed + {pair}
  }

  /** The tick is still cached, or its place holds an observation at least as new. */
  predicate Kept(t: Tick, cache: seq<Tick>, promoted: map<Place, Observation>) {
    t in cache || (PlaceOf(t) in promoted && t.at <= promoted[PlaceOf(t)].at)
  }

  /** The pair's window is known to be closed. */
  predicate Closed(pair: Pair, zones: map<nat, LocalTime>) {
    pair.security in zones && Eligible(pair.day, zones[pair.security])
  }

  /** The pair can be cleared now: its window is closed and its rollup goes through. */
  predicate Clears(pair: Pair, zones: map<nat, LocalTime>, verdict: Verdict) {
    Closed(pair, zones) && verdict.Succeeds?
  }

  /** Rows of the pairs done so far that did not clear, and everybody else's rows. */
  function Remaining(user: nat, provider: Provider, done: seq<Pair>, zones: map<nat, LocalTime>,
                     verdict: (nat, Pair) -> Verdict): Tick -> bool {
    (t: Tick) => !(Of(t, user, provider) && PairOf(t) in done && Clears(PairOf(t), zones, verdict(user, PairOf(t))))
  }

  lemma RemainingSnoc(user: nat, provider: Provider, done: seq<Pair>, pair: Pair, zones: map<nat, LocalTime>,
                      verdict: (nat, Pair) -> Verdict, cache: seq<Tick>)
    ensures Filter(Remaining(user, provider, done + [pair], zones, verdict), cache)
         == if Clears(pair, zones, verdict(user, pair))
            then Filter(NotInPair(user, provider, pair), Filter(Remaining(user, provider, done, zones, verdict), cache))
            else Filter(Remaining(user, provider, done, zones, verdict), cache)
  {
    var before, after := Remaining(user, provider, done, zones, verdict), Remaining(user, provider, done + [pair], zones, verdict);
    if Clears(pair, zones, verdict(user, pair)) {
      FilterCompose(before, NotInPair(user, provider, pair), after, cache);
    } else {
      FilterAgree(before, after, cache);
    }
  }

  /** While any of the ticks captured for a user's own place is cached, all of them are. */
  ghost predicate OwnPlacesWhole(cache: seq<Tick>, captured: set<Tick>) {
    forall t, u :: t in cache && u in captured && SameOwnPlace(t, u) ==> u in cache
  }

  predicate SameOwnPlace(t: Tick, u: Tick) {
    t.provider.Sharesight? && PlaceOf(u) == PlaceOf(t)
  }

  /** The observation is a captured tick's own instant and price. */
  ghost predicate IsCaptured(place: Place, o: Observation, captured: set<Tick>) {
    exists t :: t in captured && PlaceOf(t) == place && o == Observation(t.at, t.price)
  }

  /** Everything promoted was captured, or written by somebody else. */
  ghost predicate FromWriters(promoted: map<Place, Observation>, captured: set<Tick>, others: set<(Place, Observation)>) {
    forall place :: place in promoted ==>
      IsCaptured(place, promoted[place], captured) || (place, promoted[place]) in others
  }

  /**
   * Nothing captured is lost: it is cached, or its place holds something at least as new, unless another writer put
   * something older there since the last rollup.
   */
  ghost predicate NothingLost(cache: seq<Tick>, promoted: map<Place, Observation>, captured: set<Tick>,
                              others: set<(Place, Observation)>, downgraded: set<Place>) {
    && (forall t :: t in cache ==> t in captured)
    && (forall t :: t in captured && PlaceOf(t) !in downgraded ==> Kept(t, cache, promoted))
    && OwnPlacesWhole(cache, captured)
    && FromWriters(promoted, captured, others)
    && (forall place :: place in downgraded ==> place.OwnPlace?)
  }

  /** What others wrote is kept too, but at places where something older once replaced something newer. */
  ghost predicate OthersKept(promoted: map<Place, Observation>, others: set<(Place, Observation)>, lowered: set<Place>) {
    && (forall w :: w in others ==> w.0 in promoted && (w.0 in lowered || w.1.at <= promoted[w.0].at))
    && (forall place :: place in lowered ==> place.OwnPlace?)
  }

  class Capture {
    var cache: seq<Tick>
    var promoted: map<Place, Observation>
    var zones: map<nat, LocalTime>
    var rolledUp: nat
    var purged: nat
    var skippedNoMapping: nat
    var rollupsFailed: nat
    var owed: set<Pair>

    /** Every tick ever captured. */
    ghost var captured: set<Tick>

    /**
     * Every observation written by somebody else; the places where that put something older since their last rollup;
     * and those where any write, a rollup's too, ever did.
     */
    ghost var others: set<(Place, Observation)>
    ghost var downgraded: set<Place>
    ghost var lowered: set<Place>

    /** Nothing captured is lost, and only ticks of closed windows are ever purged. */
    ghost predicate Valid()
      reads this
    {
      && NothingLost(cache, promoted, captured, others, downgraded)
      && OthersKept(promoted, others, lowered)
      && (forall t :: t in captured && t !in cache ==> Closed(PairOf(t), zones))
    }

    constructor (zones: map<nat, LocalTime>)
      ensures Valid() && cache == [] && promoted == map[] && this.zones == zones && captured == {} && owed == {}
      ensures others == {} && downgraded == {} && lowered == {}
    {
      cache, promoted, this.zones := [], map[], zones;
      captured, others, downgraded, lowered := {}, {}, {}, {};
      rolledUp, purged, skippedNoMapping, rollupsFailed, owed := 0, 0, 0, 0, {};
    }

    /** A refresh or a first watch-list price, at any time, also while the day's window is open. */
    method WriteElsewhere(place: Place, o: Observation, guarded: bool)
      requires Valid() && (place.SharedPlace? ==> guarded)
      modifies this`promoted, this`others, this`downgraded, this`lowered
      ensures Valid() && promoted == Upserted(old(promoted), place, o, guarded)
      ensures others == old(others) + {(place, o)}
      ensures downgraded == if Downgrades(old(promoted), place, o, guarded) then old(downgraded) + {place} else old(downgraded)
      ensures lowered == if Downgrades(old(promoted), place, o, guarded) then old(lowered) + {place} else old(lowered)
    {
      UpsertKeeps(cache, promoted, captured, others, downgraded, place, o, guarded);
      if Downgrades(promoted, place, o, guarded) {
        downgraded, lowered := downgraded + {place}, lowered + {place};
      }
      others := others + {(place, o)};
      promoted := Upserted(promoted, place, o, guarded);
    }

    /** Local time moves on in every market. */
    method Advance(later: map<nat, LocalTime>)
      requires Valid() && later.Keys == zones.Keys
      requires forall s :: s in zones ==> Earlier(zones[s], later[s])
      modifies this`zones
      ensures Valid() && zones == later
    {
      zones := later;
    }

    /** A new tick of an open window is cached once; a repeat is a no-op. */
    method Insert(t: Tick) returns (inserted: bool)
      requires Valid()
      modifies this`cache, this`captured
      ensures Valid()
      ensures cache == if inserted then old(cache) + [t] else old(cache)
      ensures captured == if inserted then old(captured) + {t} else old(captured)
      ensures inserted <==>
        && t.security in zones && t.day == zones[t.security].day && WithinWindow(zones[t.security])
        && (zones[t.security].weekday && 10 * 60 + 25 <= zones[t.security].minutes <= 16 * 60 + 25)
        && forall x :: x in old(cache) ==> !(Of(x, t.user, t.provider) && x.security == t.security && x.at == t.at)
    {
      inserted := false;
      if t.security in zones && t.day == zones[t.security].day && WithinWindow(zones[t.security]) {
        for i := 0 to |cache|
          invariant forall j :: 0 <= j < i ==>
            !(Of(cache[j], t.user, t.provider) && cache[j].security == t.security && cache[j].at == t.at)
        {
          if Of(cache[i], t.user, t.provider) && cache[i].security == t.security && cache[i].at == t.at {
            return;
          }
        }
        assert forall u :: u in captured && SameOwnPlace(t, u) ==> PairOf(u) == PairOf(t) && u in cache;
        cache, captured := cache + [t], captured + {t};
        inserted := true;
      }
    }

    /** One pair: promote its last tick, then purge it; a failure leaves the cache alone. */
    method RollUpPair(user: nat, provider: Provider, pair: Pair, verdict: Verdict)
      requires Valid() && Filter(InPair(user, provider, pair), cache) != []
      modifies this`cache, this`promoted, this`rolledUp, this`purged, this`skippedNoMapping, this`rollupsFailed, this`owed
      modifies this`downgraded, this`lowered
      ensures Valid()
      ensures cache == if Clears(pair, zones, verdict) then Filter(NotInPair(user, provider, pair), old(cache)) else old(cache)
      ensures promoted == if Closed(pair, zones) && (verdict.Succeeds? || verdict.FailsAfterWrite?)
                          then Promote(old(promoted), Newest(Filter(InPair(user, provider, pair), old(cache))))
                          else old(promoted)
      ensures owed == if Closed(pair, zones) && (verdict.Succeeds? || verdict.FailsAfterWrite?)
                      then OwedAfter(old(owed), !Guarded(old(promoted), Newest(Filter(InPair(user, provider, pair), old(cache)))),
                                     verdict, pair)
                      else old(owed)
      ensures purged - old(purged) == |old(cache)| - |cache|
      ensures skippedNoMapping - old(skippedNoMapping) == if Closed(pair, zones) && verdict.NoMapping? then 1 else 0
      ensures rollupsFailed - old(rollupsFailed)
           == if Closed(pair, zones) && (verdict.FailsBeforeWrite? || verdict.FailsAfterWrite?) then 1 else 0
      ensures rolledUp - old(rolledUp)
           == if Closed(pair, zones) && (verdict.Succeeds? || verdict.FailsAfterWrite?)
                 && !Guarded(old(promoted), Newest(Filter(InPair(user, provider, pair), old(cache)))) then 1 else 0
    {
      if Closed(pair, zones) {
        match verdict {
          case NoMapping =>
            skippedNoMapping := skippedNoMapping + 1;
          case FailsBeforeWrite =>
            rollupsFailed := rollupsFailed + 1;
          case _ =>
            RollUpClosed(user, provider, pair, verdict);
        }
      }
    }

    /** The write, the invalidation behind it if there was one, and the purge; any of the three may be the last. */
    method RollUpClosed(user: nat, provider: Provider, pair: Pair, verdict: Verdict)
      requires Valid() && Filter(InPair(user, provider, pair), cache) != []
      requires Closed(pair, zones) && (verdict.Succeeds? || verdict.FailsAfterWrite?)
      modifies this`cache, this`promoted, this`rolledUp, this`purged, this`rollupsFailed, this`owed, this`downgraded, this`lowered
      ensures Valid()
      ensures cache == if verdict.Succeeds? then Filter(NotInPair(user, provider, pair), old(cache)) else old(cache)
      ensures promoted == Promote(old(promoted), Newest(Filter(InPair(user, provider, pair), old(cache))))
      ensures owed == OwedAfter(old(owed), !Guarded(old(promoted), Newest(Filter(InPair(user, provider, pair), old(cache)))),
                                verdict, pair)
      ensures purged - old(purged) == |old(cache)| - |cache|
      ensures rollupsFailed - old(rollupsFailed) == if verdict.FailsAfterWrite? then 1 else 0
      ensures rolledUp - old(rolledUp)
           == if Guarded(old(promoted), Newest(Filter(InPair(user, provider, pair), old(cache)))) then 0 else 1
    {
      var point := Newest(Filter(InPair(user, provider, pair), cache));
      var written := Write(user, provider, pair, point);
      owed := OwedAfter(owed, written, verdict, pair);
      if verdict.Succeeds? {
        Purge(user, provider, pair);
      } else {
        rollupsFailed := rollupsFailed + 1;
      }
    }

    /** The upsert into the price table. */
    method Write(user: nat, provider: Provider, pair: Pair, point: Tick) returns (written: bool)
      requires Valid() && Closed(pair, zones) && Filter(InPair(user, provider, pair), cache) != []
      requires point == Newest(Filter(InPair(user, provider, pair), cache))
      modifies this`promoted, this`rolledUp, this`downgraded, this`lowered
      ensures Valid() && promoted == Promote(old(promoted), point)
      ensures downgraded == if Guarded(old(promoted), point) then old(downgraded) else old(downgraded) - {PlaceOf(point)}
      ensures lowered == if Overtakes(old(promoted), point) then old(lowered) + {PlaceOf(point)} else old(lowered)
      ensures written <==> !Guarded(old(promoted), point)
      ensures rolledUp - old(rolledUp) == if written then 1 else 0
      ensures Covered(user, provider, pair)
    {
      PromotionKeeps(cache, promoted, captured, others, downgraded, user, provider, pair);
      written := !Guarded(promoted, point);
      if written {
        downgraded := downgraded - {PlaceOf(point)};
        if Overtakes(promoted, point) {
          lowered := lowered + {PlaceOf(point)};
        }
        rolledUp := rolledUp + 1;
      }
      promoted := Promote(promoted, point);
    }

    /** The pair's place holds something as new as each of its cached ticks. */
    ghost predicate Covered(user: nat, provider: Provider, pair: Pair)
      reads this
    {
      forall t :: t in cache && Of(t, user, provider) && PairOf(t) == pair ==>
        PlaceOf(t) in promoted && t.at <= promoted[PlaceOf(t)].at
    }

    /** The delete, only ever reached behind a successful write. */
    method Purge(user: nat, provider: Provider, pair: Pair)
      requires Valid() && Covered(user, provider, pair) && Closed(pair, zones)
      modifies this`cache, this`purged
      ensures Valid() && cache == Filter(NotInPair(user, provider, pair), old(cache))
      ensures purged - old(purged) == |old(cache)| - |cache|
    {
      var left := Filter(NotInPair(user, provider, pair), cache);
      FilterShorter(NotInPair(user, provider, pair), cache);
      PurgeKeeps(cache, promoted, captured, others, downgraded, user, provider, pair);
      purged := purged + |cache| - |left|;
      cache := left;
    }

    /** The turn of one of an owner's candidates. */
    method SweepPair(setting: Setting, verdict: (nat, Pair) -> Verdict, ghost before: seq<Tick>, pair: Pair, ghost k: nat)
      requires Valid() && k < |FirstPairs(before, setting)| && pair == FirstPairs(before, setting)[k]
      requires cache == After(before, setting, k, zones, verdict)
      modifies this`cache, this`promoted, this`rolledUp, this`purged, this`skippedNoMapping, this`rollupsFailed, this`owed
      modifies this`downgraded, this`lowered
      ensures Valid() && cache == After(before, setting, k + 1, zones, verdict)
      ensures purged - old(purged) == |old(cache)| - |cache|
      ensures forall p :: p in owed ==> p in old(owed) || verdict(setting.user, p) == FailsAfterWrite(false)
    {
      AfterSnoc(before, setting, k, zones, verdict);
      RollUpPair(setting.user, setting.provider, pair, verdict(setting.user, pair));
    }

    /** One owner's candidates, oldest first, each on its own: a failing pair never stops a later one. */
    method SweepOwner(setting: Setting, verdict: (nat, Pair) -> Verdict)
      requires Valid()
      modifies this`cache, this`promoted, this`rolledUp, this`purged, this`skippedNoMapping, this`rollupsFailed, this`owed
      modifies this`downgraded, this`lowered
      ensures Valid()
      ensures cache == After(old(cache), setting, |FirstPairs(old(cache), setting)|, zones, verdict)
      ensures purged - old(purged) == |old(cache)| - |cache|
      ensures forall p :: p in owed ==> p in old(owed) || verdict(setting.user, p) == FailsAfterWrite(false)
    {
      var candidates := FirstPairs(cache, setting);
      ghost var before := cache;
      AfterNone(before, setting, zones, verdict);
      for k := 0 to |candidates|
        invariant Valid() && zones == old(zones)
        invariant cache == After(before, setting, k, zones, verdict)
        invariant purged - old(purged) == |before| - |cache|
        invariant forall p :: p in owed ==> p in old(owed) || verdict(setting.user, p) == FailsAfterWrite(false)
      {
        SweepPair(setting, verdict, before, candidates[k], k);
      }
    }

    /** The rollup phase: every owner, under its current provider, whatever was captured just now. */
    method SweepAll(settings: seq<Setting>, verdict: (nat, Pair) -> Verdict)
      requires Valid()
      modifies this`cache, this`promoted, this`rolledUp, this`purged, this`skippedNoMapping, this`rollupsFailed, this`owed
      modifies this`downgraded, this`lowered
      ensures Valid()
      ensures purged - old(purged) == |old(cache)| - |cache|
      ensures cache == AfterAll(old(cache), settings, zones, verdict)
      ensures forall p :: Untouched(settings, p) ==> Filter(p, cache) == Filter(p, old(cache))
    {
      for i := 0 to |settings|
        invariant Valid() && zones == old(zones)
        invariant cache == AfterAll(old(cache), settings[..i], zones, verdict)
        invariant purged - old(purged) == |old(cache)| - |cache|
        invariant forall p :: Untouched(settings, p) ==> Filter(p, cache) == Filter(p, old(cache))
      {
        ghost var before := cache;
        assert settings[..i + 1][..i] == settings[..i];
        SweepOwner(settings[i], verdict);
        forall p | Untouched(settings, p) ensures Filter(p, cache) == Filter(p, before) {
          FilterWithin(Remaining(settings[i].user, settings[i].provider, FirstPairs(before, settings[i])[..|FirstPairs(before, settings[i])|], zones, verdict), p, before);
        }
      }
      assert settings[..|settings|] == settings;
    }
  }

  /** What one sweep after another leaves, owner by owner. */
  ghost function AfterAll(cache: seq<Tick>, settings: seq<Setting>, zones: map<nat, LocalTime>, verdict: (nat, Pair) -> Verdict): seq<Tick> {
    if settings == [] then cache
    else
      var n := |settings| - 1;
      var before := AfterAll(cache, settings[..n], zones, verdict);
      After(before, settings[n], |FirstPairs(before, settings[n])|, zones, verdict)
  }

  /** p picks no tick of an owner's current provider. */
  ghost predicate Untouched(settings: seq<Setting>, p: Tick -> bool) {
    forall i, t :: 0 <= i < |settings| && p(t) ==> !Of(t, settings[i].user, settings[i].provider)
  }

  /** The pairs one sweep looks at for an owner. */
  function FirstPairs(cache: seq<Tick>, setting: Setting): seq<Pair> {
    var candidates := Candidates(cache, setting.user, setting.provider);
    if |candidates| > MAX_PAIRS_PER_USER then candidates[..MAX_PAIRS_PER_USER] else candidates
  }

  /** The shared row already holds something as new. */
  predicate Guarded(promoted: map<Place, Observation>, t: Tick) {
    t.provider.Yahoo? && PlaceOf(t) in promoted && promoted[PlaceOf(t)].at >= t.at
  }

  /** A guarded row is replaced by nothing but a strictly newer observation, whoever writes. */
  lemma GuardHolds(promoted: map<Place, Observation>, t: Tick, o: Observation)
    ensures t.provider.Yahoo? && PlaceOf(t) in promoted && Promote(promoted, t) != promoted ==> promoted[PlaceOf(t)].at < t.at
    ensures PlaceOf(t) in promoted && Upserted(promoted, PlaceOf(t), o, true) != promoted ==> promoted[PlaceOf(t)].at < o.at
    ensures PlaceOf(t) in promoted && promoted[PlaceOf(t)].at < o.at ==> Upserted(promoted, PlaceOf(t), o, true)[PlaceOf(t)] == o
  {
  }

  /** A rollup's write puts an older observation in place of a newer one. */
  predicate Overtakes(promoted: map<Place, Observation>, t: Tick) {
    t.provider.Sharesight? && PlaceOf(t) in promoted && t.at < promoted[PlaceOf(t)].at
  }

  /** That happens exactly on a user's own row that holds something newer: its upsert has no guard. */
  lemma OvertakesIff(promoted: map<Place, Observation>, t: Tick)
    requires PlaceOf(t) in promoted
    ensures Overtakes(promoted, t) <==> Promote(promoted, t)[PlaceOf(t)].at < promoted[PlaceOf(t)].at
  {
  }

  /**
   * A rollup that wrote and failed before invalidating leaves its day owed. Its retry, with nothing newer captured,
   * writes and invalidates again for a user's own row, but finds the shared row as new already and does neither:
   * there the day stays owed, although the retry succeeds and its ticks are purged.
   */
  lemma RetryOwesIff(owed: set<Pair>, promoted: map<Place, Observation>, point: Tick)
    requires !Guarded(promoted, point)
    ensures var pair := PairOf(point);
      var first := OwedAfter(owed, !Guarded(promoted, point), FailsAfterWrite(false), pair);
      var second := OwedAfter(first, !Guarded(Promote(promoted, point), point), Succeeds, pair);
      pair in first && (pair in second <==> point.provider.Yahoo?)
  {
  }

  /** The cache once an owner's first k pairs have been dealt with. */
  function After(before: seq<Tick>, setting: Setting, k: nat, zones: map<nat, LocalTime>, verdict: (nat, Pair) -> Verdict): seq<Tick>
    requires k <= |FirstPairs(before, setting)|
  {
    Filter(Remaining(setting.user, setting.provider, FirstPairs(before, setting)[..k], zones, verdict), before)
  }

  lemma AfterNone(before: seq<Tick>, setting: Setting, zones: map<nat, LocalTime>, verdict: (nat, Pair) -> Verdict)
    ensures After(before, setting, 0, zones, verdict) == before
  {
    FilterAll(Remaining(setting.user, setting.provider, FirstPairs(before, setting)[..0], zones, verdict), before);
  }

  lemma AfterSnoc(before: seq<Tick>, setting: Setting, k: nat, zones: map<nat, LocalTime>, verdict: (nat, Pair) -> Verdict)
    requires k < |FirstPairs(before, setting)|
    ensures var pair := FirstPairs(before, setting)[k];
      var now := After(before, setting, k, zones, verdict);
      && Filter(InPair(setting.user, setting.provider, pair), now) != []
      && After(before, setting, k + 1, zones, verdict)
         == if Clears(pair, zones, verdict(setting.user, pair)) then Filter(NotInPair(setting.user, setting.provider, pair), now)
            else now
  {
    var pairs := FirstPairs(before, setting);
    NotYetDone(before, setting, k, zones, verdict);
    RemainingSnoc(setting.user, setting.provider, pairs[..k], pairs[k], zones, verdict, before);
    assert pairs[..k + 1] == pairs[..k] + [pairs[k]];
  }

  /** Rows of a pair whose turn has not come are all still there. */
  lemma NotYetDone(before: seq<Tick>, setting: Setting, k: nat, zones: map<nat, LocalTime>, verdict: (nat, Pair) -> Verdict)
    requires k < |FirstPairs(before, setting)|
    ensures var pairs := FirstPairs(before, setting);
      Filter(InPair(setting.user, setting.provider, pairs[k]),
             Filter(Remaining(setting.user, setting.provider, pairs[..k], zones, verdict), before)) != []
  {
    var pairs := FirstPairs(before, setting);
    CandidatesSpec(before, setting.user, setting.provider);
    assert pairs[k] in Candidates(before, setting.user, setting.provider);
    var own := Filter(InPair(setting.user, setting.provider, pairs[k]), before);
    assert own[0] in own;
    assert pairs[k] !in pairs[..k] by {
      assert forall j :: 0 <= j < k ==> PairBefore(pairs[j], pairs[k]);
    }
    var left := Filter(Remaining(setting.user, setting.provider, pairs[..k], zones, verdict), before);
    assert own[0] in left;
    assert own[0] in Filter(InPair(setting.user, setting.provider, pairs[k]), left);
  }

  /** Another writer's row loses nothing, but where it puts something older. */
  lemma UpsertKeeps(cache: seq<Tick>, promoted: map<Place, Observation>, captured: set<Tick>,
                    others: set<(Place, Observation)>, downgraded: set<Place>, place: Place, o: Observation, guarded: bool)
    requires NothingLost(cache, promoted, captured, others, downgraded) && (place.SharedPlace? ==> guarded)
    ensures NothingLost(cache, Upserted(promoted, place, o, guarded), captured, others + {(place, o)},
                        if Downgrades(promoted, place, o, guarded) then downgraded + {place} else downgraded)
  {
  }

  /** After promoting a pair's newest tick, every captured tick is still covered, and its place no longer downgraded. */
  lemma PromotionKeeps(cache: seq<Tick>, promoted: map<Place, Observation>, captured: set<Tick>,
                       others: set<(Place, Observation)>, downgraded: set<Place>, user: nat, provider: Provider, pair: Pair)
    requires Filter(InPair(user, provider, pair), cache) != []
    requires NothingLost(cache, promoted, captured, others, downgraded)
    ensures var point := Newest(Filter(InPair(user, provider, pair), cache));
      var after := Promote(promoted, point);
      && NothingLost(cache, after, captured, others, downgraded - (if Guarded(promoted, point) then {} else {PlaceOf(point)}))
      && (forall t :: t in cache && Of(t, user, provider) && PairOf(t) == pair ==>
            PlaceOf(t) in after && t.at <= after[PlaceOf(t)].at)
  {
    var own := Filter(InPair(user, provider, pair), cache);
    var point := Newest(own);
    var after := Promote(promoted, point);
    assert point in cache;
    forall t | t in cache && Of(t, user, provider) && PairOf(t) == pair
      ensures PlaceOf(t) in after && t.at <= after[PlaceOf(t)].at
    {
      assert t in own;
    }
    forall t | t in captured && PlaceOf(t) !in downgraded - (if Guarded(promoted, point) then {} else {PlaceOf(point)})
      ensures Kept(t, cache, after)
    {
      assert SameOwnPlace(point, t) ==> t in cache;
    }
    assert IsCaptured(PlaceOf(point), Observation(point.at, point.price), captured);
  }

  /** Deleting a covered pair loses nothing. */
  lemma PurgeKeeps(cache: seq<Tick>, promoted: map<Place, Observation>, captured: set<Tick>,
                   others: set<(Place, Observation)>, downgraded: set<Place>, user: nat, provider: Provider, pair: Pair)
    requires NothingLost(cache, promoted, captured, others, downgraded)
    requires forall t :: t in cache && Of(t, user, provider) && PairOf(t) == pair ==>
      PlaceOf(t) in promoted && t.at <= promoted[PlaceOf(t)].at
    ensures NothingLost(Filter(NotInPair(user, provider, pair), cache), promoted, captured, others, downgraded)
  {
    var left := Filter(NotInPair(user, provider, pair), cache);
    forall t | t in captured && PlaceOf(t) !in downgraded ensures Kept(t, left, promoted) {
      if t in cache && t !in left {
        assert Of(t, user, provider) && PairOf(t) == pair;
      }
    }
    forall t, u | t in left && u in captured && SameOwnPlace(t, u) ensures u in left {
      assert t in cache;
      assert Of(u, user, provider) && PairOf(u) == pair ==> Of(t, user, provider) && PairOf(t) == pair;
    }
  }

  ghost predicate IsLast(t: Tick, place: Place, captured: set<Tick>) {
    t in captured && PlaceOf(t) == place && forall u :: u in captured && PlaceOf(u) == place ==> u.at <= t.at
  }

  /**
   * Once none of a day's ticks is cached, its place holds the instant and price of the last one captured, or what
   * another writer observed no earlier, unless one put something older there.
   */
  lemma LastTickSurvives(cache: seq<Tick>, promoted: map<Place, Observation>, captured: set<Tick>,
                         others: set<(Place, Observation)>, downgraded: set<Place>, place: Place)
    requires NothingLost(cache, promoted, captured, others, downgraded)
    requires exists t :: t in captured && PlaceOf(t) == place
    requires place !in downgraded && forall t :: t in cache ==> PlaceOf(t) != place
    ensures place in promoted
    ensures forall t :: IsLast(t, place, captured) ==> t.at <= promoted[place].at
    ensures (exists t :: IsLast(t, place, captured) && promoted[place] == Observation(t.at, t.price))
      || (place, promoted[place]) in others
  {
    var t :| t in captured && PlaceOf(t) == place;
    assert Kept(t, cache, promoted);
    if IsCaptured(place, promoted[place], captured) {
      var last :| last in captured && PlaceOf(last) == place && promoted[place] == Observation(last.at, last.price);
      forall u | u in captured && PlaceOf(u) == place ensures u.at <= last.at {
        assert Kept(u, cache, promoted);
      }
      assert IsLast(last, place, captured);
    }
  }

  /** The newest of all that was captured for a place or written to it by others. */
  ghost predicate NewestOfAll(o: Observation, place: Place, captured: set<Tick>, others: set<(Place, Observation)>) {
    && (IsCaptured(place, o, captured) || (place, o) in others)
    && (forall t :: t in captured && PlaceOf(t) == place ==> t.at <= o.at)
    && (forall w :: w in others && w.0 == place ==> w.1.at <= o.at)
  }

  /** A place nothing was ever lowered at ends with the newest observation anybody made; so every shared row does. */
  lemma NewestSurvives(cache: seq<Tick>, promoted: map<Place, Observation>, captured: set<Tick>,
                       others: set<(Place, Observation)>, downgraded: set<Place>, lowered: set<Place>, place: Place)
    requires NothingLost(cache, promoted, captured, others, downgraded) && OthersKept(promoted, others, lowered)
    requires place in promoted && (place.SharedPlace? || (place !in downgraded && place !in lowered))
    requires forall t :: t in cache ==> PlaceOf(t) != place
    ensures NewestOfAll(promoted[place], place, captured, others)
  {
    forall t | t in captured && PlaceOf(t) == place ensures t.at <= promoted[place].at {
      assert Kept(t, cache, promoted);
    }
  }

  lemma {:induction false} FilterShorter<T(!new)>(p: T -> bool, s: seq<T>)
    ensures |Filter(p, s)| <= |s|
  {
    if s != [] {
      FilterShorter(p, s[1..]);
    }
  }

  // Progress, for one owner with windows, verdicts and captures fixed.

  /** The candidates a sweep leaves: beyond the first k, and those of the first k that do not clear. */
  function Left(pairs: seq<Pair>, clears: Pair -> bool, k: nat): seq<Pair> {
    if pairs == [] then []
    else if k > 0 && clears(pairs[0]) then Left(pairs[1..], clears, k - 1)
    else [pairs[0]] + Left(pairs[1..], clears, if k > 0 then k - 1 else 0)
  }

  function Stuck(clears: Pair -> bool): Pair -> bool {
    (p: Pair) => !clears(p)
  }

  /** Stuck pairs stay; of the others at least as many are cleared as the limit leaves room for. */
  lemma {:induction false} SweepProgress(pairs: seq<Pair>, clears: Pair -> bool, k: nat)
    ensures Filter(Stuck(clears), Left(pairs, clears, k)) == Filter(Stuck(clears), pairs)
    ensures |Filter(clears, Left(pairs, clears, k))| <= |Filter(clears, pairs)|
    ensures |Filter(clears, Left(pairs, clears, k))| == 0
      || |Filter(clears, pairs)| - |Filter(clears, Left(pairs, clears, k))| >= k - |Filter(Stuck(clears), pairs)|
  {
    if pairs != [] {
      var next: nat := if k > 0 then k - 1 else 0;
      SweepProgress(pairs[1..], clears, next);
      if !(k > 0 && clears(pairs[0])) {
        assert Left(pairs, clears, k)[1..] == Left(pairs[1..], clears, next);
      }
    }
  }

  function AfterSweeps(pairs: seq<Pair>, clears: Pair -> bool, k: nat, sweeps: nat): seq<Pair>
    decreases sweeps
  {
    if sweeps == 0 then pairs else AfterSweeps(Left(pairs, clears, k), clears, k, sweeps - 1)
  }

  lemma OneSweep(pairs: seq<Pair>, clears: Pair -> bool, k: nat, sweeps: nat)
    requires |Filter(Stuck(clears), pairs)| < k && 0 < sweeps && sweeps >= |Filter(clears, pairs)|
    ensures Filter(Stuck(clears), Left(pairs, clears, k)) == Filter(Stuck(clears), pairs)
    ensures |Filter(clears, Left(pairs, clears, k))| <= sweeps - 1
  {
    SweepProgress(pairs, clears, k);
  }

  /** With fewer stuck pairs than the limit, every sweep clears at least one other pair until none remain. */
  lemma {:induction false} SweepsClear(pairs: seq<Pair>, clears: Pair -> bool, k: nat, sweeps: nat)
    requires |Filter(Stuck(clears), pairs)| < k && sweeps >= |Filter(clears, pairs)|
    ensures Filter(clears, AfterSweeps(pairs, clears, k, sweeps)) == []
    ensures Filter(Stuck(clears), AfterSweeps(pairs, clears, k, sweeps)) == Filter(Stuck(clears), pairs)
    decreases sweeps
  {
    if sweeps > 0 {
      var left := Left(pairs, clears, k);
      OneSweep(pairs, clears, k, sweeps);
      SweepsClear(left, clears, k, sweeps - 1);
    }
  }

  function ClearsNow(zones: map<nat, LocalTime>, verdict: (nat, Pair) -> Verdict, user: nat): Pair -> bool {
    (p: Pair) => Clears(p, zones, verdict(user, p))
  }

  lemma {:induction false} LeftMembers(pairs: seq<Pair>, clears: Pair -> bool, k: nat)
    requires PairsAscend(pairs)
    ensures PairsAscend(Left(pairs, clears, k))
    ensures forall p :: p in Left(pairs, clears, k) <==>
      p in pairs && !(p in pairs[..if k < |pairs| then k else |pairs|] && clears(p))
  {
    if pairs != [] {
      var next: nat := if k > 0 then k - 1 else 0;
      LeftMembers(pairs[1..], clears, next);
      var m := if k < |pairs| then k else |pairs|;
      assert k > 0 ==> pairs[..m] == [pairs[0]] + pairs[1..][..m - 1];
      var rest := Left(pairs[1..], clears, next);
      forall j | 0 <= j < |rest| ensures PairBefore(pairs[0], rest[j]) {
        assert rest[j] in rest;
        var i :| 0 <= i < |pairs[1..]| && pairs[1..][i] == rest[j];
        assert pairs[i + 1] == rest[j];
      }
      assert pairs[0] !in pairs[1..] by {
        assert forall i :: 0 < i < |pairs| ==> PairBefore(pairs[0], pairs[i]);
      }
    }
  }

  /** Two ascending lists with the same members are the same list. */
  lemma {:induction false} AscendingUnique(a: seq<Pair>, b: seq<Pair>)
    requires PairsAscend(a) && PairsAscend(b) && forall p :: p in a <==> p in b
    ensures a == b
  {
    assert a != [] ==> a[0] in a && a[0] in b;
    assert b != [] ==> b[0] in b && b[0] in a;
    if a != [] && b != [] {
      forall p ensures p in a[1..] <==> p in b[1..] {
        assert p in a[1..] <==> p in a && p != a[0];
        assert p in b[1..] <==> p in b && p != b[0];
      }
      AscendingUnique(a[1..], b[1..]);
      assert a == [a[0]] + a[1..] && b == [b[0]] + b[1..];
    }
  }

  /** What SweepOwner leaves cached has exactly the candidates the progress argument speaks of. */
  lemma SweepLeaves(cache: seq<Tick>, setting: Setting, zones: map<nat, LocalTime>, verdict: (nat, Pair) -> Verdict)
    ensures var after := After(cache, setting, |FirstPairs(cache, setting)|, zones, verdict);
      Candidates(after, setting.user, setting.provider)
      == Left(Candidates(cache, setting.user, setting.provider), ClearsNow(zones, verdict, setting.user), MAX_PAIRS_PER_USER)
  {
    var user, provider := setting.user, setting.provider;
    var first, all := FirstPairs(cache, setting), Candidates(cache, user, provider);
    var stays := Remaining(user, provider, first, zones, verdict);
    assert first[..|first|] == first;
    var after := Filter(stays, cache);
    var left := Left(all, ClearsNow(zones, verdict, user), MAX_PAIRS_PER_USER);
    CandidatesSpec(cache, user, provider);
    CandidatesSpec(after, user, provider);
    LeftMembers(all, ClearsNow(zones, verdict, user), MAX_PAIRS_PER_USER);
    forall p ensures p in Candidates(after, user, provider) <==> p in left {
      var own := InPair(user, provider, p);
      if p in first && Clears(p, zones, verdict(user, p)) {
        FilterNone(own, after);
      } else {
        FilterWithin(stays, own, cache);
      }
      assert first == all[..if MAX_PAIRS_PER_USER < |all| then MAX_PAIRS_PER_USER else |all|];
    }
    AscendingUnique(Candidates(after, user, provider), left);
  }

  /** The cache after some sweeps of one owner, with windows and verdicts fixed and nothing captured. */
  function CacheAfter(cache: seq<Tick>, setting: Setting, zones: map<nat, LocalTime>, verdict: (nat, Pair) -> Verdict,
                      sweeps: nat): seq<Tick>
    decreases sweeps
  {
    if sweeps == 0 then cache
    else CacheAfter(After(cache, setting, |FirstPairs(cache, setting)|, zones, verdict), setting, zones, verdict, sweeps - 1)
  }

  lemma {:induction false} CacheFollows(cache: seq<Tick>, setting: Setting, zones: map<nat, LocalTime>,
      verdict: (nat, Pair) -> Verdict, sweeps: nat)
    ensures Candidates(CacheAfter(cache, setting, zones, verdict, sweeps), setting.user, setting.provider)
         == AfterSweeps(Candidates(cache, setting.user, setting.provider), ClearsNow(zones, verdict, setting.user),
                        MAX_PAIRS_PER_USER, sweeps)
    decreases sweeps
  {
    if sweeps > 0 {
      var next := After(cache, setting, |FirstPairs(cache, setting)|, zones, verdict);
      SweepLeaves(cache, setting, zones, verdict);
      CacheFollows(next, setting, zones, verdict, sweeps - 1);
    }
  }

  /**
   * Repeated sweeps over the cache: with fewer stuck pairs than a sweep looks at, as many sweeps as there are pairs
   * that can clear leave no tick of any of these cached, and every stuck pair still a candidate.
   */
  lemma CacheClears(cache: seq<Tick>, setting: Setting, zones: map<nat, LocalTime>, verdict: (nat, Pair) -> Verdict, sweeps: nat)
    requires var pairs, clears := Candidates(cache, setting.user, setting.provider), ClearsNow(zones, verdict, setting.user);
      |Filter(Stuck(clears), pairs)| < MAX_PAIRS_PER_USER && sweeps >= |Filter(clears, pairs)|
    ensures var after, clears := CacheAfter(cache, setting, zones, verdict, sweeps), ClearsNow(zones, verdict, setting.user);
      && (forall p :: clears(p) ==> Filter(InPair(setting.user, setting.provider, p), after) == [])
      && Filter(Stuck(clears), Candidates(after, setting.user, setting.provider))
         == Filter(Stuck(clears), Candidates(cache, setting.user, setting.provider))
  {
    var user, provider := setting.user, setting.provider;
    var pairs, clears := Candidates(cache, user, provider), ClearsNow(zones, verdict, user);
    var after := CacheAfter(cache, setting, zones, verdict, sweeps);
    CacheFollows(cache, setting, zones, verdict, sweeps);
    SweepsClear(pairs, clears, MAX_PAIRS_PER_USER, sweeps);
    CandidatesSpec(after, user, provider);
    forall p | clears(p) ensures Filter(InPair(user, provider, p), after) == [] {
      assert p !in Filter(clears, Candidates(after, user, provider));
    }
  }
}
