# Portfolio tracker: verified model

A model, in Dafny 4.11, of the parts of a self-hosted portfolio tracker whose correctness spans many calls: the
stored value history and its written-off dates, the calculation-run executor and the "still pending" flag, the
chunked import commit, the chart sampler, the decimal sort, the dividend load, the intraday price rollup, and the
date and percentage arithmetic they rely on. `dafny verify dfyconfig.toml` checks everything.

## What is modelled

- **Value history** (`Ledger`, `SharesHeld`, `Selection`, `Valuation`, `ValuationMeaning`, `ValuedExactly`,
  `ConvertibleAmounts`, `SingleHolding`, `ValueLocality`, `MarkSoundness`, `ValueHistory`, `ValueHistoryProgress`,
  `ConvergenceSkip`, `ValueHistoryStore`, `StalePrices`, `YearEndValues`, `ValueRange`). A date's value is the sum over
  held holdings of quantity times selected price, converted with a selected FX rate. Derived dates are stored, dates
  that cannot be valued are marked, and reads, cron ticks, ledger mutations, price changes, deletions, new holdings, FX
  changes and the clock are the steps of a state machine. `Store` is the same machine as the program runs it: tables
  updated in place, loops, and a convergence marker. Its `ReadSeries`, `BackfillTick`, `MutateLedger`, `WritePrices`,
  `CommitPrices`, `InvalidateSpan`, `InsertRate` and `WriteRates` are each proved to take exactly one step of the
  machine, and `ImportPrices` a sequence of them that may stop anywhere.
- **Executor** (`RunTable`, `ExecutorProtocol`, `ClaimBounds`, `RebuildRows`, `RebuildProgress`, `MidRebuildMutation`, `BackwardClock`,
  `Executor`, `PublicationRead`). The run table, the rows each run has written and the ledger's projections they come
  from; a protocol machine in which an invocation may die between any two calls, leases may expire, runs may be queued
  and the ledger may change at any moment, also between a rebuild's reads and its write; and the two nested loops as a
  class, whose calls are proved to be steps of the protocol while a counting client adds up statements. The statement
  costs per call (`SUPERSEDE_COST`, `CLAIM_PHASE_COST`, `REBUILD_COST`, `CLOSE_COST`) are those the cited repository
  methods issue.
- **Import commit** (`ImportCommit`). Two rows per call behind a screening of the whole batch for repeated
  fingerprints, inside a server loop of eight, inside a client loop.
- **Chart sampler** (`ChartSampler`), **decimal sort** (`DecimalOrder`), **dividend load** (`DividendLoad`,
  `DividendList`), **intraday rollup** (`Rollup`), **calendar** (`Calendar`, RFC 3339 full-dates: section 5.6, string
  order of section 5.1, leap rule of Appendix C), **bar heights and percentages** (`OverviewRatios`).
- `Digits`, `Decimals` and `Sequences` hold what the others share: digit strings and the numbers they stand for,
  half-even rounding, and the limits of the decimal reader (64 digits, 24 places).

Amounts are exact decimals, modelled as `real`; rounding is written out wherever the source rounds. Identifiers,
currencies and ISO time stamps are numbers that keep equality and order. Dates are day numbers except in `Calendar`,
`ValueRange` and `DividendList`, which work on the text. Time, time zone results, arrival of runs, interruptions,
faults and the outcome of remote steps are parameters or adversarial event lists, so results hold for all of them.

## Where the code does not do what one would expect

Each of these is proved, with the exact condition where there is one.

- **A written-off date can become derivable when a rate arrives.** The comments at
  `app/historical-portfolio-value.ts:1068-1083` say any FX-caused component suppresses the mark. The flag is set only
  when *no* FX row is selected; a row that is selected and then refused (an inverse that rounds to zero at 18 places,
  a product beyond 24 places) does not set it. `MarkSoundness.MarkSoundIff` gives the exact condition,
  `MarkSoundness.RepairableIff` puts it in terms of a fixed list of rates, and `MarkSoundness.MarkUnsoundExample` has a
  date that is marked and then valued by a later rate.
- **A price change can leave rows and marks behind.** Imports commit prices first and delete in later calls, a rollup
  writes and invalidates in two calls, and deleting an upload or priming a watch-list price deletes no row or mark. A
  row left that way is what every read goes on showing. `ValueHistory.CacheCoherent` holds with exactly those days
  excepted, `ValueHistory.WrongIff` says when such a row is wrong, and `StalePrices` has the histories. The comment at
  `db/repositories/intraday-price-capture.ts:586-592` expects the next tick to heal it; for the shared row the retry
  writes nothing, so it does not: `Rollup.RetryOwesIff`. FX changes delete nothing either.
- **A held, priced and converted security can drop out** when the product of three readable decimals has more than 24
  places or 64 digits, or an inverse rate is 2e18 or more: `ValuedExactly.ValuedIff`, with
  `ValuedExactly.PreciseValueDropped` as an instance.
- **A price for an older date, added after convergence, stays hidden** until the marker ages out, because the
  fingerprint records only the newest candidate date: `ConvergenceSkip.InteriorAdditionHidden`; the exact condition is
  `ConvergenceSkip.SkipSoundIff`. With the newest ten missing dates waiting for rates as well, neither reads nor ticks do
  anything until the marker is six hours old: `ValueHistoryProgress.StuckIff`, `ValueHistoryProgress.SkipLapses`.
- **A rollup can put an older price over a newer one.** Its comment calls this sweep the only writer of a user's own
  Sharesight row and so leaves the upsert unguarded, but refreshes write the same row
  (`db/repositories/sharesight-price-refresh.ts:335-355`): `Rollup.OvertakesIff`. The shared row has a guard, and ends
  with the newest observation anybody made: `Rollup.NewestSurvives`.
- **More than six claims at one checkpoint** happen when invocations die after claiming a run and before its rebuild
  starts: before the claim is recorded, where it leaves no trace in the stall count, or at the stall limit, before the
  run is failed. `ClaimBounds.ClaimsBounded` allows one further claim for each such death and none without;
  `ClaimBounds.LimitCrashes` and `ClaimBounds.UnrecordedCrashes` reach it at both points. Rebuild attempts are bounded
  with no condition.
- **A published run can lack a row of the ledger.** A rebuild reads the ledger anew for every chunk and continues by
  offset, so a mutation between two chunks that shifts the outputs skips or leaves over rows:
  `MidRebuildMutation.OutputSkipped`, with the exact condition in `RebuildRows.DisturbedExactlyIff`. It is never shown
  as up to date: `RebuildRows.NothingSilentlyStale`. That in turn needs clocks that do not run backwards:
  `RebuildRows.MutationNoticedIff`, with `BackwardClock.MutationUnnoticed` as an instance.
- **An empty file still needs one accept request**, so the bound is the ceiling or one, whichever is larger.
- **The single-holding dividend load can differ from the whole one** when a payout's committed twin sits under another
  holding: `DividendLoad.NarrowedEqualsWholeIff`, with `DividendLoad.LoadsDiffer` as an instance.
- **Shifting a date past year 9999 or before year 1000 prints text that is no date**, as the year is not padded:
  `Calendar.AddDaysWellFormedIff`.

## Model

| member | source | states |
|---|---|---|
| ValueHistory.CacheCoherent | app/historical-portfolio-value.ts:127-155 | over every run of reads, ticks, ledger mutations, price and rate changes with or without a deletion, deletions on their own, new holdings and clock moves: each stored row is the direct derivation of its date from the current facts, each marked date is past and derives to no value, and no date is both, unless a change of that day's prices or rates is still owed an invalidation |
| ValueHistory.CoherentFromEmpty | app/historical-portfolio-value.ts:1108-1336 | the same for any run that starts with empty tables, so no assumption about earlier cache contents is left |
| ValueHistory.PairedCoherent | app/historical-portfolio-value.ts:127-155 | when every price change deletes its days in the same batch and no rate changes, nothing is ever owed, so rows and marks are exact without exception |
| ValueHistory.WrongIff | db/repositories/intraday-price-capture.ts:586-617 | a row that was right and is not cleared turns wrong, over any run, if and only if its day's derivation has changed, and a mark if and only if its day is no longer written off |
| ValueHistory.EntryStaysRun | app/historical-portfolio-value.ts:1169-1207 | no read and no tick ever touches a date that has a row or mark, so nothing wrong heals by being read |
| StalePrices.AltersIff | domain/snapshots/historical-portfolio-value.ts:307-446 | where all other holdings keep their closes, a price change alters a date's derivation if and only if the one holding gains or loses its value, keeps one at another selected close, or alone decides that the date waits for a rate |
| StalePrices.StaleShown | app/price-upload-service.ts:449-465 | from empty tables: a tick stores the day, the price changes with nothing deleted, the day is owed, and reads show the old value from then on |
| StalePrices.StoppedImportLeavesStale | app/price-upload-service.ts:449-465 | an import stopped between its price batch and its deletions does that |
| StalePrices.RollupLeavesStale | db/repositories/intraday-price-capture.ts:571-617 | so does a rollup that promotes a later tick over the shared row and fails between its write and its invalidation; its retry finds the row as new already, writes nothing and leaves the day owed |
| StalePrices.DeletedUploadLeavesStale | app/price-upload-service.ts:846-858 | so does deleting an upload |
| ValueHistory.StepKeeps | app/historical-portfolio-value.ts:1174-1305 | one step of any kind keeps rows and marks right but for the dates it leaves owed; a rate owes a mark only if it could repair it |
| ValueHistory.SweepKeeps | app/historical-portfolio-value.ts:1174-1305 | filling either end of the missing dates, to any bound, writes nothing wrong and settles nothing that is owed |
| ValueHistory.MarksStaySound | app/historical-portfolio-value.ts:1058-1098 | over every run whose price changes delete their days, rate inserts and the passage of time included, a mark stays right as long as no rate arrives while it could repair a marked date |
| ValueHistory.UnsoundExactly | app/historical-portfolio-value.ts:1264-1293 | in a coherent state, a marked date can be valued by rates yet to arrive, however many and whenever, if and only if it now holds a security whose selected rate was refused though another would do |
| ValueHistory.HarmlessFromStart | app/historical-portfolio-value.ts:1264-1293 | whether rates arriving one after another ever touch a mark is decided by the state they start from |
| ValueHistory.CandidatesBounded | app/historical-portfolio-value.ts:869-917 | at most 3660 candidate dates after the clamp, ascending, exactly the priced dates in range; so the LIMIT 3661 read and the newest-3660 cut never lose one |
| ValueHistory.EarliestTradeIff | app/historical-portfolio-value.ts:769-831 | the series starts from the earliest day any row that was not superseded trades on |
| ValueHistory.NewHoldingCandidates | app/historical-portfolio-value.ts:869-917 | a new holding brings in the dates its own security is priced on, and takes none away |
| ValueHistory.SliceTakesEnd | app/historical-portfolio-value.ts:1204-1228 | an attempt takes its bound of missing dates, or all there are: a read later ones than any it leaves out, a tick earlier ones |
| MarkSoundness.MarkSoundIff | domain/snapshots/historical-portfolio-value.ts:307-446 | a written-off date can be valued by one more rate, or by any number of them, if and only if some held, usably priced foreign security has a selected rate that was refused and an amount some rate converts |
| MarkSoundness.MarkStays | app/historical-portfolio-value.ts:1264-1293 | without such a security the date keeps exactly its point, whatever rate is inserted wherever |
| MarkSoundness.RateRepairs | domain/calculations/multi-currency.ts:373-475 | with such a security there is a concrete rate that is selected and gives the date a value |
| MarkSoundness.RepairableByDigits | domain/calculations/multi-currency.ts:373-475 | a refused security whose native amount has at most 64 digits, wherever the point stands, is such a security |
| MarkSoundness.RepairableIff | domain/calculations/multi-currency.ts:373-475 | a held foreign security whose selected rate was refused is such a security if and only if one of a fixed list of rates, made of twos and fives and below 64 digits at one of 25 scales, gives a product that can be read back |
| ConvertibleAmounts.ConvertibleIff | domain/calculations/multi-currency.ts:373-475 | over all rates, direct and inverse: some rate converts an amount if and only if one of that list does |
| MarkSoundness.NotRepairableByDigits | domain/calculations/multi-currency.ts:373-475 | one whose native amount has a factor free of twos and fives of more than 64 digits is not, whatever rate arrives |
| MarkSoundness.MarkUnsoundExample | domain/calculations/multi-currency.ts:373-475 | a date that is written off because the inverse of a huge rate rounds to zero, and is valued by a later rate |
| ValueHistoryProgress.SweepMissing | app/historical-portfolio-value.ts:1174-1255 | a slice removes from the missing dates exactly those it attempted that end with a row or a mark, and adds none |
| ValueHistoryProgress.SweepProgress | app/historical-portfolio-value.ts:1208-1305 | the missing set shrinks if and only if some attempted date settles; otherwise neither table changes at all |
| ValueHistoryProgress.UnsettledIff | app/historical-portfolio-value.ts:1280-1293 | an attempt settles nothing exactly when the date is in the future or has no value while a rate is awaited |
| ValueHistoryProgress.StuckIff | app/historical-portfolio-value.ts:1399-1464 | a state is stuck exactly when dates are missing, the newest slice holds only future or rate-blocked dates, and a tick trusts its marker or finds the oldest slice no better |
| ValueHistoryProgress.StuckStill | app/historical-portfolio-value.ts:1399-1464 | and that is exactly when dates are missing and neither a read nor a tick changes anything |
| ValueHistoryProgress.SkipLapses | db/repositories/portfolio-value-history.ts:393 | where only a trusted marker holds ticks back, its six hours end it |
| ValueHistoryProgress.Converges | app/historical-portfolio-value.ts:1108-1336 | with facts and clock fixed and whatever marker there is, as many blocks of steps as dates are missing, each with at least one read and one tick in any order and number, end with nothing missing or in that stall, which is never left |
| ValueHistoryProgress.ConvergesInTime | app/historical-portfolio-value.ts:1399-1464 | with time passing between the steps, every block but those that start stuck settles at least one date: so as many blocks as dates are missing end with nothing missing, or some block started stuck |
| ValueHistoryProgress.DoneStays | app/historical-portfolio-value.ts:1178-1207 | once finished or stuck, further reads and ticks change neither table |
| ValueHistoryProgress.ReadExact | app/historical-portfolio-value.ts:1306-1319 | every point a read shows is the direct derivation of its date, or the stored row of a date still owed an invalidation, and only marked dates and missing dates beyond its slice are left out |
| ValueHistoryProgress.ConvergedSeries | app/historical-portfolio-value.ts:1178-1207 | once nothing is missing, the series is the direct derivation of every candidate that has a value, in date order |
| ConvergenceSkip.SkipSoundIff | app/historical-portfolio-value.ts:1399-1464 | after any steps once the clock has moved past the marker, a tick that skips on it hides no missing date if and only if every candidate now in range was stored or marked when the marker was written |
| ConvergenceSkip.MatchingTables | db/repositories/portfolio-value-history.ts:395-513 | a matching fingerprint means neither table has changed at all since the marker, deletions and re-derivations included |
| ConvergenceSkip.SkipSoundByCounting | app/historical-portfolio-value.ts:943-969 | if no in-range candidate at or below the recorded maximum was added since the marker and every row and mark still stands on a priced date, a skip hides no missing date, by counting disjoint tables and with no assumption about the clock |
| ConvergenceSkip.PairedSkipSound | app/historical-portfolio-value.ts:943-969 | the second condition always holds when prices are deleted only with their rows and marks |
| ConvergenceSkip.InteriorAdditionHidden | app/historical-portfolio-value.ts:1408-1464 | a history in which two ticks converge, an older date is priced an hour later, and the next tick skips while that date is missing |
| ConvergenceSkip.StampedStep | db/repositories/portfolio-value-history.ts:115-270 | no step leaves a row or mark stamped later than now, which the matching of fingerprints relies on |
| ConvergenceSkip.FingerprintRecords | db/repositories/portfolio-value-history.ts:395-513 | what a fingerprint records: the numbers of rows and marks, the ends of the rows' days, the latest of each kind of stamp, and the last priced day |
| ValueHistoryStore.Store.ResolveSeries | app/historical-portfolio-value.ts:1108-1336 | the shared read/tick body, loops and table updates included, leaves the tables a sweep leaves and returns the specified series and counts |
| ValueHistoryStore.SliceAttempted | app/historical-portfolio-value.ts:1204-1305 | what such an attempt stores are the dates taken that have a value, what it marks those written off, and nothing else changes |
| ValueHistoryStore.Store.DeriveAndPersist | app/historical-portfolio-value.ts:1231-1305 | derives a slice on the rows loaded for its own span only, yet writes what the full facts give, and counts the rows written |
| ValueHistoryStore.Store.RecordUnresolvable | app/historical-portfolio-value.ts:1280-1305 | marks exactly the attempted dates that are past, have no value and await no rate |
| ValueHistoryStore.Store.Upsert | db/repositories/portfolio-value-history.ts:115-200 | stores exactly the points that have a value, and reports how many |
| ValueHistoryStore.Store.CollectPoints | app/historical-portfolio-value.ts:1306-1319 | merges stored and just-derived points in date order |
| ValueHistoryStore.Store.ReadSeries | app/historical-portfolio-value.ts:1108-1336 | a page read attempts the ten newest missing dates, every one of them later than any it leaves out, stores or marks those that settle, shows stored and derived points, and is one step of the machine |
| ValueHistoryStore.Store.BackfillTick | app/historical-portfolio-value.ts:1399-1464 | a cron tick attempts its bound of the oldest missing dates, none for a bound of zero or less or on a fresh matching marker, writes a new marker when nothing was missing, and is one step of the machine |
| ValueHistoryStore.Store.InvalidateFrom | db/repositories/portfolio-value-history.ts:568-592 | deletes the rows and marks on or after a date and no others |
| ValueHistoryStore.Store.MutateLedger | db/repositories/ledger.ts:829-1303 | a posting, reversal or supersession changes ledger and cache together, or is refused and changes neither |
| ValueHistoryStore.Store.WritePrices | db/repositories/sharesight-price-refresh.ts:400-420 | a refresh changes prices and deletes rows and marks of exactly the days it wrote in one batch |
| ValueHistoryStore.Store.ImportPrices | app/price-upload-service.ts:449-465 | an import stopped after any of its calls leaves what its first calls do: price batches, then one deletion for each security |
| ValueHistoryStore.Store.InvalidateSpan | app/historical-portfolio-value.ts:1639-1655 | a deletion covers every day from the first to the last written, and no other |
| ValueHistoryStore.Store.CommitPrices | db/repositories/price-uploads.ts:594-617 | prices change and neither table does |
| ValueHistoryStore.ImportOwesAtMost | app/price-upload-service.ts:86-106 | stopped after any of its calls, with reads, ticks, ledger mutations and time in between, an import owes at most the days between the first and last it wrote |
| ValueHistoryStore.ImportSettles | app/price-upload-service.ts:86-106 | run to its end, with the same in between, it owes nothing |
| Ledger.MutateBefore | db/repositories/ledger.ts:829-1303 | a mutation changes no holding's effective rows, nor their order, before the date it invalidates from |
| Ledger.MutateSound | db/repositories/ledger.ts:1120-1215 | every mutation keeps ids unique and whatever a reversal points at out of the posted rows |
| Ledger.ReverseCancels | db/repositories/ledger.ts:1120-1215 | after a reversal, what counts at any date is what would count had the transaction never been posted |
| Ledger.SupersedeReplaces | db/repositories/ledger.ts:1217-1303 | after a supersession, what counts is what would count with the new transaction in place of the old |
| Ledger.PostAdds | db/repositories/ledger.ts:829-1118 | a posting adds its transaction to what counts, and that is all |
| Ledger.MutateRefusedIff | db/repositories/ledger.ts:1120-1303 | a mutation is refused exactly when there is no posted row to reverse or supersede |
| Ledger.FirstDayIsChanged | db/repositories/ledger.ts:829-1303 | the date a mutation invalidates from is no earlier than need be: from that day on its holding has other rows |
| SharesHeld.HeldFromTimeline | domain/dividends/shares-held.ts:257-278 | the binary search over one walk's checkpoints gives, for every date, the quantity a replay stopped at that date gives |
| SharesHeld.BuildTimeline | domain/dividends/shares-held.ts:223-248 | keeps checkpoints exactly when days never run backwards along ledger order, each the running total at its row |
| SharesHeld.HeldAtPrefix | domain/dividends/shares-held.ts:172-184 | a replay of the rows up to a date is the walk cut before the first later row |
| SharesHeld.UsableEffective | domain/dividends/shares-held.ts:101-114 | on a sound ledger the exclusions (not posted, reversal, reversed) leave exactly the posted non-reversal rows, however far the ledger was read |
| SharesHeld.HeldBefore | db/repositories/ledger.ts:829-1303 | quantities before a mutation's first affected date are unchanged by it |
| SharesHeld.HeldIsBoughtLessSold | domain/dividends/shares-held.ts:133-160 | without splits the quantity is bought less sold by then, whatever the ledger order |
| SharesHeld.SplitScales | domain/dividends/shares-held.ts:133-160 | a split of n for d leaves n/d of the holding, to half a unit of the 24th place |
| SharesHeld.SortByInstant | domain/dividends/shares-held.ts:116-126 | along the replay trade instants never go back, and rows of one instant come by id |
| SharesHeld.OneSplit | domain/dividends/shares-held.ts:116-184 | with one split, what was bought less sold before it is scaled by n/d, to half a unit of the 24th place, and what was traded after it is not |
| SharesHeld.LastSplit | domain/dividends/shares-held.ts:116-184 | a split later than all other rows scales the quantity there would be without it, earlier splits included |
| SharesHeld.NoEffect | domain/dividends/shares-held.ts:133-160 | a split without a positive readable ratio, and a row that is no trade, changes nothing |
| Selection.PriceGathered | domain/snapshots/historical-portfolio-value.ts:225-255 | the price found among the date-indexed candidates within tolerance is the one a search of every row finds |
| Selection.FxGathered | domain/snapshots/historical-portfolio-value.ts:225-255 | the same for FX rates |
| Selection.WithinTolerance | domain/snapshots/historical-portfolio-value.ts:241-255 | the bounded lookups collect the rows of each day in reach, younger days first |
| Selection.FirstBestIsHead | domain/market-data/selection.ts:431-446 | what is selected beats all earlier rows and loses to no later one: the head of a stable sort |
| Sequences.GroupIsFilter | domain/snapshots/historical-portfolio-value.ts:225-235 | an index by key built in one pass holds, under each key, exactly the rows of that key in their order |
| ValuationMeaning.SelectedPrice | domain/market-data/selection.ts:368-543 | no price exactly when none is dated within the tolerance, seen by then, in the currency and positive; else such a one, the youngest, on its day the owner's import first, then the highest of seven standings, then the later instant |
| ValuationMeaning.SelectedFx | domain/market-data/selection.ts:545-712 | the same for rates of the currency pair in either direction |
| ValuationMeaning.RankOrder | domain/market-data/selection.ts:282-315 | of one quality delayed beats intraday beats end-of-day, of one interval firsthand beats indicative beats stale, and how the mixed cases fall |
| ValuationMeaning.RankIsStanding | domain/market-data/selection.ts:282-315 | any two observations are ranked as their standings say |
| ValuationMeaning.HoldingPrice | domain/snapshots/historical-portfolio-value.ts:307-446 | a holding is priced by its own security's rows, and by the best of them |
| ValuationMeaning.HoldingQuote | domain/snapshots/historical-portfolio-value.ts:307-446 | a foreign holding only is converted, inversely exactly when the row is quoted from the home currency |
| ValuationMeaning.ContributionMeaning | domain/snapshots/historical-portfolio-value.ts:307-446 | why a holding has no value, in order of precedence: unreadable quantity, none held, no price, no rate, or a refused number |
| ValuationMeaning.ConversionNear | domain/calculations/multi-currency.ts:373-475 | a direct rate multiplies; an inverse one divides, to half a unit of the 18th place per native unit |
| ValuationMeaning.PointMeaning | domain/snapshots/historical-portfolio-value.ts:307-446 | a point has a value exactly when some security could be valued, and then it is the sum of those; it is complete exactly when nothing held is left out; it counts the securities held and those valued; a rate is awaited exactly when none is valued and some lacks only a rate |
| Valuation.ValuePointAtDate | domain/snapshots/historical-portfolio-value.ts:307-446 | the date's point through per-security indices and share walks is the specified point |
| Valuation.AddUp | domain/snapshots/historical-portfolio-value.ts:307-446 | the six running variables end as the specified totals, counts and flags |
| Valuation.ComputeSeries | domain/snapshots/historical-portfolio-value.ts:494-526 | one set of indices serves every date, and each point is the direct derivation, future dates being empty |
| ValuedExactly.ValuedIff | domain/calculations/multi-currency.ts:567-666 | a held and priced security, foreign or not, is valued if and only if quantity, price, rate and their product are each short enough to be read back and an inverse rate is below 2e18; its value is then that exact product |
| ValuedExactly.InverseVanishesIff | domain/calculations/multi-currency.ts:373-475 | an inverted rate rounds to nothing exactly from 2e18 on |
| ValuedExactly.PreciseValueDropped | domain/calculations/decimal.ts:114-141 | a portfolio that holds, prices and converts a security and still derives to no value, since the product has 25 places |
| ValuedExactly.FewDigitsConvert | domain/calculations/multi-currency.ts:373-475 | some rate converts every amount of at most 64 digits |
| ValuedExactly.LongCoreRefused | domain/calculations/multi-currency.ts:373-475 | no rate converts an amount with a factor free of twos and fives of more than 64 digits |
| Decimals.ReadsIff | domain/calculations/decimal.ts:114-141 | a decimal is read back if and only if, trailing zeros dropped, it has at most 24 places and 64 digits |
| ValueLocality.NarrowDerive | app/historical-portfolio-value.ts:565-755 | loading only rows in windows that cover what the tolerance reaches gives every date its full-history value |
| ValueLocality.SpanCovers | app/historical-portfolio-value.ts:1231-1248 | the slice's own span is such a window for exact-date lookups |
| ValueLocality.LookbackCovers | app/historical-portfolio-value.ts:1571-1612 | one lookback window per requested date is, overlapping or not |
| ValueLocality.NoLookAhead | domain/market-data/selection.ts:432-446 | a date's value uses no trade, price or rate that came after it |
| ValueLocality.LedgerLocal | db/repositories/ledger.ts:829-1007 | a mutation leaves every value before its first affected date alone |
| ValueLocality.PricesLocal | db/repositories/portfolio-value-history.ts:593-640 | with exact-date lookup a date's value depends on the price rows of its own day and of listed securities only |
| ValueLocality.RatesLocal | app/historical-portfolio-value.ts:592-700 | and on the rates of its own day only |
| ValueLocality.MoreDaysWillDo | app/historical-portfolio-value.ts:1616-1637 | a deletion of more days than were changed, such as the whole range, pairs with the change just as well |
| ValueLocality.NewHoldingLocal | app/historical-portfolio-value.ts:565-755 | listing a security nobody traded yet changes no date's value |
| YearEndValues.ValuesAtDates | app/historical-portfolio-value.ts:1487-1613 | each in-range requested date gets its full-history value with a seven-day lookback, each other one a gap, and no other date appears |
| YearEndValues.BoundedFromIff | app/historical-portfolio-value.ts:1487-1560 | a date is in range exactly within ten years of today and not before both the series and a week before the first request |
| ValueRange.RangeByDays | app/historical-portfolio-value.ts:769-848 | the text comparisons clamp by days: from the earliest trade, not past today, and at most 3660 dates |
| ValueRange.ClampedIff | app/historical-portfolio-value.ts:769-848 | the clamp is reported exactly when it applied, and the range ends today |
| ValueRange.RangeIsRangeFrom | app/historical-portfolio-value.ts:769-848 | the text the range starts with is the day the series is said to start on, from the same ledger |
| RebuildRows.NothingSilentlyStale | app/owned-capital-gains.ts:204-223 | over every history from an empty table, crashes, expired leases and ledger mutations between any two calls included: while the pending flag is off, the published rows are exactly what the current ledger projects to (mutation clocks not running backwards) |
| RebuildRows.MutationNoticedIff | app/owned-capital-gains.ts:204-210 | a mutation turns the flag on if and only if its run is not stamped before the published one |
| BackwardClock.MutationUnnoticed | app/owned-capital-gains.ts:204-210 | a history from an empty table in which a mutation is stamped before the published run: the flag is off and the published rows lack a row of the ledger |
| RebuildRows.EveryHistory | app/calculation-executor-service.ts:346-618 | in every reachable state, whatever its clocks: the flag is off exactly when the newest run is the published one, no run has a row key twice, and the newest run is not a superseded one |
| RebuildRows.CompletedExactlyIff | db/repositories/projections.ts:477-569 | from the last mutation on, a run ends up with exactly the ledger's rows, none missing, left over or twice, if and only if the rows it had by then are those the ledger has behind its checkpoint, in whatever order |
| RebuildRows.CompletedUndisturbed | db/repositories/projections.ts:518-569 | with no mutation between a run's first chunk and its completion its rows are exactly the outputs, once each |
| RebuildRows.DisturbedExactlyIff | db/repositories/projections.ts:518-569 | with one mutation between two chunks they are so if and only if the new ledger has the same rows behind the checkpoint as the old one, in whatever order |
| RebuildRows.DisturbedInCallIff | db/repositories/projections.ts:518-569 | with the mutation between a call's reads and its write: if the call gets to its write, what it wrote by then must be the new ledger's, and otherwise what it had written before |
| RebuildRows.InCallExactlyIff | db/repositories/projections.ts:518-569 | that condition from any state of a call in progress, whatever it has read |
| MidRebuildMutation.OutputSkipped | db/repositories/projections.ts:523-562 | a history in which a reversal between two chunks shifts the outputs, one is skipped, one is left over, and the run is published, with the pending flag on |
| RebuildRows.PlanExtends | db/repositories/projections.ts:518-531 | a chunk planned from the ledger is exactly the next rows behind the checkpoint, and a rebuild finishes only when none are left |
| RebuildRows.AllRowsMembers | db/repositories/projections.ts:234-260 | the rows compared with are every output of every security and nothing else |
| RebuildRows.ChunkLeavesOneFewer | db/repositories/projections.ts:523-562 | while the ledger stands still each chunk leaves exactly one fewer |
| RebuildRows.LinearInChunks | app/calculation-executor-service.ts:212-247 | while it stands still, a run takes at most 6 claims per chunk left and 6 more, plus one per death, and 5 rebuilds per chunk and 5 more |
| RebuildProgress.ReadyStep | db/repositories/projections.ts:494-569 | an undisturbed rebuild call publishes a ready run or leaves it ready with one call fewer to go |
| RebuildProgress.BehindDistinct | db/repositories/projections.ts:494-569 | what is behind a checkpoint repeats no key if the whole ledger does not |
| ClaimBounds.ClaimsPaidFor | app/calculation-executor-service.ts:489-605 | over any history every claim of a run is one of six at its checkpoint or is paid for by a chunk it wrote or by an invocation that died on it before its rebuild |
| ClaimBounds.ClaimsBounded | app/calculation-executor-service.ts:547-566 | so more than six claims at one checkpoint happen only with such a death, and at most one more for each |
| ClaimBounds.LimitCrashes | app/calculation-executor-service.ts:556-566 | for every d a history from an empty table with d deaths at the stall limit and 6 + d claims at one checkpoint, the most there can be |
| ClaimBounds.UnrecordedCrashes | app/calculation-executor-service.ts:494-554 | for every n a history from an empty table with n claims that all died before being recorded |
| ClaimBounds.NoTrace | db/repositories/calculation-runs.ts:533-557 | those claims leave the stall count, its mark and the checkpoint as they were |
| ClaimBounds.WorkBounded | app/calculation-executor-service.ts:424-470 | with no condition at all, a run is rebuilt at most five times for every chunk it writes, and five more |
| ClaimBounds.CheckpointsKept | db/repositories/projections.ts:532-562 | no crash, release, new claim or ledger mutation takes a run back behind a checkpoint |
| ExecutorProtocol.InvStep | app/calculation-executor-service.ts:481-605 | every call keeps the run-table invariant, wherever an invocation stops and whatever is queued meanwhile |
| ExecutorProtocol.HistoryAdvances | app/calculation-executor-service.ts:472-538 | over any history publications move only to newer runs, ties in creation time broken by insertion |
| ExecutorProtocol.PublicationStep | db/repositories/projections.ts:424-492 | only a publishing call changes the publication, always to a strictly newer run |
| ExecutorProtocol.NewestNeverSuperseded | db/repositories/calculation-runs.ts:576-604 | the newest run is never the superseded one |
| ExecutorProtocol.StalenessNeverSilent | app/owned-capital-gains.ts:204-223 | the pending row is absent exactly when the newest run is published, and is otherwise the newest run itself |
| ExecutorProtocol.StallCountsRun | db/repositories/calculation-runs.ts:533-557 | the stall count never exceeds the latest recorded claims that all saw the same checkpoint |
| ExecutorProtocol.StalledOnlyAfterSix | app/calculation-executor-service.ts:547-566 | a run is failed for stalling only after five recorded claims in a row saw the checkpoint of the claim before them |
| ExecutorProtocol.OnlyNewestStaysQueued | db/repositories/calculation-runs.ts:576-604 | after the bulk supersession the only run still queued is the newest, and no running or ended run is touched |
| ExecutorProtocol.EndedStays | db/repositories/calculation-runs.ts:461-483 | a completed, failed or abandoned run never changes again, over any history |
| ExecutorProtocol.HighWaterKept | db/repositories/calculation-runs.ts:499-518 | a run's ledger mark, once set, is never replaced |
| ExecutorProtocol.LeaseKept | db/repositories/calculation-runs.ts:243-272 | until it runs out or is released no history takes a lease from its holder: the run stays leased or ends |
| ExecutorProtocol.ClaimTakesLease | db/repositories/calculation-runs.ts:243-275 | a claim keeps all others away for exactly five minutes, and leaves checkpoint, rows and stall count as they stood |
| ExecutorProtocol.ReleaseHandsBack | db/repositories/calculation-runs.ts:616-633 | a release makes the row claimable by anyone at once and from then on, with its work as it stood |
| ExecutorProtocol.LyingByRun | db/repositories/calculation-runs.ts:616-633 | until somebody claims it, no history changes a row given back, and it stays claimable |
| ExecutorProtocol.WritesUnderLease | db/repositories/projections.ts:494-569 | chunks and publications are written only by the holder of an unexpired lease, on the row's own ledger mark |
| ExecutorProtocol.MarkResolved | db/repositories/calculation-runs.ts:499-540 | a row without a ledger mark has the one found once it is stored |
| ExecutorProtocol.SupersededExactly | db/repositories/calculation-runs.ts:576-615 | the bulk supersession fails exactly the queued rows with a newer one and leaves all else as it was |
| ExecutorProtocol.QueuedBehind | db/repositories/calculation-runs.ts:184-242 | a run is queued behind all others with nothing done, and changes the ledger exactly when a mutation queues it |
| ExecutorProtocol.AnyTime | app/calculation-executor-service.ts:346-618 | queueing, mutating, retiring and dying are never held up by what an invocation is doing |
| ExecutorProtocol.SnapshotsNeverClaimed | app/calculation-executor-service.ts:718-762 | a run of the retired pipeline, leased and running ones included, never changes but to be abandoned, and one sweep ends it |
| RunTable.NextClaimable | db/repositories/calculation-runs.ts:340-360 | the oldest queued or expired run in creation order, or none if there is none |
| RunTable.PendingRun | app/owned-capital-gains.ts:204-210 | the newest run later than the published one that is queued, running or failed for its own reasons |
| Executor.Invocation.AdvanceCalculationRuns | app/calculation-executor-service.ts:346-618 | the outer loop ends only with the budget spent, nothing claimable at its last look, or work given up for now with its lease left; a row given back before is claimed if there is budget for a claim; each call is a protocol step, the counters are the claims and publications made, and statements stay within budget+28 |
| Executor.Invocation.AdvanceOneRun | app/calculation-executor-service.ts:424-470 | a claimed row ends published, failed, left leased, or, with the budget spent, given back and claimable from then on; undisturbed and with budget for its remaining calls it is published |
| Executor.Invocation.Turn | app/calculation-executor-service.ts:489-605 | a row that can be claimed is claimed, and one claim with all that follows stays within the statement limit |
| Executor.Invocation.ClaimNext | app/calculation-executor-service.ts:489-515 | the oldest claimable row is leased, and one is whenever there is one |
| Executor.Invocation.GiveBack | app/calculation-executor-service.ts:458-470 | with the budget spent the row can be claimed again at once |
| Executor.Invocation.Await | app/calculation-executor-service.ts:97-127 | a call adds its cost, and whatever happens meanwhile only appends runs and changes the ledger |
| Executor.Invocation.Rebuild | db/repositories/projections.ts:494-569 | one rebuild call reads, plans and writes as protocol steps within its statement cost, whatever the ledger does in between; undisturbed, it does exactly what the checkpoint and the ledger say |
| PublicationRead.PendingStateExact | app/owned-capital-gains.ts:218-223 | in every reachable state the flag is off exactly when the newest run is published; when on, its reason is the newest run's own status |
| PublicationRead.PublicationKept | app/owned-capital-gains.ts:405-414 | a publication once made is there after every longer history, so the re-read finds one |
| PublicationRead.LoadPublication | app/owned-capital-gains.ts:366-423 | the self-healing read reports the run and the exact pending state of the table as it left it, within the read-time statement limit |
| ImportCommit.Batch.Commit | db/repositories/import-commit.ts:1364-2083 | one call settles the next two rows or none, refuses exactly a foreign key, finishes exactly when no row is left, and reports the numbers of rows committed, skipped and staged |
| ImportCommit.Batch.WriteRows | db/repositories/import-commit.ts:1443-2062 | the chunk's statuses, postings and high-water mark become those of the file settled that far, row by row |
| ImportCommit.Batch.DecideChunk | db/repositories/import-commit.ts:1443-1500 | screening, in-call repeats and the lookup of what is posted by now together give each row the outcome of its place in the whole batch |
| ImportCommit.CallDecides | db/repositories/import-commit.ts:1443-1500 | however many rows a call takes and wherever it starts, its decisions are those outcomes |
| ImportCommit.OneDecided | domain/imports/reconciliation.ts:863-894 | behind the screening of repeated fingerprints neither the call's own repeats nor what the batch posted so far decides anything |
| ImportCommit.Screen | domain/imports/reconciliation.ts:863-894 | one pass finds exactly the transaction rows whose fingerprint an earlier row of the batch has, excluded rows aside |
| ImportCommit.CommittedOnce | db/repositories/import-commit.ts:886-888 | no fingerprint of a batch is committed twice and nothing posted before it is posted again |
| ImportCommit.OutcomeIff | db/repositories/import-commit.ts:1443-1500 | a row is committed exactly when it posts, comes first with its fingerprint and was not posted before, and skipped otherwise |
| ImportCommit.PostedExactly | db/repositories/import-commit.ts:1443-2062 | after the batch exactly those rows' entries are posted besides what was |
| ImportCommit.DecidedOnce | db/repositories/import-commit.ts:1443-2062 | a decided row keeps its decision however the remaining calls fall |
| ImportCommit.Batch.AcceptImport | app/import-accept-service.ts:224-282 | an accept request cut short anywhere keeps the batch right; uncut it settles the next sixteen rows |
| ImportCommit.RunAcceptCommitLoop | app/import-review-commit-state.ts:232-284 | success is reported only on a finished batch in which every row is settled once, with as many committed rows reported as rows land; enough smooth turns always succeed |
| ImportCommit.AcceptsNeededIsCeiling | app/import-review-commit-state.ts:189-195 | the requests needed are rows over sixteen rounded up, and one for an empty file |
| ImportCommit.CountsConserved | db/repositories/import-commit.ts:760-820 | committed, skipped and remaining rows always add up to the file |
| ImportCommit.CountIsSize | db/repositories/import-commit.ts:760-820 | each count is the number of rows with that status |
| ImportCommit.CommittedLand | db/repositories/import-commit.ts:760-820 | in the end the rows committed are those that land, and none is staged |
| ImportCommit.PendingIsNext | db/repositories/import-commit.ts:1443-1500 | staged rows above the high-water row are exactly the next unsettled rows |
| ChartSampler.Sample | app/overview-chart.ts:26-110 | exactly the target number of strictly increasing indices, with both ends, both extremes, every gap run as far as the gap budget goes (both ends, the middle, or one per budgeted slot), and nothing else but even buckets and then first indices |
| ChartSampler.GapRuns | app/overview-chart.ts:11-23 | exactly the maximal runs of gaps, in order |
| ChartSampler.SpreadRuns | app/overview-chart.ts:26-110 | the runs given a representative are all different, in order, and all of them when there is room |
| ChartSampler.RunIndexSpreads | app/overview-chart.ts:26-110 | rounding slot fractions never picks one run twice nor one that does not exist |
| ChartSampler.Extremes | app/overview-chart.ts:26-110 | the first smallest and first largest valued points; none when a value cannot be read |
| ChartSampler.FillUp | app/overview-chart.ts:26-110 | buckets are taken in turn until the target is reached, then, if all do not suffice, the first indices until they do, and no others |
| ChartSampler.BucketNear | app/overview-chart.ts:26-110 | a bucket stands at the index nearest its share of the way, ties going up |
| ChartSampler.RunIndexNear | app/overview-chart.ts:26-110 | a slot takes the run nearest its share of the way, a lone slot the middle run |
| ChartSampler.MiddleCentred | app/overview-chart.ts:26-110 | a run is represented by its middle gap, the earlier of two |
| ChartSampler.AddGapPoints | app/overview-chart.ts:26-110 | exactly these gaps are added, within the budget |
| DecimalOrder.CompareIsNumeric | app/owned-holdings-contract.ts:132-184 | on well-formed decimals, negative zero and trailing zeros included, the comparator has the sign of the exact numeric difference in either direction |
| DecimalOrder.CanonicalNumber | app/owned-holdings-contract.ts:137-150 | the canonical parts denote the number written, and are negative exactly when it is |
| DecimalOrder.SplitJoins | app/owned-holdings-contract.ts:137-150 | the parts of a decimal text put together again give it |
| DecimalOrder.JoinSplits | app/owned-holdings-contract.ts:137-150 | and every text put together from well-formed parts is read as those parts |
| DecimalOrder.SortedHoldings | app/owned-holdings-contract.ts:132-184 | the result is a permutation in numeric order of the direction, missing values last either way |
| DecimalOrder.SortStable | app/owned-holdings-contract.ts:132-184 | rows the comparator ties keep their order |
| DecimalOrder.PreorderIff | app/owned-holdings-contract.ts:132-184 | on any set of texts, in either direction, the comparator is a total preorder if and only if no text that is no decimal lies between two decimals that numeric order puts the other way |
| DividendLoad.NarrowedEqualsWholeIff | app/owned-dividend-history.ts:346-829 | loading one holding gives its derivation the inputs the whole load gives it if and only if no announced payout of it has its committed twin only under another holding and no near record of its own |
| DividendLoad.LoadsDiffer | app/owned-dividend-history.ts:741-829 | tables on which the single-holding load announces a payout the whole load counts as paid |
| DividendLoad.SeveralEqualWhole | app/owned-dividend-history.ts:346-389 | with several holdings asked for, each gets exactly the whole load's inputs |
| DividendLoad.NarrowedWithinCaps | app/owned-dividend-history.ts:346-389 | a narrowed load meets no cap the whole load does not |
| DividendLoad.CountsAddUp | app/owned-dividend-history.ts:741-829 | in a whole load the four pending counts add up to the rows processed |
| DividendLoad.SortPending | app/owned-dividend-history.ts:741-829 | each counter counts exactly the rows of its fate, and each holding's list is its included rows in order |
| DividendLoad.FateIff | app/owned-dividend-history.ts:741-829 | a payout is skipped, unresolved, paid by identity, paid by a record within seven days either way, or included, each exactly when |
| DividendLoad.LastTotalIff | app/owned-dividend-history.ts:561-720 | of several overrides of a record the last counts |
| DividendLoad.LoadScope | app/owned-dividend-history.ts:346-389 | a load is for the held holdings asked for, and considers the first 500 announcements |
| DividendLoad.LoadHistory | app/owned-dividend-history.ts:446-960 | a load goes through exactly within its caps, gives one entry per held holding with the specified inputs, reports how many announcements met which fate, and discloses truncation |
| DividendLoad.AssembleExact | app/owned-dividend-history.ts:561-720 | the grouped lookups of one holding are the rows of all tables that belong to it |
| Rollup.Capture.RollUpPair | app/daily-price-capture-service.ts:377-446 | a pair's ticks are deleted exactly when its window is closed and its rollup succeeds; nothing captured is ever lost; and a day is owed an invalidation exactly when its price was written and the invalidation behind the write did not happen |
| Rollup.RetryOwesIff | db/repositories/intraday-price-capture.ts:563-617 | after a rollup that failed between write and invalidation, the retry settles the day for a user's own row and leaves it owed for the shared row, though it succeeds |
| Rollup.Capture.SweepOwner | app/daily-price-capture-service.ts:377-446 | one owner's sweep deletes exactly the clearable pairs among its first hundred, oldest first, whatever fails in between |
| Rollup.Capture.SweepAll | app/daily-price-capture-service.ts:377-446 | a whole sweep leaves what one owner after another leaves, keeps the no-loss invariant, reports the rows deleted, and touches no one outside the settings |
| Rollup.Capture.Insert | db/repositories/intraday-price-capture.ts:282-328 | a tick is cached exactly when its window is open, on a weekday from 10:25 to 16:25, and it is not cached already |
| Rollup.EligibleIff | app/daily-price-capture-service.ts:377-446 | a day is eligible exactly when no tick of it can be captured any more |
| Rollup.PromotionKeeps | db/repositories/intraday-price-capture.ts:526-620 | after promoting a pair's last tick every captured tick is still cached or covered by something as new, unless another writer put something older on its row since, and every price was captured or written by another |
| Rollup.LastTickSurvives | db/repositories/intraday-price-capture.ts:370-620 | once none of a day's ticks is cached, its price row holds the instant and price of the last tick captured for it, or what another writer observed no earlier, unless one put something older there since |
| Rollup.NewestSurvives | db/repositories/intraday-price-capture.ts:515-527 | once none of its ticks is cached, a shared row, and an own row nothing older ever replaced, holds the newest of all that was captured for it or written to it, by whomever |
| Rollup.OvertakesIff | db/repositories/intraday-price-capture.ts:543-572 | a rollup replaces a newer observation by an older one exactly on a user's own row that another writer advanced |
| Rollup.GuardHolds | db/repositories/intraday-price-capture.ts:543-572 | a guarded row is replaced by nothing but a strictly newer observation, whoever writes, and by that |
| Rollup.UpsertKeeps | db/repositories/sharesight-price-refresh.ts:335-355 | a refresh or a first watch-list price loses nothing captured, but where it has no guard and is older |
| Rollup.Capture.WriteElsewhere | app/watchlist-actions.ts:106-130 | the other writers of a price row, at any time: a guarded upsert keeps the newer observation, an unguarded one replaces it |
| Rollup.PurgeKeeps | db/repositories/intraday-price-capture.ts:741-756 | deleting a covered pair keeps that so |
| Rollup.CandidatesSpec | db/repositories/intraday-price-capture.ts:329-369 | the candidates are exactly the cached day/security pairs of an owner and provider, ascending, without repeats |
| Rollup.CandidatesAre | db/repositories/intraday-price-capture.ts:329-369 | they are the days and securities of the owner's own ticks from that provider |
| Rollup.SweepProgress | app/daily-price-capture-service.ts:377-446 | stuck pairs stay, and at least limit minus stuck other pairs clear, or none is left |
| Rollup.SweepsClear | app/daily-price-capture-service.ts:377-446 | with fewer stuck pairs than the limit, as many sweeps as clearable pairs leave none of them and every stuck one |
| Rollup.SweepLeaves | app/daily-price-capture-service.ts:377-446 | what a sweep leaves cached has exactly the candidates the progress results speak of |
| Rollup.CacheClears | app/daily-price-capture-service.ts:377-446 | repeated sweeps over the cache, with fewer stuck pairs than the limit, leave no tick of any clearable pair and keep every stuck one |
| Calendar.NextDayNumber | app/owned-dividend-history.ts:218-224 | the next calendar day has the next number |
| Calendar.CivilRoundTrip | app/owned-dividend-history.ts:225-229 | the date of a date's number is that date |
| Calendar.CivilOf | app/owned-dividend-history.ts:225-229 | every integer is the number of exactly one valid date |
| Calendar.DayOrder | app/historical-portfolio-value.ts:310-320 | later dates have larger numbers and only they |
| Calendar.TextOrder | app/historical-portfolio-value.ts:832-847 | string order of YYYY-MM-DD is day order |
| Calendar.ParseFormat | app/dividend-list-query.ts:163-167 | printing a date and reading it gives the date |
| Calendar.FormatParse | app/dividend-list-query.ts:163-167 | reading a text that is a date and printing it gives the text |
| Calendar.AddDaysWellFormedIff | app/dividend-list-query.ts:163-167 | a shifted date prints as a date if and only if it lands in a year of four digits |
| Calendar.ShiftsAdd | app/dividend-list-query.ts:163-167 | shifts add up |
| Calendar.ShiftsCancel | app/dividend-list-query.ts:163-167 | a shift and its opposite cancel |
| Calendar.SpanOfShift | app/owned-dividend-history.ts:218-229 | counting the days to a shifted date gives the shift, both ends included, and none for a date before |
| Calendar.DaysBeforeYearClosed | app/owned-dividend-history.ts:218-229 | the leap rule counted year by year is the three-quotient closed form, in both directions from year 1 |
| Calendar.DayNumberClosed | app/owned-dividend-history.ts:218-224 | a date's number in closed form, years by three quotients and months by one; 1 January 1970 is 719163 |
| DividendList.FilterRowsForFyWindow | app/dividend-list-query.ts:130-150 | exactly the rows attributed to the window, in order, and the number of rows without any date |
| DividendList.FyWindowByDays | app/dividend-list-query.ts:130-150 | a row matches exactly when its payment day, or its ex-day if it has no payment date, lies in the window's days |
| DividendList.Next12ByDays | app/dividend-list-query.ts:179-191 | unpaid rows, and paid ones on exactly the start day or the 365 days after |
| OverviewRatios.HeightsInOrder | app/overview-read-model.ts:238-273 | bars are between 20 and 100 high and rounding never reverses two of them |
| OverviewRatios.HeightEnds | app/overview-read-model.ts:238-273 | the smallest value is at 20 and the largest at 100, unless all are equal, when they are at 60 |
| OverviewRatios.HeightInProportion | app/overview-read-model.ts:238-273 | between the ends a bar stands in proportion to its value, to within 0.005 |
| OverviewRatios.AddChartHeights | app/overview-read-model.ts:238-273 | a height for each valued point against the true extremes, none for gaps, and none at all when a value is unreadable |
| OverviewRatios.AllocationTotals | app/overview-read-model.ts:525-561 | shown percentages of priced rows total 100 to within 0.005 a row; complete means every row is priced |
| OverviewRatios.PercentNear | app/overview-read-model.ts:525-561 | a shown percentage is a hundredfold of the share, to within 0.005 |
| OverviewRatios.ShownIff | app/overview-read-model.ts:525-561 | percentages are shown exactly when the known values sum to something positive |
| OverviewRatios.PercentOrder | app/overview-read-model.ts:525-561 | a larger value never shows a smaller percentage |
| Decimals.HalfEvenUnique | domain/calculations/decimal.ts:241-255 | nearest, and even on a tie, leaves one integer |
| Decimals.RoundAtBound | domain/calculations/decimal.ts:241-255 | rounding moves a value by at most half a unit of the last place |

## Left out

- SQL text, query plans, D1 round trips and the concurrency of parallel reads: each documented repository call is one guarded step on maps and sequences.
- Row mapping, field validation, regular expressions and message text; rows arrive already typed.
- Time zone resolution and `Intl`: local dates of observations and of today are inputs, with no assumption about their offset.
- Provider clients, logging, authentication, routes, request bodies, layout and the service worker.
- Overlapping executor invocations on one portfolio: one invocation works at a time, though it may stop anywhere and leave its lease behind, so a claim is never lost to another one.
- The final `hasPendingRun` read of an executor invocation is outside the counted statements, as it is in the code.
- The body of a security's rebuild (parcel matching): a ledger is what it projects to, security by security, and a rebuild may fail for good or for now at any call. Foreign keys between projected rows, which can only make more batches fail, are not modelled.
- Changes of a portfolio's base currency or time zone, or of a listing's currency or security: facts change here through the ledger, prices, rates and new listings.
- The limits on how many portfolios one invalidation reaches, and a refresh's deletions for portfolios beyond its first batch, which follow in calls of their own: one portfolio is modelled, and either kind of write is a step of it.
- The row-count limits on securities, transactions and observations of one value read, and candidate dates that are no calendar dates.
- The encoding of a convergence fingerprint and of a checkpoint fingerprint as text: both are compared as records.
- Values beyond the decimal type's own internal digit limit; only the limits of reading a decimal back are modelled.
- `localeCompare` on tickers and on malformed decimals is character order here.
- The dividend derivation of one security (entitlement, forecasts, totals) is a function of the inputs a load hands it; equality of inputs is what is proved.
- The near-match skip of dividend rows at commit time, which looks only at other batches, is a property of the row here.
- The other grounds on which a commit call is refused before it touches the batch: open issues, unmapped rows, a stale preview.
- Years before 1000: the program's date shift reads years 0 to 99 as 1900 to 1999.
- The earlier status steps of the accept service (parse, review, confirm) before its commit loop, and session storage on the client.
- Writers of price rows under another provider, interval or instant (owner imports, end-of-day history, restored backups): `Rollup` follows the one row a day's ticks are promoted to.
- Rollup.Capture.Insert: does not model the provider request budget and fetch errors of the capture phase, which decide whether an insert is attempted, not what it does.
- RebuildRows.NothingSilentlyStale: assumes a mutation's run is not stamped before an earlier run, because otherwise the flag does not come on; the exact condition is RebuildRows.MutationNoticedIff.
- Valuation.ValuePointAtDate: gathers the contributions of all securities before adding them up, where the program does both in one loop.
- The coverage cross-checks of the overview, currency prefixes and display formatting, which add only easy members.
