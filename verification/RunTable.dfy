/** The calculation-run table of one portfolio: rows, their creation order, and every repository call. */
module RunTable {
  import opened Sequences

  const MAX_STALL_CLAIMS := 5
  const LEASE_DURATION_MS := 5 * 60 * 1000
  const OUTPUTS_PER_CHUNK := 20

  datatype Pipeline = Projection | Snapshot
  datatype Category = SupersededByNewerRun | StallLimitExceeded | BuildFailed | PipelineRetired
  datatype Status = Queued | Running(owner: nat, expires: int) | Completed | Failed(why: Category) | Abandoned

  /** A projected row: a tax lot, an allocation or a holding, under the key its table enforces. */
  datatype Output = Output(key: nat, fact: nat)
  datatype Written = Written(security: nat, output: Output)

  /** What the ledger projects to right now, security by security. */
  type Projections = map<nat, seq<Output>>

  /** cursor is the last security finished, active the one being written, offset its rows written so far. */
  datatype Checkpoint = Checkpoint(cursor: Option<nat>, active: Option<nat>, offset: nat)

  const BEGINNING := Checkpoint(None, None, 0)

  /** rows are those written under the run's id; highWater 0 is the empty mark. */
  datatype Run = Run(pipeline: Pipeline, createdAt: int, status: Status, checkpoint: Checkpoint, rows: seq<Written>,
                     stallCount: nat, stallMark: Option<Checkpoint>, attempt: nat, highWater: nat)

  /** Runs in insertion order; published is the one the publication points at. */
  datatype Table = Table(runs: seq<Run>, published: Option<nat>, ledger: Projections)

  /** b comes after a: later creation time, insertion order on a tie. */
  predicate Newer(runs: seq<Run>, a: nat, b: nat)
    requires a < |runs| && b < |runs|
  {
    runs[a].createdAt < runs[b].createdAt || (runs[a].createdAt == runs[b].createdAt && a < b)
  }

  /** A later row of the same pipeline exists, whatever its status. */
  predicate HasNewer(runs: seq<Run>, i: nat)
    requires i < |runs|
  {
    exists j :: 0 <= j < |runs| && runs[j].pipeline == runs[i].pipeline && Newer(runs, i, j)
  }

  predicate Claimable(run: Run, now: int) {
    run.status.Queued? || (run.status.Running? && run.status.expires <= now)
  }

  /** The oldest claimable row of the pipeline among the first n. */
  function NextClaimable(runs: seq<Run>, pipeline: Pipeline, now: int, n: nat): (r: Option<nat>)
    requires n <= |runs|
    ensures r.Some? ==> r.value < n && runs[r.value].pipeline == pipeline && Claimable(runs[r.value], now)
    ensures r.Some? ==> forall j :: 0 <= j < n && j != r.value && runs[j].pipeline == pipeline && Claimable(runs[j], now)
                          ==> Newer(runs, r.value, j)
    ensures r.None? ==> forall j :: 0 <= j < n ==> !(runs[j].pipeline == pipeline && Claimable(runs[j], now))
  {
    if n == 0 then None
    else
      var best := NextClaimable(runs, pipeline, now, n - 1);
      if runs[n - 1].pipeline == pipeline && Claimable(runs[n - 1], now)
         && (best.None? || runs[n - 1].createdAt < runs[best.value].createdAt)
      then Some(n - 1)
      else best
  }

  function WithRun(t: Table, i: nat, run: Run): Table
    requires i < |t.runs|
  {
    t.(runs := t.runs[i := run])
  }

  predicate Holds(run: Run, owner: nat) {
    run.status.Running? && run.status.owner == owner
  }

  function NewRun(pipeline: Pipeline, createdAt: int, highWater: nat): Run {
    Run(pipeline, createdAt, Queued, BEGINNING, [], 0, None, 0, highWater)
  }

  function Enqueue(t: Table, run: Run): Table {
    t.(runs := t.runs + [run])
  }

  /** A ledger mutation and the run it queues are one atomic unit. */
  function MutateLedger(t: Table, ledger: Projections, run: Run): Table {
    Enqueue(t, run).(ledger := ledger)
  }

  /** One statement fails every queued row of the pipeline that has a newer sibling. */
  function SupersedeStaleQueued(t: Table, pipeline: Pipeline): (r: Table)
    ensures |r.runs| == |t.runs| && r.published == t.published && r.ledger == t.ledger
  {
    t.(runs := seq(|t.runs|, i requires 0 <= i < |t.runs| =>
      if t.runs[i].pipeline == pipeline && t.runs[i].status.Queued? && HasNewer(t.runs, i)
      then t.runs[i].(status := Failed(SupersededByNewerRun))
      else t.runs[i]))
  }

  /** Every queued or running row of a retired pipeline ends, leased or not. */
  function TerminatePipeline(t: Table, pipeline: Pipeline): (r: Table)
    ensures |r.runs| == |t.runs| && r.published == t.published && r.ledger == t.ledger
  {
    t.(runs := seq(|t.runs|, i requires 0 <= i < |t.runs| =>
      if t.runs[i].pipeline == pipeline && (t.runs[i].status.Queued? || t.runs[i].status.Running?)
      then t.runs[i].(status := Abandoned)
      else t.runs[i]))
  }

  function ClaimRun(t: Table, i: nat, owner: nat, now: int): Option<Table> {
    if i < |t.runs| && Claimable(t.runs[i], now)
    then Some(WithRun(t, i, t.runs[i].(status := Running(owner, now + LEASE_DURATION_MS), attempt := t.runs[i].attempt + 1)))
    else None
  }

  function FailRun(t: Table, i: nat, owner: nat, why: Category): Option<Table> {
    if i < |t.runs| && Holds(t.runs[i], owner) then Some(WithRun(t, i, t.runs[i].(status := Failed(why)))) else None
  }

  /** A claim that sees the checkpoint the one before it saw has made no progress. */
  function ClaimedAgain(run: Run): Run {
    if run.stallMark == Some(run.checkpoint) then run.(stallCount := run.stallCount + 1)
    else run.(stallCount := 0, stallMark := Some(run.checkpoint))
  }

  function RecordClaimProgress(t: Table, i: nat, owner: nat): Option<Table> {
    if i < |t.runs| && Holds(t.runs[i], owner) then Some(WithRun(t, i, ClaimedAgain(t.runs[i]))) else None
  }

  function ResolveEmptyHighWater(t: Table, i: nat, owner: nat, highWater: nat): Table {
    if i < |t.runs| && Holds(t.runs[i], owner) && t.runs[i].highWater == 0
    then WithRun(t, i, t.runs[i].(highWater := highWater))
    else t
  }

  function ReleaseLease(t: Table, i: nat, owner: nat, now: int): Table {
    if i < |t.runs| && Holds(t.runs[i], owner)
    then WithRun(t, i, t.runs[i].(status := Running(owner, now)))
    else t
  }

  /** The rebuild may write for this row: leased to the owner, unexpired, on the same ledger mark. */
  predicate MayRebuild(t: Table, i: nat, owner: nat, now: int, highWater: nat) {
    i < |t.runs| && Holds(t.runs[i], owner) && now < t.runs[i].status.expires && t.runs[i].highWater == highWater
  }

  // What one rebuild call reads and writes.

  function OutputsOf(ledger: Projections, security: nat): seq<Output> {
    if security in ledger then ledger[security] else []
  }

  /** Securities before this one are finished or were passed over. */
  function Frontier(c: Checkpoint): nat {
    if c.active.Some? then c.active.value else if c.cursor.Some? then c.cursor.value + 1 else 0
  }

  /** The first security with transactions at or behind from. */
  function NextSecurity(ledger: Projections, from: nat): (r: Option<nat>)
    ensures r.None? ==> forall s :: s in ledger ==> s < from
    ensures r.Some? ==> r.value in ledger && r.value >= from && forall s :: s in ledger && s >= from ==> r.value <= s
  {
    var ahead := set s | s in ledger && s >= from :: s as int;
    var least := MinOf(ahead);
    assert forall s :: s in ledger && s >= from ==> s as int in ahead;
    if least.Some? then Some(least.value) else None
  }

  /** The security being written, or else the next one. */
  function CurrentSecurity(ledger: Projections, c: Checkpoint): Option<nat> {
    if c.active.Some? then c.active else NextSecurity(ledger, Frontier(c))
  }

  datatype Plan = Finish | Write(rows: seq<Written>, next: Checkpoint)

  function Labelled(security: nat, outputs: seq<Output>): (rows: seq<Written>)
    ensures |rows| == |outputs|
  {
    seq(|outputs|, i requires 0 <= i < |outputs| => Written(security, outputs[i]))
  }

  function Upto(n: nat, limit: nat): nat {
    if n < limit then n else limit
  }

  /** The next rows of one security, from the offset on, at most OUTPUTS_PER_CHUNK, and the checkpoint behind them. */
  function ChunkOf(security: nat, outputs: seq<Output>, c: Checkpoint): Plan {
    var from := Upto(c.offset, |outputs|);
    var to := Upto(from + OUTPUTS_PER_CHUNK, |outputs|);
    Write(Labelled(security, outputs[from..to]),
          if c.offset + (to - from) >= |outputs| then Checkpoint(Some(security), None, 0)
          else Checkpoint(c.cursor, Some(security), c.offset + (to - from)))
  }

  lemma ChunkFits(security: nat, outputs: seq<Output>, c: Checkpoint)
    ensures ChunkOf(security, outputs, c).Write? && |ChunkOf(security, outputs, c).rows| <= OUTPUTS_PER_CHUNK
  {
  }

  /** What a rebuild call writes for the security it chose, from that security's transactions as it reads them. */
  function PlanFor(ledger: Projections, c: Checkpoint, security: Option<nat>): Plan {
    if security.None? then Finish else ChunkOf(security.value, OutputsOf(ledger, security.value), c)
  }

  /** The plan when nothing changes between the choice and the read. */
  function PlanOf(ledger: Projections, c: Checkpoint): Plan {
    PlanFor(ledger, c, CurrentSecurity(ledger, c))
  }

  /** No key is inserted twice under one run, which the tables' primary keys enforce. */
  predicate DistinctKeys(rows: seq<Written>) {
    forall i, j :: 0 <= i < j < |rows| ==> rows[i].output.key != rows[j].output.key
  }

  function WriteChunk(t: Table, i: nat, rows: seq<Written>, next: Checkpoint): Table
    requires i < |t.runs|
  {
    WithRun(t, i, t.runs[i].(rows := t.runs[i].rows + rows, checkpoint := next))
  }

  /** Completing the row and repointing the publication are one atomic unit. */
  function Publish(t: Table, i: nat): Table
    requires i < |t.runs|
  {
    WithRun(t, i, t.runs[i].(status := Completed)).(published := Some(i))
  }

  // What a page shows beside a published result.

  /** Later projection rows still queued or running, or failed for a reason other than supersession. */
  predicate CountsAsPending(t: Table, j: nat)
    requires j < |t.runs| && t.published.Some? && t.published.value < |t.runs|
  {
    var run := t.runs[j];
    && run.pipeline == Projection
    && (run.status.Queued? || run.status.Running? || (run.status.Failed? && run.status.why != SupersededByNewerRun))
    && Newer(t.runs, t.published.value, j)
  }

  /** The newest of them among the first n: the read's ORDER BY ... DESC LIMIT 1. */
  function PendingRun(t: Table, n: nat): (r: Option<nat>)
    requires n <= |t.runs| && t.published.Some? && t.published.value < |t.runs|
    ensures r.Some? ==> r.value < n && CountsAsPending(t, r.value)
    ensures r.Some? ==> forall j :: 0 <= j < n && j != r.value && CountsAsPending(t, j) ==> Newer(t.runs, j, r.value)
    ensures r.None? ==> forall j :: 0 <= j < n ==> !CountsAsPending(t, j)
  {
    if n == 0 then None
    else
      var best := PendingRun(t, n - 1);
      if CountsAsPending(t, n - 1) && (best.None? || !(t.runs[n - 1].createdAt < t.runs[best.value].createdAt))
      then Some(n - 1)
      else best
  }

  /** The newest projection row. */
  ghost predicate IsNewest(t: Table, i: nat) {
    i < |t.runs| && t.runs[i].pipeline == Projection && !HasNewer(t.runs, i)
  }
}
