/** Committing a staged import a few rows at a time: the commit step, the server's loop and the client's loop. */
module ImportCommit {
  import opened Sequences

  const MAX_CHUNK_SIZE := 2
  const ACCEPT_COMMIT_LOOP_MAX_ITERATIONS := 8

  /** Where a row is posted: trades and dividends of each portfolio are looked up separately. */
  datatype Book = Book(dividend: bool, portfolio: nat)
  datatype Entry = Entry(book: Book, reference: nat)

  /** What a transaction row resolves to; Known is a dividend near one another batch committed. */
  datatype Target = Unresolvable | Known | Posts(book: Book)

  /** What a staged row says; a transaction's fingerprint is the reference it would be posted under. */
  datatype Content = Excluded | NotTransaction | Transaction(reference: nat, target: Target)

  datatype RowStatus = Staged | Committed | Skipped
  datatype Row = Row(number: int, content: Content, status: RowStatus)

  function Min(a: int, b: int): int {
    if a < b then a else b
  }

  // What the outcome should be, whatever the calls.

  /** An earlier row of the batch that is not excluded has the same fingerprint. */
  predicate Repeats(file: seq<Row>, i: nat)
    requires i < |file|
  {
    file[i].content.Transaction?
    && exists j :: 0 <= j < i && file[j].content.Transaction? && file[j].content.reference == file[i].content.reference
  }

  predicate WouldPost(file: seq<Row>, i: nat)
    requires i < |file|
  {
    file[i].content.Transaction? && file[i].content.target.Posts?
  }

  function EntryOf(file: seq<Row>, i: nat): Entry
    requires i < |file| && WouldPost(file, i)
  {
    Entry(file[i].content.target.book, file[i].content.reference)
  }

  /** A row is committed exactly when it posts, is the first with its fingerprint, and was not posted before the batch. */
  function OutcomeAt(file: seq<Row>, before: set<Entry>, i: nat): RowStatus
    requires i < |file|
  {
    if WouldPost(file, i) && !Repeats(file, i) && EntryOf(file, i) !in before then Committed else Skipped
  }

  /** The first done rows with their outcomes, the others as staged. */
  function Partly(file: seq<Row>, before: set<Entry>, done: nat): (rows: seq<Row>)
    requires done <= |file|
    ensures |rows| == |file|
  {
    seq(|file|, i requires 0 <= i < |file| =>
      if i < done then file[i].(status := OutcomeAt(file, before, i)) else file[i])
  }

  function PostedAfter(file: seq<Row>, before: set<Entry>, done: nat): set<Entry>
    requires done <= |file|
  {
    before + set i | 0 <= i < done && OutcomeAt(file, before, i) == Committed :: EntryOf(file, i)
  }

  /** No fingerprint is committed twice, nothing posted before is posted again, and each committed row is posted. */
  lemma CommittedOnce(file: seq<Row>, before: set<Entry>, i: nat, j: nat)
    requires i < j < |file| && OutcomeAt(file, before, i) == Committed && OutcomeAt(file, before, j) == Committed
    ensures EntryOf(file, i).reference != EntryOf(file, j).reference
    ensures EntryOf(file, i) in PostedAfter(file, before, |file|) && EntryOf(file, i) !in before
  {
  }

  /** It posts, no earlier transaction of the file has its fingerprint, and its book did not have it before the batch. */
  predicate Lands(file: seq<Row>, before: set<Entry>, i: nat)
    requires i < |file|
  {
    match file[i].content
    case Transaction(reference, Posts(book)) =>
      && (forall j :: 0 <= j < i ==> !(file[j].content.Transaction? && file[j].content.reference == reference))
      && Entry(book, reference) !in before
    case _ => false
  }

  /** Those rows are committed and all others skipped: none is left undecided. */
  lemma OutcomeIff(file: seq<Row>, before: set<Entry>, i: nat)
    requires i < |file|
    ensures OutcomeAt(file, before, i) == Committed <==> Lands(file, before, i)
    ensures OutcomeAt(file, before, i) == Skipped <==> !Lands(file, before, i)
  {
  }

  /** After the batch exactly the landing rows' entries are posted besides what was. */
  lemma PostedExactly(file: seq<Row>, before: set<Entry>, e: Entry)
    ensures e in PostedAfter(file, before, |file|) <==>
      e in before
      || exists i :: 0 <= i < |file| && Lands(file, before, i) && file[i].content == Transaction(e.reference, Posts(e.book))
  {
    if i :| 0 <= i < |file| && Lands(file, before, i) && file[i].content == Transaction(e.reference, Posts(e.book)) {
      OutcomeIff(file, before, i);
      assert EntryOf(file, i) == e;
    }
    if e in PostedAfter(file, before, |file|) && e !in before {
      var i :| 0 <= i < |file| && OutcomeAt(file, before, i) == Committed && EntryOf(file, i) == e;
      OutcomeIff(file, before, i);
    }
  }

  predicate AllStaged(rows: seq<Row>) {
    && (forall i :: 0 <= i < |rows| ==> rows[i].status == Staged)
    && (forall i, j :: 0 <= i < j < |rows| ==> rows[i].number < rows[j].number)
  }

  /** Every row a call would resolve can be resolved. */
  predicate Resolvable(file: seq<Row>) {
    forall i :: 0 <= i < |file| && file[i].content.Transaction? && file[i].content.target.Unresolvable? ==> Repeats(file, i)
  }

  // The screening every call repeats over the whole batch.

  /** skipped numbers exactly the repeated rows among the first n. */
  ghost predicate Screens(skipped: set<int>, file: seq<Row>, n: nat)
    requires n <= |file|
  {
    forall x :: x in skipped <==> exists i :: 0 <= i < n && Repeats(file, i) && file[i].number == x
  }

  lemma SkippedIff(skipped: set<int>, file: seq<Row>, i: nat)
    requires Screens(skipped, file, |file|) && i < |file|
    requires forall a, b :: 0 <= a < b < |file| ==> file[a].number < file[b].number
    ensures file[i].number in skipped <==> Repeats(file, i)
  {
    if file[i].number in skipped {
      var k :| 0 <= k < |file| && Repeats(file, k) && file[k].number == file[i].number;
      assert k == i;
    }
  }

  /** One pass with the fingerprints met so far. */
  method Screen(rows: seq<Row>) returns (skipped: set<int>)
    ensures Screens(skipped, rows, |rows|)
  {
    skipped := {};
    var seen: set<nat> := {};
    for i := 0 to |rows|
      invariant Screens(skipped, rows, i)
      invariant forall r :: r in seen <==>
        exists j :: 0 <= j < i && rows[j].content.Transaction? && rows[j].content.reference == r
    {
      match rows[i].content {
        case Transaction(reference, _) =>
          assert reference in seen <==> Repeats(rows, i);
          if reference in seen {
            skipped := skipped + {rows[i].number};
          }
          seen := seen + {reference};
        case _ =>
      }
    }
  }

  /** The screening reads only what a row says, so it is the same at every call. */
  lemma ScreenAlways(file: seq<Row>, before: set<Entry>, done: nat)
    requires done <= |file|
    ensures forall i :: 0 <= i < |file| ==> (Repeats(Partly(file, before, done), i) <==> Repeats(file, i))
  {
    var rows := Partly(file, before, done);
    assert forall i :: 0 <= i < |file| ==> rows[i].content == file[i].content;
    forall i | 0 <= i < |file| ensures Repeats(rows, i) <==> Repeats(file, i) {
      if Repeats(file, i) {
        var j :| 0 <= j < i && file[j].content.Transaction? && file[j].content.reference == file[i].content.reference;
        assert rows[j].content == file[j].content;
      }
      if Repeats(rows, i) {
        var j :| 0 <= j < i && rows[j].content.Transaction? && rows[j].content.reference == rows[i].content.reference;
        assert rows[j].content == file[j].content;
      }
    }
  }

  // One call's worth of rows.

  function DecideInCall(row: Row, skipped: set<int>, posted: set<Entry>, seen: set<nat>): RowStatus {
    match row.content
    case Transaction(reference, Posts(book)) =>
      if row.number in skipped || reference in seen || Entry(book, reference) in posted then Skipped else Committed
    case _ => Skipped
  }

  function SeenAfter(row: Row, skipped: set<int>, seen: set<nat>): set<nat> {
    if row.content.Transaction? && row.number !in skipped then seen + {row.content.reference} else seen
  }

  predicate CannotResolve(row: Row, skipped: set<int>) {
    row.content.Transaction? && row.content.target.Unresolvable? && row.number !in skipped
  }

  /** What one call makes of its rows: screened rows aside, repeats inside the call, then what is posted by now. */
  function DecideCall(rows: seq<Row>, skipped: set<int>, posted: set<Entry>, seen: set<nat>): (r: seq<RowStatus>)
    ensures |r| == |rows|
  {
    if rows == [] then []
    else
      [DecideInCall(rows[0], skipped, posted, seen)]
      + DecideCall(rows[1..], skipped, posted, SeenAfter(rows[0], skipped, seen))
  }

  /** The decisions still to come, one row further on. */
  lemma DecideFrom(all: seq<RowStatus>, rows: seq<Row>, i: nat, skipped: set<int>, posted: set<Entry>, seen: set<nat>)
    requires i < |rows| == |all| && all[i..] == DecideCall(rows[i..], skipped, posted, seen)
    ensures all[i] == DecideInCall(rows[i], skipped, posted, seen)
    ensures all[i + 1..] == DecideCall(rows[i + 1..], skipped, posted, SeenAfter(rows[i], skipped, seen))
  {
    assert rows[i..][1..] == rows[i + 1..];
    assert all[i] == all[i..][0] && all[i + 1..] == all[i..][1..];
  }

  /** seen holds only fingerprints of rows before the d-th. */
  ghost predicate SeenBefore(seen: set<nat>, file: seq<Row>, d: nat)
    requires d <= |file|
  {
    forall r :: r in seen ==>
      exists j :: 0 <= j < d && file[j].content.Transaction? && file[j].content.reference == r
  }

  /** Once the batch is screened, neither the call's own repeats nor what the batch posted so far decides anything. */
  lemma OneDecided(file: seq<Row>, before: set<Entry>, base: nat, d: nat, skipped: set<int>, seen: set<nat>)
    requires AllStaged(file) && base <= d < |file| && Screens(skipped, file, |file|) && SeenBefore(seen, file, d)
    ensures DecideInCall(file[d], skipped, PostedAfter(file, before, base), seen) == OutcomeAt(file, before, d)
    ensures SeenBefore(SeenAfter(file[d], skipped, seen), file, d + 1)
    ensures CannotResolve(file[d], skipped) <==>
      file[d].content.Transaction? && file[d].content.target.Unresolvable? && !Repeats(file, d)
  {
    SkippedIff(skipped, file, d);
    if WouldPost(file, d) && EntryOf(file, d) in PostedAfter(file, before, base) && EntryOf(file, d) !in before {
      var i :| 0 <= i < base && OutcomeAt(file, before, i) == Committed && EntryOf(file, i) == EntryOf(file, d);
      assert file[i].content.reference == file[d].content.reference;
    }
  }

  /** However many rows a call takes and wherever it starts, it decides each as its place in the whole batch does. */
  lemma {:induction false} CallDecides(file: seq<Row>, before: set<Entry>, base: nat, d: nat, e: nat,
      skipped: set<int>, seen: set<nat>)
    requires AllStaged(file) && base <= d <= e <= |file|
    requires Screens(skipped, file, |file|) && SeenBefore(seen, file, d)
    ensures DecideCall(file[d..e], skipped, PostedAfter(file, before, base), seen)
         == seq(e - d, j requires 0 <= j < e - d => OutcomeAt(file, before, d + j))
    decreases e - d
  {
    if d < e {
      OneDecided(file, before, base, d, skipped, seen);
      assert file[d..e][1..] == file[d + 1..e];
      CallDecides(file, before, base, d + 1, e, skipped, SeenAfter(file[d], skipped, seen));
    }
  }

  /** The next rows a call takes: staged, above the high-water row, at most limit of them. */
  function Pending(rows: seq<Row>, highWater: int, limit: nat): seq<Row> {
    if rows == [] || limit == 0 then []
    else if rows[0].number > highWater && rows[0].status == Staged
    then [rows[0]] + Pending(rows[1..], highWater, limit - 1)
    else Pending(rows[1..], highWater, limit)
  }

  function CountStatus(rows: seq<Row>, status: RowStatus): nat {
    if rows == [] then 0 else (if rows[0].status == status then 1 else 0) + CountStatus(rows[1..], status)
  }

  function WithStatus(rows: seq<Row>, status: RowStatus): set<int> {
    set i | 0 <= i < |rows| && rows[i].status == status
  }

  lemma {:induction false} CountIsSize(rows: seq<Row>, status: RowStatus)
    ensures CountStatus(rows, status) == |WithStatus(rows, status)|
    decreases rows
  {
    if rows != [] {
      var n := |rows| - 1;
      CountSnoc(rows[..n], rows[n], status);
      WithStatusSnoc(rows[..n], rows[n], status);
      CountIsSize(rows[..n], status);
      assert rows == rows[..n] + [rows[n]];
    }
  }

  lemma WithStatusSnoc(rows: seq<Row>, row: Row, status: RowStatus)
    ensures |WithStatus(rows + [row], status)| == |WithStatus(rows, status)| + if row.status == status then 1 else 0
  {
    assert WithStatus(rows + [row], status) == WithStatus(rows, status) + if row.status == status then {|rows|} else {};
  }

  lemma {:induction false} CountSnoc(rows: seq<Row>, row: Row, status: RowStatus)
    ensures CountStatus(rows + [row], status) == CountStatus(rows, status) + if row.status == status then 1 else 0
  {
    if rows == [] {
      assert [] + [row] == [row] && [row][1..] == [];
    } else {
      assert (rows + [row])[1..] == rows[1..] + [row];
      CountSnoc(rows[1..], row, status);
    }
  }

  function Landing(file: seq<Row>, before: set<Entry>): set<int> {
    set i: int | 0 <= i < |file| && Lands(file, before, i)
  }

  /** In the end the rows committed are those that land. */
  lemma CommittedLand(file: seq<Row>, before: set<Entry>)
    ensures WithStatus(Partly(file, before, |file|), Committed) == Landing(file, before)
    ensures WithStatus(Partly(file, before, |file|), Staged) == {}
  {
    forall i: nat | i < |file| ensures Partly(file, before, |file|)[i].status == Committed <==> Lands(file, before, i) {
      OutcomeIff(file, before, i);
    }
  }

  /** Committed, skipped and remaining rows always add up to the file. */
  lemma {:induction false} CountsConserved(rows: seq<Row>)
    ensures CountStatus(rows, Committed) + CountStatus(rows, Skipped) + CountStatus(rows, Staged) == |rows|
  {
    if rows != [] {
      CountsConserved(rows[1..]);
    }
  }

  // The batch part-way through.

  function HighWater(rows: seq<Row>, done: nat, start: int): int
    requires done <= |rows|
  {
    if done == 0 then start else rows[done - 1].number
  }

  lemma {:induction false} PendingSkips(settled: seq<Row>, rest: seq<Row>, highWater: int, limit: nat)
    requires forall i :: 0 <= i < |settled| ==> settled[i].status != Staged
    ensures Pending(settled + rest, highWater, limit) == Pending(rest, highWater, limit)
  {
    if settled == [] {
      assert settled + rest == rest;
    } else {
      assert (settled + rest)[1..] == settled[1..] + rest;
      PendingSkips(settled[1..], rest, highWater, limit);
    }
  }

  lemma {:induction false} PendingTakes(rest: seq<Row>, highWater: int, limit: nat)
    requires forall i :: 0 <= i < |rest| ==> rest[i].status == Staged && rest[i].number > highWater
    ensures Pending(rest, highWater, limit) == rest[..Min(limit, |rest|)]
  {
    if rest != [] && limit > 0 {
      PendingTakes(rest[1..], highWater, limit - 1);
      assert rest[..Min(limit, |rest|)] == [rest[0]] + rest[1..][..Min(limit - 1, |rest| - 1)];
    }
  }

  lemma PartlySplit(file: seq<Row>, before: set<Entry>, done: nat)
    requires done <= |file|
    ensures Partly(file, before, done) == Partly(file, before, done)[..done] + file[done..]
    ensures forall i :: 0 <= i < done ==> Partly(file, before, done)[..done][i].status != Staged
  {
  }

  lemma RestAhead(file: seq<Row>, done: nat, start: int)
    requires AllStaged(file) && done <= |file| && (file != [] ==> start < file[0].number)
    ensures forall i :: 0 <= i < |file| - done ==>
      file[done..][i].status == Staged && file[done..][i].number > HighWater(file, done, start)
  {
    forall i | done <= i < |file| ensures file[i].number > HighWater(file, done, start) {
      if done == 0 && i > 0 {
        assert file[0].number < file[i].number;
      }
    }
  }

  /** What is pending is exactly the next rows of the file. */
  lemma PendingIsNext(file: seq<Row>, before: set<Entry>, done: nat, start: int, limit: nat)
    requires AllStaged(file) && done <= |file| && (file != [] ==> start < file[0].number)
    ensures Pending(Partly(file, before, done), HighWater(file, done, start), limit)
         == file[done..Min(done + limit, |file|)]
  {
    var settled, rest, highWater := Partly(file, before, done)[..done], file[done..], HighWater(file, done, start);
    PartlySplit(file, before, done);
    PendingSkips(settled, rest, highWater, limit);
    RestAhead(file, done, start);
    PendingTakes(rest, highWater, limit);
    assert file[done..][..Min(limit, |file| - done)] == file[done..Min(done + limit, |file|)];
  }

  /** Settling one more row. */
  lemma PartlySnoc(file: seq<Row>, before: set<Entry>, done: nat)
    requires done < |file|
    ensures Partly(file, before, done + 1)
         == Partly(file, before, done)[done := file[done].(status := OutcomeAt(file, before, done))]
    ensures PostedAfter(file, before, done + 1)
         == PostedAfter(file, before, done) + if OutcomeAt(file, before, done) == Committed then {EntryOf(file, done)} else {}
  {
  }

  /** Writing a status to the row with this number. */
  function Mark(rows: seq<Row>, number: int, status: RowStatus): seq<Row> {
    if rows == [] then []
    else if rows[0].number == number then [rows[0].(status := status)] + rows[1..]
    else [rows[0]] + Mark(rows[1..], number, status)
  }

  lemma {:induction false} MarkAt(rows: seq<Row>, i: nat, status: RowStatus)
    requires i < |rows| && forall a, b :: 0 <= a < b < |rows| ==> rows[a].number < rows[b].number
    ensures Mark(rows, rows[i].number, status) == rows[i := rows[i].(status := status)]
  {
    if i > 0 {
      MarkAt(rows[1..], i - 1, status);
    }
  }

  lemma ScreenedFile(file: seq<Row>, before: set<Entry>, done: nat, skipped: set<int>)
    requires done <= |file| && Screens(skipped, Partly(file, before, done), |file|)
    ensures Screens(skipped, file, |file|)
  {
    ScreenAlways(file, before, done);
    var rows := Partly(file, before, done);
    assert forall i :: 0 <= i < |file| ==> rows[i].number == file[i].number;
    forall x
      ensures x in skipped <==> exists i :: 0 <= i < |file| && Repeats(file, i) && file[i].number == x
    {
      if i :| 0 <= i < |file| && Repeats(file, i) && file[i].number == x {
        assert Repeats(rows, i) && rows[i].number == x;
      }
    }
  }

  lemma ChunkDecided(file: seq<Row>, before: set<Entry>, d: nat, pending: seq<Row>, skipped: set<int>)
    requires AllStaged(file) && Screens(skipped, file, |file|)
    requires d <= |file| && pending == file[d..Min(d + MAX_CHUNK_SIZE, |file|)]
    ensures var statuses := DecideCall(pending, skipped, PostedAfter(file, before, d), {});
      forall j :: 0 <= j < |pending| ==> statuses[j] == OutcomeAt(file, before, d + j)
    ensures Resolvable(file) ==> forall j :: 0 <= j < |pending| ==> !CannotResolve(pending[j], skipped)
  {
    CallDecides(file, before, d, d, d + |pending|, skipped, {});
    ChunkResolves(file, skipped, d, d + |pending|);
  }

  lemma ChunkResolves(file: seq<Row>, skipped: set<int>, d: nat, e: nat)
    requires AllStaged(file) && Screens(skipped, file, |file|) && d <= e <= |file|
    ensures Resolvable(file) ==> forall j :: 0 <= j < e - d ==> !CannotResolve(file[d..e][j], skipped)
  {
    forall j | 0 <= j < e - d && Resolvable(file) ensures !CannotResolve(file[d..e][j], skipped) {
      SkippedIff(skipped, file, d + j);
    }
  }

  datatype Phase = Ready | Committing | Finished
  datatype Problem = Conflict | MappingIncomplete | AtomicFailure
  datatype CommitResult = Refused(why: Problem) | Ok(finished: bool, committedRows: nat, skippedRows: nat, remainingRows: nat)

  /** Where an interruption strikes a commit call, if it does. */
  datatype Cut = Uncut | BeforeRows | BeforeFinish

  class Batch {
    var rows: seq<Row>
    var phase: Phase
    var highWater: int
    var key: Option<nat>
    var posted: set<Entry>

    ghost const file: seq<Row>
    ghost const before: set<Entry>
    ghost const start: int
    ghost var done: nat

    /** The rows are the file settled up to done. */
    ghost predicate Valid()
      reads this
    {
      && AllStaged(file) && (file != [] ==> start < file[0].number)
      && done <= |file|
      && rows == Partly(file, before, done)
      && posted == PostedAfter(file, before, done)
      && highWater == HighWater(file, done, start)
      && (phase.Ready? ==> done == 0 && key.None?)
      && (!phase.Ready? ==> key.Some?)
      && (phase.Finished? ==> done == |file|)
    }

    constructor (file: seq<Row>, posted: set<Entry>, start: int)
      requires AllStaged(file) && (file != [] ==> start < file[0].number)
      ensures Valid() && rows == file && this.posted == posted && phase.Ready? && done == 0
      ensures this.file == file && before == posted
    {
      this.file, before, this.start, done := file, posted, start, 0;
      rows, phase, highWater, key, this.posted := file, Ready, start, None, posted;
      new;
      assert Partly(file, posted, 0) == file;
    }

    /** The rows of one call, decided by the screening, what was seen in the call and what is posted by now. */
    method DecideRows(pending: seq<Row>, skipped: set<int>) returns (ok: bool, statuses: seq<RowStatus>)
      ensures ok <==> forall j :: 0 <= j < |pending| ==> !CannotResolve(pending[j], skipped)
      ensures ok ==> statuses == DecideCall(pending, skipped, posted, {})
    {
      ghost var all := DecideCall(pending, skipped, posted, {});
      var seen: set<nat> := {};
      statuses := [];
      for i := 0 to |pending|
        invariant forall j :: 0 <= j < i ==> !CannotResolve(pending[j], skipped)
        invariant statuses == all[..i] && all[i..] == DecideCall(pending[i..], skipped, posted, seen)
      {
        DecideFrom(all, pending, i, skipped, posted, seen);
        var row := pending[i];
        if !row.content.Transaction? || row.number in skipped {
          statuses := statuses + [Skipped];
        } else if row.content.target.Unresolvable? {
          return false, [];
        } else {
          var repeated := row.content.reference in seen;
          seen := seen + {row.content.reference};
          var unposted := row.content.target.Posts? && Entry(row.content.target.book, row.content.reference) !in posted;
          statuses := statuses + [if repeated || !unposted then Skipped else Committed];
        }
      }
      ok := true;
    }

    /** One row's status, its posting, and nothing else. */
    method WriteRow(row: Row, status: RowStatus)
      requires AllStaged(file) && done < |file| && row == file[done]
      requires rows == Partly(file, before, done) && posted == PostedAfter(file, before, done)
      requires status == OutcomeAt(file, before, done)
      modifies this`rows, this`posted, this`done
      ensures done == old(done) + 1
      ensures rows == Partly(file, before, done) && posted == PostedAfter(file, before, done)
    {
      PartlySnoc(file, before, done);
      MarkAt(rows, done, status);
      rows := Mark(rows, row.number, status);
      if status.Committed? {
        posted := posted + {Entry(row.content.target.book, row.content.reference)};
      }
      done := done + 1;
    }

    /** The chunk's rows, postings and high-water mark, all at once. */
    method WriteRows(pending: seq<Row>, statuses: seq<RowStatus>)
      requires Valid() && phase.Committing? && done < |file|
      requires pending == file[done..Min(done + MAX_CHUNK_SIZE, |file|)] && |statuses| == |pending|
      requires forall j :: 0 <= j < |pending| ==> statuses[j] == OutcomeAt(file, before, done + j)
      modifies this`rows, this`highWater, this`posted, this`done
      ensures Valid() && done == Min(old(done) + MAX_CHUNK_SIZE, |file|)
    {
      ghost var d := done;
      for j := 0 to |pending|
        invariant done == d + j
        invariant rows == Partly(file, before, done) && posted == PostedAfter(file, before, done)
      {
        WriteRow(pending[j], statuses[j]);
      }
      highWater := pending[|pending| - 1].number;
    }

    /** Screening, then the decisions of one chunk; each is the outcome of the row's place in the whole batch. */
    method DecideChunk(pending: seq<Row>) returns (ok: bool, statuses: seq<RowStatus>)
      requires Valid() && pending == file[done..Min(done + MAX_CHUNK_SIZE, |file|)]
      ensures ok ==> |statuses| == |pending| && forall j :: 0 <= j < |pending| ==> statuses[j] == OutcomeAt(file, before, done + j)
      ensures Resolvable(file) ==> ok
    {
      var skipped := Screen(rows);
      ScreenedFile(file, before, done, skipped);
      ChunkDecided(file, before, done, pending, skipped);
      ok, statuses := DecideRows(pending, skipped);
    }

    /** The rows of one call, unless it is cut first or one of them cannot be resolved. */
    method TakeRows(cut: Cut) returns (full: bool, problem: Option<Problem>)
      requires Valid() && phase.Committing?
      modifies this`rows, this`highWater, this`posted, this`done
      ensures Valid()
      ensures problem.None? ==> done == Min(old(done) + MAX_CHUNK_SIZE, |file|)
      ensures problem.None? ==> (full <==> old(done) + MAX_CHUNK_SIZE <= |file|)
      ensures problem.Some? ==> unchanged(this) && problem.value != Conflict
      ensures problem == Some(AtomicFailure) <==> cut.BeforeRows? && old(done) < |file|
      ensures problem == Some(MappingIncomplete) ==> !Resolvable(file)
      ensures !cut.BeforeRows? && Resolvable(file) ==> problem.None?
    {
      PendingIsNext(file, before, done, start, MAX_CHUNK_SIZE);
      var pending := Pending(rows, highWater, MAX_CHUNK_SIZE);
      full, problem := |pending| == MAX_CHUNK_SIZE, None;
      if pending != [] {
        if cut.BeforeRows? {
          return false, Some(AtomicFailure);
        }
        var ok, statuses := DecideChunk(pending);
        if !ok {
          return false, Some(MappingIncomplete);
        }
        WriteRows(pending, statuses);
      }
    }

    /** Staged rows above the high-water mark keep the batch open; otherwise it is finished. */
    method FinishOrContinue(full: bool, cut: Cut) returns (r: CommitResult)
      requires Valid() && phase.Committing? && (done < |file| ==> full)
      modifies this`phase
      ensures Valid()
      ensures r.Refused? ==> r.why.AtomicFailure? && cut.BeforeFinish? && unchanged(this)
      ensures r.Ok? ==> (r.finished <==> phase.Finished?)
      ensures r.Ok? ==> (r.finished <==> !(full && done < |file|))
      ensures r.Ok? ==> Sums(r)
    {
      PendingIsNext(file, before, done, start, 1);
      if full && Pending(rows, highWater, 1) != [] {
        r := Summary();
      } else if cut.BeforeFinish? {
        r := Refused(AtomicFailure);
      } else {
        phase := Finished;
        r := Summary();
      }
    }

    /** The counts reported are the numbers of rows committed, skipped and still staged. */
    ghost predicate Sums(r: CommitResult)
      requires r.Ok?
      reads this
    {
      && r.committedRows == |WithStatus(rows, Committed)|
      && r.skippedRows == |WithStatus(rows, Skipped)|
      && r.remainingRows == |WithStatus(rows, Staged)|
      && r.committedRows + r.skippedRows + r.remainingRows == |file|
    }

    method Summary() returns (r: CommitResult)
      requires Valid()
      ensures r.Ok? && (r.finished <==> phase.Finished?) && Sums(r)
    {
      CountsConserved(rows);
      CountIsSize(rows, Committed);
      CountIsSize(rows, Skipped);
      CountIsSize(rows, Staged);
      r := Ok(phase.Finished?, CountStatus(rows, Committed), CountStatus(rows, Skipped), CountStatus(rows, Staged));
    }

    /** The first call gives the batch its key; a later one must bring the same. */
    method Claim(k: nat) returns (mine: bool)
      requires Valid()
      modifies this`phase, this`key
      ensures Valid() && (mine ==> !phase.Ready?)
      ensures !mine <==> old(key).Some? && old(key) != Some(k)
      ensures !mine ==> unchanged(this)
      ensures key == if old(key).Some? then old(key) else Some(k)
    {
      if key.Some? && key.value != k {
        return false;
      }
      if phase.Ready? {
        phase, key := Committing, Some(k);
      }
      mine := true;
    }

    /** At most MAX_CHUNK_SIZE rows in one atomic unit, then finish if none are left; a finished batch only answers. */
    method Proceed(cut: Cut) returns (r: CommitResult)
      requires Valid() && !phase.Ready?
      modifies this`rows, this`phase, this`highWater, this`posted, this`done
      ensures Valid() && !phase.Ready? && (r.Refused? ==> !r.why.Conflict?)
      ensures r == Refused(AtomicFailure) ==> !cut.Uncut?
      ensures r == Refused(MappingIncomplete) ==> !Resolvable(file) && done == old(done)
      ensures done == old(done) || done == Min(old(done) + MAX_CHUNK_SIZE, |file|)
      ensures cut.Uncut? && Resolvable(file) ==>
        r.Ok? && done == Min(old(done) + MAX_CHUNK_SIZE, |file|) && (r.finished <==> done == |file|)
      ensures r.Ok? ==> (r.finished <==> phase.Finished?) && Sums(r)
    {
      if phase.Finished? {
        r := Summary();
        return;
      }
      var full, problem := TakeRows(cut);
      if problem.Some? {
        return Refused(problem.value);
      }
      r := FinishOrContinue(full, cut);
    }

    /** One idempotent commit call: the key must be the batch's own. */
    method Commit(k: nat, cut: Cut) returns (r: CommitResult)
      requires Valid()
      modifies this
      ensures Valid()
      ensures (r.Refused? && r.why.Conflict?) <==> old(key).Some? && old(key) != Some(k)
      ensures r.Refused? && r.why.Conflict? ==> unchanged(this)
      ensures r == Refused(AtomicFailure) ==> !cut.Uncut?
      ensures r == Refused(MappingIncomplete) ==> !Resolvable(file) && done == old(done)
      ensures key == if old(key).Some? then old(key) else Some(k)
      ensures done == old(done) || done == Min(old(done) + MAX_CHUNK_SIZE, |file|)
      ensures cut.Uncut? && key == Some(k) && Resolvable(file) ==>
        r.Ok? && done == Min(old(done) + MAX_CHUNK_SIZE, |file|) && (r.finished <==> done == |file|)
      ensures r.Ok? ==> (r.finished <==> phase.Finished?) && Sums(r)
    {
      var mine := Claim(k);
      if !mine {
        r := Refused(Conflict);
      } else {
        r := Proceed(cut);
      }
    }

    /** One accept request: commit calls until the batch finishes, a call is refused, or the cap is reached. */
    method AcceptImport(k: nat, cuts: seq<Cut>) returns (r: CommitResult)
      requires Valid() && |cuts| == ACCEPT_COMMIT_LOOP_MAX_ITERATIONS
      modifies this
      ensures Valid() && old(done) <= done
      ensures (r.Refused? && r.why.Conflict?) <==> old(key).Some? && old(key) != Some(k)
      ensures key == if old(key).Some? then old(key) else Some(k)
      ensures r.Ok? ==> (r.finished <==> phase.Finished?) && Sums(r)
      ensures r == Refused(MappingIncomplete) ==> !Resolvable(file)
      ensures key == Some(k) && Resolvable(file) && Unbroken(cuts) ==>
        && r.Ok?
        && done == Min(old(done) + ROWS_PER_ACCEPT, |file|)
        && (r.finished <==> done == |file|)
    {
      r := Commit(k, cuts[0]);
      var iteration := 1;
      while r.Ok? && !r.finished && iteration < ACCEPT_COMMIT_LOOP_MAX_ITERATIONS
        invariant 1 <= iteration <= ACCEPT_COMMIT_LOOP_MAX_ITERATIONS
        invariant Valid() && old(done) <= done
        invariant (r.Refused? && r.why.Conflict?) <==> old(key).Some? && old(key) != Some(k)
        invariant key == if old(key).Some? then old(key) else Some(k)
        invariant r.Ok? ==> (r.finished <==> phase.Finished?) && Sums(r)
        invariant r == Refused(MappingIncomplete) ==> !Resolvable(file)
        invariant key == Some(k) && Resolvable(file) && Unbroken(cuts) ==>
          && r.Ok?
          && done == Min(old(done) + iteration * MAX_CHUNK_SIZE, |file|)
          && (r.finished <==> done == |file|)
      {
        r := Commit(k, cuts[iteration]);
        iteration := iteration + 1;
      }
    }
  }

  const ROWS_PER_ACCEPT := ACCEPT_COMMIT_LOOP_MAX_ITERATIONS * MAX_CHUNK_SIZE

  predicate Unbroken(cuts: seq<Cut>) {
    forall i :: 0 <= i < |cuts| ==> cuts[i].Uncut?
  }

  /** Requests a file still needs: one per ROWS_PER_ACCEPT rows, and one even for an empty file. */
  function AcceptsNeeded(remaining: int): (n: nat) {
    if remaining <= ROWS_PER_ACCEPT then 1 else 1 + AcceptsNeeded(remaining - ROWS_PER_ACCEPT)
  }

  /** That is the number of rows over ROWS_PER_ACCEPT, rounded up, but never none. */
  lemma {:induction false} AcceptsNeededIsCeiling(remaining: nat)
    ensures AcceptsNeeded(remaining) == if remaining == 0 then 1 else (remaining + ROWS_PER_ACCEPT - 1) / ROWS_PER_ACCEPT
  {
    if remaining > ROWS_PER_ACCEPT {
      AcceptsNeededIsCeiling(remaining - ROWS_PER_ACCEPT);
    }
  }

  // The client's continuation loop.

  /** What one turn of the client meets: an abort signal, a failed fetch, or a served request. */
  datatype Turn = AbortSignal | FetchAborted | FetchThrows | Served(cuts: seq<Cut>)

  /** Every turn is served and no commit call in it is cut. */
  predicate Smooth(turns: seq<Turn>) {
    forall i :: 0 <= i < |turns| ==> turns[i].Served? && Unbroken(turns[i].cuts)
  }

  /** How a turn that ends the loop shows in the outcome. */
  predicate EndsAt(turn: Turn, outcome: Outcome) {
    match turn
    case AbortSignal => outcome.Cancelled?
    case FetchAborted => outcome.Cancelled?
    case FetchThrows => outcome.Thrown?
    case Served(_) => outcome.Success? || outcome.Failure?
  }

  datatype Outcome = Success(commit: CommitResult) | Failure(why: Problem) | Cancelled | Thrown | StillCommitting

  /** Re-posting the same accept request until it reports a finished batch, or something ends the loop. */
  method RunAcceptCommitLoop(batch: Batch, k: nat, maxIterations: nat, turns: seq<Turn>)
    returns (outcome: Outcome, ghost at: nat)
    requires batch.Valid() && |turns| == maxIterations
    requires forall i :: 0 <= i < |turns| && turns[i].Served? ==> |turns[i].cuts| == ACCEPT_COMMIT_LOOP_MAX_ITERATIONS
    modifies batch
    ensures batch.Valid() && old(batch.done) <= batch.done
    ensures at <= maxIterations && forall i :: 0 <= i < at ==> turns[i].Served?
    ensures if at == maxIterations then outcome.StillCommitting? else EndsAt(turns[at], outcome)
    ensures outcome == Failure(MappingIncomplete) ==> !Resolvable(batch.file)
    ensures outcome == Failure(Conflict) ==> old(batch.key) != Some(k)
    ensures outcome.Success? ==>
      && batch.phase.Finished?
      && outcome.commit.Ok? && outcome.commit.finished && batch.Sums(outcome.commit)
      && batch.rows == Partly(batch.file, batch.before, |batch.file|)
      && batch.posted == PostedAfter(batch.file, batch.before, |batch.file|)
      && outcome.commit.committedRows == |Landing(batch.file, batch.before)| && outcome.commit.remainingRows == 0
    ensures Smooth(turns) && Resolvable(batch.file) && (old(batch.key).None? || old(batch.key) == Some(k))
      && maxIterations >= AcceptsNeeded(|batch.file| - old(batch.done))
      ==> outcome.Success?
  {
    at := 0;
    for iteration := 0 to maxIterations
      invariant batch.Valid() && old(batch.done) <= batch.done
      invariant at == iteration && forall i :: 0 <= i < at ==> turns[i].Served?
      invariant iteration > 0 ==> batch.key == if old(batch.key).Some? then old(batch.key) else Some(k)
      invariant iteration == 0 ==> batch.key == old(batch.key)
      invariant (old(batch.key).None? || old(batch.key) == Some(k)) ==> batch.key.None? || batch.key == Some(k)
      invariant Smooth(turns) && Resolvable(batch.file) && (old(batch.key).None? || old(batch.key) == Some(k))
        && maxIterations >= AcceptsNeeded(|batch.file| - old(batch.done))
        ==> maxIterations - iteration >= AcceptsNeeded(|batch.file| - batch.done)
    {
      match turns[iteration] {
        case AbortSignal => return Cancelled, at;
        case FetchAborted => return Cancelled, at;
        case FetchThrows => return Thrown, at;
        case Served(cuts) =>
          var r := batch.AcceptImport(k, cuts);
          match r {
            case Refused(why) => return Failure(why), at;
            case Ok(finished, _, _, _) =>
              if finished {
                CommittedLand(batch.file, batch.before);
                return Success(r), at;
              }
          }
      }
      at := at + 1;
    }
    return StillCommitting, at;
  }

  // Decided once, whatever the calls did.

  /** Between two points of the same batch, a decided row keeps its decision. */
  lemma DecidedOnce(file: seq<Row>, before: set<Entry>, done: nat, later: nat)
    requires AllStaged(file) && done <= later <= |file|
    ensures Partly(file, before, later)[..done] == Partly(file, before, done)[..done]
    ensures forall i :: 0 <= i < |file| ==> (Partly(file, before, done)[i].status != Staged <==> i < done)
  {
  }
}
