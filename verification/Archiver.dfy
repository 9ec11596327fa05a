/**
 The archiver: one transaction per table that counts, copies, verifies and deletes, while other
 transactions commit between its statements (each statement sees what is committed when it runs).
 */
module Archiver {
  import opened Wrappers

  datatype Table = Jobs | StepRuns | Logs | Runs | Pipelines

  /** `aged` is the table's age column; `run` is the row's reference to a run, if any. */
  datatype Row = Row(table: Table, id: nat, status: string, aged: Option<int>, tenant: int, run: Option<nat>) {
    predicate PointsTo(other: Row) {
      run.Some? && other.table == Runs && other.id == run.value
    }
  }

  type Live = set<Row>

  datatype Db = Db(live: Live, archive: multiset<Row>) {
    ghost function Total(): multiset<Row> {
      multiset(live) + archive
    }
  }

  /** An empty `statusFilter` means no status test. */
  datatype TableSpec = TableSpec(table: Table, statusFilter: set<string>, tenantScoped: bool)

  /** Children before the parent. */
  const ARCHIVE_TABLES: seq<TableSpec> := [
    TableSpec(Jobs, {"succeeded", "failed", "cancelled", "timed_out"}, true),
    TableSpec(StepRuns, {"succeeded", "failed", "skipped"}, false),
    TableSpec(Logs, {}, false),
    TableSpec(Runs, {"success", "failed", "cancelled", "crashed"}, false)]

  datatype Batch = Batch(spec: TableSpec, cutoff: int, tenant: int) {
    predicate Matches(row: Row) {
      && row.table == spec.table
      && row.aged.Some? && row.aged.value < cutoff
      && (spec.tenantScoped ==> row.tenant == tenant)
      && (spec.statusFilter == {} || row.status in spec.statusFilter)
    }

    function Matching(live: Live): Live {
      set row | row in live && Matches(row)
    }

    /** The foreign keys forbid deleting the matching rows: a row that stays points to one of them. */
    predicate DeleteRefused(live: Live) {
      exists r, q :: r in live && !Matches(r) && q in live && Matches(q) && r.PointsTo(q)
    }
  }

  // ---- one batch ---------------------------------------------------------------------

  /** What other transactions commit to the live tables between the statements of a batch. */
  datatype Others = Others(beforeInsert: Live -> Live, beforeDelete: Live -> Live, beforeCommit: Live -> Live) {
    /** The live tables at the `k`-th statement, as the others alone leave them. */
    function Snapshot(live: Live, k: nat): Live {
      if k == 0 then live
      else if k == 1 then beforeInsert(live)
      else if k == 2 then beforeDelete(beforeInsert(live))
      else beforeCommit(beforeDelete(beforeInsert(live)))
    }
  }

  datatype Fault = NoFault | AtCount | AtInsert | AtDelete | AtCommit
  datatype BatchResult =
    | Moved(rows: nat)
    | VerificationFailed(expected: nat, inserted: nat, deleted: Option<nat>)
    | DbError

  /** How a batch ends, and how many of the others' commits came before its end. */
  datatype Ending = Ending(result: BatchResult, reached: nat)

  function Verdict(b: Batch, live: Live, others: Others, fault: Fault): Ending {
    var expected := |b.Matching(live)|;
    var inserted := |b.Matching(others.Snapshot(live, 1))|;
    var deleted := |b.Matching(others.Snapshot(live, 2))|;
    if fault == AtCount then Ending(DbError, 0)
    else if expected == 0 then Ending(Moved(0), 0)
    else if fault == AtInsert then Ending(DbError, 1)
    else if inserted != expected then Ending(VerificationFailed(expected, inserted, None), 1)
    else if fault == AtDelete || b.DeleteRefused(others.Snapshot(live, 2)) then Ending(DbError, 2)
    else if deleted != expected then Ending(VerificationFailed(expected, inserted, Some(deleted)), 2)
    else if fault == AtCommit then Ending(DbError, 3)
    else Ending(Moved(expected), 3)
  }

  /** The batch's own effect is there only if it committed; the others' commits stay in any case. */
  function AfterBatch(b: Batch, db: Db, others: Others, fault: Fault): Db {
    var end := Verdict(b, db.live, others, fault);
    var live := others.Snapshot(db.live, end.reached);
    if end.result.Moved? && end.result.rows > 0
    then Db(live - b.Matching(others.Snapshot(db.live, 2)),
            db.archive + multiset(b.Matching(others.Snapshot(db.live, 1))))
    else Db(live, db.archive)
  }

  class Database {
    var live: Live
    var archive: multiset<Row>

    function Value(): Db
      reads this
    {
      Db(live, archive)
    }
  }

  /** The uncommitted writes of the session are locals; leaving without a commit drops them. */
  method ArchiveTableSafely(db: Database, b: Batch, others: Others, fault: Fault) returns (r: BatchResult)
    modifies db
    ensures r == Verdict(b, old(db.live), others, fault).result
    ensures db.Value() == AfterBatch(b, old(db.Value()), others, fault)
    ensures r.VerificationFailed? ==>
      && r.expected == |b.Matching(old(db.live))| > 0
      && (r.deleted.None? ==> r.inserted != r.expected)
      && (r.deleted.Some? ==> r.inserted == r.expected != r.deleted.value)
    ensures !r.Moved? ==> db.archive == old(db.archive)
    ensures r.Moved? && r.rows > 0 ==> |db.archive| == |old(db.archive)| + r.rows
  {
    if fault == AtCount {
      return DbError;
    }
    var expected := |b.Matching(db.live)|;
    if expected == 0 {
      return Moved(0);
    }
    db.live := others.beforeInsert(db.live);
    if fault == AtInsert {
      return DbError;
    }
    var copied := multiset(b.Matching(db.live));
    var inserted := |copied|;
    if inserted != expected {
      return VerificationFailed(expected, inserted, None);
    }
    db.live := others.beforeDelete(db.live);
    if fault == AtDelete || b.DeleteRefused(db.live) {
      return DbError;
    }
    var doomed := b.Matching(db.live);
    var deleted := |doomed|;
    if deleted != expected {
      return VerificationFailed(expected, inserted, Some(deleted));
    }
    db.live := others.beforeCommit(db.live);
    if fault == AtCommit {
      return DbError;
    }
    db.live, db.archive := db.live - doomed, db.archive + copied;
    return Moved(inserted);
  }

  // ---- why comparing counts is enough ------------------------------------------------

  /** Others only ever add rows that match, and leave alone what the batch has locked. */
  ghost predicate OnlyAddMatches(b: Batch, live: Live, others: Others) {
    forall k {:trigger others.Snapshot(live, k)} :: 0 <= k < 3 ==>
      b.Matching(others.Snapshot(live, k)) <= b.Matching(others.Snapshot(live, k + 1))
  }

  lemma SubsetOfSameSize<T>(a: set<T>, b: set<T>)
    requires a <= b && |a| == |b|
    ensures a == b
  {
    assert |b - a| == |b| - |a|;
  }

  /** Equal counts mean equal rows: a committed delete removes exactly the rows that were copied. */
  lemma CountsSuffice(b: Batch, live: Live, others: Others, fault: Fault)
    requires OnlyAddMatches(b, live, others)
    ensures var r := Verdict(b, live, others, fault).result;
      r.Moved? && r.rows > 0 ==>
        && b.Matching(live) == b.Matching(others.Snapshot(live, 1)) == b.Matching(others.Snapshot(live, 2))
        && b.Matching(live) <= others.Snapshot(live, 3)
        && r.rows == |b.Matching(live)|
  {
    var s0, s1 := others.Snapshot(live, 0), others.Snapshot(live, 1);
    var s2, s3 := others.Snapshot(live, 2), others.Snapshot(live, 3);
    var r := Verdict(b, live, others, fault).result;
    if r.Moved? && r.rows > 0 {
      SubsetOfSameSize(b.Matching(s0), b.Matching(s1));
      SubsetOfSameSize(b.Matching(s1), b.Matching(s2));
      assert b.Matching(s2) <= b.Matching(s3) <= s3;
    }
  }

  /** A committed batch loses and duplicates no row exactly when it deleted the rows it had copied. */
  lemma CommitConservesIff(b: Batch, db: Db, others: Others, fault: Fault)
    requires var r := Verdict(b, db.live, others, fault).result; r.Moved? && r.rows > 0
    requires b.Matching(others.Snapshot(db.live, 2)) <= others.Snapshot(db.live, 3)
    ensures AfterBatch(b, db, others, fault).Total() == Db(others.Snapshot(db.live, 3), db.archive).Total()
      <==> b.Matching(others.Snapshot(db.live, 1)) == b.Matching(others.Snapshot(db.live, 2))
  {
    var copied, doomed := b.Matching(others.Snapshot(db.live, 1)), b.Matching(others.Snapshot(db.live, 2));
    var live := others.Snapshot(db.live, 3);
    var after := AfterBatch(b, db, others, fault);
    assert multiset(live - doomed) + multiset(doomed) == multiset(live);
    if after.Total() == Db(live, db.archive).Total() {
      forall row ensures row in copied <==> row in doomed {
        assert after.Total()[row] == Db(live, db.archive).Total()[row];
        assert multiset(copied)[row] == multiset(doomed)[row];
      }
    }
  }

  lemma OnlyMatch(b: Batch, row: Row)
    requires b.Matches(row)
    ensures b.Matching({row}) == {row} && !b.DeleteRefused({row})
  {
  }

  /** Without that assumption they are not: one matching row leaves as another arrives, and the newcomer is lost. */
  lemma SwappedRowIsLost()
    ensures exists b: Batch, db: Db, others: Others, lost: Row ::
      && lost in others.Snapshot(db.live, 3)
      && lost !in AfterBatch(b, db, others, NoFault).Total()
  {
    var b := Batch(ARCHIVE_TABLES[2], 10, 1);
    var stays := Row(Logs, 1, "", Some(5), 1, None);
    var lost := Row(Logs, 2, "", Some(5), 1, None);
    var others := Others(live => live, live => {lost}, live => live);
    var db := Db({stays}, multiset{});
    OnlyMatch(b, stays);
    OnlyMatch(b, lost);
    var after := AfterBatch(b, db, others, NoFault);
    assert Verdict(b, db.live, others, NoFault) == Ending(Moved(1), 3);
    assert after.live == {} && after.archive == multiset{stays};
    assert lost in others.Snapshot(db.live, 3) && lost !in after.Total();
  }

  /** Whatever others do and wherever it fails, a batch adds and removes rows of its own table only. */
  lemma BatchStaysInItsTable(b: Batch, db: Db, others: Others, fault: Fault, row: Row)
    requires row.table != b.spec.table
    ensures var after := AfterBatch(b, db, others, fault);
      && (row in after.live <==> row in others.Snapshot(db.live, Verdict(b, db.live, others, fault).reached))
      && after.archive[row] == db.archive[row]
  {
  }

  /** Nothing points to a row of a child table, so the foreign keys never hold up its batch. */
  lemma ChildIsNeverRefused(b: Batch, live: Live)
    requires b.spec.table != Runs
    ensures !b.DeleteRefused(live)
  {
  }

  /**
   With anything committing in between, a batch of any table goes through exactly when it does not fail, no
   further matching row arrives while it runs, and no row that stays points to a row it would delete.
   */
  lemma BatchLandsIff(b: Batch, live: Live, others: Others, fault: Fault)
    requires OnlyAddMatches(b, live, others)
    ensures Verdict(b, live, others, fault).result.Moved? <==>
      && fault != AtCount
      && (b.Matching(live) == {}
          || (fault == NoFault
              && b.Matching(live) == b.Matching(others.Snapshot(live, 1)) == b.Matching(others.Snapshot(live, 2))
              && !b.DeleteRefused(others.Snapshot(live, 2))))
  {
    var s0, s1, s2 := others.Snapshot(live, 0), others.Snapshot(live, 1), others.Snapshot(live, 2);
    if |b.Matching(s0)| == |b.Matching(s1)| {
      SubsetOfSameSize(b.Matching(s0), b.Matching(s1));
    }
    if |b.Matching(s1)| == |b.Matching(s2)| {
      SubsetOfSameSize(b.Matching(s1), b.Matching(s2));
    }
  }

  // ---- foreign keys -----------------------------------------------------------------

  /** Every reference of a live row points to a live run. */
  ghost predicate RefsHold(live: Live) {
    forall r :: r in live && r.run.Some? ==> HasTarget(live, r)
  }

  ghost predicate HasTarget(live: Live, r: Row) {
    exists q :: q in live && r.PointsTo(q)
  }

  /** Others respect the foreign keys, and cannot add a reference to a run the batch has deleted. */
  ghost predicate RespectKeys(b: Batch, live: Live, others: Others) {
    && RefsHold(live) && RefsHold(others.Snapshot(live, 1))
    && RefsHold(others.Snapshot(live, 2)) && RefsHold(others.Snapshot(live, 3))
    && forall r, q :: r in others.Snapshot(live, 3) && q in b.Matching(others.Snapshot(live, 2)) && r.PointsTo(q) ==>
      r in others.Snapshot(live, 2)
  }

  /** No live row is ever left pointing at a removed run. */
  lemma BatchKeepsReferences(b: Batch, db: Db, others: Others, fault: Fault)
    requires RespectKeys(b, db.live, others)
    ensures RefsHold(AfterBatch(b, db, others, fault).live)
  {
    var r := Verdict(b, db.live, others, fault).result;
    if r.Moved? && r.rows > 0 {
      DeleteKeepsReferences(b, others.Snapshot(db.live, 2), others.Snapshot(db.live, 3));
    }
  }

  lemma DeleteKeepsReferences(b: Batch, before: Live, after: Live)
    requires RefsHold(after) && !b.DeleteRefused(before)
    requires forall r, q :: r in after && q in b.Matching(before) && r.PointsTo(q) ==> r in before
    ensures RefsHold(after - b.Matching(before))
  {
    var rest := after - b.Matching(before);
    forall r | r in rest && r.run.Some? ensures HasTarget(rest, r) {
      assert HasTarget(after, r);
      var q :| q in after && r.PointsTo(q);
      assert q in rest;
    }
  }

  // ---- conservation over whole histories --------------------------------------------

  /** A history interleaves other transactions with archive batches, each with any fault. */
  datatype Event = Other(change: Live -> Live) | Archive(b: Batch, others: Others, fault: Fault)

  function Step(db: Db, e: Event): Db {
    match e
    case Other(change) => db.(live := change(db.live))
    case Archive(b, others, fault) => AfterBatch(b, db, others, fault)
  }

  function History(db: Db, events: seq<Event>): Db {
    if events == [] then db else Step(History(db, events[..|events| - 1]), events[|events| - 1])
  }

  /** What the others added to, and took from, the live tables during an event. */
  ghost function AddedBy(db: Db, e: Event): multiset<Row> {
    match e
    case Other(change) => multiset(change(db.live) - db.live)
    case Archive(b, others, fault) => Gains(others, db.live, Verdict(b, db.live, others, fault).reached)
  }

  ghost function TakenBy(db: Db, e: Event): multiset<Row> {
    match e
    case Other(change) => multiset(db.live - change(db.live))
    case Archive(b, others, fault) => Losses(others, db.live, Verdict(b, db.live, others, fault).reached)
  }

  ghost function Gains(others: Others, live: Live, k: nat): multiset<Row> {
    if k == 0 then multiset{}
    else Gains(others, live, k - 1) + multiset(others.Snapshot(live, k) - others.Snapshot(live, k - 1))
  }

  ghost function Losses(others: Others, live: Live, k: nat): multiset<Row> {
    if k == 0 then multiset{}
    else Losses(others, live, k - 1) + multiset(others.Snapshot(live, k - 1) - others.Snapshot(live, k))
  }

  ghost function AddedDuring(db: Db, events: seq<Event>): multiset<Row> {
    if events == [] then multiset{}
    else
      var front := events[..|events| - 1];
      AddedDuring(db, front) + AddedBy(History(db, front), events[|events| - 1])
  }

  ghost function TakenDuring(db: Db, events: seq<Event>): multiset<Row> {
    if events == [] then multiset{}
    else
      var front := events[..|events| - 1];
      TakenDuring(db, front) + TakenBy(History(db, front), events[|events| - 1])
  }

  ghost predicate Polite(db: Db, e: Event) {
    e.Archive? ==> OnlyAddMatches(e.b, db.live, e.others)
  }

  ghost predicate AllPolite(db: Db, events: seq<Event>) {
    forall k :: 0 <= k < |events| ==> Polite(History(db, events[..k]), events[k])
  }

  lemma Balance(a: Live, b: Live)
    ensures multiset(b) + multiset(a - b) == multiset(a) + multiset(b - a)
  {
  }

  lemma Chain<T>(
      a: multiset<T>, b: multiset<T>, c: multiset<T>,
      out1: multiset<T>, in1: multiset<T>, out2: multiset<T>, in2: multiset<T>)
    requires b + out1 == a + in1 && c + out2 == b + in2
    ensures c + (out1 + out2) == a + (in1 + in2)
  {
    assert c + (out1 + out2) == (c + out2) + out1 == (b + in2) + out1 == (b + out1) + in2;
    assert (a + in1) + in2 == a + (in1 + in2);
  }

  lemma Alongside<T>(a: multiset<T>, b: multiset<T>, taken: multiset<T>, added: multiset<T>, rest: multiset<T>)
    requires b + taken == a + added
    ensures (b + rest) + taken == (a + rest) + added
  {
    assert (b + rest) + taken == (b + taken) + rest == (a + added) + rest == (a + rest) + added;
  }

  lemma {:induction false} SnapshotsBalance(others: Others, live: Live, k: nat)
    ensures multiset(others.Snapshot(live, k)) + Losses(others, live, k) == multiset(live) + Gains(others, live, k)
  {
    if k > 0 {
      var before, after := others.Snapshot(live, k - 1), others.Snapshot(live, k);
      SnapshotsBalance(others, live, k - 1);
      Balance(before, after);
      Chain(multiset(live), multiset(before), multiset(after),
            Losses(others, live, k - 1), Gains(others, live, k - 1),
            multiset(before - after), multiset(after - before));
    }
  }

  lemma BatchConserves(b: Batch, db: Db, others: Others, fault: Fault)
    requires OnlyAddMatches(b, db.live, others)
    ensures AfterBatch(b, db, others, fault).Total()
      == Db(others.Snapshot(db.live, Verdict(b, db.live, others, fault).reached), db.archive).Total()
  {
    var r := Verdict(b, db.live, others, fault).result;
    CountsSuffice(b, db.live, others, fault);
    if r.Moved? && r.rows > 0 {
      var rows, live := b.Matching(db.live), others.Snapshot(db.live, 3);
      assert multiset(live - rows) + multiset(rows) == multiset(live);
    }
  }

  /**
   Conservation: over any history, with any faults, live and archived rows together change by exactly
   what other transactions added and took. The archiver loses nothing and duplicates nothing.
   */
  lemma {:induction false} RowsAreConserved(db: Db, events: seq<Event>)
    requires AllPolite(db, events)
    ensures History(db, events).Total() + TakenDuring(db, events) == db.Total() + AddedDuring(db, events)
    decreases |events|
  {
    if events != [] {
      var front, e := events[..|events| - 1], events[|events| - 1];
      forall k | 0 <= k < |front| ensures Polite(History(db, front[..k]), front[k]) {
        assert front[..k] == events[..k];
        assert Polite(History(db, events[..k]), events[k]);
      }
      RowsAreConserved(db, front);
      assert Polite(History(db, events[..|front|]), events[|front|]);
      var before := History(db, front);
      StepConserves(before, e);
      Chain(db.Total(), before.Total(), Step(before, e).Total(),
            TakenDuring(db, front), AddedDuring(db, front), TakenBy(before, e), AddedBy(before, e));
    }
  }

  lemma StepConserves(db: Db, e: Event)
    requires Polite(db, e)
    ensures Step(db, e).Total() + TakenBy(db, e) == db.Total() + AddedBy(db, e)
  {
    match e
    case Other(change) =>
      Balance(db.live, change(db.live));
      Alongside(multiset(db.live), multiset(change(db.live)), TakenBy(db, e), AddedBy(db, e), db.archive);
    case Archive(b, others, fault) =>
      BatchConserves(b, db, others, fault);
      var k := Verdict(b, db.live, others, fault).reached;
      SnapshotsBalance(others, db.live, k);
      Alongside(
        multiset(db.live), multiset(others.Snapshot(db.live, k)), TakenBy(db, e), AddedBy(db, e), db.archive);
  }

  ghost predicate KeysRespected(db: Db, e: Event) {
    match e
    case Other(change) => RefsHold(change(db.live))
    case Archive(b, others, _) => RespectKeys(b, db.live, others)
  }

  /** The foreign keys hold throughout any history in which the other transactions respect them. */
  lemma {:induction false} ReferencesHoldThroughout(db: Db, events: seq<Event>)
    requires RefsHold(db.live)
    requires forall k :: 0 <= k < |events| ==> KeysRespected(History(db, events[..k]), events[k])
    ensures RefsHold(History(db, events).live)
    decreases |events|
  {
    if events != [] {
      var front, e := events[..|events| - 1], events[|events| - 1];
      assert KeysRespected(History(db, events[..|front|]), events[|front|]);
      var before := History(db, front);
      if e.Archive? {
        BatchKeepsReferences(e.b, before, e.others, e.fault);
      }
    }
  }

  // ---- one pass over the four tables -------------------------------------------------

  /** What surrounds a batch of a pass: commits of others before it starts and between its statements, and a fault. */
  datatype Around = Around(between: Live -> Live, others: Others, fault: Fault)

  type Windows = Table -> int

  function BatchOf(i: nat, now: int, windows: Windows, tenant: int): Batch
    requires i < |ARCHIVE_TABLES|
  {
    var spec := ARCHIVE_TABLES[i];
    Batch(spec, now - windows(spec.table), tenant)
  }

  /** The first `n` batches of a pass. */
  function PassEvents(n: nat, now: int, windows: Windows, tenant: int, around: nat -> Around): (events: seq<Event>)
    requires n <= |ARCHIVE_TABLES|
    ensures |events| == 2 * n
  {
    if n == 0 then []
    else
      PassEvents(n - 1, now, windows, tenant, around)
        + [Other(around(n - 1).between),
           Archive(BatchOf(n - 1, now, windows, tenant), around(n - 1).others, around(n - 1).fault)]
  }

  function AfterPass(n: nat, db: Db, now: int, windows: Windows, tenant: int, around: nat -> Around): Db
    requires n <= |ARCHIVE_TABLES|
  {
    History(db, PassEvents(n, now, windows, tenant, around))
  }

  /** What the `i`-th batch of a pass finds when it starts. */
  function FoundBy(i: nat, db: Db, now: int, windows: Windows, tenant: int, around: nat -> Around): Db
    requires i < |ARCHIVE_TABLES|
  {
    Step(AfterPass(i, db, now, windows, tenant, around), Other(around(i).between))
  }

  function ResultOf(i: nat, db: Db, now: int, windows: Windows, tenant: int, around: nat -> Around): BatchResult
    requires i < |ARCHIVE_TABLES|
  {
    Verdict(BatchOf(i, now, windows, tenant), FoundBy(i, db, now, windows, tenant, around).live,
      around(i).others, around(i).fault).result
  }

  lemma OneMoreBatch(i: nat, db: Db, now: int, windows: Windows, tenant: int, around: nat -> Around)
    requires i < |ARCHIVE_TABLES|
    ensures AfterPass(i + 1, db, now, windows, tenant, around)
      == AfterBatch(BatchOf(i, now, windows, tenant), FoundBy(i, db, now, windows, tenant, around),
                    around(i).others, around(i).fault)
  {
    var before, other := PassEvents(i, now, windows, tenant, around), Other(around(i).between);
    var batch := Archive(BatchOf(i, now, windows, tenant), around(i).others, around(i).fault);
    assert before + [other, batch] == before + [other] + [batch];
    OneMoreEvent(db, before, other);
    OneMoreEvent(db, before + [other], batch);
  }

  lemma OneMoreEvent(db: Db, events: seq<Event>, e: Event)
    ensures History(db, events + [e]) == Step(History(db, events), e)
  {
    assert (events + [e])[..|events|] == events;
  }

  /** The results of the first `n` batches of a pass. */
  function Results(n: nat, db: Db, now: int, windows: Windows, tenant: int, around: nat -> Around)
    : (rs: seq<BatchResult>)
    requires n <= |ARCHIVE_TABLES|
    ensures |rs| == n && forall i :: 0 <= i < n ==> rs[i] == ResultOf(i, db, now, windows, tenant, around)
  {
    if n == 0 then []
    else
      Results(n - 1, db, now, windows, tenant, around) + [ResultOf(n - 1, db, now, windows, tenant, around)]
  }

  /** `moved` has exactly the tables whose batch completed, with the number of rows moved. */
  ghost predicate Reports(moved: map<Table, nat>, results: seq<BatchResult>)
    requires |results| <= |ARCHIVE_TABLES|
  {
    && (forall i :: 0 <= i < |results| ==> ReportsBatch(moved, ARCHIVE_TABLES[i].table, results[i]))
    && forall t :: t in moved ==> AmongFirst(t, |results|)
  }

  ghost predicate ReportsBatch(moved: map<Table, nat>, table: Table, r: BatchResult) {
    (table in moved <==> r.Moved?) && (r.Moved? ==> moved[table] == r.rows)
  }

  ghost predicate AmongFirst(table: Table, n: nat)
    requires n <= |ARCHIVE_TABLES|
  {
    exists i :: 0 <= i < n && ARCHIVE_TABLES[i].table == table
  }

  lemma ReportsOneMore(moved: map<Table, nat>, results: seq<BatchResult>, r: BatchResult)
    requires |results| < |ARCHIVE_TABLES| && Reports(moved, results)
    ensures var table := ARCHIVE_TABLES[|results|].table;
      Reports(if r.Moved? then moved[table := r.rows] else moved, results + [r])
  {
    var n := |results|;
    var all, table := results + [r], ARCHIVE_TABLES[n].table;
    var after := if r.Moved? then moved[table := r.rows] else moved;
    forall i | 0 <= i < |all| ensures ReportsBatch(after, ARCHIVE_TABLES[i].table, all[i]) {
      if i < n {
        assert ReportsBatch(moved, ARCHIVE_TABLES[i].table, results[i]);
      }
    }
    forall t | t in after ensures AmongFirst(t, n + 1) {
      if t in moved {
        assert AmongFirst(t, n);
      }
    }
  }

  /** A batch that fails is skipped and the pass goes on. */
  method ArchiveOnce(db: Database, now: int, windows: Windows, tenant: int, around: nat -> Around)
    returns (moved: map<Table, nat>)
    modifies db
    ensures db.Value() == AfterPass(4, old(db.Value()), now, windows, tenant, around)
    ensures Reports(moved, Results(4, old(db.Value()), now, windows, tenant, around))
  {
    moved := map[];
    var i := 0;
    ghost var before := db.Value();
    while i < |ARCHIVE_TABLES|
      invariant i <= |ARCHIVE_TABLES|
      invariant db.Value() == AfterPass(i, before, now, windows, tenant, around)
      invariant Reports(moved, Results(i, before, now, windows, tenant, around))
    {
      db.live := around(i).between(db.live);
      var r := ArchiveTableSafely(db, BatchOf(i, now, windows, tenant), around(i).others, around(i).fault);
      OneMoreBatch(i, before, now, windows, tenant, around);
      ReportsOneMore(moved, Results(i, before, now, windows, tenant, around), r);
      if r.Moved? {
        moved := moved[ARCHIVE_TABLES[i].table := r.rows];
      }
      i := i + 1;
    }
  }

  // ---- a pass with nobody else writing ------------------------------------------------

  const QUIET := Others(live => live, live => live, live => live)

  function Quietly(faults: nat -> Fault): nat -> Around {
    (i: nat) => Around(live => live, QUIET, faults(i))
  }

  lemma QuietBatch(b: Batch, db: Db, fault: Fault)
    ensures var after := AfterBatch(b, db, QUIET, fault);
      && after.Total() == db.Total()
      && after.live == if fault == NoFault && !b.DeleteRefused(db.live) then db.live - b.Matching(db.live) else db.live
  {
    assert forall k: nat :: QUIET.Snapshot(db.live, k) == db.live;
    BatchConserves(b, db, QUIET, fault);
    if b.Matching(db.live) == {} {
      assert db.live - b.Matching(db.live) == db.live;
    }
  }

  /** The row is moved by the batch of a child table that goes through. */
  predicate MovedAsChild(
      row: Row, n: nat, now: int, windows: Windows, tenant: int, faults: nat -> Fault)
    requires n <= 3
  {
    exists i :: 0 <= i < n && faults(i) == NoFault && BatchOf(i, now, windows, tenant).Matches(row)
  }

  function NotMovedAsChild(
      live: Live, n: nat, now: int, windows: Windows, tenant: int, faults: nat -> Fault): Live
    requires n <= 3
  {
    set row | row in live && !MovedAsChild(row, n, now, windows, tenant, faults)
  }

  lemma OneMoreChild(live: Live, n: nat, now: int, windows: Windows, tenant: int, faults: nat -> Fault)
    requires n < 3
    ensures var b, before := BatchOf(n, now, windows, tenant), NotMovedAsChild(live, n, now, windows, tenant, faults);
      && !b.DeleteRefused(before)
      && NotMovedAsChild(live, n + 1, now, windows, tenant, faults)
        == if faults(n) == NoFault then before - b.Matching(before) else before
  {
    var b := BatchOf(n, now, windows, tenant);
    forall row
      ensures MovedAsChild(row, n + 1, now, windows, tenant, faults)
        <==> MovedAsChild(row, n, now, windows, tenant, faults) || (faults(n) == NoFault && b.Matches(row))
    {
    }
  }

  lemma {:induction false} ChildBatchesAreIndependent(
      n: nat, db: Db, now: int, windows: Windows, tenant: int, faults: nat -> Fault)
    requires n <= 3
    ensures var after := AfterPass(n, db, now, windows, tenant, Quietly(faults));
      && after.Total() == db.Total()
      && after.live == NotMovedAsChild(db.live, n, now, windows, tenant, faults)
  {
    if n > 0 {
      var around := Quietly(faults);
      var b := BatchOf(n - 1, now, windows, tenant);
      ChildBatchesAreIndependent(n - 1, db, now, windows, tenant, faults);
      OneMoreBatch(n - 1, db, now, windows, tenant, around);
      QuietBatch(b, FoundBy(n - 1, db, now, windows, tenant, around), faults(n - 1));
      OneMoreChild(db.live, n - 1, now, windows, tenant, faults);
    }
  }

  /**
   A whole pass with nobody else writing, faults anywhere: nothing is lost; each child table loses
   exactly its matching rows unless its own batch failed; the runs batch goes through exactly when it
   does not fail and no row left behind, in any table, points to a run it would delete.
   */
  lemma PassExactly(db: Db, now: int, windows: Windows, tenant: int, faults: nat -> Fault)
    ensures var after := AfterPass(4, db, now, windows, tenant, Quietly(faults));
      var rest := NotMovedAsChild(db.live, 3, now, windows, tenant, faults);
      var runs := BatchOf(3, now, windows, tenant);
      && after.Total() == db.Total()
      && after.live == if faults(3) == NoFault && !runs.DeleteRefused(rest) then rest - runs.Matching(rest) else rest
  {
    var around := Quietly(faults);
    ChildBatchesAreIndependent(3, db, now, windows, tenant, faults);
    OneMoreBatch(3, db, now, windows, tenant, around);
    QuietBatch(BatchOf(3, now, windows, tenant), FoundBy(3, db, now, windows, tenant, around), faults(3));
  }

  /** The failing input of the children-first order: an old run that a recent recovery run still names. */
  lemma RecoveryRunHoldsBackItsParent()
    ensures var parent := Row(Runs, 1, "success", Some(5), 1, None);
      var recovery := Row(Runs, 2, "running", None, 1, Some(1));
      var db := Db({parent, recovery}, multiset{});
      var faults: nat -> Fault := i => NoFault;
      && BatchOf(3, 100, t => 50, 1).Matches(parent)
      && AfterPass(4, db, 100, t => 50, 1, Quietly(faults)) == db
  {
    var parent, recovery := Row(Runs, 1, "success", Some(5), 1, None), Row(Runs, 2, "running", None, 1, Some(1));
    var db, windows: Windows := Db({parent, recovery}, multiset{}), t => 50;
    var faults: nat -> Fault := i => NoFault;
    var runs := BatchOf(3, 100, windows, 1);
    PassExactly(db, 100, windows, 1, faults);
    assert NotMovedAsChild(db.live, 3, 100, windows, 1, faults) == db.live;
    assert recovery in db.live && !runs.Matches(recovery) && runs.Matches(parent) && recovery.PointsTo(parent);
    SameLiveSameArchive(AfterPass(4, db, 100, windows, 1, Quietly(faults)), db);
  }

  lemma SameLiveSameArchive(a: Db, b: Db)
    requires a.live == b.live && a.Total() == b.Total()
    ensures a == b
  {
    assert a.archive == a.Total() - multiset(a.live);
    assert b.archive == b.Total() - multiset(b.live);
  }
}
