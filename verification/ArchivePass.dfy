/** Which rows a pass of the archiver moves, said of the rows themselves. */
module ArchivePass {
  import opened Wrappers
  import opened Archiver

  /** Past its table's retention window, and done: what makes a row archivable. */
  predicate Expired(row: Row, now: int, windows: Windows, tenant: int) {
    && row.aged.Some? && row.aged.value < now - windows(row.table)
    && match row.table
       case Jobs =>
         row.tenant == tenant && (row.status == "succeeded" || row.status == "failed" || row.status == "cancelled"
                                  || row.status == "timed_out")
       case StepRuns => row.status == "succeeded" || row.status == "failed" || row.status == "skipped"
       case Logs => true
       case Runs =>
         row.status == "success" || row.status == "failed" || row.status == "cancelled" || row.status == "crashed"
       case Pipelines => false
  }

  /** The place of a table in the pass: children before runs; pipelines have none. */
  function PlaceOf(table: Table): Option<nat> {
    match table
    case Jobs => Some(0)
    case StepRuns => Some(1)
    case Logs => Some(2)
    case Runs => Some(3)
    case Pipelines => None
  }

  /** A batch is made for the expired rows of its own table. */
  lemma BatchIsForExpired(i: nat, now: int, windows: Windows, tenant: int, row: Row)
    requires i < |ARCHIVE_TABLES|
    ensures BatchOf(i, now, windows, tenant).Matches(row) <==>
      PlaceOf(row.table) == Some(i) && Expired(row, now, windows, tenant)
  {
  }

  // ---- with others writing ---------------------------------------------------------------

  /**
   Whatever others commit around and inside a batch, and however it ends: it takes an expired row of its own
   table or none, from among those the others leave in place, and adds only such rows to the archive.
   */
  lemma PassTakesOnlyExpired(
      i: nat, db: Db, now: int, windows: Windows, tenant: int, around: nat -> Around, row: Row)
    requires i < |ARCHIVE_TABLES|
    ensures var found, after := FoundBy(i, db, now, windows, tenant, around),
                                AfterPass(i + 1, db, now, windows, tenant, around);
      && after.archive[row] >= found.archive[row]
      && ((forall k :: 0 <= k <= 3 ==> row in around(i).others.Snapshot(found.live, k)) && row !in after.live ==>
            PlaceOf(row.table) == Some(i) && Expired(row, now, windows, tenant))
      && (after.archive[row] > found.archive[row] ==>
            PlaceOf(row.table) == Some(i) && Expired(row, now, windows, tenant))
  {
    var b, found := BatchOf(i, now, windows, tenant), FoundBy(i, db, now, windows, tenant, around);
    OneMoreBatch(i, db, now, windows, tenant, around);
    BatchIsForExpired(i, now, windows, tenant, row);
    BatchTakesMatches(b, found, around(i).others, around(i).fault, row);
  }

  lemma BatchTakesMatches(b: Batch, db: Db, others: Others, fault: Fault, row: Row)
    ensures var after := AfterBatch(b, db, others, fault);
      && after.archive[row] >= db.archive[row]
      && ((forall k :: 0 <= k <= 3 ==> row in others.Snapshot(db.live, k)) && row !in after.live ==> b.Matches(row))
      && (after.archive[row] > db.archive[row] ==> b.Matches(row))
  {
    assert row in others.Snapshot(db.live, Verdict(b, db.live, others, fault).reached)
      || !(forall k :: 0 <= k <= 3 ==> row in others.Snapshot(db.live, k));
  }

  /** The count a batch reports is the number of rows it added to the archive; a batch that fails adds none. */
  lemma ReportedRowsAreArchived(i: nat, db: Db, now: int, windows: Windows, tenant: int, around: nat -> Around)
    requires i < |ARCHIVE_TABLES|
    ensures var found, after := FoundBy(i, db, now, windows, tenant, around),
                                AfterPass(i + 1, db, now, windows, tenant, around);
      match ResultOf(i, db, now, windows, tenant, around)
      case Moved(rows) => |after.archive| == |found.archive| + rows
      case _ => after.archive == found.archive
  {
    OneMoreBatch(i, db, now, windows, tenant, around);
  }

  // ---- with nobody else writing ------------------------------------------------------------

  /** Taken by the batch of its own, child, table. */
  predicate TakenAsChild(row: Row, now: int, windows: Windows, tenant: int, faults: nat -> Fault) {
    && row.table != Runs && Expired(row, now, windows, tenant)
    && PlaceOf(row.table).Some? && faults(PlaceOf(row.table).value) == NoFault
  }

  /** An expired run is still named by a row that the pass does not take. */
  ghost predicate RunsAreHeld(live: Live, now: int, windows: Windows, tenant: int, faults: nat -> Fault) {
    exists r, q :: r in live && q in live && Holds(r, q, now, windows, tenant, faults)
  }

  predicate Holds(r: Row, q: Row, now: int, windows: Windows, tenant: int, faults: nat -> Fault) {
    && q.table == Runs && Expired(q, now, windows, tenant) && r.run == Some(q.id)
    && !TakenAsChild(r, now, windows, tenant, faults) && !(r.table == Runs && Expired(r, now, windows, tenant))
  }

  /**
   A pass with nobody else writing, faults anywhere, takes exactly these rows: an expired child row whose
   table's batch does not fail; and every expired run, if the runs batch does not fail and none of them is
   still named. What it takes is what it adds to the archive.
   */
  lemma QuietPassTakesExactly(db: Db, now: int, windows: Windows, tenant: int, faults: nat -> Fault)
    ensures var after := AfterPass(4, db, now, windows, tenant, Quietly(faults));
      && after.live <= db.live && after.archive == db.archive + multiset(db.live - after.live)
      && forall row :: row in db.live ==>
           (row !in after.live <==>
             || TakenAsChild(row, now, windows, tenant, faults)
             || (row.table == Runs && Expired(row, now, windows, tenant) && faults(3) == NoFault
                 && !RunsAreHeld(db.live, now, windows, tenant, faults)))
  {
    var after := AfterPass(4, db, now, windows, tenant, Quietly(faults));
    var rest := NotMovedAsChild(db.live, 3, now, windows, tenant, faults);
    var runs := BatchOf(3, now, windows, tenant);
    PassExactly(db, now, windows, tenant, faults);
    forall row
      ensures row in rest <==> row in db.live && !TakenAsChild(row, now, windows, tenant, faults)
      ensures runs.Matches(row) <==> row.table == Runs && Expired(row, now, windows, tenant)
    {
      MovedMeansTaken(row, now, windows, tenant, faults);
      BatchIsForExpired(3, now, windows, tenant, row);
    }
    RefusedMeansHeld(db.live, rest, runs, now, windows, tenant, faults);
    MovedToArchive(db, after);
  }

  lemma MovedMeansTaken(row: Row, now: int, windows: Windows, tenant: int, faults: nat -> Fault)
    ensures MovedAsChild(row, 3, now, windows, tenant, faults) <==> TakenAsChild(row, now, windows, tenant, faults)
  {
    forall i: nat | i < 3
      ensures BatchOf(i, now, windows, tenant).Matches(row) <==>
        PlaceOf(row.table) == Some(i) && Expired(row, now, windows, tenant)
    {
      BatchIsForExpired(i, now, windows, tenant, row);
    }
  }

  lemma RefusedMeansHeld(
      live: Live, rest: Live, runs: Batch, now: int, windows: Windows, tenant: int, faults: nat -> Fault)
    requires forall row :: row in rest <==> row in live && !TakenAsChild(row, now, windows, tenant, faults)
    requires forall row :: runs.Matches(row) <==> row.table == Runs && Expired(row, now, windows, tenant)
    ensures runs.DeleteRefused(rest) <==> RunsAreHeld(live, now, windows, tenant, faults)
  {
    if runs.DeleteRefused(rest) {
      var r, q :| r in rest && !runs.Matches(r) && q in rest && runs.Matches(q) && r.PointsTo(q);
      assert Holds(r, q, now, windows, tenant, faults);
    }
    if RunsAreHeld(live, now, windows, tenant, faults) {
      var r, q :| r in live && q in live && Holds(r, q, now, windows, tenant, faults);
      assert r in rest && q in rest && r.PointsTo(q);
    }
  }

  lemma MovedToArchive(db: Db, after: Db)
    requires after.live <= db.live && after.Total() == db.Total()
    ensures after.archive == db.archive + multiset(db.live - after.live)
  {
    assert multiset(db.live) == multiset(after.live) + multiset(db.live - after.live);
    assert after.archive == after.Total() - multiset(after.live);
  }
}
