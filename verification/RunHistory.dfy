/** What holds of the landing database over any sequence of entity runs, however each ended. */
module RunHistory {
  import opened Wrappers
  import opened Validation
  import opened BatchMapping
  import opened Loader
  import opened PostgresConnection
  import opened EntityRun

  datatype PastRun = PastRun(spec: Spec, id: string, batchSize: int, ending: Ending)

  /** The tables every run writes exist, and no run creates or drops one. */
  ghost predicate Runnable(db: Db, runs: seq<PastRun>) {
    forall i :: 0 <= i < |runs| ==> runs[i].spec.table in db.tables
  }

  /** The committed database after the runs. */
  function Replayed(db: Db, runs: seq<PastRun>): (d: Db)
    requires Runnable(db, runs)
    ensures d.tables.Keys == db.tables.Keys
  {
    if runs == [] then db
    else
      var r := runs[|runs| - 1];
      After(Replayed(db, runs[..|runs| - 1]), r.spec, r.id, r.batchSize, r.ending)
  }

  // ---------------------------------------------------------------------------------------------
  // One run
  // ---------------------------------------------------------------------------------------------

  lemma StagedParts(db: Db, spec: Spec, batch: Batch, batchSize: int)
    requires spec.table in db.tables
    ensures
      var d := StagedDb(db, spec, batch, batchSize);
      var rows, columns, table := RowsWritten(batch.rows, batchSize), Columns(batch.rows), db.tables[spec.table];
      && d.tables == db.tables[spec.table := UpsertAll(table, columns, spec.primaryKey, rows)]
      && d.wal == db.wal + UpsertChanges(spec.table, table, columns, spec.primaryKey, rows)
      && d.watermarks == db.watermarks && d.runs == db.runs
      && d.rejects == db.rejects + RejectRows(batch.id, spec.name, batch.rejects)
      && d.quality == db.quality + QualityRows(batch.id, spec.name, batch.results)
  {
  }

  lemma LandedParts(db: Db, spec: Spec, run: nat, batch: Batch, batchSize: int)
    requires spec.table in db.tables && run < |db.runs|
    ensures
      var d, staged := LandedDb(db, run, spec, batch, batchSize), StagedDb(db, spec, batch, batchSize);
      && d.tables == staged.tables && d.wal == staged.wal && d.rejects == staged.rejects && d.quality == staged.quality
      && d.watermarks == Advanced(db.watermarks, spec.name, Cursor(spec.primaryKey, batch.rows),
                                  BatchCounts(db, spec, batch, batchSize).read)
  {
  }

  /** A landed run, field by field: the tables and the change stream. */
  lemma AfterLandedTables(db: Db, spec: Spec, id: string, batchSize: int, ending: Ending)
    requires spec.table in db.tables && HasLanded(ending)
    ensures
      var d, batch := After(db, spec, id, batchSize, ending), ending.batch;
      var rows, columns, table := RowsWritten(batch.rows, batchSize), Columns(batch.rows), db.tables[spec.table];
      && d.tables == db.tables[spec.table := UpsertAll(table, columns, spec.primaryKey, rows)]
      && d.wal == db.wal + UpsertChanges(spec.table, table, columns, spec.primaryKey, rows)
  {
    MarkingTouchesRuns(db, spec, id, batchSize, ending);
    LandedParts(Started(db, spec, id), spec, |db.runs|, ending.batch, batchSize);
    StagedParts(Started(db, spec, id), spec, ending.batch, batchSize);
  }

  /** The watermarks. */
  lemma AfterLandedWatermarks(db: Db, spec: Spec, id: string, batchSize: int, ending: Ending)
    requires spec.table in db.tables && HasLanded(ending)
    ensures After(db, spec, id, batchSize, ending).watermarks
         == Advanced(db.watermarks, spec.name, Cursor(spec.primaryKey, ending.batch.rows),
                     BatchCounts(db, spec, ending.batch, batchSize).read)
  {
    MarkingTouchesRuns(db, spec, id, batchSize, ending);
    LandedParts(Started(db, spec, id), spec, |db.runs|, ending.batch, batchSize);
  }

  /** Rejects and expectation results. */
  lemma AfterLandedRecords(db: Db, spec: Spec, id: string, batchSize: int, ending: Ending)
    requires spec.table in db.tables && HasLanded(ending)
    ensures
      var d, batch := After(db, spec, id, batchSize, ending), ending.batch;
      && d.rejects == db.rejects + RejectRows(batch.id, spec.name, batch.rejects)
      && d.quality == db.quality + QualityRows(batch.id, spec.name, batch.results)
  {
    MarkingTouchesRuns(db, spec, id, batchSize, ending);
    LandedParts(Started(db, spec, id), spec, |db.runs|, ending.batch, batchSize);
    StagedParts(Started(db, spec, id), spec, ending.batch, batchSize);
  }

  lemma MarkingTouchesRuns(db: Db, spec: Spec, id: string, batchSize: int, ending: Ending)
    requires spec.table in db.tables && HasLanded(ending)
    ensures
      var d, landed := After(db, spec, id, batchSize, ending),
                       LandedDb(Started(db, spec, id), |db.runs|, spec, ending.batch, batchSize);
      d == landed.(runs := d.runs)
  {
  }

  /** The run row of any run that started. */
  lemma AfterRuns(db: Db, spec: Spec, id: string, batchSize: int, ending: Ending)
    requires spec.table in db.tables && !ending.NotStarted?
    ensures
      var runs := After(db, spec, id, batchSize, ending).runs;
      && |runs| == |db.runs| + 1 && runs[..|db.runs|] == db.runs && runs[|db.runs|].entity == spec.name
      && (ending.Landed? ==>
            && runs[|db.runs|].status == Succeeded
            && runs[|db.runs|].result == BatchCounts(db, spec, ending.batch, batchSize))
      && (!ending.Landed? ==> runs[|db.runs|].status != Succeeded)
      && (ending.LandedMarkedFailed? || ending.MarkedFailed? ==>
            runs[|db.runs|].status == Failed && runs[|db.runs|].result == NOTHING)
  {
  }

  /** The run row a run leaves, ending by ending: the counts are the upsert's and the rejects for a success, the rows
      that would have been written for a dry run, and zero for any other; the request and retry counts are
      recorded for a success alone, the error for a failure alone. */
  lemma RunRowIs(db: Db, spec: Spec, id: string, batchSize: int, ending: Ending)
    requires spec.table in db.tables && !ending.NotStarted?
    ensures
      var runs, zero := After(db, spec, id, batchSize, ending).runs, LoadResult(0, 0, 0, 0, 0);
      && |runs| == |db.runs| + 1 && runs[..|db.runs|] == db.runs
      && runs[|db.runs|] ==
           match ending
           case MarkedFailed(e) => RunRow(spec.name, id, Failed, zero, 0, 0, Some(e))
           case LandedMarkedFailed(_, e) => RunRow(spec.name, id, Failed, zero, 0, 0, Some(e))
           case MarkedSkipped(b) =>
             RunRow(spec.name, id, Skipped, LoadResult(|b.rows|, 0, 0, 0, |b.rejects|), 0, 0, None)
           case Landed(b) =>
             var written := if batchSize > 0 then b.rows else [];
             var counts := UpsertCounts(db.tables[spec.table], Columns(b.rows), spec.primaryKey, written);
             RunRow(spec.name, id, Succeeded, counts.(rejected := |b.rejects|), b.requests, b.retries, None)
           case _ => RunRow(spec.name, id, Running, zero, 0, 0, None)
  {
  }

  /** The watermark a landed run leaves: the number of rows it read, and that much more in all. */
  lemma WatermarkIs(db: Db, spec: Spec, id: string, batchSize: int, ending: Ending)
    requires spec.table in db.tables && HasLanded(ending)
    ensures
      var d, read := After(db, spec, id, batchSize, ending), BatchCounts(db, spec, ending.batch, batchSize).read;
      && spec.name in d.watermarks && d.watermarks[spec.name].lastCount == read
      && d.watermarks[spec.name].total
           == read + (if spec.name in db.watermarks then db.watermarks[spec.name].total else 0)
      && forall e :: e != spec.name ==>
           (e in d.watermarks <==> e in db.watermarks) && (e in db.watermarks ==> d.watermarks[e] == db.watermarks[e])
  {
    AfterLandedWatermarks(db, spec, id, batchSize, ending);
  }

  /** A run that did not land changes nothing but its own run row: no table row, no change event, no
      watermark, no reject and no expectation result. */
  lemma NotLandedTouchesOnlyRunRow(db: Db, spec: Spec, id: string, batchSize: int, ending: Ending)
    requires spec.table in db.tables && !HasLanded(ending)
    ensures
      var d := After(db, spec, id, batchSize, ending);
      && d == db.(runs := d.runs) && db.runs <= d.runs && |d.runs| <= |db.runs| + 1
      && (|d.runs| > |db.runs| ==> d.runs[|db.runs|].status != Succeeded)
  {
    var d := After(db, spec, id, batchSize, ending);
    assert d.tables == db.tables;
  }

  /** Every row of a landed batch is held, with its hash. */
  lemma LandedHolds(db: Db, spec: Spec, id: string, batchSize: int, ending: Ending)
    requires spec.table in db.tables && HasLanded(ending) && batchSize > 0
    requires UniqueKeys(spec.primaryKey, ending.batch.rows)
    requires ending.batch.rows != [] ==> HASH in Columns(ending.batch.rows)
    ensures
      var d := After(db, spec, id, batchSize, ending);
      Holds(d.tables[spec.table], spec.primaryKey, ending.batch.rows, |ending.batch.rows|)
  {
    var rows, columns, table := ending.batch.rows, Columns(ending.batch.rows), db.tables[spec.table];
    AfterLandedTables(db, spec, id, batchSize, ending);
    if rows != [] {
      RerunIsQuietIff(table, columns, spec.primaryKey, rows);
      LoadedHashes(table, columns, spec.primaryKey, rows);
    }
  }

  /** What a run leaves once its unit has landed, whether or not it is marked failed afterwards.  Its rows, the
      rejects and expectation results of the batch, and the watermark are all there; a success row counts
      them, and a run marked failed counts nothing.  Chunking by a negative size writes no row at all: then the
      run still reports success, of no row. */
  lemma LandedIsWhole(db: Db, spec: Spec, id: string, batchSize: int, ending: Ending)
    requires spec.table in db.tables && HasLanded(ending)
    requires UniqueKeys(spec.primaryKey, ending.batch.rows)
    requires ending.batch.rows != [] ==> HASH in Columns(ending.batch.rows)
    ensures
      var batch, d := ending.batch, After(db, spec, id, batchSize, ending);
      var row, counts := d.runs[|db.runs|], BatchCounts(db, spec, batch, batchSize);
      && |d.runs| == |db.runs| + 1 && d.runs[..|db.runs|] == db.runs && row.entity == spec.name
      && (ending.Landed? ==> row.status == Succeeded && row.result == counts)
      && (ending.LandedMarkedFailed? ==> row.status == Failed && row.result == NOTHING)
      && (batchSize > 0 ==> counts.read == |batch.rows|
                            && Holds(d.tables[spec.table], spec.primaryKey, batch.rows, |batch.rows|))
      && (batchSize <= 0 ==> counts.read == 0 && d.tables == db.tables && d.wal == db.wal)
      && d.rejects == db.rejects + RejectRows(batch.id, spec.name, batch.rejects)
      && d.quality == db.quality + QualityRows(batch.id, spec.name, batch.results)
      && TotalOf(d, spec.name) == TotalOf(db, spec.name) + counts.read
  {
    var batch, columns := ending.batch, Columns(ending.batch.rows);
    var table := db.tables[spec.table];
    AfterLandedTables(db, spec, id, batchSize, ending);
    AfterLandedRecords(db, spec, id, batchSize, ending);
    AfterLandedWatermarks(db, spec, id, batchSize, ending);
    AfterRuns(db, spec, id, batchSize, ending);
    CountsAddUp(table, columns, spec.primaryKey, RowsWritten(batch.rows, batchSize));
    if batchSize > 0 {
      LandedHolds(db, spec, id, batchSize, ending);
    } else {
      assert db.tables[spec.table := table] == db.tables;
    }
  }

  /** RejectRows and QualityRows hold the batch's rejects and results, in order, each under the batch and entity. */
  lemma {:induction false} RejectRowsAre(id: string, entity: string, rejects: seq<Rejection>)
    ensures |RejectRows(id, entity, rejects)| == |rejects|
    ensures forall i :: 0 <= i < |rejects| ==> RejectRows(id, entity, rejects)[i] == RejectRow(id, entity, rejects[i])
  {
    if rejects != [] { RejectRowsAre(id, entity, rejects[..|rejects| - 1]); }
  }

  lemma {:induction false} QualityRowsAre(id: string, entity: string, results: seq<ExpectationResult>)
    ensures |QualityRows(id, entity, results)| == |results|
    ensures forall i :: 0 <= i < |results| ==> QualityRows(id, entity, results)[i] == QualityRow(id, entity, results[i])
  {
    if results != [] { QualityRowsAre(id, entity, results[..|results| - 1]); }
  }

  function CursorOf(db: Db, entity: string): Option<int> {
    if entity in db.watermarks then db.watermarks[entity].cursor else None
  }

  ghost predicate HasIntKey(pk: string, rows: seq<Record>) {
    exists i :: 0 <= i < |rows| && Get(rows[i], pk).Int?
  }

  /** What becomes of the cursor: a landed batch with an integer key moves it to the largest of them, even below
      where it was; any other run, and any other entity's, keeps it. */
  lemma CursorMoves(db: Db, spec: Spec, id: string, batchSize: int, ending: Ending, entity: string)
    requires spec.table in db.tables
    ensures
      var before, after := CursorOf(db, entity), CursorOf(After(db, spec, id, batchSize, ending), entity);
      if HasLanded(ending) && entity == spec.name && HasIntKey(spec.primaryKey, ending.batch.rows) then
        var rows := ending.batch.rows;
        && after.Some?
        && (exists i :: 0 <= i < |rows| && Get(rows[i], spec.primaryKey) == Int(after.value))
        && (forall i :: 0 <= i < |rows| && Get(rows[i], spec.primaryKey).Int? ==>
              Get(rows[i], spec.primaryKey).n <= after.value)
      else after == before
  {
    if HasLanded(ending) {
      AfterLandedWatermarks(db, spec, id, batchSize, ending);
      var c := Cursor(spec.primaryKey, ending.batch.rows);
    } else {
      NotLandedTouchesOnlyRunRow(db, spec, id, batchSize, ending);
    }
  }

  // ---------------------------------------------------------------------------------------------
  // Watermark and run history
  // ---------------------------------------------------------------------------------------------

  /** Rows read according to the success rows of the entity. */
  function Reported(runs: seq<RunRow>, entity: string): nat {
    if runs == [] then 0
    else
      var r := runs[|runs| - 1];
      Reported(runs[..|runs| - 1], entity)
      + if r.entity == entity && r.status == Succeeded then r.result.read else 0
  }

  /** Rows read by runs of the entity that landed and were then marked failed. */
  function Disowned(db: Db, runs: seq<PastRun>, entity: string): nat
    requires Runnable(db, runs)
  {
    if runs == [] then 0
    else
      var init, r := runs[..|runs| - 1], runs[|runs| - 1];
      Disowned(db, init, entity)
      + if r.ending.LandedMarkedFailed? && r.spec.name == entity
        then BatchCounts(Replayed(db, init), r.spec, r.ending.batch, r.batchSize).read else 0
  }

  lemma ReportedPush(runs: seq<RunRow>, r: RunRow, entity: string)
    ensures Reported([], entity) == 0
    ensures Reported(runs + [r], entity) ==
              Reported(runs, entity) + if r.entity == entity && r.status == Succeeded then r.result.read else 0
  {
    assert (runs + [r])[..|runs|] == runs;
  }

  function ReadBy(db: Db, r: PastRun, entity: string): nat
    requires r.spec.table in db.tables
  {
    if HasLanded(r.ending) && r.spec.name == entity
    then BatchCounts(db, r.spec, r.ending.batch, r.batchSize).read else 0
  }

  lemma AfterTotal(db: Db, r: PastRun, entity: string)
    requires r.spec.table in db.tables
    ensures TotalOf(After(db, r.spec, r.id, r.batchSize, r.ending), entity)
         == TotalOf(db, entity) + ReadBy(db, r, entity)
  {
    if HasLanded(r.ending) {
      AfterLandedWatermarks(db, r.spec, r.id, r.batchSize, r.ending);
    } else {
      NotLandedTouchesOnlyRunRow(db, r.spec, r.id, r.batchSize, r.ending);
    }
  }

  lemma AfterReported(db: Db, r: PastRun, entity: string)
    requires r.spec.table in db.tables
    ensures Reported(After(db, r.spec, r.id, r.batchSize, r.ending).runs, entity) ==
              Reported(db.runs, entity) + if r.ending.Landed? then ReadBy(db, r, entity) else 0
  {
    var d := After(db, r.spec, r.id, r.batchSize, r.ending);
    if !r.ending.NotStarted? {
      AfterRuns(db, r.spec, r.id, r.batchSize, r.ending);
      assert d.runs == db.runs + [d.runs[|db.runs|]];
      ReportedPush(db.runs, d.runs[|db.runs|], entity);
    }
  }

  /** Over any runs, an entity's total_rows_loaded grows by exactly what its success rows report plus what
      runs marked failed after their commit had loaded.  Watermark and run history agree exactly when
      there is no such run with rows. */
  lemma {:induction false} WatermarkAccounts(db: Db, runs: seq<PastRun>, entity: string)
    requires Runnable(db, runs)
    ensures TotalOf(Replayed(db, runs), entity) - TotalOf(db, entity) ==
              Reported(Replayed(db, runs).runs, entity) - Reported(db.runs, entity) + Disowned(db, runs, entity)
  {
    if runs != [] {
      var init, r := runs[..|runs| - 1], runs[|runs| - 1];
      WatermarkAccounts(db, init, entity);
      AfterTotal(Replayed(db, init), r, entity);
      AfterReported(Replayed(db, init), r, entity);
    }
  }

  // ---------------------------------------------------------------------------------------------
  // Tables and change stream
  // ---------------------------------------------------------------------------------------------

  /** The table that replaying the committed row changes builds. */
  function FromWal(wal: seq<RowChange>, table: string): Table {
    if wal == [] then map[]
    else
      var before, c := FromWal(wal[..|wal| - 1], table), wal[|wal| - 1];
      if c.table == table then before[c.key := c.row] else before
  }

  lemma FromWalPush(wal: seq<RowChange>, c: RowChange, t: string)
    ensures FromWal(wal + [c], t) == if c.table == t then FromWal(wal, t)[c.key := c.row] else FromWal(wal, t)
  {
    assert (wal + [c])[..|wal|] == wal;
  }

  ghost predicate WalBuildsTables(db: Db) {
    forall t :: t in db.tables ==> db.tables[t] == FromWal(db.wal, t)
  }

  lemma {:induction false} ChangesBuildTable(
      wal: seq<RowChange>, name: string, table: Table, columns: set<string>, pk: string, rows: seq<Record>, t: string)
    requires FromWal(wal, name) == table
    ensures FromWal(wal + UpsertChanges(name, table, columns, pk, rows), t) ==
              if t == name then UpsertAll(table, columns, pk, rows) else FromWal(wal, t)
  {
    if rows == [] {
      assert wal + [] == wal;
    } else {
      var init, row := rows[..|rows| - 1], rows[|rows| - 1];
      ChangesBuildTable(wal, name, table, columns, pk, init, t);
      var before, sofar := UpsertAll(table, columns, pk, init), UpsertChanges(name, table, columns, pk, init);
      if EffectOf(before, columns, pk, row).Unchanged? {
        assert UpsertChanges(name, table, columns, pk, rows) == sofar;
      } else {
        var c := RowChange(name, Get(row, pk), UpsertRow(before, columns, pk, row)[Get(row, pk)]);
        assert wal + UpsertChanges(name, table, columns, pk, rows) == (wal + sofar) + [c];
        FromWalPush(wal + sofar, c, t);
      }
    }
  }

  lemma AfterKeepsWal(db: Db, spec: Spec, id: string, batchSize: int, ending: Ending)
    requires spec.table in db.tables && WalBuildsTables(db)
    ensures WalBuildsTables(After(db, spec, id, batchSize, ending))
  {
    if HasLanded(ending) {
      AfterLandedTables(db, spec, id, batchSize, ending);
      var rows := RowsWritten(ending.batch.rows, batchSize);
      forall t | t in db.tables {
        ChangesBuildTable(
          db.wal, spec.table, db.tables[spec.table], Columns(ending.batch.rows), spec.primaryKey, rows, t);
      }
    } else {
      NotLandedTouchesOnlyRunRow(db, spec, id, batchSize, ending);
    }
  }

  /** In every reachable state the committed change stream rebuilds every table: no row was written
      without its change event and no event without its row, whatever failed. */
  lemma {:induction false} ChangeStreamIsComplete(db: Db, runs: seq<PastRun>)
    requires Runnable(db, runs) && WalBuildsTables(db)
    ensures WalBuildsTables(Replayed(db, runs))
  {
    if runs != [] {
      var r := runs[|runs| - 1];
      ChangeStreamIsComplete(db, runs[..|runs| - 1]);
      AfterKeepsWal(Replayed(db, runs[..|runs| - 1]), r.spec, r.id, r.batchSize, r.ending);
    }
  }

  // ---------------------------------------------------------------------------------------------
  // Honest tables and zero churn
  // ---------------------------------------------------------------------------------------------

  /** Every stored row of every table carries the digest of its own business columns. */
  ghost predicate HonestDb(digest: Digest, columns: map<string, set<string>>, db: Db) {
    forall t :: t in db.tables ==> t in columns && HonestTable(digest, columns[t], db.tables[t])
  }

  ghost predicate HonestRows(digest: Digest, columns: set<string>, rows: seq<Record>) {
    forall i :: 0 <= i < |rows| ==> Honest(digest, rows[i]) && rows[i].Keys == columns
  }

  /** What the run landed, if anything, came out of the mapping with this digest and the table's columns. */
  ghost predicate HonestRun(digest: Digest, columns: map<string, set<string>>, r: PastRun) {
    HasLanded(r.ending) ==>
      r.spec.table in columns && HonestRows(digest, columns[r.spec.table], r.ending.batch.rows)
  }

  lemma AfterKeepsHonest(digest: Digest, columns: map<string, set<string>>, db: Db, r: PastRun)
    requires r.spec.table in db.tables && HonestDb(digest, columns, db) && HonestRun(digest, columns, r)
    ensures HonestDb(digest, columns, After(db, r.spec, r.id, r.batchSize, r.ending))
  {
    if HasLanded(r.ending) {
      AfterLandedTables(db, r.spec, r.id, r.batchSize, r.ending);
      var rows := RowsWritten(r.ending.batch.rows, r.batchSize);
      if rows != [] {
        assert Columns(r.ending.batch.rows) == columns[r.spec.table];
        UpsertKeepsHonest(digest, db.tables[r.spec.table], columns[r.spec.table], r.spec.primaryKey, rows);
      }
    } else {
      NotLandedTouchesOnlyRunRow(db, r.spec, r.id, r.batchSize, r.ending);
    }
  }

  /** Over any runs, however each ended, the tables stay honest. */
  lemma {:induction false} HistoryKeepsHonest(
      digest: Digest, columns: map<string, set<string>>, db: Db, runs: seq<PastRun>)
    requires Runnable(db, runs) && HonestDb(digest, columns, db)
    requires forall i :: 0 <= i < |runs| ==> HonestRun(digest, columns, runs[i])
    ensures HonestDb(digest, columns, Replayed(db, runs))
  {
    if runs != [] {
      var init := runs[..|runs| - 1];
      HistoryKeepsHonest(digest, columns, db, init);
      AfterKeepsHonest(digest, columns, Replayed(db, init), runs[|runs| - 1]);
    }
  }

  /** Zero churn over any history: a run that lands a batch with unique keys appends to the change stream changes of
      rows that are new or differ in a business column from what is stored, and nothing else; it appends one
      for every such row exactly if the digest tells each row apart from the one stored under its key.  Any
      other run appends nothing. */
  lemma RunEmitsDifferences(
      digest: Digest, columns: map<string, set<string>>, db: Db, runs: seq<PastRun>, r: PastRun)
    requires Runnable(db, runs) && HonestDb(digest, columns, db)
    requires forall i :: 0 <= i < |runs| ==> HonestRun(digest, columns, runs[i])
    requires r.spec.table in db.tables && HonestRun(digest, columns, r) && r.batchSize > 0
    requires HasLanded(r.ending) ==> UniqueKeys(r.spec.primaryKey, r.ending.batch.rows)
    ensures
      var now := Replayed(db, runs);
      var wal := After(now, r.spec, r.id, r.batchSize, r.ending).wal;
      && now.wal <= wal
      && (!HasLanded(r.ending) ==> wal == now.wal)
      && (HasLanded(r.ending) ==>
            var rows, pk, table := r.ending.batch.rows, r.spec.primaryKey, now.tables[r.spec.table];
            var changes := wal[|now.wal|..];
            && (forall c :: c in changes ==> ComesFrom(c, r.spec.table, table, pk, rows))
            && (AreDifferences(changes, r.spec.table, table, pk, rows) <==> AllToldApart(digest, table, pk, rows)))
  {
    var now := Replayed(db, runs);
    HistoryKeepsHonest(digest, columns, db, runs);
    if HasLanded(r.ending) {
      var rows, pk, table := r.ending.batch.rows, r.spec.primaryKey, now.tables[r.spec.table];
      var changes := UpsertChanges(r.spec.table, table, Columns(rows), pk, rows);
      assert After(now, r.spec, r.id, r.batchSize, r.ending).wal == now.wal + changes;
      if rows != [] {
        ChangesAreDifferences(digest, r.spec.table, table, columns[r.spec.table], pk, rows);
      }
    } else {
      NotLandedTouchesOnlyRunRow(now, r.spec, r.id, r.batchSize, r.ending);
    }
  }

  /** A batch that comes out of the mapping is unique on its key. */
  lemma MappedBatchIsUnique(spec: Spec, mapper: Mapper, digest: Digest, request: Request, batch: Batch)
    requires !Private(spec.primaryKey) && BatchOf(spec, JudgeOf(spec.primaryKey, mapper, digest), request, batch)
    ensures UniqueKeys(spec.primaryKey, batch.rows)
  {
    var pk := spec.primaryKey;
    var vs := Verdicts(JudgeOf(pk, mapper, digest), request.fetched.value);
    var kept :| Survivors(vs, |vs|, kept) && RowsOf(vs, kept, batch.rows);
    assert Keyed(pk, vs);
    BatchIsLastWriteWins(pk, vs, batch.rows, kept, 0);
    forall i, j | 0 <= i < j < |batch.rows| ensures Get(batch.rows[i], pk) != Get(batch.rows[j], pk) {
      assert vs[kept[i]].Land? && !Get(batch.rows[i], pk).Null?;
    }
  }

  /** Its row p is the finished mapping of some fetched record. */
  lemma MappedFrom(spec: Spec, mapper: Mapper, digest: Digest, request: Request, batch: Batch, p: nat)
    returns (i: nat)
    requires !Private(spec.primaryKey) && BatchOf(spec, JudgeOf(spec.primaryKey, mapper, digest), request, batch)
    requires p < |batch.rows|
    ensures i < |request.fetched.value| && mapper(request.fetched.value[i]).Success?
    ensures HASH in batch.rows[p] && Honest(digest, batch.rows[p])
    ensures batch.rows[p].Keys == mapper(request.fetched.value[i]).value.Keys + {SOURCE, HASH}
  {
    var pk, raws := spec.primaryKey, request.fetched.value;
    var vs := Verdicts(JudgeOf(pk, mapper, digest), raws);
    var kept :| Survivors(vs, |vs|, kept) && RowsOf(vs, kept, batch.rows);
    i := kept[p];
    MappedRow(pk, mapper, digest, raws[i], batch.rows[p]);
  }

  /** Where honest batches come from: the mapping hands out rows that carry their own digest, with the mapper's
      columns and the two it adds, unique on the key. */
  lemma MappedBatchIsHonest(
      spec: Spec, mapper: Mapper, digest: Digest, request: Request, batch: Batch, columns: set<string>)
    requires !Private(spec.primaryKey) && BatchOf(spec, JudgeOf(spec.primaryKey, mapper, digest), request, batch)
    ensures UniqueKeys(spec.primaryKey, batch.rows)
    ensures batch.rows != [] ==> HASH in Columns(batch.rows)
    ensures (forall raw :: mapper(raw).Success? ==> mapper(raw).value.Keys == columns) ==>
              HonestRows(digest, columns + {SOURCE, HASH}, batch.rows)
  {
    MappedBatchIsUnique(spec, mapper, digest, request, batch);
    if batch.rows != [] {
      var i := MappedFrom(spec, mapper, digest, request, batch, 0);
    }
    if forall raw :: mapper(raw).Success? ==> mapper(raw).value.Keys == columns {
      forall p | 0 <= p < |batch.rows|
        ensures Honest(digest, batch.rows[p]) && batch.rows[p].Keys == columns + {SOURCE, HASH}
      {
        var i := MappedFrom(spec, mapper, digest, request, batch, p);
      }
    }
  }

  lemma MappedRow(pk: string, mapper: Mapper, digest: Digest, raw: Raw, row: Record)
    requires JudgeRecord(pk, mapper, digest, raw).Land? && row == JudgeRecord(pk, mapper, digest, raw).row
    ensures mapper(raw).Success? && HASH in row && Honest(digest, row)
    ensures row.Keys == mapper(raw).value.Keys + {SOURCE, HASH}
  {
    assert row == Finish(digest, mapper(raw).value);
  }
}
