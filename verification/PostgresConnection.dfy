/** PostgresLoader on its connection (ingestion/fineract_ingest/loader.py): the landing tables and the meta.*
    control plane, one statement at a time, against a server that may fail any of them. */
module PostgresConnection {
  import opened Wrappers
  import opened Validation
  import opened BatchMapping
  import opened Loader

  datatype Status = Running | Succeeded | Failed | Skipped

  datatype RunRow = RunRow(
    entity: string, batchId: string, status: Status, result: LoadResult, requests: nat, retries: nat,
    error: Option<string>)

  datatype Watermark = Watermark(cursor: Option<int>, lastCount: nat, total: nat)

  datatype RejectRow = RejectRow(batchId: string, entity: string, rejection: Rejection)

  datatype QualityRow = QualityRow(batchId: string, entity: string, result: ExpectationResult)

  /** The landing tables, the meta.* control plane, and the row changes written so far. */
  datatype Db = Db(
    tables: map<string, Table>, runs: seq<RunRow>, watermarks: map<string, Watermark>,
    rejects: seq<RejectRow>, quality: seq<QualityRow>, wal: seq<RowChange>)

  datatype Spec = Spec(name: string, table: string, primaryKey: string, expectations: seq<Expectation>)

  // ---------------------------------------------------------------------------------------------
  // What the statements do
  // ---------------------------------------------------------------------------------------------

  function Columns(rows: seq<Record>): set<string> {
    if rows == [] then {} else rows[0].Keys
  }

  function WithRows(db: Db, spec: Spec, columns: set<string>, rows: seq<Record>): Db
    requires spec.table in db.tables
  {
    var table := db.tables[spec.table];
    db.(tables := db.tables[spec.table := UpsertAll(table, columns, spec.primaryKey, rows)],
        wal := db.wal + UpsertChanges(spec.table, table, columns, spec.primaryKey, rows))
  }

  /** chunked() yields nothing for a negative size. */
  function RowsWritten(rows: seq<Record>, batchSize: int): seq<Record> {
    if batchSize > 0 then rows else []
  }

  function LoadCounts(db: Db, spec: Spec, rows: seq<Record>, batchSize: int): LoadResult
    requires spec.table in db.tables
  {
    UpsertCounts(db.tables[spec.table], Columns(rows), spec.primaryKey, RowsWritten(rows, batchSize))
  }

  function RejectRows(id: string, entity: string, rejects: seq<Rejection>): seq<RejectRow> {
    if rejects == [] then []
    else RejectRows(id, entity, rejects[..|rejects| - 1]) + [RejectRow(id, entity, rejects[|rejects| - 1])]
  }

  function QualityRows(id: string, entity: string, results: seq<ExpectationResult>): seq<QualityRow> {
    if results == [] then []
    else QualityRows(id, entity, results[..|results| - 1]) + [QualityRow(id, entity, results[|results| - 1])]
  }

  function WithRejects(db: Db, spec: Spec, id: string, rejects: seq<Rejection>): Db {
    db.(rejects := db.rejects + RejectRows(id, spec.name, rejects))
  }

  function WithQuality(db: Db, spec: Spec, id: string, results: seq<ExpectationResult>): Db {
    db.(quality := db.quality + QualityRows(id, spec.name, results))
  }

  /** _cursor_value over integer keys. */
  function Cursor(pk: string, rows: seq<Record>): (c: Option<int>)
    ensures forall i :: 0 <= i < |rows| && Get(rows[i], pk).Int? ==> c.Some? && Get(rows[i], pk).n <= c.value
    ensures c.Some? ==> exists i :: 0 <= i < |rows| && Get(rows[i], pk) == Int(c.value)
  {
    if rows == [] then None
    else
      var before, v := Cursor(pk, rows[..|rows| - 1]), Get(rows[|rows| - 1], pk);
      if v.Int? && (before.None? || v.n > before.value) then Some(v.n) else before
  }

  function TotalIn(watermarks: map<string, Watermark>, entity: string): nat {
    if entity in watermarks then watermarks[entity].total else 0
  }

  function TotalOf(db: Db, entity: string): nat {
    TotalIn(db.watermarks, entity)
  }

  /** INSERT ... ON CONFLICT (entity) DO UPDATE: the cursor given, or else the one kept; the count added. */
  function Advanced(watermarks: map<string, Watermark>, entity: string, cursor: Option<int>, count: nat)
    : map<string, Watermark>
  {
    var kept := if entity in watermarks then watermarks[entity].cursor else None;
    watermarks[entity := Watermark(if cursor.Some? then cursor else kept, count, TotalIn(watermarks, entity) + count)]
  }

  function WithWatermark(db: Db, entity: string, cursor: Option<int>, count: nat): Db {
    db.(watermarks := Advanced(db.watermarks, entity, cursor, count))
  }

  function Started(db: Db, spec: Spec, id: string): Db {
    db.(runs := db.runs + [RunRow(spec.name, id, Running, NOTHING, 0, 0, None)])
  }

  function Finished(db: Db, run: nat, status: Status, result: LoadResult, requests: nat, retries: nat,
                    error: Option<string>): Db
    requires run < |db.runs|
  {
    db.(runs := db.runs[run := db.runs[run].(
          status := status, result := result, requests := requests, retries := retries, error := error)])
  }

  // ---------------------------------------------------------------------------------------------
  // The loader over one connection
  // ---------------------------------------------------------------------------------------------

  /** The server does not fail statement `clock`. */
  predicate Good(script: seq<bool>, clock: nat) {
    clock >= |script| || !script[clock]
  }

  /** None of the n statements from `clock` on is one the server fails. */
  predicate Fine(script: seq<bool>, clock: nat, n: nat) {
    forall i: nat | clock <= i < clock + n :: Good(script, i)
  }

  /** Of n statements from `from` on the one before `clock` is the first to fail. */
  predicate Stopped(script: seq<bool>, from: nat, clock: nat, n: nat) {
    from < clock <= from + n && Fine(script, from, clock - 1 - from) && !Good(script, clock - 1)
  }

  /** How many of n statements from `clock` on are sent: those up to the first the server fails. */
  function Sent(script: seq<bool>, clock: nat, n: nat): nat
    decreases n
  {
    if n == 0 then 0 else if !Good(script, clock) then 1 else 1 + Sent(script, clock + 1, n - 1)
  }

  /** `script` marks the statements the server fails; those after it go through. */
  lemma FineIff(script: seq<bool>, clock: nat, n: nat)
    ensures Fine(script, clock, n) <==> forall i :: clock <= i < clock + n && i < |script| ==> script[i] == false
  {
    if forall i :: clock <= i < clock + n && i < |script| ==> script[i] == false {
      forall i: nat | clock <= i < clock + n ensures Good(script, i) {
      }
    }
    if Fine(script, clock, n) {
      forall i | clock <= i < clock + n && i < |script| ensures script[i] == false {
        assert Good(script, i);
      }
    }
  }

  lemma FineMore(script: seq<bool>, from: nat, clock: nat)
    requires from <= clock && Fine(script, from, clock - from) && Good(script, clock)
    ensures Fine(script, from, clock + 1 - from)
  {
  }

  lemma StopsAt(script: seq<bool>, from: nat, clock: nat, n: nat)
    requires from <= clock < from + n && Fine(script, from, clock - from) && !Good(script, clock)
    ensures Stopped(script, from, clock + 1, n)
  {
  }

  lemma {:induction false} StoppedIsSent(script: seq<bool>, from: nat, clock: nat, n: nat)
    requires Stopped(script, from, clock, n)
    ensures Sent(script, from, n) == clock - from && !Fine(script, from, n)
    decreases n
  {
    if clock > from + 1 {
      assert Good(script, from);
      StoppedIsSent(script, from + 1, clock, n - 1);
    }
  }

  lemma {:induction false} SentAll(script: seq<bool>, clock: nat, n: nat)
    requires Fine(script, clock, n)
    ensures Sent(script, clock, n) == n
    decreases n
  {
    if n > 0 {
      SentAll(script, clock + 1, n - 1);
    }
  }

  lemma {:induction false} SentSplit(script: seq<bool>, clock: nat, m: nat, n: nat)
    ensures Sent(script, clock, m + n)
         == if Fine(script, clock, m) then m + Sent(script, clock + m, n) else Sent(script, clock, m)
    ensures Fine(script, clock, m + n) <==> Fine(script, clock, m) && Fine(script, clock + m, n)
    decreases m
  {
    if m > 0 {
      SentSplit(script, clock + 1, m - 1, n);
      assert Fine(script, clock, m) <==> Good(script, clock) && Fine(script, clock + 1, m - 1);
    }
  }

  /** json and dict() take the payloads of all rejects; `Leading` counts those before the first they do not. */
  predicate Recordable(rejects: seq<Rejection>) {
    forall r | r in rejects :: r.payload.Taken?
  }

  function Leading(rejects: seq<Rejection>): (n: nat)
    ensures n <= |rejects| && (n == |rejects| <==> Recordable(rejects))
    ensures forall i :: 0 <= i < n ==> rejects[i].payload.Taken?
    ensures n < |rejects| ==> !rejects[n].payload.Taken?
  {
    if rejects == [] then 0
    else
      assert forall r :: r in rejects <==> r in rejects[..|rejects| - 1] || r == rejects[|rejects| - 1];
      var n := Leading(rejects[..|rejects| - 1]);
      if n < |rejects| - 1 || !rejects[|rejects| - 1].payload.Taken? then n else n + 1
  }

  /** PostgresLoader on its connection.  `script` says which statements the server will fail, counted from
      the first one ever sent; `log` lists every state ever committed.  A failed statement or commit
      aborts the transaction. */
  class PostgresLoader {
    const script: seq<bool>
    const batchSize: int
    var clock: nat
    var committed: Db
    var pending: Db
    var log: seq<Db>

    constructor (db: Db, script: seq<bool>, batchSize: int)
      ensures this.script == script && this.batchSize == batchSize
      ensures clock == 0 && committed == pending == db && log == []
    {
      this.script, this.batchSize := script, batchSize;
      clock, committed, pending, log := 0, db, db, [];
    }

    method Execute() returns (ok: bool)
      modifies `clock, `pending
      ensures clock == old(clock) + 1 && ok == Good(script, old(clock))
      ensures pending == if ok then old(pending) else committed
    {
      ok := Good(script, clock);
      clock := clock + 1;
      if !ok {
        pending := committed;
      }
    }

    method Commit() returns (ok: bool)
      modifies this
      ensures clock == old(clock) + 1 && ok == Good(script, old(clock))
      ensures pending == committed == if ok then old(pending) else old(committed)
      ensures log == if ok then old(log) + [old(pending)] else old(log)
    {
      ok := Execute();
      if ok {
        committed, log := pending, log + [pending];
      }
    }

    method Rollback()
      modifies `pending
      ensures pending == committed
    {
      pending := committed;
    }

    function UpsertStatements(rows: seq<Record>): nat {
      |RowsWritten(rows, batchSize)|
    }

    /** cursor.execute and fetchone of the upsert statement of row i, the first i having been written over db. */
    method ExecuteUpsert(
        spec: Spec, columns: set<string>, row: Record, ghost db: Db, ghost rows: seq<Record>, ghost i: nat)
      returns (returned: Option<Effect>)
      requires spec.table in db.tables && i < |rows| && row == rows[i]
      requires pending == WithRows(db, spec, columns, rows[..i])
      modifies `clock, `pending
      ensures clock == old(clock) + 1 && (returned.Some? <==> Good(script, old(clock)))
      ensures returned.Some? ==>
                && pending == WithRows(db, spec, columns, rows[..i + 1])
                && CountsAfter(db, spec, columns, rows, i + 1)
                     == Tally1(CountsAfter(db, spec, columns, rows, i), returned.value)
    {
      var ok := Execute();
      if !ok {
        return None;
      }
      StatementAppends(db, spec, columns, rows, i);
      returned := Some(EffectOf(pending.tables[spec.table], columns, spec.primaryKey, row));
      pending := AfterStatement(pending, spec, columns, row);
    }

    /** The body of the inner loop: one statement, and the three counters of its chunk. */
    method UpsertOne(
        spec: Spec, columns: set<string>, rows: seq<Record>, ghost start: nat, i: nat, ghost db: Db,
        inserted: nat, updated: nat, affected: nat)
      returns (ok: bool, inserted': nat, updated': nat, affected': nat)
      requires start <= i < |rows| && spec.table in db.tables
      requires pending == WithRows(db, spec, columns, rows[..i])
      requires Counted(db, spec, columns, rows, start, i, inserted, updated, affected)
      modifies `clock, `pending
      ensures clock == old(clock) + 1 && ok == Good(script, old(clock))
      ensures ok ==> pending == WithRows(db, spec, columns, rows[..i + 1])
      ensures ok ==> Counted(db, spec, columns, rows, start, i + 1, inserted', updated', affected')
    {
      inserted', updated', affected' := inserted, updated, affected;
      var returned := ExecuteUpsert(spec, columns, rows[i], db, rows, i);
      ok := returned.Some?;
      if ok {
        CountedStep(db, spec, columns, rows, start, i, inserted, updated, affected, returned.value);
        if returned.value != Unchanged {
          affected' := affected + 1;
          if returned.value == Inserted {
            inserted' := inserted + 1;
          } else {
            updated' := updated + 1;
          }
        }
      }
    }

    /** One chunk of upsert: rows[start..end], after the first `start` rows were written over db. */
    method UpsertChunk(spec: Spec, columns: set<string>, rows: seq<Record>, start: nat, end: nat, ghost db: Db,
                       result: LoadResult)
      returns (r: Result<LoadResult, string>)
      requires start <= end <= |rows| && spec.table in db.tables
      requires pending == WithRows(db, spec, columns, rows[..start])
      requires result == CountsAfter(db, spec, columns, rows, start)
      modifies `clock, `pending
      ensures r.Success? ==> Fine(script, old(clock), end - start) && clock == old(clock) + (end - start)
      ensures r.Failure? ==> Stopped(script, old(clock), clock, end - start)
      ensures r.Success? ==> pending == WithRows(db, spec, columns, rows[..end])
      ensures r.Success? ==> r.value == CountsAfter(db, spec, columns, rows, end)
    {
      var ok, inserted, updated, affected := UpsertRows(
        spec, columns, rows, start, end, db, result.inserted, result.updated, clock);
      if !ok {
        return Failure("statement failed");
      }
      CountedResult(db, spec, columns, rows, start, end, inserted, updated, affected);
      return Success(LoadResult(result.read + (end - start), inserted, updated,
                                result.untouched + (end - start - affected), result.rejected));
    }

    /** Where the loop over a chunk stands before row i; its first statement was number `from`. */
    ghost predicate InChunk(
        spec: Spec, columns: set<string>, rows: seq<Record>, start: nat, i: nat, db: Db,
        inserted: nat, updated: nat, affected: nat, from: nat)
      requires start <= i <= |rows| && spec.table in db.tables
      reads this
    {
      && pending == WithRows(db, spec, columns, rows[..i])
      && Counted(db, spec, columns, rows, start, i, inserted, updated, affected)
      && clock == from + (i - start) && Fine(script, from, i - start)
    }

    /** One row of the chunk from `start` to `end`. */
    method UpsertNext(
        spec: Spec, columns: set<string>, rows: seq<Record>, ghost start: nat, i: nat, ghost end: nat, ghost db: Db,
        inserted: nat, updated: nat, affected: nat, ghost from: nat)
      returns (ok: bool, inserted': nat, updated': nat, affected': nat)
      requires start <= i < end <= |rows| && spec.table in db.tables
      requires InChunk(spec, columns, rows, start, i, db, inserted, updated, affected, from)
      modifies `clock, `pending
      ensures ok ==> InChunk(spec, columns, rows, start, i + 1, db, inserted', updated', affected', from)
      ensures !ok ==> Stopped(script, from, clock, end - start)
    {
      ghost var sent := clock;
      ok, inserted', updated', affected' := UpsertOne(spec, columns, rows, start, i, db, inserted, updated, affected);
      if ok {
        FineMore(script, from, sent);
      } else {
        StopsAt(script, from, sent, end - start);
      }
    }

    /** The loop over the rows of a chunk. */
    method UpsertRows(
        spec: Spec, columns: set<string>, rows: seq<Record>, start: nat, end: nat, ghost db: Db,
        insertedBefore: nat, updatedBefore: nat, ghost from: nat)
      returns (ok: bool, inserted: nat, updated: nat, affected: nat)
      requires start <= end <= |rows| && spec.table in db.tables
      requires InChunk(spec, columns, rows, start, start, db, insertedBefore, updatedBefore, 0, from)
      modifies `clock, `pending
      ensures ok ==> InChunk(spec, columns, rows, start, end, db, inserted, updated, affected, from)
      ensures !ok ==> Stopped(script, from, clock, end - start)
    {
      inserted, updated, affected := insertedBefore, updatedBefore, 0;
      for i := start to end
        invariant InChunk(spec, columns, rows, start, i, db, inserted, updated, affected, from)
      {
        ok, inserted, updated, affected := UpsertNext(
          spec, columns, rows, start, i, end, db, inserted, updated, affected, from);
        if !ok {
          return;
        }
      }
      ok := true;
    }

    /** upsert: chunks of batch_size rows, one statement per row. */
    method Upsert(spec: Spec, rows: seq<Record>) returns (r: Result<LoadResult, string>)
      requires spec.table in pending.tables
      modifies `clock, `pending
      ensures r.Success? ==>
                && (rows == [] || batchSize != 0) && Fine(script, old(clock), UpsertStatements(rows))
                && clock == old(clock) + UpsertStatements(rows)
      ensures r.Failure? ==>
                if rows != [] && batchSize == 0 then clock == old(clock)
                else Stopped(script, old(clock), clock, UpsertStatements(rows))
      ensures r.Success? ==> pending == WithRows(old(pending), spec, Columns(rows), RowsWritten(rows, batchSize))
      ensures r.Success? ==> r.value == LoadCounts(old(pending), spec, rows, batchSize)
    {
      ghost var db := pending;
      assert WithRows(db, spec, Columns(rows), []) == db;
      if rows == [] {
        return Success(NOTHING);
      }
      if batchSize == 0 {
        return Failure("range() arg 3 must not be zero");
      }
      if batchSize < 0 {
        return Success(NOTHING);
      }
      r := UpsertChunks(spec, rows, db);
    }

    /** The loop over chunked(rows, batch_size). */
    method UpsertChunks(spec: Spec, rows: seq<Record>, ghost db: Db) returns (r: Result<LoadResult, string>)
      requires batchSize > 0 && spec.table in db.tables
      requires pending == WithRows(db, spec, Columns(rows), [])
      modifies `clock, `pending
      ensures r.Success? ==> Fine(script, old(clock), |rows|) && clock == old(clock) + |rows|
      ensures r.Failure? ==> Stopped(script, old(clock), clock, |rows|)
      ensures r.Success? ==> pending == WithRows(db, spec, Columns(rows), rows)
      ensures r.Success? ==> r.value == UpsertCounts(db.tables[spec.table], Columns(rows), spec.primaryKey, rows)
    {
      var columns, start := Columns(rows), 0;
      r := Success(NOTHING);
      assert rows[..0] == [];
      while start < |rows|
        invariant 0 <= start <= |rows| && r.Success?
        invariant clock == old(clock) + start && Fine(script, old(clock), start)
        invariant pending == WithRows(db, spec, columns, rows[..start])
        invariant r.value == CountsAfter(db, spec, columns, rows, start)
        decreases |rows| - start
      {
        var end := if start + batchSize < |rows| then start + batchSize else |rows|;
        r := UpsertChunk(spec, columns, rows, start, end, db, r.value);
        if r.Failure? {
          return;
        }
        start := end;
      }
      assert rows[..|rows|] == rows;
    }

    /** record_rejects: one INSERT per reject, whose payload dict() must take. */
    method RecordRejects(spec: Spec, id: string, rejects: seq<Rejection>) returns (r: Result<nat, string>)
      modifies `clock, `pending
      ensures r.Success? ==>
                && Recordable(rejects) && Fine(script, old(clock), |rejects|)
                && clock == old(clock) + |rejects| && r.value == |rejects|
      ensures r.Failure? ==>
                || Stopped(script, old(clock), clock, Leading(rejects))
                || (!Recordable(rejects) && Fine(script, old(clock), Leading(rejects))
                    && clock == old(clock) + Leading(rejects))
      ensures r.Success? ==> pending == WithRejects(old(pending), spec, id, rejects)
    {
      for i := 0 to |rejects|
        invariant i <= Leading(rejects) && clock == old(clock) + i && Fine(script, old(clock), i)
        invariant pending == WithRejects(old(pending), spec, id, rejects[..i])
      {
        if !rejects[i].payload.Taken? {
          return Failure("dict() refuses the payload");
        }
        var ok := Execute();
        if !ok {
          return Failure("statement failed");
        }
        assert rejects[..i + 1][..i] == rejects[..i];
        pending := pending.(rejects := pending.rejects + [RejectRow(id, spec.name, rejects[i])]);
      }
      assert rejects[..|rejects|] == rejects;
      return Success(|rejects|);
    }

    /** record_expectations: one INSERT per result. */
    method RecordExpectations(spec: Spec, id: string, results: seq<ExpectationResult>) returns (ok: bool)
      modifies `clock, `pending
      ensures ok ==> Fine(script, old(clock), |results|) && clock == old(clock) + |results|
      ensures !ok ==> Stopped(script, old(clock), clock, |results|)
      ensures ok ==> pending == WithQuality(old(pending), spec, id, results)
    {
      for i := 0 to |results|
        invariant clock == old(clock) + i && Fine(script, old(clock), i)
        invariant pending == WithQuality(old(pending), spec, id, results[..i])
      {
        ok := Execute();
        if !ok {
          return false;
        }
        assert results[..i + 1][..i] == results[..i];
        pending := pending.(quality := pending.quality + [QualityRow(id, spec.name, results[i])]);
      }
      assert results[..|results|] == results;
      return true;
    }

    method UpdateWatermark(entity: string, cursor: Option<int>, count: nat) returns (ok: bool)
      modifies `clock, `pending
      ensures ok == Good(script, old(clock)) && clock == old(clock) + 1
      ensures ok ==> pending == WithWatermark(old(pending), entity, cursor, count)
    {
      ok := Execute();
      if ok {
        pending := WithWatermark(pending, entity, cursor, count);
      }
    }

    /** start_run: inserts the run row and commits it on its own. */
    method StartRun(spec: Spec, id: string) returns (r: Result<nat, string>)
      requires pending == committed
      modifies this
      ensures r.Success? <==> Fine(script, old(clock), 2)
      ensures clock == old(clock) + Sent(script, old(clock), 2)
      ensures r.Success? ==> r.value == |old(committed).runs|
      ensures committed == pending == if r.Success? then Started(old(committed), spec, id) else old(committed)
      ensures log == if r.Success? then old(log) + [committed] else old(log)
    {
      SentTwo(script, clock);
      var ok := Execute();
      if ok {
        var run := |pending.runs|;
        pending := Started(pending, spec, id);
        ok := Commit();
        if ok {
          return Success(run);
        }
      }
      return Failure("start_run failed");
    }

    method FinishRun(run: nat, status: Status, result: LoadResult, requests: nat, retries: nat, error: Option<string>)
      returns (ok: bool)
      requires run < |pending.runs|
      modifies `clock, `pending
      ensures ok == Good(script, old(clock)) && clock == old(clock) + 1
      ensures pending == if ok then Finished(old(pending), run, status, result, requests, retries, error) else committed
    {
      ok := Execute();
      if ok {
        pending := Finished(pending, run, status, result, requests, retries, error);
      }
    }

    /** table_count: a SELECT, and a commit of whatever is pending. */
    method TableCount() returns (ok: bool)
      requires pending == committed
      modifies this
      ensures ok == Fine(script, old(clock), 2)
      ensures clock == old(clock) + Sent(script, old(clock), 2)
      ensures committed == pending == old(committed)
      ensures log == old(log) || log == old(log) + [committed]
    {
      SentTwo(script, clock);
      ok := Execute();
      if ok {
        ok := Commit();
      }
    }
  }

  lemma SentTwo(script: seq<bool>, clock: nat)
    ensures Sent(script, clock, 2) == if Good(script, clock) then 2 else 1
    ensures Fine(script, clock, 2) <==> Good(script, clock) && Good(script, clock + 1)
  {
    assert Sent(script, clock + 1, 1) == 1;
  }

  lemma SentThree(script: seq<bool>, clock: nat)
    ensures Sent(script, clock, 3)
         == if !Good(script, clock) then 1 else if !Good(script, clock + 1) then 2 else 3
    ensures Fine(script, clock, 3) <==>
              Good(script, clock) && Good(script, clock + 1) && Good(script, clock + 2)
  {
    SentTwo(script, clock + 1);
  }

  /** The counters after the first n rows. */
  function CountsAfter(db: Db, spec: Spec, columns: set<string>, rows: seq<Record>, n: nat): LoadResult
    requires spec.table in db.tables && n <= |rows|
  {
    UpsertCounts(db.tables[spec.table], columns, spec.primaryKey, rows[..n])
  }

  function Tally1(counts: LoadResult, e: Effect): LoadResult {
    Tally(counts.(read := counts.read + 1), e)
  }

  /** The three counters of a chunk that began at row `start`, at row i. */
  ghost predicate Counted(
      db: Db, spec: Spec, columns: set<string>, rows: seq<Record>, start: nat, i: nat,
      inserted: nat, updated: nat, affected: nat)
    requires spec.table in db.tables && start <= i <= |rows|
  {
    var from, counts := CountsAfter(db, spec, columns, rows, start), CountsAfter(db, spec, columns, rows, i);
    && counts.inserted == inserted && counts.updated == updated
    && affected == inserted + updated - from.inserted - from.updated <= i - start
  }

  lemma CountedStep(
      db: Db, spec: Spec, columns: set<string>, rows: seq<Record>, start: nat, i: nat,
      inserted: nat, updated: nat, affected: nat, e: Effect)
    requires spec.table in db.tables && start <= i < |rows|
    requires Counted(db, spec, columns, rows, start, i, inserted, updated, affected)
    requires CountsAfter(db, spec, columns, rows, i + 1) == Tally1(CountsAfter(db, spec, columns, rows, i), e)
    ensures Counted(db, spec, columns, rows, start, i + 1,
                    if e.Inserted? then inserted + 1 else inserted, if e.Updated? then updated + 1 else updated,
                    if e.Unchanged? then affected else affected + 1)
  {
  }

  lemma CountedResult(
      db: Db, spec: Spec, columns: set<string>, rows: seq<Record>, start: nat, end: nat,
      inserted: nat, updated: nat, affected: nat)
    requires spec.table in db.tables && start <= end <= |rows|
    requires Counted(db, spec, columns, rows, start, end, inserted, updated, affected)
    ensures
      var from := CountsAfter(db, spec, columns, rows, start);
      && affected <= end - start
      && CountsAfter(db, spec, columns, rows, end)
           == LoadResult(from.read + (end - start), inserted, updated,
                         from.untouched + (end - start - affected), from.rejected)
  {
    CountsAddUp(db.tables[spec.table], columns, spec.primaryKey, rows[..start]);
    CountsAddUp(db.tables[spec.table], columns, spec.primaryKey, rows[..end]);
  }

  function AfterStatement(db: Db, spec: Spec, columns: set<string>, row: Record): Db
    requires spec.table in db.tables
  {
    var table := db.tables[spec.table];
    var next := UpsertRow(table, columns, spec.primaryKey, row);
    db.(tables := db.tables[spec.table := next],
        wal := db.wal + if EffectOf(table, columns, spec.primaryKey, row).Unchanged? then []
                        else [RowChange(spec.table, Get(row, spec.primaryKey), next[Get(row, spec.primaryKey)])])
  }

  lemma StatementAppends(db: Db, spec: Spec, columns: set<string>, rows: seq<Record>, i: nat)
    requires spec.table in db.tables && i < |rows|
    ensures
      var before := WithRows(db, spec, columns, rows[..i]);
      var effect := EffectOf(before.tables[spec.table], columns, spec.primaryKey, rows[i]);
      && AfterStatement(before, spec, columns, rows[i]) == WithRows(db, spec, columns, rows[..i + 1])
      && CountsAfter(db, spec, columns, rows, i + 1) == Tally1(CountsAfter(db, spec, columns, rows, i), effect)
  {
    assert rows[..i + 1][..i] == rows[..i];
  }

  lemma {:induction false} CountsAddUp(table: Table, columns: set<string>, pk: string, rows: seq<Record>)
    ensures
      var c := UpsertCounts(table, columns, pk, rows);
      c.read == |rows| == c.inserted + c.updated + c.untouched && c.rejected == 0
  {
    if rows != [] {
      CountsAddUp(table, columns, pk, rows[..|rows| - 1]);
    }
  }
}
