/** One entity load as a transaction: run_entity (ingestion/fineract_ingest/pipeline.py) over a connection
    whose server may fail any statement. */
module EntityRun {
  import opened Wrappers
  import opened Validation
  import opened BatchMapping
  import opened Loader
  import opened PostgresConnection

  /** What one entity load is about to write. */
  datatype Batch = Batch(
    id: string, rows: seq<Record>, rejects: seq<Rejection>, results: seq<ExpectationResult>,
    requests: nat, retries: nat)

  function BatchCounts(db: Db, spec: Spec, batch: Batch, batchSize: int): LoadResult
    requires spec.table in db.tables
  {
    LoadCounts(db, spec, batch.rows, batchSize).(rejected := |batch.rejects|)
  }

  /** Rows, rejects and expectation results. */
  function StagedDb(db: Db, spec: Spec, batch: Batch, batchSize: int): Db
    requires spec.table in db.tables
  {
    var d1 := WithRows(db, spec, Columns(batch.rows), RowsWritten(batch.rows, batchSize));
    WithQuality(WithRejects(d1, spec, batch.id, batch.rejects), spec, batch.id, batch.results)
  }

  /** Then watermark and success row. */
  function ClosedDb(db: Db, spec: Spec, run: nat, batch: Batch, result: LoadResult): Db
    requires run < |db.runs|
  {
    Finished(WithWatermark(db, spec.name, Cursor(spec.primaryKey, batch.rows), result.read),
             run, Succeeded, result, batch.requests, batch.retries, None)
  }

  /** The whole unit of work: rows, rejects, expectation results, watermark and success run row. */
  function LandedDb(db: Db, run: nat, spec: Spec, batch: Batch, batchSize: int): Db
    requires spec.table in db.tables && run < |db.runs|
  {
    ClosedDb(StagedDb(db, spec, batch, batchSize), spec, run, batch, BatchCounts(db, spec, batch, batchSize))
  }

  // ---------------------------------------------------------------------------------------------
  // run_entity
  // ---------------------------------------------------------------------------------------------

  /** How a run left the database. */
  datatype Ending =
    | NotStarted
    | LeftRunning
    | MarkedFailed(error: string)
    | MarkedSkipped(batch: Batch)
    | Landed(batch: Batch)
    | LandedMarkedFailed(batch: Batch, error: string)

  /** The committed state a run with this ending leaves, starting from db. */
  function After(db: Db, spec: Spec, id: string, batchSize: int, ending: Ending): Db
    requires spec.table in db.tables
  {
    if ending.NotStarted? then db else AfterStarted(Started(db, spec, id), |db.runs|, spec, batchSize, ending)
  }

  function AfterStarted(started: Db, run: nat, spec: Spec, batchSize: int, ending: Ending): Db
    requires spec.table in started.tables && run < |started.runs|
  {
    match ending
    case NotStarted => started
    case LeftRunning => started
    case MarkedFailed(e) => FailedDb(started, run, e)
    case MarkedSkipped(b) => SkippedDb(started, run, b)
    case Landed(b) => LandedDb(started, run, spec, b, batchSize)
    case LandedMarkedFailed(b, e) => FailedDb(LandedDb(started, run, spec, b, batchSize), run, e)
  }

  function FailedDb(db: Db, run: nat, error: string): Db
    requires run < |db.runs|
  {
    Finished(db, run, Failed, NOTHING, 0, 0, Some(error))
  }

  function SkippedDb(db: Db, run: nat, batch: Batch): Db
    requires run < |db.runs|
  {
    Finished(db, run, Skipped, DryCounts(batch), 0, 0, None)
  }

  function DryCounts(batch: Batch): LoadResult {
    LoadResult(|batch.rows|, 0, 0, 0, |batch.rejects|)
  }

  datatype Outcome = Raised | Returned(status: Status, result: LoadResult)

  /** What the caller of run_entity fixes: the fetched records or the fetch error, the settings, and whether
      the metrics calls raise, after a landed load and in the failure handler. */
  datatype Request = Request(
    id: string, fetched: Result<seq<Raw>, string>, maxRejectRatio: real, dryRun: bool,
    requests: nat, retries: nat, telemetryFails: bool, handlerFails: bool)

  function RejectRatio(rejects: nat, raws: nat): real {
    if raws == 0 then 0.0 else rejects as real / raws as real
  }

  /** The reject-ratio and blocking-expectation gates. */
  predicate GatesPass(batch: Batch, raws: nat, maxRejectRatio: real) {
    && RejectRatio(|batch.rejects|, raws) <= maxRejectRatio
    && forall r | r in batch.results :: !r.IsBlockingFailure()
  }

  /** The batch is what mapping, validation and the expectations make of the raw records. */
  ghost predicate BatchOf(spec: Spec, judge: Judge, request: Request, batch: Batch) {
    && request.fetched.Success?
    && var vs := Verdicts(judge, request.fetched.value);
    && (exists kept :: Survivors(vs, |vs|, kept) && RowsOf(vs, kept, batch.rows))
    && batch.rejects == Rejections(vs, |vs|)
    && batch.results == ResultsOf(spec.expectations, batch.rows)
    && batch.id == request.id && batch.requests == request.requests && batch.retries == request.retries
  }

  /** Statements of the unit before its last three: rows, rejects and results. */
  function StageLength(batch: Batch, batchSize: int): nat {
    |RowsWritten(batch.rows, batchSize)| + |batch.rejects| + |batch.results|
  }

  /** Statements from the first upsert to the commit. */
  function UnitLength(batch: Batch, batchSize: int): nat {
    StageLength(batch, batchSize) + 3
  }

  predicate Stages(batch: Batch, script: seq<bool>, clock: nat, batchSize: int) {
    && (batch.rows == [] || batchSize != 0)
    && Recordable(batch.rejects)
    && Fine(script, clock, StageLength(batch, batchSize))
  }

  /** Whether the unit goes through to its commit. */
  predicate UnitLands(batch: Batch, script: seq<bool>, clock: nat, batchSize: int) {
    Stages(batch, script, clock, batchSize) && Fine(script, clock + StageLength(batch, batchSize), 3)
  }

  function StageSent(batch: Batch, script: seq<bool>, clock: nat, batchSize: int): nat {
    if batch.rows != [] && batchSize == 0 then 0
    else if !Recordable(batch.rejects) then
      Sent(script, clock, |RowsWritten(batch.rows, batchSize)| + Leading(batch.rejects))
    else Sent(script, clock, StageLength(batch, batchSize))
  }

  /** How many statements of the unit are sent. */
  function UnitSent(batch: Batch, script: seq<bool>, clock: nat, batchSize: int): nat {
    if !Stages(batch, script, clock, batchSize) then StageSent(batch, script, clock, batchSize)
    else StageLength(batch, batchSize) + Sent(script, clock + StageLength(batch, batchSize), 3)
  }

  /** Whether the try block gets to the writes at all. */
  predicate Attempted(request: Request, batch: Batch) {
    && request.fetched.Success? && !request.dryRun
    && GatesPass(batch, |request.fetched.value|, request.maxRejectRatio)
  }

  predicate Lands(request: Request, batch: Batch, script: seq<bool>, clock: nat, batchSize: int) {
    Attempted(request, batch) && UnitLands(batch, script, clock, batchSize)
  }

  /** Whether a dry run goes through. */
  predicate Skips(request: Request, batch: Batch, script: seq<bool>, clock: nat) {
    && request.fetched.Success? && request.dryRun
    && GatesPass(batch, |request.fetched.value|, request.maxRejectRatio)
    && Fine(script, clock, 2)
  }

  /** How many statements the try block sends: none if a gate fails, two in a dry run, else the unit and, once that
      is committed, the row count. */
  function TrySent(request: Request, batch: Batch, script: seq<bool>, clock: nat, batchSize: int): nat {
    if !request.fetched.Success? || !GatesPass(batch, |request.fetched.value|, request.maxRejectRatio) then 0
    else if request.dryRun then Sent(script, clock, 2)
    else
      UnitSent(batch, script, clock, batchSize)
      + if UnitLands(batch, script, clock, batchSize)
        then Sent(script, clock + UnitLength(batch, batchSize), 2) else 0
  }

  /** Whether the run goes through to its last statement: two more for the row count, and the metrics. */
  predicate Completes(request: Request, batch: Batch, script: seq<bool>, clock: nat, batchSize: int) {
    && Lands(request, batch, script, clock, batchSize)
    && !request.telemetryFails && Fine(script, clock + UnitLength(batch, batchSize), 2)
  }

  /** How many statements a started run sends: those of the try block and, if that raises, of the handler. */
  function StartedSent(request: Request, batch: Batch, script: seq<bool>, clock: nat, batchSize: int): nat {
    var sent := TrySent(request, batch, script, clock, batchSize);
    if Completes(request, batch, script, clock, batchSize) || Skips(request, batch, script, clock) then sent
    else sent + Sent(script, clock + sent, 2)
  }

  /** How many statements run_entity sends from `clock` on. */
  function RunSent(request: Request, batch: Batch, script: seq<bool>, clock: nat, batchSize: int): nat {
    Sent(script, clock, 2)
    + if Fine(script, clock, 2) then StartedSent(request, batch, script, clock + 2, batchSize) else 0
  }

  /** What the caller of a started run is told. */
  function OutcomeOf(completes: bool, ending: Ending, counts: LoadResult, handlerFails: bool): Outcome {
    if completes then Returned(Succeeded, counts)
    else if ending.MarkedSkipped? then Returned(Skipped, DryCounts(ending.batch))
    else if handlerFails then Raised
    else Returned(Failed, NOTHING)
  }

  /** The stages one after the other: rows to c1, rejects to c2, then the results. */
  lemma StagesSent(batch: Batch, script: seq<bool>, clock: nat, batchSize: int, c1: nat, c2: nat)
    requires c1 == clock + |RowsWritten(batch.rows, batchSize)| && c2 == c1 + |batch.rejects|
    requires batch.rows == [] || batchSize != 0
    ensures
      var rows := |RowsWritten(batch.rows, batchSize)|;
      var sent, stages := StageSent(batch, script, clock, batchSize), Stages(batch, script, clock, batchSize);
      if !Fine(script, clock, rows) then sent == Sent(script, clock, rows) && !stages
      else if !(Recordable(batch.rejects) && Fine(script, c1, |batch.rejects|)) then
        sent == rows + Sent(script, c1, Leading(batch.rejects)) && !stages
      else sent == c2 - clock + Sent(script, c2, |batch.results|) && (stages <==> Fine(script, c2, |batch.results|))
  {
    var rows, rejects, results := |RowsWritten(batch.rows, batchSize)|, |batch.rejects|, |batch.results|;
    if !Recordable(batch.rejects) {
      SentSplit(script, clock, rows, Leading(batch.rejects));
    } else {
      assert StageLength(batch, batchSize) == rows + (rejects + results);
      SentSplit(script, clock, rows, rejects + results);
      SentSplit(script, c1, rejects, results);
    }
  }

  /** The rows, rejects and results of the unit. */
  method StageBatch(loader: PostgresLoader, spec: Spec, batch: Batch) returns (r: Result<LoadResult, string>)
    requires spec.table in loader.pending.tables
    modifies loader`clock, loader`pending
    ensures r.Success? <==> Stages(batch, loader.script, old(loader.clock), loader.batchSize)
    ensures loader.clock == old(loader.clock) + StageSent(batch, loader.script, old(loader.clock), loader.batchSize)
    ensures r.Success? ==> loader.clock == old(loader.clock) + StageLength(batch, loader.batchSize)
    ensures r.Success? ==> loader.pending == StagedDb(old(loader.pending), spec, batch, loader.batchSize)
    ensures r.Success? ==> r.value == BatchCounts(old(loader.pending), spec, batch, loader.batchSize)
  {
    ghost var c0, c1, c2 := loader.clock, 0, 0;
    if batch.rows == [] || loader.batchSize != 0 {
      c1 := c0 + |RowsWritten(batch.rows, loader.batchSize)|;
      c2 := c1 + |batch.rejects|;
      StagesSent(batch, loader.script, c0, loader.batchSize, c1, c2);
    }
    var counts := loader.Upsert(spec, batch.rows);
    if counts.Failure? {
      if batch.rows == [] || loader.batchSize != 0 {
        StoppedIsSent(loader.script, c0, loader.clock, |RowsWritten(batch.rows, loader.batchSize)|);
      }
      return Failure(counts.error);
    }
    var rejected := loader.RecordRejects(spec, batch.id, batch.rejects);
    if rejected.Failure? {
      if Stopped(loader.script, c1, loader.clock, Leading(batch.rejects)) {
        StoppedIsSent(loader.script, c1, loader.clock, Leading(batch.rejects));
      } else {
        SentAll(loader.script, c1, Leading(batch.rejects));
      }
      return Failure(rejected.error);
    }
    var ok := loader.RecordExpectations(spec, batch.id, batch.results);
    if !ok {
      StoppedIsSent(loader.script, c2, loader.clock, |batch.results|);
      return Failure("statement failed");
    }
    SentAll(loader.script, c2, |batch.results|);
    return Success(counts.value.(rejected := rejected.value));
  }

  /** The last three statements: watermark, run row, commit. */
  method CloseBatch(loader: PostgresLoader, spec: Spec, run: nat, batch: Batch, result: LoadResult)
    returns (ok: bool)
    requires run < |loader.pending.runs|
    modifies loader
    ensures ok == Fine(loader.script, old(loader.clock), 3)
    ensures loader.clock == old(loader.clock) + Sent(loader.script, old(loader.clock), 3)
    ensures ok ==> loader.clock == old(loader.clock) + 3
    ensures ok ==>
              && loader.pending == loader.committed
                   == ClosedDb(old(loader.pending), spec, run, batch, result)
              && loader.log == old(loader.log) + [loader.committed]
    ensures !ok ==> loader.committed == old(loader.committed) && loader.log == old(loader.log)
  {
    SentThree(loader.script, loader.clock);
    ok := loader.UpdateWatermark(spec.name, Cursor(spec.primaryKey, batch.rows), result.read);
    if ok {
      ok := loader.FinishRun(run, Succeeded, result, batch.requests, batch.retries, None);
      if ok {
        ok := loader.Commit();
      }
    }
  }

  /** The single atomic unit of work, up to and including its commit. */
  method LandBatch(loader: PostgresLoader, spec: Spec, run: nat, batch: Batch) returns (r: Result<LoadResult, string>)
    requires loader.pending == loader.committed && spec.table in loader.committed.tables
    requires run < |loader.committed.runs|
    modifies loader
    ensures r.Success? <==> UnitLands(batch, loader.script, old(loader.clock), loader.batchSize)
    ensures loader.clock == old(loader.clock) + UnitSent(batch, loader.script, old(loader.clock), loader.batchSize)
    ensures r.Success? ==>
              && loader.clock == old(loader.clock) + UnitLength(batch, loader.batchSize)
              && loader.pending == loader.committed
                   == LandedDb(old(loader.committed), run, spec, batch, loader.batchSize)
              && loader.log == old(loader.log) + [loader.committed]
              && r.value == BatchCounts(old(loader.committed), spec, batch, loader.batchSize)
    ensures r.Failure? ==> loader.committed == old(loader.committed) && loader.log == old(loader.log)
  {
    r := StageBatch(loader, spec, batch);
    if r.Success? {
      var ok := CloseBatch(loader, spec, run, batch, r.value);
      if !ok {
        return Failure("statement failed");
      }
    }
  }

  /** The log grew by states that are all x or y. */
  ghost predicate Committed(before: seq<Db>, after: seq<Db>, x: Db, y: Db) {
    && before <= after
    && forall j :: |before| <= j < |after| ==> after[j] == x || after[j] == y
  }

  lemma CommitOne(before: seq<Db>, after: seq<Db>, x: Db, y: Db)
    requires Committed(before, after, x, x)
    ensures Committed(before, after + [y], x, y)
  {
    forall j | |before| <= j < |after + [y]| ensures (after + [y])[j] == x || (after + [y])[j] == y {
      if j < |after| {
        assert (after + [y])[j] == after[j];
      }
    }
  }

  /** The except branch: roll back, record the failure if the server lets us, swallow it if not. */
  method RecordFailure(loader: PostgresLoader, run: nat, error: string) returns (recorded: bool)
    requires run < |loader.committed.runs|
    modifies loader
    ensures recorded == Fine(loader.script, old(loader.clock), 2)
    ensures loader.clock == old(loader.clock) + Sent(loader.script, old(loader.clock), 2)
    ensures loader.pending == loader.committed
    ensures loader.committed ==
              if recorded then FailedDb(old(loader.committed), run, error) else old(loader.committed)
    ensures loader.log == if recorded then old(loader.log) + [loader.committed] else old(loader.log)
  {
    SentTwo(loader.script, loader.clock);
    loader.Rollback();
    recorded := loader.FinishRun(run, Failed, NOTHING, 0, 0, Some(error));
    if recorded {
      recorded := loader.Commit();
    }
    if !recorded {
      loader.Rollback();
    }
  }

  /** Mapping, validation and expectations. */
  method PrepareBatch(spec: Spec, judge: Judge, request: Request) returns (batch: Batch)
    requires request.fetched.Success? && KeepsKeys(spec.primaryKey, judge)
    ensures BatchOf(spec, judge, request, batch)
  {
    var rows, rejects, kept := Accumulate(spec.primaryKey, judge, request.fetched.value);
    var results := EvaluateExpectations(spec.expectations, rows);
    batch := Batch(request.id, rows, rejects, results, request.requests, request.retries);
  }

  /** The dry run: nothing is written but the run row. */
  method SkipBatch(loader: PostgresLoader, run: nat, batch: Batch) returns (ok: bool)
    requires loader.pending == loader.committed && run < |loader.committed.runs|
    modifies loader
    ensures ok == Fine(loader.script, old(loader.clock), 2)
    ensures loader.clock == old(loader.clock) + Sent(loader.script, old(loader.clock), 2)
    ensures loader.pending == loader.committed
    ensures loader.committed ==
              if ok then SkippedDb(old(loader.committed), run, batch) else old(loader.committed)
    ensures loader.log == if ok then old(loader.log) + [loader.committed] else old(loader.log)
  {
    SentTwo(loader.script, loader.clock);
    loader.Rollback();
    ok := loader.FinishRun(run, Skipped, DryCounts(batch), 0, 0, None);
    if ok {
      ok := loader.Commit();
    }
  }

  /** What the try block promises, on values: from `started` at statement `clock` with log `before`, to `now` at
      statement `clock'` with log `after`. */
  ghost predicate Tried(
      spec: Spec, run: nat, request: Request, batch: Batch, script: seq<bool>, batchSize: int, started: Db, clock: nat,
      before: seq<Db>, r: Result<LoadResult, string>, status: Status, landed: bool, now: Db, clock': nat,
      after: seq<Db>)
    requires spec.table in started.tables && run < |started.runs|
  {
    && (landed <==> Lands(request, batch, script, clock, batchSize))
    && clock' == clock + TrySent(request, batch, script, clock, batchSize)
    && (r.Success? && !landed <==> Skips(request, batch, script, clock))
    && (r.Success? && landed <==> Completes(request, batch, script, clock, batchSize))
    && now == (if landed then LandedDb(started, run, spec, batch, batchSize)
               else if r.Success? then SkippedDb(started, run, batch)
               else started)
    && (r.Success? ==> status == if landed then Succeeded else Skipped)
    && (r.Success? ==>
          r.value == if landed then BatchCounts(started, spec, batch, batchSize) else DryCounts(batch))
    && Committed(before, after, now, now)
    && (!landed && r.Failure? ==> after == before)
  }

  /** The try block once records are mapped. */
  method TryLoad(loader: PostgresLoader, spec: Spec, run: nat, request: Request, batch: Batch)
    returns (r: Result<LoadResult, string>, status: Status, ghost landed: bool)
    requires loader.pending == loader.committed && spec.table in loader.committed.tables
    requires run < |loader.committed.runs| && request.fetched.Success?
    modifies loader
    ensures r.Success? ==> loader.pending == loader.committed
    ensures Tried(spec, run, request, batch, loader.script, loader.batchSize, old(loader.committed), old(loader.clock),
                  old(loader.log), r, status, landed, loader.committed, loader.clock, loader.log)
  {
    if RejectRatio(|batch.rejects|, |request.fetched.value|) > request.maxRejectRatio {
      return Failure("reject ratio exceeds threshold"), Failed, false;
    }
    if exists x | x in batch.results :: x.IsBlockingFailure() {
      return Failure("blocking data-quality failures"), Failed, false;
    }
    if request.dryRun {
      var ok := SkipBatch(loader, run, batch);
      r := if ok then Success(DryCounts(batch)) else Failure("statement failed");
      return r, Skipped, false;
    }
    r, landed := TryWrite(loader, spec, run, request, batch);
    status := Succeeded;
  }

  /** The writes, once the gates have passed.  The last statements, the row count and the metrics, come after the
      commit: they can still raise when everything has landed. */
  method TryWrite(loader: PostgresLoader, spec: Spec, run: nat, request: Request, batch: Batch)
    returns (r: Result<LoadResult, string>, ghost landed: bool)
    requires loader.pending == loader.committed && spec.table in loader.committed.tables
    requires run < |loader.committed.runs| && Attempted(request, batch)
    modifies loader
    ensures r.Success? ==> loader.pending == loader.committed
    ensures Tried(spec, run, request, batch, loader.script, loader.batchSize, old(loader.committed), old(loader.clock),
                  old(loader.log), r, Succeeded, landed, loader.committed, loader.clock, loader.log)
  {
    ghost var started, clock, before := loader.committed, loader.clock, loader.log;
    r := LandBatch(loader, spec, run, batch);
    if r.Failure? {
      return r, false;
    }
    var counted := loader.TableCount();
    if !counted || request.telemetryFails {
      r := Failure("failed after the commit");
    }
    TriedAfterCommit(spec, run, request, batch, loader.script, loader.batchSize, started, clock, before, r,
                     loader.clock, loader.log);
    return r, true;
  }

  lemma TriedAfterCommit(
      spec: Spec, run: nat, request: Request, batch: Batch, script: seq<bool>, batchSize: int, started: Db, clock: nat,
      before: seq<Db>, r: Result<LoadResult, string>, clock': nat, after: seq<Db>)
    requires spec.table in started.tables && run < |started.runs|
    requires Attempted(request, batch) && UnitLands(batch, script, clock, batchSize)
    requires r.Success? <==> Fine(script, clock + UnitLength(batch, batchSize), 2) && !request.telemetryFails
    requires r.Success? ==> r.value == BatchCounts(started, spec, batch, batchSize)
    requires clock' == clock + UnitLength(batch, batchSize) + Sent(script, clock + UnitLength(batch, batchSize), 2)
    requires
      var landed := LandedDb(started, run, spec, batch, batchSize);
      after == before + [landed] || after == before + [landed] + [landed]
    ensures Tried(spec, run, request, batch, script, batchSize, started, clock, before, r, Succeeded, true,
                  LandedDb(started, run, spec, batch, batchSize), clock', after)
  {
    SentAll(script, clock + StageLength(batch, batchSize), 3);
    assert TrySent(request, batch, script, clock, batchSize) == clock' - clock;
  }

  predicate HasLanded(ending: Ending) {
    ending.Landed? || ending.LandedMarkedFailed?
  }

  /** When each ending comes about.  The handler's two statements follow those of the try block; a run lands and is
      then marked failed exactly when its unit goes through, something after it raises, and the server takes
      both of them. */
  predicate Ends(ending: Ending, request: Request, batch: Batch, script: seq<bool>, clock: nat, batchSize: int) {
    var handled := Fine(script, clock + TrySent(request, batch, script, clock, batchSize), 2);
    if Completes(request, batch, script, clock, batchSize) then ending.Landed?
    else if Lands(request, batch, script, clock, batchSize) then
      if handled then ending.LandedMarkedFailed? else ending.Landed?
    else if Skips(request, batch, script, clock) then ending.MarkedSkipped?
    else if handled then ending.MarkedFailed? else ending.LeftRunning?
  }

  /** Everything a started run promises, on values: from `started` at statement `clock` with log `before`, to `now`
      at statement `clock'` with log `after`. */
  ghost predicate RunsAs(
      spec: Spec, judge: Judge, request: Request, run: nat, script: seq<bool>, batchSize: int, started: Db, clock: nat,
      before: seq<Db>, out: Outcome, batch: Batch, ending: Ending, now: Db, clock': nat, after: seq<Db>)
    requires spec.table in started.tables && run < |started.runs|
  {
    && (request.fetched.Success? ==> BatchOf(spec, judge, request, batch))
    && clock' == clock + StartedSent(request, batch, script, clock, batchSize)
    && Ends(ending, request, batch, script, clock, batchSize)
    && (HasLanded(ending) || ending.MarkedSkipped? ==> ending.batch == batch)
    && now == AfterStarted(started, run, spec, batchSize, ending)
    && out == OutcomeOf(Completes(request, batch, script, clock, batchSize), ending,
                        BatchCounts(started, spec, batch, batchSize), request.handlerFails)
    && Committed(before, after, now,
                 if HasLanded(ending) then LandedDb(started, run, spec, batch, batchSize) else now)
  }

  /** The except branch as a whole, over the state the try block left: `landed` or not, from `started`. */
  method HandleFailure(
      loader: PostgresLoader, spec: Spec, run: nat, request: Request, ghost batch: Batch, error: string,
      ghost landed: bool, ghost started: Db, ghost before: seq<Db>)
    returns (out: Outcome, ghost ending: Ending)
    requires spec.table in started.tables && run < |started.runs|
    requires loader.committed == if landed then LandedDb(started, run, spec, batch, loader.batchSize) else started
    requires Committed(before, loader.log, loader.committed, loader.committed)
    requires !landed ==> loader.log == before
    modifies loader
    ensures loader.pending == loader.committed == AfterStarted(started, run, spec, loader.batchSize, ending)
    ensures loader.clock == old(loader.clock) + Sent(loader.script, old(loader.clock), 2)
    ensures if Fine(loader.script, old(loader.clock), 2)
            then (if landed then ending == LandedMarkedFailed(batch, error) else ending == MarkedFailed(error))
            else (if landed then ending == Landed(batch) else ending == LeftRunning)
    ensures out == if request.handlerFails then Raised else Returned(Failed, NOTHING)
    ensures Committed(before, loader.log, loader.committed,
                      if landed then LandedDb(started, run, spec, batch, loader.batchSize) else loader.committed)
  {
    ghost var tried, written := loader.log, loader.committed;
    var recorded := RecordFailure(loader, run, error);
    CommitOne(before, tried, written, loader.committed);
    ending := if landed then (if recorded then LandedMarkedFailed(batch, error) else Landed(batch))
              else if recorded then MarkedFailed(error) else LeftRunning;
    out := if request.handlerFails then Raised else Returned(Failed, NOTHING);
  }

  /** run_entity after start_run: the try statement and its handler. */
  method RunStarted(loader: PostgresLoader, spec: Spec, run: nat, judge: Judge, request: Request)
    returns (out: Outcome, ghost batch: Batch, ghost ending: Ending)
    requires loader.pending == loader.committed && spec.table in loader.committed.tables
    requires run < |loader.committed.runs| && KeepsKeys(spec.primaryKey, judge)
    modifies loader
    ensures loader.pending == loader.committed
    ensures RunsAs(spec, judge, request, run, loader.script, loader.batchSize, old(loader.committed),
                   old(loader.clock), old(loader.log), out, batch, ending, loader.committed, loader.clock, loader.log)
  {
    var r, status, tried;
    ghost var landed;
    r, status, tried, landed := TryBlock(loader, spec, run, judge, request);
    batch := tried;
    if r.Success? {
      ending := if landed then Landed(batch) else MarkedSkipped(batch);
      out := Returned(status, r.value);
      WentThrough(spec, judge, request, run, loader.script, loader.batchSize, old(loader.committed),
                  old(loader.clock), old(loader.log), r, status, landed, out, batch, ending,
                  loader.committed, loader.clock, loader.log);
    } else {
      out, ending := HandleFailure(
        loader, spec, run, request, batch, r.error, landed, old(loader.committed), old(loader.log));
      FellThrough(spec, judge, request, run, loader.script, loader.batchSize, old(loader.committed), old(loader.clock),
                  old(loader.log), landed, out, batch, ending, loader.committed, loader.clock, loader.log);
    }
  }

  /** The try block: the fetch, which may have failed, and what is done with the records. */
  method TryBlock(loader: PostgresLoader, spec: Spec, run: nat, judge: Judge, request: Request)
    returns (r: Result<LoadResult, string>, status: Status, batch: Batch, ghost landed: bool)
    requires loader.pending == loader.committed && spec.table in loader.committed.tables
    requires run < |loader.committed.runs| && KeepsKeys(spec.primaryKey, judge)
    modifies loader
    ensures r.Success? ==> request.fetched.Success? && loader.pending == loader.committed
    ensures request.fetched.Success? ==> BatchOf(spec, judge, request, batch)
    ensures Tried(spec, run, request, batch, loader.script, loader.batchSize, old(loader.committed), old(loader.clock),
                  old(loader.log), r, status, landed, loader.committed, loader.clock, loader.log)
  {
    if request.fetched.Failure? {
      batch := Batch(request.id, [], [], [], request.requests, request.retries);
      return Failure(request.fetched.error), Failed, batch, false;
    }
    batch := PrepareBatch(spec, judge, request);
    r, status, landed := TryLoad(loader, spec, run, request, batch);
  }

  lemma FellThrough(
      spec: Spec, judge: Judge, request: Request, run: nat, script: seq<bool>, batchSize: int, started: Db, clock: nat,
      before: seq<Db>, landed: bool, out: Outcome, batch: Batch, ending: Ending, now: Db, clock': nat,
      after: seq<Db>)
    requires spec.table in started.tables && run < |started.runs|
    requires request.fetched.Success? ==> BatchOf(spec, judge, request, batch)
    requires !Completes(request, batch, script, clock, batchSize) && !Skips(request, batch, script, clock)
    requires landed <==> Lands(request, batch, script, clock, batchSize)
    requires
      var sent := TrySent(request, batch, script, clock, batchSize);
      && clock' == clock + sent + Sent(script, clock + sent, 2)
      && if Fine(script, clock + sent, 2)
         then (if landed then ending.LandedMarkedFailed? && ending.batch == batch else ending.MarkedFailed?)
         else (if landed then ending == Landed(batch) else ending == LeftRunning)
    requires now == AfterStarted(started, run, spec, batchSize, ending)
    requires out == if request.handlerFails then Raised else Returned(Failed, NOTHING)
    requires Committed(before, after, now, if landed then LandedDb(started, run, spec, batch, batchSize) else now)
    ensures RunsAs(spec, judge, request, run, script, batchSize, started, clock, before, out, batch, ending, now,
                   clock', after)
  {
  }

  lemma WentThrough(
      spec: Spec, judge: Judge, request: Request, run: nat, script: seq<bool>, batchSize: int, started: Db, clock: nat,
      before: seq<Db>, r: Result<LoadResult, string>, status: Status, landed: bool, out: Outcome, batch: Batch,
      ending: Ending, now: Db, clock': nat, after: seq<Db>)
    requires spec.table in started.tables && run < |started.runs| && BatchOf(spec, judge, request, batch)
    requires Tried(spec, run, request, batch, script, batchSize, started, clock, before, r, status, landed,
                   now, clock', after)
    requires r.Success? && out == Returned(status, r.value)
    requires ending == if landed then Landed(batch) else MarkedSkipped(batch)
    ensures RunsAs(spec, judge, request, run, script, batchSize, started, clock, before, out, batch, ending, now,
                   clock', after)
  {
  }

  /** Everything run_entity promises, on values: from `start` at statement `clock` with log `before`, to `now` at
      statement `clock'` with log `after`. */
  ghost predicate EntityRan(
      spec: Spec, judge: Judge, request: Request, script: seq<bool>, batchSize: int, start: Db, clock: nat,
      before: seq<Db>, out: Outcome, batch: Batch, ending: Ending, now: Db, clock': nat, after: seq<Db>)
    requires spec.table in start.tables
  {
    && now == After(start, spec, request.id, batchSize, ending)
    && clock' == clock + RunSent(request, batch, script, clock, batchSize)
    && (ending.NotStarted? <==> !Fine(script, clock, 2))
    && (ending.NotStarted? ==> out == Raised && after == before)
    && (!ending.NotStarted? ==>
          var started := Started(start, spec, request.id);
          RunsAs(spec, judge, request, |start.runs|, script, batchSize, started, clock + 2, before + [started],
                 out, batch, ending, now, clock', after))
  }

  /** run_entity.  Whatever statements fail, the committed database is that of one of the six endings, each of
      which comes about exactly as Ends says, after exactly RunSent statements; every state committed on the way is
      the bare run row, the landed unit, or the final state, so a crash leaves one of these, or the database as
      it was; and the caller is told of success exactly when the unit, the two later statements and the metrics
      go through, and gets an exception exactly when the run could not start or the failure handler raises. */
  method RunEntity(loader: PostgresLoader, spec: Spec, judge: Judge, request: Request)
    returns (out: Outcome, ghost batch: Batch, ghost ending: Ending)
    requires loader.pending == loader.committed && spec.table in loader.committed.tables
    requires KeepsKeys(spec.primaryKey, judge)
    modifies loader
    ensures loader.pending == loader.committed
    ensures EntityRan(spec, judge, request, loader.script, loader.batchSize, old(loader.committed), old(loader.clock),
                      old(loader.log), out, batch, ending, loader.committed, loader.clock, loader.log)
  {
    SentTwo(loader.script, loader.clock);
    var run := loader.StartRun(spec, request.id);
    if run.Failure? {
      batch := Batch(request.id, [], [], [], request.requests, request.retries);
      NotStartedRan(spec, judge, request, loader.script, loader.batchSize, old(loader.committed), old(loader.clock),
                    old(loader.log), batch);
      return Raised, batch, NotStarted;
    }
    out, batch, ending := RunOnceStarted(
      loader, spec, run.value, judge, request, old(loader.committed), old(loader.clock), old(loader.log));
  }

  /** The rest of run_entity, seen from where it began: `start` at statement `clock` with log `before`. */
  method RunOnceStarted(
      loader: PostgresLoader, spec: Spec, run: nat, judge: Judge, request: Request,
      ghost start: Db, ghost clock: nat, ghost before: seq<Db>)
    returns (out: Outcome, ghost batch: Batch, ghost ending: Ending)
    requires spec.table in start.tables && KeepsKeys(spec.primaryKey, judge)
    requires run == |start.runs| && Fine(loader.script, clock, 2) && loader.clock == clock + 2
    requires loader.pending == loader.committed == Started(start, spec, request.id)
    requires loader.log == before + [loader.committed]
    modifies loader
    ensures loader.pending == loader.committed
    ensures EntityRan(spec, judge, request, loader.script, loader.batchSize, start, clock, before, out, batch, ending,
                      loader.committed, loader.clock, loader.log)
  {
    out, batch, ending := RunStarted(loader, spec, run, judge, request);
    StartedRan(spec, judge, request, loader.script, loader.batchSize, start, clock, before, out, batch, ending,
               loader.committed, loader.clock, loader.log);
  }

  lemma NotStartedRan(
      spec: Spec, judge: Judge, request: Request, script: seq<bool>, batchSize: int, start: Db, clock: nat,
      before: seq<Db>, batch: Batch)
    requires spec.table in start.tables && !Fine(script, clock, 2)
    ensures EntityRan(spec, judge, request, script, batchSize, start, clock, before, Raised, batch, NotStarted, start,
                      clock + Sent(script, clock, 2), before)
  {
  }

  lemma StartedRan(
      spec: Spec, judge: Judge, request: Request, script: seq<bool>, batchSize: int, start: Db, clock: nat,
      before: seq<Db>, out: Outcome, batch: Batch, ending: Ending, now: Db, clock': nat, after: seq<Db>)
    requires spec.table in start.tables && Fine(script, clock, 2)
    requires
      var started := Started(start, spec, request.id);
      RunsAs(spec, judge, request, |start.runs|, script, batchSize, started, clock + 2, before + [started],
             out, batch, ending, now, clock', after)
    ensures EntityRan(spec, judge, request, script, batchSize, start, clock, before, out, batch, ending, now,
                      clock', after)
  {
    SentTwo(script, clock);
  }

  // ---------------------------------------------------------------------------------------------
  // Landed, and marked failed
  // ---------------------------------------------------------------------------------------------

  /** A landed run is marked failed exactly when the row count or the metrics raise and the server takes the two
      statements of the handler. */
  lemma MarkedFailedAfterLandingIff(
      ending: Ending, request: Request, batch: Batch, script: seq<bool>, clock: nat, batchSize: int)
    requires Ends(ending, request, batch, script, clock, batchSize)
    ensures ending.LandedMarkedFailed? <==>
              var after := clock + UnitLength(batch, batchSize);
              && Lands(request, batch, script, clock, batchSize)
              && (request.telemetryFails || !Fine(script, after, 2))
              && Fine(script, after + Sent(script, after, 2), 2)
    ensures HasLanded(ending) <==> Lands(request, batch, script, clock, batchSize)
  {
    if Lands(request, batch, script, clock, batchSize) {
      SentAll(script, clock + StageLength(batch, batchSize), 3);
      assert TrySent(request, batch, script, clock, batchSize)
          == UnitLength(batch, batchSize) + Sent(script, clock + UnitLength(batch, batchSize), 2);
    }
  }

  /** A run that did not land stays `running` exactly when the server fails one of the handler's statements as well,
      and a dry run did not go through. */
  lemma LeftRunningIff(ending: Ending, request: Request, batch: Batch, script: seq<bool>, clock: nat, batchSize: int)
    requires Ends(ending, request, batch, script, clock, batchSize)
    ensures ending.LeftRunning? <==>
              && !Lands(request, batch, script, clock, batchSize) && !Skips(request, batch, script, clock)
              && !Fine(script, clock + TrySent(request, batch, script, clock, batchSize), 2)
    ensures ending.MarkedFailed? <==>
              && !Lands(request, batch, script, clock, batchSize) && !Skips(request, batch, script, clock)
              && Fine(script, clock + TrySent(request, batch, script, clock, batchSize), 2)
  {
  }

  // ---------------------------------------------------------------------------------------------
  // The gates, in terms of the records and the rows
  // ---------------------------------------------------------------------------------------------

  /** What a batch must satisfy to be written: the rows meet every expectation declared an error, and the rejects are
      at most the given share of the raw records.  Expectations declared a warning have no say. */
  ghost predicate Acceptable(spec: Spec, request: Request, batch: Batch)
    requires request.fetched.Success?
  {
    && (forall e :: e in spec.expectations && e.severity == Error ==> Meets(e, batch.rows))
    && if request.fetched.value == [] then 0.0 <= request.maxRejectRatio
       else |batch.rejects| as real <= request.maxRejectRatio * |request.fetched.value| as real
  }

  lemma ShareIff(rejects: nat, raws: nat, share: real)
    requires raws > 0
    ensures RejectRatio(rejects, raws) <= share <==> rejects as real <= share * raws as real
  {
    var r, n := rejects as real, raws as real;
    assert (r / n) * n == r;
    if r / n <= share {
      MulLe(r / n, share, n);
    }
    if r / n > share {
      MulLt(share, r / n, n);
    }
  }

  lemma MulLe(a: real, b: real, c: real)
    requires a <= b && c >= 0.0
    ensures a * c <= b * c
  {
  }

  lemma MulLt(a: real, b: real, c: real)
    requires a < b && c > 0.0
    ensures a * c < b * c
  {
  }

  lemma BlockingIff(spec: Spec, batch: Batch)
    requires batch.results == ResultsOf(spec.expectations, batch.rows)
    ensures (forall r :: r in batch.results ==> !r.IsBlockingFailure()) <==>
              forall e :: e in spec.expectations && e.severity == Error ==> Meets(e, batch.rows)
  {
    var es := spec.expectations;
    forall i | 0 <= i < |es|
      ensures batch.results[i].IsBlockingFailure() <==> es[i].severity == Error && !Meets(es[i], batch.rows)
    {
      PassesIffMet(es[i], batch.rows);
    }
    if forall r :: r in batch.results ==> !r.IsBlockingFailure() {
      forall e | e in es && e.severity == Error ensures Meets(e, batch.rows) {
        var i :| 0 <= i < |es| && es[i] == e;
        assert batch.results[i] in batch.results;
      }
    }
  }

  lemma GatesAreAcceptable(spec: Spec, judge: Judge, request: Request, batch: Batch)
    requires BatchOf(spec, judge, request, batch)
    ensures GatesPass(batch, |request.fetched.value|, request.maxRejectRatio) <==> Acceptable(spec, request, batch)
  {
    BlockingIff(spec, batch);
    if request.fetched.value != [] {
      ShareIff(|batch.rejects|, |request.fetched.value|, request.maxRejectRatio);
    }
  }

  /** What a run writes: its batch lands, or a dry run is marked skipped, only if the batch is acceptable; and does
      exactly when moreover the statements of the unit, or the two of the dry run, go through. */
  lemma WritesIffAcceptable(
      spec: Spec, judge: Judge, request: Request, batch: Batch, script: seq<bool>, clock: nat, batchSize: int,
      ending: Ending)
    requires BatchOf(spec, judge, request, batch) && Ends(ending, request, batch, script, clock, batchSize)
    ensures HasLanded(ending) <==>
              !request.dryRun && Acceptable(spec, request, batch) && UnitLands(batch, script, clock, batchSize)
    ensures ending.MarkedSkipped? <==>
              request.dryRun && Acceptable(spec, request, batch) && Fine(script, clock, 2)
  {
    GatesAreAcceptable(spec, judge, request, batch);
  }

  /** What the caller is told: success with the counts exactly when the load went through to its last statement, a
      dry run's counts exactly when it was marked skipped; of any other run it is told failure with zero
      counts, unless the handler's metrics raise: then an exception reaches it. */
  lemma ToldIff(
      spec: Spec, judge: Judge, request: Request, run: nat, script: seq<bool>, batchSize: int, started: Db, clock: nat,
      before: seq<Db>, out: Outcome, batch: Batch, ending: Ending, now: Db, clock': nat, after: seq<Db>)
    requires spec.table in started.tables && run < |started.runs|
    requires RunsAs(spec, judge, request, run, script, batchSize, started, clock, before, out, batch, ending, now,
                    clock', after)
    ensures
      var completes := Completes(request, batch, script, clock, batchSize);
      && (completes ==>
            out == Returned(Succeeded, BatchCounts(started, spec, batch, batchSize)) && ending == Landed(batch))
      && (ending.MarkedSkipped? ==>
            out == Returned(Skipped, LoadResult(|batch.rows|, 0, 0, 0, |batch.rejects|)))
      && (!completes && !ending.MarkedSkipped? ==>
            out == if request.handlerFails then Raised else Returned(Failed, LoadResult(0, 0, 0, 0, 0)))
  {
  }

  // ---------------------------------------------------------------------------------------------
  // Witnesses
  // ---------------------------------------------------------------------------------------------

  lemma NothingFails(clock: nat, n: nat)
    ensures Fine([], clock, n)
    decreases n
  {
    if n > 0 {
      NothingFails(clock + 1, n - 1);
    }
  }

  const ONE_ROW: Record := map["id" := Int(1), HASH := Text("h")]

  function LandsOneRow(raw: Raw): Verdict {
    Land(Int(1), ONE_ROW)
  }

  /** One such run: a single record, a server that fails nothing, and a metrics call that raises.  Its batch is the
      one row, and the only ending it can have is landed and marked failed. */
  lemma MetricsFailureDisownsLoad(spec: Spec, clock: nat) returns (request: Request, batch: Batch)
    requires spec.expectations == []
    ensures BatchOf(spec, LandsOneRow, request, batch) && batch.rows == [ONE_ROW]
    ensures forall ending :: Ends(ending, request, batch, [], clock, 500) ==> ending.LandedMarkedFailed?
    ensures Ends(LandedMarkedFailed(batch, "failed after the commit"), request, batch, [], clock, 500)
  {
    request := Request("b", Success([Taken("{}")]), 0.0, false, 1, 0, true, false);
    batch := Batch("b", [ONE_ROW], [], [], 1, 0);
    var vs := Verdicts(LandsOneRow, [Taken("{}")]);
    assert Survivors(vs, 1, [0]) by {
      assert LastOfKey(vs, 1, 0);
    }
    assert RowsOf(vs, [0], [ONE_ROW]);
    assert Rejections(vs, 1) == [];
    assert |ResultsOf(spec.expectations, batch.rows)| == 0;
    NothingFails(clock, StageLength(batch, 500));
    NothingFails(clock + StageLength(batch, 500), 3);
    var after := clock + UnitLength(batch, 500);
    NothingFails(after, 2);
    NothingFails(after + Sent([], after, 2), 2);
    assert Lands(request, batch, [], clock, 500);
    SentAll([], clock + StageLength(batch, 500), 3);
    forall ending | Ends(ending, request, batch, [], clock, 500) ensures ending.LandedMarkedFailed? {
      MarkedFailedAfterLandingIff(ending, request, batch, [], clock, 500);
    }
  }
}
