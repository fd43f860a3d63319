/** From the API's listing to the landing table and on to the raw table: crawl, mapping, load and replication put
    together. */
module EndToEnd {
  import opened Wrappers
  import opened Validation
  import opened BatchMapping
  import opened Loader
  import opened Paging
  import opened Fetching
  import opened PostgresConnection
  import opened EntityRun
  import opened RunHistory
  import opened Replication
  import opened WalReplication

  /** What the table holds for a key once a batch has landed: the hash of the last fetched record of the key. */
  ghost predicate StoredAs(
      table: Table, judge: Judge, raws: seq<Raw>, key: Value, j: nat)
  {
    && j < |raws| && judge(raws[j]).Land? && judge(raws[j]).key == key
    && (forall m: nat :: j < m < |raws| && judge(raws[m]).Land? ==> judge(raws[m]).key != key)
    && key in table && Get(table[key], HASH) == Get(judge(raws[j]).row, HASH)
  }

  /** The last fetched record of a landing record's key, and its row in the batch. */
  lemma LastOfItsKey(spec: Spec, mapper: Mapper, digest: Digest, request: Request, batch: Batch, i: nat)
    returns (j: nat, p: nat)
    requires !Private(spec.primaryKey)
    requires BatchOf(spec, JudgeOf(spec.primaryKey, mapper, digest), request, batch)
    requires i < |request.fetched.value|
    requires JudgeRecord(spec.primaryKey, mapper, digest, request.fetched.value[i]).Land?
    ensures
      var judge, raws := JudgeOf(spec.primaryKey, mapper, digest), request.fetched.value;
      && i <= j < |raws| && judge(raws[j]).Land? && judge(raws[j]).key == judge(raws[i]).key
      && (forall m: nat :: j < m < |raws| && judge(raws[m]).Land? ==> judge(raws[m]).key != judge(raws[i]).key)
      && p < |batch.rows| && batch.rows[p] == judge(raws[j]).row
      && Get(batch.rows[p], spec.primaryKey) == judge(raws[i]).key
  {
    var pk, raws := spec.primaryKey, request.fetched.value;
    var judge := JudgeOf(pk, mapper, digest);
    var vs := Verdicts(judge, raws);
    var kept :| Survivors(vs, |vs|, kept) && RowsOf(vs, kept, batch.rows);
    BatchIsLastWriteWins(pk, vs, batch.rows, kept, i);
    p, j :| p < |batch.rows| && i <= j && LastOfKey(vs, |vs|, j)
      && vs[j].key == vs[i].key && batch.rows[p] == vs[j].row && Get(batch.rows[p], pk) == vs[i].key;
    forall m: nat | j < m < |raws| && judge(raws[m]).Land? ensures judge(raws[m]).key != vs[i].key {
      assert vs[m] == judge(raws[m]);
    }
  }

  lemma LandedRecordIsStored(
      db: Db, spec: Spec, mapper: Mapper, digest: Digest, request: Request, batchSize: int, ending: EntityRun.Ending,
      i: nat)
    returns (j: nat)
    requires spec.table in db.tables && !Private(spec.primaryKey) && batchSize > 0 && HasLanded(ending)
    requires BatchOf(spec, JudgeOf(spec.primaryKey, mapper, digest), request, ending.batch)
    requires i < |request.fetched.value|
    requires JudgeRecord(spec.primaryKey, mapper, digest, request.fetched.value[i]).Land?
    ensures
      var judge := JudgeOf(spec.primaryKey, mapper, digest);
      var table := After(db, spec, request.id, batchSize, ending).tables[spec.table];
      i <= j && StoredAs(table, judge, request.fetched.value, judge(request.fetched.value[i]).key, j)
  {
    var p;
    j, p := LastOfItsKey(spec, mapper, digest, request, ending.batch, i);
    MappedBatchIsHonest(spec, mapper, digest, request, ending.batch, {});
    LandedHolds(db, spec, request.id, batchSize, ending);
  }

  /** The mapper gives every record the same columns, and the table has them with the two the mapping adds. */
  ghost predicate MapsTo(mapper: Mapper, columns: map<string, set<string>>, table: string) {
    && table in columns
    && forall raw :: mapper(raw).Success? ==> mapper(raw).value.Keys + {SOURCE, HASH} == columns[table]
  }

  /** After any history of mapped batches a further landed run leaves every stored row honest. */
  lemma StoredIsHonest(
      digest: Digest, columns: map<string, set<string>>, start: Db, runs: seq<PastRun>,
      mapper: Mapper, request: Request, r: PastRun)
    requires Runnable(start, runs + [r]) && HonestDb(digest, columns, start) && HasLanded(r.ending)
    requires forall i :: 0 <= i < |runs| ==> HonestRun(digest, columns, runs[i])
    requires !Private(r.spec.primaryKey) && MapsTo(mapper, columns, r.spec.table)
    requires BatchOf(r.spec, JudgeOf(r.spec.primaryKey, mapper, digest), request, r.ending.batch)
    ensures HonestDb(digest, columns, Replayed(start, runs + [r]))
  {
    var rows := r.ending.batch.rows;
    forall p | 0 <= p < |rows| ensures Honest(digest, rows[p]) && rows[p].Keys == columns[r.spec.table] {
      var i := MappedFrom(r.spec, mapper, digest, request, r.ending.batch, p);
    }
    assert HonestRun(digest, columns, r);
    HistoryKeepsHonest(digest, columns, start, runs + [r]);
  }

  /** What was fetched is a crawl of the listing, paged, that finishes; the listing only grows at its front, an
      honoured limit and totals not under-reported. */
  ghost predicate FetchedFrom(
      request: Request, server: Server<Raw>, c: Settings, rows: nat -> seq<Raw>, total: nat -> Total)
  {
    && c.paged && c.limit > 0
    && Honours(server, c.limit, rows, total) && OnlyPrepends(rows) && NoUnderReport(rows, total)
    && CrawlOf(server, c).ending == Finished && request.fetched == Success(CrawlOf(server, c).items)
  }

  /** The run lands the mapping of what was fetched for it, in chunks of a positive size. */
  ghost predicate LandsMapped(
      start: Db, runs: seq<PastRun>, r: PastRun, mapper: Mapper, digest: Digest, request: Request)
  {
    && Runnable(start, runs + [r]) && HasLanded(r.ending) && r.batchSize > 0 && r.id == request.id
    && !Private(r.spec.primaryKey)
    && BatchOf(r.spec, JudgeOf(r.spec.primaryKey, mapper, digest), request, r.ending.batch)
  }

  lemma ReplayedLast(start: Db, runs: seq<PastRun>, r: PastRun)
    requires Runnable(start, runs + [r])
    ensures Runnable(start, runs) && r.spec.table in start.tables
    ensures Replayed(start, runs + [r]) == After(Replayed(start, runs), r.spec, r.id, r.batchSize, r.ending)
  {
    assert (runs + [r])[..|runs|] == runs;
    assert forall i :: 0 <= i < |runs| ==> runs[i] == (runs + [r])[i];
    assert (runs + [r])[|runs|] == r;
  }

  /** A row of the first listing that maps and validates is stored once a run has landed, after any history of runs
      before it: under its key the table carries the hash of the last record fetched for that key, which is its
      own if the crawl saw no other record of the key. */
  lemma ListedRowIsStored(
      server: Server<Raw>, c: Settings, rows: nat -> seq<Raw>, total: nat -> Total, i: nat,
      start: Db, runs: seq<PastRun>, r: PastRun, mapper: Mapper, digest: Digest, request: Request)
    returns (j: nat)
    requires FetchedFrom(request, server, c, rows, total) && i < |rows(0)|
    requires LandsMapped(start, runs, r, mapper, digest, request)
    requires JudgeRecord(r.spec.primaryKey, mapper, digest, rows(0)[i]).Land?
    ensures
      var judge, raws := JudgeOf(r.spec.primaryKey, mapper, digest), request.fetched.value;
      var table := Replayed(start, runs + [r]).tables[r.spec.table];
      && StoredAs(table, judge, raws, judge(rows(0)[i]).key, j)
      && (OnlyRecordOfKey(judge, raws, rows(0)[i]) ==> raws[j] == rows(0)[i])
  {
    CrawlIsComplete(server, c.limit, c.maxPages, rows, total, i);
    var raws := request.fetched.value;
    var at: nat :| at < |raws| && raws[at] == rows(0)[i];
    ReplayedLast(start, runs, r);
    j := LandedRecordIsStored(Replayed(start, runs), r.spec, mapper, digest, request, r.batchSize, r.ending, at);
  }

  /** And it is stored with that record's business columns, exactly if the digest does not collide on what is stored
      under the key and what the record maps to: over honest tables and mapped batches a collision is the only
      way for a landed run to leave an older row. */
  lemma StoredColumnsIff(
      start: Db, runs: seq<PastRun>, r: PastRun, columns: map<string, set<string>>,
      mapper: Mapper, digest: Digest, request: Request, key: Value, j: nat)
    requires LandsMapped(start, runs, r, mapper, digest, request)
    requires HonestDb(digest, columns, start) && MapsTo(mapper, columns, r.spec.table)
    requires forall m :: 0 <= m < |runs| ==> HonestRun(digest, columns, runs[m])
    requires StoredAs(Replayed(start, runs + [r]).tables[r.spec.table], JudgeOf(r.spec.primaryKey, mapper, digest),
                      request.fetched.value, key, j)
    ensures
      var row := JudgeOf(r.spec.primaryKey, mapper, digest)(request.fetched.value[j]).row;
      var stored := Replayed(start, runs + [r]).tables[r.spec.table][key];
      Material(stored) == Material(row) <==> Apart(digest, Material(stored), Material(row))
  {
    StoredIsHonest(digest, columns, start, runs, mapper, request, r);
    var raw := request.fetched.value[j];
    MappedRow(r.spec.primaryKey, mapper, digest, raw, JudgeRecord(r.spec.primaryKey, mapper, digest, raw).row);
  }

  /** To the far end: once the key is settled, the raw table in ClickHouse reads the row as stored. */
  lemma ListedRowIsRead(
      server: Server<Raw>, c: Settings, rows: nat -> seq<Raw>, total: nat -> Total, i: nat,
      start: Db, runs: seq<PastRun>, r: PastRun, mapper: Mapper, digest: Digest, request: Request,
      e: Encoding, at: nat -> int, pipe: Pipe, s: State)
    returns (j: nat)
    requires FetchedFrom(request, server, c, rows, total) && i < |rows(0)|
    requires LandsMapped(start, runs, r, mapper, digest, request)
    requires JudgeRecord(r.spec.primaryKey, mapper, digest, rows(0)[i]).Land?
    requires WalBuildsTables(start) && r.spec.table in start.tables
    requires Replicates(e, Replayed(start, runs + [r]), r.spec.table, at, pipe, s)
    requires Settled(pipe, s, e.key(JudgeRecord(r.spec.primaryKey, mapper, digest, rows(0)[i]).key))
    ensures
      var judge, raws := JudgeOf(r.spec.primaryKey, mapper, digest), request.fetched.value;
      var table := Replayed(start, runs + [r]).tables[r.spec.table];
      var key := judge(rows(0)[i]).key;
      && StoredAs(table, judge, raws, key, j)
      && Read(s, e.key(key)) == Some(RowImage(e, table[key]))
  {
    j := ListedRowIsStored(server, c, rows, total, i, start, runs, r, mapper, digest, request);
    var key := JudgeRecord(r.spec.primaryKey, mapper, digest, rows(0)[i]).key;
    IngestedRowIsRead(e, start, runs + [r], r.spec.table, at, pipe, s, key);
  }

  /** Every fetched record that lands with the row's key is the row. */
  ghost predicate OnlyRecordOfKey(judge: Judge, raws: seq<Raw>, row: Raw) {
    judge(row).Land? &&
    forall m: nat :: m < |raws| && judge(raws[m]).Land? && judge(raws[m]).key == judge(row).key ==> raws[m] == row
  }
}
