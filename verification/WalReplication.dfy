/** From the landing tables to the raw tables: the changes the ingestion commits are the history the replication
    steps run over.  Ingestion only inserts and updates, so that history deletes nothing. */
module WalReplication {
  import opened Wrappers
  import opened Validation
  import opened Loader
  import opened PostgresConnection
  import opened RunHistory
  import opened RawTables
  import opened CdcViews
  import opened Replication
  import opened CaughtUpGate

  /** How a landing row reads on the wire: its key as a number, and the columns of the raw table. */
  datatype Encoding = Encoding(
    key: Value -> int, loanId: Record -> int, date: Record -> int, cells: Record -> seq<Option<string>>)

  function RowImage(e: Encoding, row: Record): Image {
    Image(e.loanId(row), e.date(row), e.cells(row))
  }

  /** The changes of table t, in the order they were committed; the n-th of the change stream is committed at at(n). */
  function HistoryOf(e: Encoding, wal: seq<RowChange>, t: string, at: nat -> int): seq<Change> {
    if wal == [] then []
    else
      var n := |wal| - 1;
      var before, c := HistoryOf(e, wal[..n], t, at), wal[n];
      if c.table == t
      then before + [Change(e.key(c.key), false, e.loanId(c.row), e.date(c.row), e.cells(c.row), at(n), n)]
      else before
  }

  lemma {:induction false} IngestionDeletesNothing(e: Encoding, wal: seq<RowChange>, t: string, at: nat -> int)
    ensures NoDeletes(HistoryOf(e, wal, t, at))
  {
    if wal != [] {
      IngestionDeletesNothing(e, wal[..|wal| - 1], t, at);
    }
  }

  /** No two keys of the table read alike on the wire. */
  ghost predicate KeysApart(e: Encoding, table: Table) {
    forall a, b :: a in table && b in table && e.key(a) == e.key(b) ==> a == b
  }

  function Encoded(e: Encoding, table: Table): set<int> {
    set k | k in table :: e.key(k)
  }

  /** The source map has, for every key of the table, its image, and nothing else. */
  ghost predicate Mirrors(e: Encoding, source: map<int, Image>, table: Table) {
    && source.Keys == Encoded(e, table)
    && forall k :: k in table ==> e.key(k) in source && source[e.key(k)] == RowImage(e, table[k])
  }

  lemma MirrorsPush(e: Encoding, source: map<int, Image>, table: Table, key: Value, row: Record)
    requires Mirrors(e, source, table) && KeysApart(e, table[key := row])
    ensures Mirrors(e, source[e.key(key) := RowImage(e, row)], table[key := row])
  {
    var table', source' := table[key := row], source[e.key(key) := RowImage(e, row)];
    forall n ensures n in source'.Keys <==> n in Encoded(e, table') {
      if n in Encoded(e, table) {
        var k :| k in table && e.key(k) == n;
        assert k in table';
      }
      assert key in table';
    }
    forall k | k in table' ensures e.key(k) in source' && source'[e.key(k)] == RowImage(e, table'[k]) {
      assert key in table';
    }
  }

  /** Replaying the history gives the table the change stream builds. */
  lemma {:induction false} SourceMirrorsTable(e: Encoding, wal: seq<RowChange>, t: string, at: nat -> int)
    requires KeysApart(e, FromWal(wal, t))
    ensures Mirrors(e, Source(HistoryOf(e, wal, t, at)), FromWal(wal, t))
  {
    if wal != [] {
      var init, c := wal[..|wal| - 1], wal[|wal| - 1];
      assert forall k :: k in FromWal(init, t) ==> k in FromWal(wal, t);
      SourceMirrorsTable(e, init, t, at);
      if c.table == t {
        var history := HistoryOf(e, wal, t, at);
        SourcePush(history[..|history| - 1], history[|history| - 1]);
        assert history == history[..|history| - 1] + [history[|history| - 1]];
        MirrorsPush(e, Source(HistoryOf(e, init, t, at)), FromWal(init, t), c.key, c.row);
      }
    }
  }

  lemma {:induction false} ImageSize(f: Value -> int, keys: set<Value>, image: set<int>)
    requires forall a, b :: a in keys && b in keys && f(a) == f(b) ==> a == b
    requires image == set k | k in keys :: f(k)
    ensures |image| == |keys|
    decreases keys
  {
    if keys != {} {
      var k :| k in keys;
      var fewer, rest := keys - {k}, image - {f(k)};
      forall n | n in rest ensures exists j :: j in fewer && f(j) == n {
        var j :| j in keys && f(j) == n;
        assert j in fewer;
      }
      forall j | j in fewer ensures f(j) in rest {
        assert f(j) != f(k);
      }
      ImageSize(f, fewer, rest);
      assert |image| == |rest| + 1 && |keys| == |fewer| + 1;
    }
  }

  lemma EncodedSize(e: Encoding, table: Table)
    requires KeysApart(e, table)
    ensures |Encoded(e, table)| == |table|
  {
    ImageSize(e.key, table.Keys, Encoded(e, table));
    assert |table| == |table.Keys|;
  }

  /** The state replicates table t of the database. */
  ghost predicate Replicates(e: Encoding, db: Db, t: string, at: nat -> int, pipe: Pipe, s: State) {
    && t in db.tables && KeysApart(e, db.tables[t])
    && Inv(pipe, s) && s.history == HistoryOf(e, db.wal, t, at)
  }

  /** Over any history of ingestion runs, however each ended: the source the replication sees is the landing table,
      row for row, and it deletes nothing. */
  lemma IngestedSourceIsTable(e: Encoding, start: Db, runs: seq<PastRun>, t: string, at: nat -> int)
    requires Runnable(start, runs) && WalBuildsTables(start) && t in start.tables
    requires KeysApart(e, Replayed(start, runs).tables[t])
    ensures
      var db := Replayed(start, runs);
      var history := HistoryOf(e, db.wal, t, at);
      && WalBuildsTables(db) && NoDeletes(history)
      && Mirrors(e, Source(history), db.tables[t]) && |Source(history)| == |db.tables[t]|
  {
    ChangeStreamIsComplete(start, runs);
    var db := Replayed(start, runs);
    IngestionDeletesNothing(e, db.wal, t, at);
    SourceMirrorsTable(e, db.wal, t, at);
    EncodedSize(e, db.tables[t]);
    assert |Source(HistoryOf(e, db.wal, t, at))| == |Source(HistoryOf(e, db.wal, t, at)).Keys|;
  }

  /** Comparing the row count with the live keys bounds the keys not seen yet, both ways, and where the numbers match
      the keys are the same. */
  ghost predicate ParityBoundsUnseen(rows: nat, keys: set<int>, live: set<int>, tolerance: int) {
    && (Abs(rows - |live|) <= tolerance <==> |keys - live| <= tolerance)
    && (rows == |live| <==> live == keys)
  }

  /** So it is with the gate over ingested tables. */
  lemma IngestedParityIff(
      e: Encoding, start: Db, runs: seq<PastRun>, t: string, at: nat -> int, pipe: Pipe, s: State, tolerance: int)
    requires Runnable(start, runs) && WalBuildsTables(start) && t in start.tables
    requires Replicates(e, Replayed(start, runs), t, at, pipe, s)
    ensures
      var table := Replayed(start, runs).tables[t];
      ParityBoundsUnseen(|table|, Encoded(e, table), LiveKeys(AllRows(s.parts)), tolerance)
  {
    var table := Replayed(start, runs).tables[t];
    IngestedKeys(e, start, runs, t, at, pipe, s);
    CompareSizes(|table|, Encoded(e, table), LiveKeys(AllRows(s.parts)), tolerance);
  }

  lemma IngestedKeys(
      e: Encoding, start: Db, runs: seq<PastRun>, t: string, at: nat -> int, pipe: Pipe, s: State)
    requires Runnable(start, runs) && WalBuildsTables(start) && t in start.tables
    requires Replicates(e, Replayed(start, runs), t, at, pipe, s)
    ensures LiveKeys(AllRows(s.parts)) <= Encoded(e, Replayed(start, runs).tables[t])
    ensures |Encoded(e, Replayed(start, runs).tables[t])| == |Replayed(start, runs).tables[t]|
  {
    var table := Replayed(start, runs).tables[t];
    IngestedSourceIsTable(e, start, runs, t, at);
    LiveKeysAreStored(pipe, s, Encoded(e, table));
    EncodedSize(e, table);
  }

  lemma LiveKeysAreStored(pipe: Pipe, s: State, keys: set<int>)
    requires Inv(pipe, s) && NoDeletes(s.history) && Source(s.history).Keys == keys
    ensures LiveKeys(AllRows(s.parts)) <= keys
  {
    NoPhantoms(pipe, s);
    forall k | k in LiveKeys(AllRows(s.parts)) ensures k in keys {
      assert k !in Phantom(s);
    }
  }

  lemma CompareSizes(rows: nat, keys: set<int>, live: set<int>, tolerance: int)
    requires live <= keys && |keys| == rows
    ensures ParityBoundsUnseen(rows, keys, live, tolerance)
  {
    SubsetSize(live, keys);
  }

  /** A settled key of an ingested table reads as its landing row. */
  lemma IngestedRowIsRead(
      e: Encoding, start: Db, runs: seq<PastRun>, t: string, at: nat -> int, pipe: Pipe, s: State, key: Value)
    requires Runnable(start, runs) && WalBuildsTables(start) && t in start.tables
    requires Replicates(e, Replayed(start, runs), t, at, pipe, s)
    requires key in Replayed(start, runs).tables[t] && Settled(pipe, s, e.key(key))
    ensures Read(s, e.key(key)) == Some(RowImage(e, Replayed(start, runs).tables[t][key]))
  {
    IngestedSourceIsTable(e, start, runs, t, at);
    LiveLastLands(pipe, s, e.key(key));
  }

  /** So it does once all its changes are delivered, in whatever order, if the change stream is committed at strictly
      increasing times since 1970. */
  lemma DeliveredRowIsRead(
      e: Encoding, start: Db, runs: seq<PastRun>, t: string, at: nat -> int, pipe: Pipe, s: State, key: Value)
    requires Runnable(start, runs) && WalBuildsTables(start) && t in start.tables
    requires Replicates(e, Replayed(start, runs), t, at, pipe, s)
    requires key in Replayed(start, runs).tables[t] && KeyDelivered(s, e.key(key))
    requires forall n: nat :: Representable(at(n))
    requires forall n: nat, m: nat :: n < m ==> at(n) < at(m)
    ensures Read(s, e.key(key)) == Some(RowImage(e, Replayed(start, runs).tables[t][key]))
  {
    HistoryInOrder(e, Replayed(start, runs).wal, t, at, e.key(key));
    InOrderSettles(pipe, s, e.key(key));
    IngestedRowIsRead(e, start, runs, t, at, pipe, s, key);
  }

  lemma {:induction false} HistoryInOrder(e: Encoding, wal: seq<RowChange>, t: string, at: nat -> int, k: int)
    requires forall n: nat :: Representable(at(n))
    requires forall n: nat, m: nat :: n < m ==> at(n) < at(m)
    ensures CommittedInOrder(HistoryOf(e, wal, t, at), k)
    ensures forall c :: c in HistoryOf(e, wal, t, at) ==> c.commitMs < at(|wal|)
  {
    if wal != [] {
      HistoryInOrder(e, wal[..|wal| - 1], t, at, k);
      var before := HistoryOf(e, wal[..|wal| - 1], t, at);
      assert at(|wal| - 1) < at(|wal|);
      assert forall i :: 0 <= i < |before| ==> before[i] in before;
    }
  }

  /** Where nothing is deleted every settled key converges, on either layout and with any identity. */
  lemma LiveLastLands(pipe: Pipe, s: State, k: int)
    requires Inv(pipe, s) && NoDeletes(s.history) && Settled(pipe, s, k)
    ensures Read(s, k) == SourceRead(s.history, k)
  {
    SettledAgreesIff(pipe, s, k);
    LastLandsOrDeletes(pipe, s.history, k);
  }
}
