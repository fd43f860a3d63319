/** The Postgres loading layer (ingestion/fineract_ingest/loader.py): INSERT ... ON CONFLICT (pk) DO UPDATE
    ... WHERE _payload_hash IS DISTINCT FROM, one statement per row, counted by its effect. */
module Loader {
  import opened Validation
  import opened BatchMapping

  type Table = map<Value, Record>

  /** row.get(c) for each column of the statement. */
  function Project(columns: set<string>, row: Record): (r: Record)
    ensures r.Keys == columns && forall c :: c in columns ==> r[c] == Get(row, c)
  {
    map c | c in columns :: Get(row, c)
  }

  datatype Effect = Inserted | Updated | Unchanged

  function EffectOf(table: Table, columns: set<string>, pk: string, row: Record): Effect {
    if Get(row, pk) !in table then Inserted
    else if Get(table[Get(row, pk)], HASH) != Get(Project(columns, row), HASH) then Updated
    else Unchanged
  }

  /** The statement's effect on the table; an update leaves columns outside the statement alone. */
  function UpsertRow(table: Table, columns: set<string>, pk: string, row: Record): Table {
    var k := Get(row, pk);
    match EffectOf(table, columns, pk, row)
    case Inserted => table[k := Project(columns, row)]
    case Updated => table[k := table[k] + Project(columns, row)]
    case Unchanged => table
  }

  function UpsertAll(table: Table, columns: set<string>, pk: string, rows: seq<Record>): Table {
    if rows == [] then table
    else UpsertRow(UpsertAll(table, columns, pk, rows[..|rows| - 1]), columns, pk, rows[|rows| - 1])
  }

  datatype LoadResult = LoadResult(read: nat, inserted: nat, updated: nat, untouched: nat, rejected: nat)

  const NOTHING := LoadResult(0, 0, 0, 0, 0)

  function Tally(r: LoadResult, e: Effect): LoadResult {
    match e
    case Inserted => r.(inserted := r.inserted + 1)
    case Updated => r.(updated := r.updated + 1)
    case Unchanged => r.(untouched := r.untouched + 1)
  }

  function UpsertCounts(table: Table, columns: set<string>, pk: string, rows: seq<Record>): LoadResult {
    if rows == [] then NOTHING
    else
      var init, row := rows[..|rows| - 1], rows[|rows| - 1];
      var counts := UpsertCounts(table, columns, pk, init);
      Tally(counts.(read := counts.read + 1), EffectOf(UpsertAll(table, columns, pk, init), columns, pk, row))
  }

  /** A committed row version: what logical decoding emits. */
  datatype RowChange = RowChange(table: string, key: Value, row: Record)

  function UpsertChanges(name: string, table: Table, columns: set<string>, pk: string, rows: seq<Record>)
    : seq<RowChange>
  {
    if rows == [] then []
    else
      var init, row := rows[..|rows| - 1], rows[|rows| - 1];
      var before := UpsertAll(table, columns, pk, init);
      UpsertChanges(name, table, columns, pk, init)
      + if EffectOf(before, columns, pk, row).Unchanged? then []
        else [RowChange(name, Get(row, pk), UpsertRow(before, columns, pk, row)[Get(row, pk)])]
  }

  // ---------------------------------------------------------------------------------------------
  // upsert refines a map update
  // ---------------------------------------------------------------------------------------------

  ghost predicate UniqueKeys(pk: string, rows: seq<Record>) {
    forall i, j :: 0 <= i < j < |rows| ==> Get(rows[i], pk) != Get(rows[j], pk)
  }

  lemma {:induction false} KeepsOtherKeys(table: Table, columns: set<string>, pk: string, rows: seq<Record>, k: Value)
    requires forall i :: 0 <= i < |rows| ==> Get(rows[i], pk) != k
    ensures k in UpsertAll(table, columns, pk, rows) <==> k in table
    ensures k in table ==> UpsertAll(table, columns, pk, rows)[k] == table[k]
  {
    if rows != [] {
      KeepsOtherKeys(table, columns, pk, rows[..|rows| - 1], k);
    }
  }

  /** For a batch with unique keys, what the table holds for a batch key depends on that key alone: a new
      key gets the row, a key whose hash differs is overridden, any other keeps what it had. */
  lemma {:induction false} UpsertOverrides(table: Table, columns: set<string>, pk: string, rows: seq<Record>, i: nat)
    requires UniqueKeys(pk, rows) && i < |rows|
    ensures Get(rows[i], pk) in UpsertAll(table, columns, pk, rows)
    ensures UpsertAll(table, columns, pk, rows)[Get(rows[i], pk)]
            == UpsertRow(table, columns, pk, rows[i])[Get(rows[i], pk)]
  {
    var init, last := rows[..|rows| - 1], |rows| - 1;
    if i == last {
      KeepsOtherKeys(table, columns, pk, init, Get(rows[last], pk));
    } else {
      UpsertOverrides(table, columns, pk, init, i);
    }
  }

  /** The counters are the sizes of the three classes of batch rows, judged against the old table. */
  function Class(table: Table, columns: set<string>, pk: string, rows: seq<Record>, e: Effect): (s: set<nat>)
    ensures forall i: nat :: i in s <==> i < |rows| && EffectOf(table, columns, pk, rows[i]) == e
  {
    set i: nat | i < |rows| && EffectOf(table, columns, pk, rows[i]) == e
  }

  lemma {:induction false} CountersAreExact(table: Table, columns: set<string>, pk: string, rows: seq<Record>)
    requires UniqueKeys(pk, rows)
    ensures
      var c := UpsertCounts(table, columns, pk, rows);
      && c.read == |rows| == c.inserted + c.updated + c.untouched
      && c.inserted == |Class(table, columns, pk, rows, Inserted)|
      && c.updated == |Class(table, columns, pk, rows, Updated)|
      && c.untouched == |Class(table, columns, pk, rows, Unchanged)|
      && c.rejected == 0
  {
    if rows == [] {
      assert forall e :: Class(table, columns, pk, rows, e) == {};
    } else {
      var init, last := rows[..|rows| - 1], |rows| - 1;
      CountersAreExact(table, columns, pk, init);
      KeepsOtherKeys(table, columns, pk, init, Get(rows[last], pk));
      var effect := EffectOf(table, columns, pk, rows[last]);
      assert EffectOf(UpsertAll(table, columns, pk, init), columns, pk, rows[last]) == effect;
      CountsPush(table, columns, pk, rows, effect);
      ClassPush(table, columns, pk, rows, Inserted);
      ClassPush(table, columns, pk, rows, Updated);
      ClassPush(table, columns, pk, rows, Unchanged);
    }
  }

  lemma CountsPush(table: Table, columns: set<string>, pk: string, rows: seq<Record>, e: Effect)
    requires rows != []
    requires EffectOf(UpsertAll(table, columns, pk, rows[..|rows| - 1]), columns, pk, rows[|rows| - 1]) == e
    ensures
      var before, now := UpsertCounts(table, columns, pk, rows[..|rows| - 1]), UpsertCounts(table, columns, pk, rows);
      && now.read == before.read + 1 && now.rejected == before.rejected
      && now.inserted == before.inserted + (if e == Inserted then 1 else 0)
      && now.updated == before.updated + (if e == Updated then 1 else 0)
      && now.untouched == before.untouched + (if e == Unchanged then 1 else 0)
  {
  }

  lemma ClassPush(table: Table, columns: set<string>, pk: string, rows: seq<Record>, e: Effect)
    requires rows != []
    ensures |Class(table, columns, pk, rows, e)| == |Class(table, columns, pk, rows[..|rows| - 1], e)|
              + if EffectOf(table, columns, pk, rows[|rows| - 1]) == e then 1 else 0
  {
    var init, last := rows[..|rows| - 1], |rows| - 1;
    var before, now := Class(table, columns, pk, init, e), Class(table, columns, pk, rows, e);
    forall i: nat ensures i in now <==> i in before || (i == last && EffectOf(table, columns, pk, rows[last]) == e) {
      assert i < last ==> init[i] == rows[i];
    }
    if EffectOf(table, columns, pk, rows[last]) == e {
      assert now == before + {last};
      assert last !in before;
    } else {
      assert now == before;
    }
  }

  // ---------------------------------------------------------------------------------------------
  // The changes a batch emits
  // ---------------------------------------------------------------------------------------------

  /** The change row i of a batch with unique keys makes, judged against the old table. */
  function ChangeOf(name: string, table: Table, columns: set<string>, pk: string, row: Record): RowChange
    requires !EffectOf(table, columns, pk, row).Unchanged?
  {
    RowChange(name, Get(row, pk), UpsertRow(table, columns, pk, row)[Get(row, pk)])
  }

  ghost predicate Emitted(
      name: string, table: Table, columns: set<string>, pk: string, rows: seq<Record>, c: RowChange, i: nat)
  {
    i < |rows| && !EffectOf(table, columns, pk, rows[i]).Unchanged? && c == ChangeOf(name, table, columns, pk, rows[i])
  }

  /** The last row of a batch with unique keys acts as it would on the old table. */
  lemma LastActsAlone(name: string, table: Table, columns: set<string>, pk: string, rows: seq<Record>)
    requires UniqueKeys(pk, rows) && rows != []
    ensures
      var before, row := UpsertAll(table, columns, pk, rows[..|rows| - 1]), rows[|rows| - 1];
      && EffectOf(before, columns, pk, row) == EffectOf(table, columns, pk, row)
      && (!EffectOf(table, columns, pk, row).Unchanged? ==>
            ChangeOf(name, before, columns, pk, row) == ChangeOf(name, table, columns, pk, row))
  {
    KeepsOtherKeys(table, columns, pk, rows[..|rows| - 1], Get(rows[|rows| - 1], pk));
  }

  /** For a batch with unique keys the changes emitted are exactly those of the rows that are new or carry another
      hash in the old table: as many as the counters say were inserted and updated, and one per row. */
  lemma {:induction false} ChangesAreExact(
      name: string, table: Table, columns: set<string>, pk: string, rows: seq<Record>)
    requires UniqueKeys(pk, rows)
    ensures
      var changes, counts := UpsertChanges(name, table, columns, pk, rows), UpsertCounts(table, columns, pk, rows);
      && |changes| == counts.inserted + counts.updated
      && (forall c :: c in changes ==> exists i: nat :: Emitted(name, table, columns, pk, rows, c, i))
      && (forall i: nat :: i < |rows| && !EffectOf(table, columns, pk, rows[i]).Unchanged? ==>
            ChangeOf(name, table, columns, pk, rows[i]) in changes)
  {
    if rows != [] {
      var init, row := rows[..|rows| - 1], rows[|rows| - 1];
      ChangesAreExact(name, table, columns, pk, init);
      LastActsAlone(name, table, columns, pk, rows);
      var sofar := UpsertChanges(name, table, columns, pk, init);
      var changes := UpsertChanges(name, table, columns, pk, rows);
      forall c | c in changes
        ensures exists i: nat :: Emitted(name, table, columns, pk, rows, c, i)
      {
        if c in sofar {
          var i: nat :| Emitted(name, table, columns, pk, init, c, i);
          assert Emitted(name, table, columns, pk, rows, c, i);
        } else {
          assert Emitted(name, table, columns, pk, rows, c, |rows| - 1);
        }
      }
      forall i: nat | i < |rows| && !EffectOf(table, columns, pk, rows[i]).Unchanged?
        ensures ChangeOf(name, table, columns, pk, rows[i]) in changes
      {
        if i < |rows| - 1 {
          assert ChangeOf(name, table, columns, pk, init[i]) in sofar;
        }
      }
    }
  }

  // ---------------------------------------------------------------------------------------------
  // Idempotence
  // ---------------------------------------------------------------------------------------------

  /** Rows with the same key carry the same hash. */
  ghost predicate HashPerKey(pk: string, rows: seq<Record>) {
    forall i, j :: 0 <= i < |rows| && 0 <= j < |rows| && Get(rows[i], pk) == Get(rows[j], pk) ==>
      Get(rows[i], HASH) == Get(rows[j], HASH)
  }

  ghost predicate Holds(table: Table, pk: string, rows: seq<Record>, n: nat)
    requires n <= |rows|
  {
    forall i :: 0 <= i < n ==>
      Get(rows[i], pk) in table && Get(table[Get(rows[i], pk)], HASH) == Get(rows[i], HASH)
  }

  lemma {:induction false} LoadedHashes(table: Table, columns: set<string>, pk: string, rows: seq<Record>)
    requires HashPerKey(pk, rows) && HASH in columns
    ensures Holds(UpsertAll(table, columns, pk, rows), pk, rows, |rows|)
  {
    if rows != [] {
      var init, last := rows[..|rows| - 1], rows[|rows| - 1];
      var before, after := UpsertAll(table, columns, pk, init), UpsertAll(table, columns, pk, rows);
      LoadedHashes(table, columns, pk, init);
      HeldAfterRow(before, columns, pk, last);
      forall i | 0 <= i < |rows|
        ensures Get(rows[i], pk) in after && Get(after[Get(rows[i], pk)], HASH) == Get(rows[i], HASH)
      {
        if i < |rows| - 1 {
          assert rows[i] == init[i] && Get(init[i], pk) in before;
        }
      }
    }
  }

  lemma HeldAfterRow(table: Table, columns: set<string>, pk: string, row: Record)
    requires HASH in columns
    ensures
      var after := UpsertRow(table, columns, pk, row);
      && Get(row, pk) in after && Get(after[Get(row, pk)], HASH) == Get(row, HASH)
      && forall k :: k in table && k != Get(row, pk) ==> k in after && after[k] == table[k]
  {
  }

  lemma {:induction false} HeldRowsAreQuiet(table: Table, columns: set<string>, pk: string, rows: seq<Record>)
    requires Holds(table, pk, rows, |rows|) && HASH in columns
    ensures UpsertAll(table, columns, pk, rows) == table
    ensures UpsertCounts(table, columns, pk, rows) == LoadResult(|rows|, 0, 0, |rows|, 0)
    ensures forall name: string :: UpsertChanges(name, table, columns, pk, rows) == []
  {
    if rows != [] {
      HeldRowsAreQuiet(table, columns, pk, rows[..|rows| - 1]);
    }
  }

  lemma {:induction false} QuietKeepsTable(table: Table, columns: set<string>, pk: string, rows: seq<Record>)
    requires UpsertCounts(table, columns, pk, rows).inserted == UpsertCounts(table, columns, pk, rows).updated == 0
    requires HASH in columns
    ensures UpsertAll(table, columns, pk, rows) == table && Holds(table, pk, rows, |rows|)
  {
    if rows != [] {
      var init, row := rows[..|rows| - 1], rows[|rows| - 1];
      var effect := EffectOf(UpsertAll(table, columns, pk, init), columns, pk, row);
      assert effect == Unchanged;
      QuietKeepsTable(table, columns, pk, init);
    }
  }

  /** Loading a batch again changes nothing, counts every row as unchanged and emits no change event,
      exactly when rows with the same key in it carry the same hash; so for every batch with unique keys.
      Otherwise every rerun rewrites the key, back and forth. */
  lemma RerunIsQuietIff(table: Table, columns: set<string>, pk: string, rows: seq<Record>)
    requires HASH in columns
    ensures
      var again := UpsertCounts(UpsertAll(table, columns, pk, rows), columns, pk, rows);
      again.inserted == again.updated == 0 <==> HashPerKey(pk, rows)
    ensures HashPerKey(pk, rows) ==>
              var loaded := UpsertAll(table, columns, pk, rows);
              UpsertAll(loaded, columns, pk, rows) == loaded
              && forall name: string :: UpsertChanges(name, loaded, columns, pk, rows) == []
    ensures UniqueKeys(pk, rows) ==> HashPerKey(pk, rows)
  {
    var loaded := UpsertAll(table, columns, pk, rows);
    if HashPerKey(pk, rows) {
      LoadedHashes(table, columns, pk, rows);
      HeldRowsAreQuiet(loaded, columns, pk, rows);
    }
    if UpsertCounts(loaded, columns, pk, rows).inserted == UpsertCounts(loaded, columns, pk, rows).updated == 0 {
      QuietKeepsTable(loaded, columns, pk, rows);
    }
  }

  // ---------------------------------------------------------------------------------------------
  // Churn
  // ---------------------------------------------------------------------------------------------

  /** A stored row that carries the digest of its own business columns. */
  ghost predicate Honest(digest: Digest, row: Record) {
    HASH in row && row[HASH] == Text(digest(Material(row)))
  }

  /** The digest tells the row apart from the one stored under its key, if any. */
  ghost predicate TellsApart(digest: Digest, table: Table, pk: string, row: Record) {
    Get(row, pk) in table ==> Apart(digest, Material(table[Get(row, pk)]), Material(row))
  }

  /** An existing row is rewritten, and so emits a change event, only when a business column differs; and exactly
      then, if and only if the digest tells the two rows apart.
      `columns` are the columns of the mapped row, and the stored row has them plus its timestamps. */
  lemma RewrittenIff(digest: Digest, table: Table, columns: set<string>, pk: string, row: Record)
    requires Honest(digest, row) && row.Keys == columns
    requires Get(row, pk) in table && Honest(digest, table[Get(row, pk)])
    ensures
      var updated := EffectOf(table, columns, pk, row) == Updated;
      var differs := Material(table[Get(row, pk)]) != Material(row);
      && (updated ==> differs)
      && ((updated <==> differs) <==> TellsApart(digest, table, pk, row))
  {
    assert Project(columns, row) == row;
  }

  ghost predicate HonestTable(digest: Digest, columns: set<string>, table: Table) {
    forall k :: k in table ==> Honest(digest, table[k]) && Material(table[k]).Keys == columns - AUDIT
  }

  /** An update leaves the business columns of the row and nothing else of the old ones. */
  lemma UpdateReplacesMaterial(old': Record, row: Record, columns: set<string>)
    requires row.Keys == columns && Material(old').Keys == columns - AUDIT
    ensures Material(old' + row) == Material(row)
  {
    var merged := old' + row;
    assert merged.Keys == old'.Keys + row.Keys;
    assert Material(merged).Keys == Material(row).Keys by {
      assert forall c :: c in Material(old') <==> c in columns && c !in AUDIT;
    }
    assert forall c :: c in Material(row) ==> Material(merged)[c] == Material(row)[c];
  }

  lemma UpsertRowKeepsHonest(digest: Digest, table: Table, columns: set<string>, pk: string, row: Record)
    requires Honest(digest, row) && row.Keys == columns
    requires HonestTable(digest, columns, table)
    ensures HonestTable(digest, columns, UpsertRow(table, columns, pk, row))
  {
    var k := Get(row, pk);
    assert Project(columns, row) == row;
    assert Material(row).Keys == columns - AUDIT;
    if k in table {
      UpdateReplacesMaterial(table[k], row, columns);
    }
  }

  /** Upserting honest rows keeps the table honest. */
  lemma {:induction false} UpsertKeepsHonest(
      digest: Digest, table: Table, columns: set<string>, pk: string, rows: seq<Record>)
    requires forall i :: 0 <= i < |rows| ==> Honest(digest, rows[i]) && rows[i].Keys == columns
    requires HonestTable(digest, columns, table)
    ensures HonestTable(digest, columns, UpsertAll(table, columns, pk, rows))
  {
    if rows != [] {
      var init, row := rows[..|rows| - 1], rows[|rows| - 1];
      UpsertKeepsHonest(digest, table, columns, pk, init);
      UpsertRowKeepsHonest(digest, UpsertAll(table, columns, pk, init), columns, pk, row);
    }
  }

  /** The row is new, or a business column of the stored one differs. */
  ghost predicate Differs(table: Table, pk: string, row: Record) {
    Get(row, pk) in table ==> Material(table[Get(row, pk)]) != Material(row)
  }

  ghost predicate ComesFrom(c: RowChange, name: string, table: Table, pk: string, rows: seq<Record>) {
    exists i: nat :: i < |rows| && Differs(table, pk, rows[i]) && c.table == name && c.key == Get(rows[i], pk)
  }

  ghost predicate ChangedIn(changes: seq<RowChange>, name: string, pk: string, row: Record) {
    exists c :: c in changes && c.table == name && c.key == Get(row, pk) && Material(c.row) == Material(row)
  }

  /** Every change is of a row that differs, and every row that differs has its change. */
  ghost predicate AreDifferences(
      changes: seq<RowChange>, name: string, table: Table, pk: string, rows: seq<Record>)
  {
    && (forall c :: c in changes ==> ComesFrom(c, name, table, pk, rows))
    && (forall i: nat :: i < |rows| && Differs(table, pk, rows[i]) ==> ChangedIn(changes, name, pk, rows[i]))
  }

  /** Zero churn, for a whole batch over an honest table: every change is of a row that is new or differs in a
      business column.  Every such row emits its change exactly if the digest tells each row apart from the one stored
      under its key: a collision is the only way to miss one. */
  lemma ChangesAreDifferences(
      digest: Digest, name: string, table: Table, columns: set<string>, pk: string, rows: seq<Record>)
    requires HonestTable(digest, columns, table) && UniqueKeys(pk, rows)
    requires forall i :: 0 <= i < |rows| ==> Honest(digest, rows[i]) && rows[i].Keys == columns
    ensures
      var changes := UpsertChanges(name, table, columns, pk, rows);
      && (forall c :: c in changes ==> ComesFrom(c, name, table, pk, rows))
      && (AreDifferences(changes, name, table, pk, rows) <==> AllToldApart(digest, table, pk, rows))
  {
    ChangesAreExact(name, table, columns, pk, rows);
    var changes := UpsertChanges(name, table, columns, pk, rows);
    forall i: nat | i < |rows|
      ensures (Differs(table, pk, rows[i]) ==> ChangedIn(changes, name, pk, rows[i]))
              <==> TellsApart(digest, table, pk, rows[i])
    {
      RowIsChanged(digest, name, table, columns, pk, rows, i);
    }
    forall c | c in changes ensures ComesFrom(c, name, table, pk, rows) {
      var i: nat :| Emitted(name, table, columns, pk, rows, c, i);
      RowDiffers(digest, name, table, columns, pk, rows[i]);
    }
  }

  ghost predicate AllToldApart(digest: Digest, table: Table, pk: string, rows: seq<Record>) {
    forall i: nat :: i < |rows| ==> TellsApart(digest, table, pk, rows[i])
  }

  lemma RowIsChanged(
      digest: Digest, name: string, table: Table, columns: set<string>, pk: string, rows: seq<Record>, i: nat)
    requires HonestTable(digest, columns, table) && UniqueKeys(pk, rows)
    requires i < |rows| && Honest(digest, rows[i]) && rows[i].Keys == columns
    ensures
      var changes := UpsertChanges(name, table, columns, pk, rows);
      (Differs(table, pk, rows[i]) ==> ChangedIn(changes, name, pk, rows[i]))
      <==> TellsApart(digest, table, pk, rows[i])
  {
    var changes := UpsertChanges(name, table, columns, pk, rows);
    ChangesAreExact(name, table, columns, pk, rows);
    RowDiffers(digest, name, table, columns, pk, rows[i]);
    if EffectOf(table, columns, pk, rows[i]).Unchanged? {
      forall c | c in changes ensures c.key != Get(rows[i], pk) {
        var j: nat :| Emitted(name, table, columns, pk, rows, c, j);
      }
    } else {
      assert ChangeOf(name, table, columns, pk, rows[i]) in changes;
    }
  }

  lemma RowDiffers(digest: Digest, name: string, table: Table, columns: set<string>, pk: string, row: Record)
    requires HonestTable(digest, columns, table) && Honest(digest, row) && row.Keys == columns
    ensures !EffectOf(table, columns, pk, row).Unchanged? ==> Differs(table, pk, row)
    ensures (Differs(table, pk, row) <==> !EffectOf(table, columns, pk, row).Unchanged?)
            <==> TellsApart(digest, table, pk, row)
    ensures !EffectOf(table, columns, pk, row).Unchanged? ==>
              Material(ChangeOf(name, table, columns, pk, row).row) == Material(row)
  {
    assert Project(columns, row) == row;
    if Get(row, pk) in table {
      RewrittenIff(digest, table, columns, pk, row);
      UpdateReplacesMaterial(table[Get(row, pk)], row, columns);
    }
  }
}
