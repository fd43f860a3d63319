/** The incremental ledger model (transform/fineract_analytics/models/staging/
    stg_fineract__loan_transactions.sql) and the collapse macros it uses
    (transform/fineract_analytics/macros/cdc_helpers.sql). */
module LedgerStaging {
  import opened Wrappers
  import opened RawTables

  datatype Staged = Staged(
    transactionId: int, loanId: int, date: int, cells: seq<Option<string>>, commitAt: int, version: nat)

  const LOOKBACK_MS: int := 48 * 3600 * 1000

  function Cell(r: Row, c: nat): Option<string> {
    if c < |r.cells| then r.cells[c] else None
  }

  // ---------------------------------------------------------------------------------------------
  // argMax
  // ---------------------------------------------------------------------------------------------

  /** argMax skips NULL arguments: the version and value it settles on for one nullable column. */
  function ArgMaxEntry(rows: seq<Row>, k: int, c: nat): Option<(nat, string)> {
    if rows == [] then None
    else
      var before, r := ArgMaxEntry(rows[..|rows| - 1], k, c), rows[|rows| - 1];
      if r.key == k && Cell(r, c).Some? && (before.None? || r.version >= before.value.0)
      then Some((r.version, Cell(r, c).value)) else before
  }

  function ArgMaxCell(rows: seq<Row>, k: int, c: nat): Option<string> {
    match ArgMaxEntry(rows, k, c) case None => None case Some(e) => Some(e.1)
  }

  /** The entry comes from a row of the key, and no row of the key with a value outranks it. */
  lemma {:induction false} ArgMaxEntryIsBest(rows: seq<Row>, k: int, c: nat)
    ensures
      var e := ArgMaxEntry(rows, k, c);
      && (e.Some? ==> exists r :: r in rows && r.key == k && r.version == e.value.0 && Cell(r, c) == Some(e.value.1))
      && (forall r :: r in rows && r.key == k && Cell(r, c).Some? ==> e.Some? && r.version <= e.value.0)
  {
    if rows != [] {
      ArgMaxEntryIsBest(rows[..|rows| - 1], k, c);
    }
  }

  lemma {:induction false} ArgMaxOfNewest(rows: seq<Row>, k: int, c: nat)
    requires Newest(rows, k).Some? && Cell(Newest(rows, k).value, c).Some?
    ensures ArgMaxEntry(rows, k, c) ==
              Some((Newest(rows, k).value.version, Cell(Newest(rows, k).value, c).value))
  {
    var init, r := rows[..|rows| - 1], rows[|rows| - 1];
    ArgMaxEntryIsBest(init, k, c);
    if Newest(rows, k) == Newest(init, k) && !(r.key == k && r.version >= Newest(init, k).value.version) {
      ArgMaxOfNewest(init, k, c);
    }
  }

  ghost predicate SomeRowHas(rows: seq<Row>, k: int, c: nat) {
    exists r :: r in rows && r.key == k && Cell(r, c).Some?
  }

  /** Column-wise argMax equals the newest row's column exactly when that column is non-NULL there, or
      NULL in every version of the key.  Otherwise it brings an old value back. */
  lemma ArgMaxReadsNewestIff(rows: seq<Row>, k: int, c: nat)
    requires Newest(rows, k).Some?
    ensures ArgMaxCell(rows, k, c) == Cell(Newest(rows, k).value, c) <==>
              Cell(Newest(rows, k).value, c).Some? || !SomeRowHas(rows, k, c)
  {
    ArgMaxEntryIsBest(rows, k, c);
    if Cell(Newest(rows, k).value, c).Some? {
      ArgMaxOfNewest(rows, k, c);
    }
  }

  /** For one key that stays on one sort key, collapsing the raw rows leaves a column's argMax as it was
      exactly under the same condition: a background merge can change what the model stages. */
  lemma CollapseKeepsArgMaxIff(layout: Layout, rows: seq<Row>, k: int, c: nat)
    requires Newest(rows, k).Some? && UniqueVersions(rows, k) && OneSlot(layout, rows, k)
    ensures ArgMaxCell(Collapse(layout, rows), k, c) == ArgMaxCell(rows, k, c) <==>
              Cell(Newest(rows, k).value, c).Some? || !SomeRowHas(rows, k, c)
  {
    var merged, n := Collapse(layout, rows), Newest(rows, k).value;
    CollapseCovers(layout, rows);
    CoversKeepsNewest(layout, rows, merged, k);
    FinalCollapsesIff(layout, rows, k);
    assert forall r :: r in merged && r.key == k ==> r == n;
    ArgMaxReadsNewestIff(rows, k, c);
    ArgMaxReadsNewestIff(merged, k, c);
    assert SomeRowHas(merged, k, c) <==> Cell(n, c).Some?;
  }

  ghost predicate Holding(rows: seq<Row>, k: int, c: nat, r: Row, e: (nat, string)) {
    r in rows && r.key == k && r.version == e.0 && Cell(r, c) == Some(e.1)
  }

  /** The row argMax takes the column from is the newest of its sort key, or there is no such row. */
  ghost predicate TakenFromTop(layout: Layout, rows: seq<Row>, k: int, c: nat) {
    ArgMaxEntry(rows, k, c).Some? ==>
      exists r :: Holding(rows, k, c, r, ArgMaxEntry(rows, k, c).value) && TopOfSlot(layout, rows, r)
  }

  lemma TopStaysCovered(layout: Layout, before: seq<Row>, after: seq<Row>, r: Row)
    requires Covers(layout, before, after) && UniqueVersions(before, r.key) && TopOfSlot(layout, before, r)
    ensures r in after
  {
    assert Covered(layout, r, after);
    var q :| q in after && SameSlot(layout, q, r) && q.version >= r.version;
    SlotsKeepKeys(layout, q, r);
  }

  lemma CoversKeepsArgMax(layout: Layout, before: seq<Row>, after: seq<Row>, k: int, c: nat)
    requires Covers(layout, before, after) && UniqueVersions(before, k) && TakenFromTop(layout, before, k, c)
    ensures ArgMaxEntry(after, k, c) == ArgMaxEntry(before, k, c)
  {
    ArgMaxEntryIsBest(before, k, c);
    ArgMaxEntryIsBest(after, k, c);
    if ArgMaxEntry(before, k, c).Some? {
      var r :| Holding(before, k, c, r, ArgMaxEntry(before, k, c).value) && TopOfSlot(layout, before, r);
      TopStaysCovered(layout, before, after, r);
    }
  }

  /** A row that is not the newest of its sort key is gone once its whole partition is merged. */
  lemma MergeDropsSuperseded(layout: Layout, parts: seq<Part>, r: Row)
    requires PartsWellFormed(layout, parts) && UniqueVersions(AllRows(parts), r.key)
    requires r in AllRows(parts) && !TopOfSlot(layout, AllRows(parts), r)
    ensures
      var p := PartitionOf(layout, r);
      && Mergeable(parts, p, PartsOf(parts, p))
      && r !in AllRows(MergeParts(layout, parts, p, PartsOf(parts, p)))
  {
    var p := PartitionOf(layout, r);
    var picked := Picked(parts, PartsOf(parts, p), |parts|);
    var i := PartOf(parts, r);
    assert i in PartsOf(parts, p);
    var q :| q in AllRows(parts) && SameSlot(layout, q, r) && q.version > r.version;
    SlotsKeepPartitions(layout, q, r);
    MergeWholePartition(layout, parts, p, q);
    MergeWholePartition(layout, parts, p, r);
    forall a | a in picked ensures a in AllRows(parts) {
      assert parts[..|parts|] == parts;
      PickedOrNot(parts, PartsOf(parts, p), |parts|, a);
    }
    TopSurvives(layout, picked, r);
  }

  /** Background merges can never change what argMax settles on for a column, whatever they pick and however many
      there are, exactly when it takes the column from a row that is the newest of its sort key. */
  lemma MergesKeepArgMaxIff(layout: Layout, parts: seq<Part>, k: int, c: nat)
    requires PartsWellFormed(layout, parts) && UniqueVersions(AllRows(parts), k)
    ensures
      (forall merges ::
         ArgMaxEntry(AllRows(RunMerges(layout, parts, merges)), k, c) == ArgMaxEntry(AllRows(parts), k, c))
      <==> TakenFromTop(layout, AllRows(parts), k, c)
  {
    var rows := AllRows(parts);
    if TakenFromTop(layout, rows, k, c) {
      forall merges ensures ArgMaxEntry(AllRows(RunMerges(layout, parts, merges)), k, c) == ArgMaxEntry(rows, k, c) {
        MergesCover(layout, parts, merges);
        CoversKeepsArgMax(layout, rows, AllRows(RunMerges(layout, parts, merges)), k, c);
      }
    } else {
      var merges := MergesLoseArgMax(layout, parts, k, c);
    }
  }

  lemma MergesLoseArgMax(layout: Layout, parts: seq<Part>, k: int, c: nat) returns (merges: seq<MergeStep>)
    requires PartsWellFormed(layout, parts) && UniqueVersions(AllRows(parts), k)
    requires !TakenFromTop(layout, AllRows(parts), k, c)
    ensures ArgMaxEntry(AllRows(RunMerges(layout, parts, merges)), k, c) != ArgMaxEntry(AllRows(parts), k, c)
  {
    var rows := AllRows(parts);
    ArgMaxEntryIsBest(rows, k, c);
    var e := ArgMaxEntry(rows, k, c).value;
    var r :| r in rows && r.key == k && r.version == e.0 && Cell(r, c) == Some(e.1);
    assert Holding(rows, k, c, r, e);
    MergeDropsSuperseded(layout, parts, r);
    var p := PartitionOf(layout, r);
    merges := [MergeStep(p, PartsOf(parts, p))];
    OneMerge(layout, parts, merges[0]);
    var after := AllRows(RunMerges(layout, parts, merges));
    MergesCover(layout, parts, merges);
    ArgMaxEntryIsBest(after, k, c);
    assert forall q :: q in after && q.key == k ==> q.version != e.0;
  }

  lemma OneMerge(layout: Layout, parts: seq<Part>, m: MergeStep)
    requires Mergeable(parts, m.partition, m.chosen)
    ensures RunMerges(layout, parts, [m]) == MergeParts(layout, parts, m.partition, m.chosen)
  {
    assert [m][..0] == [];
    assert RunMerges(layout, parts, []) == parts;
  }

  /** For a key that stays on one sort key this is the condition under which argMax reads the newest row: the column is
      non-NULL there, or NULL in every version.  Otherwise some merge changes the value the model stages. */
  lemma MergesKeepColumnIff(layout: Layout, parts: seq<Part>, k: int, c: nat)
    requires PartsWellFormed(layout, parts) && UniqueVersions(AllRows(parts), k)
    requires Newest(AllRows(parts), k).Some? && OneSlot(layout, AllRows(parts), k)
    ensures
      (forall merges ::
         ArgMaxCell(AllRows(RunMerges(layout, parts, merges)), k, c) == ArgMaxCell(AllRows(parts), k, c))
      <==> Cell(Newest(AllRows(parts), k).value, c).Some? || !SomeRowHas(AllRows(parts), k, c)
  {
    var rows, n := AllRows(parts), Newest(AllRows(parts), k).value;
    if Cell(n, c).Some? || !SomeRowHas(rows, k, c) {
      TopHasColumn(layout, rows, k, c);
      MergesKeepArgMaxIff(layout, parts, k, c);
    } else {
      var merges := MergesLoseColumn(layout, parts, k, c);
    }
  }

  lemma TopHasColumn(layout: Layout, rows: seq<Row>, k: int, c: nat)
    requires Newest(rows, k).Some? && OneSlot(layout, rows, k)
    requires Cell(Newest(rows, k).value, c).Some? || !SomeRowHas(rows, k, c)
    ensures TakenFromTop(layout, rows, k, c)
  {
    var n := Newest(rows, k).value;
    ArgMaxEntryIsBest(rows, k, c);
    if Cell(n, c).Some? {
      ArgMaxOfNewest(rows, k, c);
      assert Holding(rows, k, c, n, ArgMaxEntry(rows, k, c).value);
      forall q | q in rows && SameSlot(layout, q, n) ensures q.version <= n.version {
        SlotsKeepKeys(layout, q, n);
      }
    }
  }

  lemma MergesLoseColumn(layout: Layout, parts: seq<Part>, k: int, c: nat) returns (merges: seq<MergeStep>)
    requires PartsWellFormed(layout, parts) && UniqueVersions(AllRows(parts), k)
    requires Newest(AllRows(parts), k).Some? && OneSlot(layout, AllRows(parts), k)
    requires Cell(Newest(AllRows(parts), k).value, c).None? && SomeRowHas(AllRows(parts), k, c)
    ensures ArgMaxCell(AllRows(RunMerges(layout, parts, merges)), k, c) != ArgMaxCell(AllRows(parts), k, c)
  {
    var rows, n := AllRows(parts), Newest(AllRows(parts), k).value;
    var p := PartitionOf(layout, n);
    merges := [MergeStep(p, PartsOf(parts, p))];
    var i := PartOf(parts, n);
    assert i in PartsOf(parts, p);
    OneMerge(layout, parts, merges[0]);
    MergesCover(layout, parts, merges);
    MergeOptimizes(layout, parts, p);
    var after := AllRows(RunMerges(layout, parts, merges));
    OnlyNewestLeft(layout, rows, after, k);
    ArgMaxEntryIsBest(rows, k, c);
    ArgMaxEntryIsBest(after, k, c);
  }

  /** Once its partition is collapsed, a key on one sort key is down to its newest row. */
  lemma OnlyNewestLeft(layout: Layout, before: seq<Row>, after: seq<Row>, k: int)
    requires Covers(layout, before, after) && UniqueVersions(before, k) && OneSlot(layout, before, k)
    requires Newest(before, k).Some?
    requires OptimizedIn(layout, after, PartitionOf(layout, Newest(before, k).value))
    ensures Newest(after, k) == Newest(before, k)
    ensures forall r :: r in after && r.key == k ==> r == Newest(before, k).value
  {
    var n := Newest(before, k).value;
    CoversKeepsNewest(layout, before, after, k);
    forall r | r in after && r.key == k ensures r == n {
      assert SameSlot(layout, n, r);
    }
  }

  // ---------------------------------------------------------------------------------------------
  // The SELECT: window, group by transaction_id, drop deleted keys
  // ---------------------------------------------------------------------------------------------

  /** The rows committed at or after t. */
  function Window(rows: seq<Row>, t: int): (w: seq<Row>)
    ensures forall r :: r in w <==> r in rows && r.commitAt >= t
  {
    if rows == [] then []
    else Window(rows[..|rows| - 1], t) + if rows[|rows| - 1].commitAt >= t then [rows[|rows| - 1]] else []
  }

  /** For key k commit time and version are the same number, as they are for every commit since 1970. */
  ghost predicate Aligned(rows: seq<Row>, k: int) {
    forall r :: r in rows && r.key == k ==> r.version == r.commitAt
  }

  /** Window filtering commutes with the collapse: any key with a row in the window has the same newest
      row there as in the whole table. */
  lemma {:induction false} WindowKeepsNewest(rows: seq<Row>, t: int, k: int)
    requires Aligned(rows, k)
    ensures Newest(Window(rows, t), k) ==
              if Newest(rows, k).Some? && Newest(rows, k).value.commitAt >= t then Newest(rows, k) else None
  {
    if rows != [] {
      var init, r := rows[..|rows| - 1], rows[|rows| - 1];
      WindowKeepsNewest(init, t, k);
      assert r in rows && forall q :: q in init ==> q in rows;
      if r.commitAt >= t {
        NewestOfPush(Window(init, t), r, k);
      } else {
        assert Window(rows, t) == Window(init, t);
      }
    }
  }

  /** Column by column the window is not always neutral: it keeps a column's argMax exactly when the version
      argMax takes the value from is inside.  A column updated to NULL inside the window stages as NULL
      there, and as its old value on a full refresh. */
  lemma {:induction false} WindowArgMax(rows: seq<Row>, t: int, k: int, c: nat)
    requires Aligned(rows, k)
    ensures
      var e := ArgMaxEntry(rows, k, c);
      ArgMaxEntry(Window(rows, t), k, c) == if e.Some? && e.value.0 >= t then e else None
  {
    if rows != [] {
      var init, r := rows[..|rows| - 1], rows[|rows| - 1];
      WindowArgMax(init, t, k, c);
      assert r in rows && forall q :: q in init ==> q in rows;
      if r.commitAt >= t {
        ArgMaxOfPush(Window(init, t), r, k, c);
      } else {
        assert Window(rows, t) == Window(init, t);
      }
    }
  }

  lemma ArgMaxOfPush(rows: seq<Row>, r: Row, k: int, c: nat)
    ensures
      var before := ArgMaxEntry(rows, k, c);
      ArgMaxEntry(rows + [r], k, c) ==
        if r.key == k && Cell(r, c).Some? && (before.None? || r.version >= before.value.0)
        then Some((r.version, Cell(r, c).value)) else before
  {
    assert (rows + [r])[..|rows|] == rows;
  }

  function Group(rows: seq<Row>, k: int): Option<Staged> {
    match Newest(rows, k)
    case None => None
    case Some(n) =>
      if n.deleted then None
      else Some(Staged(k, n.loanId, n.date, seq(|n.cells|, c requires c >= 0 => ArgMaxCell(rows, k, c)),
                       n.commitAt, n.version))
  }

  function StageRow(r: Row): Staged {
    Staged(r.key, r.loanId, r.date, r.cells, r.commitAt, r.version)
  }

  /** The staged row is row n of its key, but for the nullable columns that are NULL in n. */
  ghost predicate Carries(s: Staged, n: Row) {
    && s.(cells := []) == StageRow(n).(cells := [])
    && |s.cells| == |n.cells|
    && forall c :: 0 <= c < |n.cells| && n.cells[c].Some? ==> s.cells[c] == n.cells[c]
  }

  lemma GroupColumns(rows: seq<Row>, k: int, c: nat)
    requires Newest(rows, k).Some? && !Newest(rows, k).value.deleted && c < |Newest(rows, k).value.cells|
    ensures
      var g, n := Group(rows, k), Newest(rows, k).value;
      && g.Some? && g.value.(cells := []) == StageRow(n).(cells := [])
      && |g.value.cells| == |n.cells| && g.value.cells[c] == ArgMaxCell(rows, k, c)
  {
  }

  /** Whatever argMax makes of NULLs, a live key's group carries its newest row. */
  lemma GroupCarriesNewest(rows: seq<Row>, k: int)
    requires Newest(rows, k).Some? && !Newest(rows, k).value.deleted
    ensures Group(rows, k).Some? && Carries(Group(rows, k).value, Newest(rows, k).value)
  {
    var n := Newest(rows, k).value;
    forall c | 0 <= c < |n.cells| && n.cells[c].Some? ensures Group(rows, k).value.cells[c] == n.cells[c] {
      GroupColumns(rows, k, c);
      ArgMaxOfNewest(rows, k, c);
    }
  }

  /** No version of the key loses a column an older version had, unless it is a delete. */
  ghost predicate NeverNulled(rows: seq<Row>, k: int) {
    forall a, b, c: nat ::
      a in rows && b in rows && a.key == b.key == k && a.version <= b.version && !b.deleted && Cell(a, c).Some?
      ==> Cell(b, c).Some?
  }

  lemma GroupStagesNewest(rows: seq<Row>, k: int)
    requires NeverNulled(rows, k)
    requires Newest(rows, k).Some? && !Newest(rows, k).value.deleted
    ensures Group(rows, k) == Some(StageRow(Newest(rows, k).value))
  {
    var n := Newest(rows, k).value;
    forall c | 0 <= c < |n.cells| ensures ArgMaxCell(rows, k, c) == n.cells[c] {
      ArgMaxReadsNewestIff(rows, k, c);
    }
    assert Group(rows, k).value.cells == n.cells;
  }

  /** When no version of a key loses a column, background merges never change what the model stages for it,
      however many there are and whichever parts they pick. */
  lemma MergesKeepStaging(layout: Layout, parts: seq<Part>, merges: seq<MergeStep>, k: int)
    requires UniqueVersions(AllRows(parts), k) && NeverNulled(AllRows(parts), k)
    ensures Group(AllRows(RunMerges(layout, parts, merges)), k) == Group(AllRows(parts), k)
  {
    var before, after := AllRows(parts), AllRows(RunMerges(layout, parts, merges));
    MergesCover(layout, parts, merges);
    CoversKeepsNewest(layout, before, after, k);
    if Newest(before, k).Some? && !Newest(before, k).value.deleted {
      GroupStagesNewest(before, k);
      GroupStagesNewest(after, k);
    }
  }

  /** The grouping keys, in order of first appearance. */
  function Keys(rows: seq<Row>): (ks: seq<int>)
    ensures forall k :: k in ks <==> exists r :: r in rows && r.key == k
    ensures forall i, j :: 0 <= i < j < |ks| ==> ks[i] != ks[j]
  {
    if rows == [] then []
    else
      var before, k := Keys(rows[..|rows| - 1]), rows[|rows| - 1].key;
      assert forall r :: r in rows <==> r in rows[..|rows| - 1] || r == rows[|rows| - 1];
      if k in before then before else before + [k]
  }

  function Groups(rows: seq<Row>, ks: seq<int>): (b: seq<Staged>)
    ensures forall s :: s in b ==> s.transactionId in ks && Group(rows, s.transactionId) == Some(s)
    ensures forall k :: k in ks && Group(rows, k).Some? ==> Group(rows, k).value in b
  {
    if ks == [] then []
    else Groups(rows, ks[..|ks| - 1]) + match Group(rows, ks[|ks| - 1]) case None => [] case Some(s) => [s]
  }

  /** The full-refresh result, and over a window the incremental batch. */
  function Batch(rows: seq<Row>): seq<Staged> {
    Groups(rows, Keys(rows))
  }

  // ---------------------------------------------------------------------------------------------
  // The stored relation: delete+insert on transaction_id
  // ---------------------------------------------------------------------------------------------

  function Lookup(model: seq<Staged>, k: int): (s: Option<Staged>)
    ensures s.None? <==> forall x :: x in model ==> x.transactionId != k
    ensures s.Some? ==> s.value in model && s.value.transactionId == k
  {
    if model == [] then None
    else if model[0].transactionId == k then Some(model[0])
    else Lookup(model[1..], k)
  }

  ghost predicate UniqueIds(model: seq<Staged>) {
    forall i, j :: 0 <= i < j < |model| ==> model[i].transactionId != model[j].transactionId
  }

  lemma LookupUnique(model: seq<Staged>, s: Staged)
    requires UniqueIds(model) && s in model
    ensures Lookup(model, s.transactionId) == Some(s)
  {
    var l := Lookup(model, s.transactionId).value;
    var i :| 0 <= i < |model| && model[i] == s;
    var j :| 0 <= j < |model| && model[j] == l;
  }

  lemma {:induction false} GroupsUnique(rows: seq<Row>, ks: seq<int>)
    requires forall i, j :: 0 <= i < j < |ks| ==> ks[i] != ks[j]
    ensures UniqueIds(Groups(rows, ks))
  {
    if ks != [] {
      var before, k := Groups(rows, ks[..|ks| - 1]), ks[|ks| - 1];
      GroupsUnique(rows, ks[..|ks| - 1]);
      assert k !in ks[..|ks| - 1];
      assert forall i :: 0 <= i < |before| ==> before[i] in before;
    }
  }

  /** The batch holds each live key of the rows once, with its group, and nothing else. */
  lemma BatchIsGroups(rows: seq<Row>, k: int)
    ensures UniqueIds(Batch(rows))
    ensures Lookup(Batch(rows), k) == Group(rows, k)
  {
    GroupsUnique(rows, Keys(rows));
    if Group(rows, k).Some? {
      assert Newest(rows, k).value in rows;
      LookupUnique(Batch(rows), Group(rows, k).value);
    }
  }

  function Keep(model: seq<Staged>, batch: seq<Staged>): (kept: seq<Staged>)
    ensures forall s :: s in kept <==> s in model && Lookup(batch, s.transactionId).None?
  {
    if model == [] then []
    else
      (if Lookup(batch, model[0].transactionId).None? then [model[0]] else []) + Keep(model[1..], batch)
  }

  function DeleteInsert(model: seq<Staged>, batch: seq<Staged>): seq<Staged> {
    Keep(model, batch) + batch
  }

  lemma {:induction false} KeepUnique(model: seq<Staged>, batch: seq<Staged>)
    requires UniqueIds(model)
    ensures UniqueIds(Keep(model, batch))
  {
    if model != [] {
      KeepUnique(model[1..], batch);
    }
  }

  /** delete+insert overrides exactly the keys of the batch and keeps transaction_id unique. */
  lemma DeleteInsertOverrides(model: seq<Staged>, batch: seq<Staged>, k: int)
    requires UniqueIds(model) && UniqueIds(batch)
    ensures UniqueIds(DeleteInsert(model, batch))
    ensures Lookup(DeleteInsert(model, batch), k) ==
              if Lookup(batch, k).Some? then Lookup(batch, k) else Lookup(model, k)
  {
    KeepUnique(model, batch);
    var kept, all := Keep(model, batch), DeleteInsert(model, batch);
    assert UniqueIds(all) by {
      forall i, j | 0 <= i < j < |all| ensures all[i].transactionId != all[j].transactionId {
        if i < |kept| <= j {
          assert all[i] in kept && all[j] in batch;
        }
      }
    }
    if Lookup(batch, k).Some? {
      LookupUnique(all, Lookup(batch, k).value);
    } else if Lookup(model, k).Some? {
      LookupUnique(all, Lookup(model, k).value);
    }
  }

  /** max over the relation, or the epoch when it is empty. */
  function Watermark(model: seq<Staged>): (w: int)
    ensures model == [] ==> w == 0
    ensures model != [] ==> exists s :: s in model && s.commitAt == w
    ensures forall s :: s in model ==> s.commitAt <= w
  {
    if model == [] then 0
    else if |model| == 1 then model[0].commitAt
    else
      var w := Watermark(model[1..]);
      if model[0].commitAt > w then model[0].commitAt else w
  }

  function Threshold(model: seq<Staged>): int {
    Watermark(model) - LOOKBACK_MS
  }

  /** One dbt run of the model: a full build the first time, then the lookback window. */
  function StageRun(model: Option<seq<Staged>>, raw: seq<Row>): seq<Staged> {
    match model
    case None => Batch(raw)
    case Some(m) => DeleteInsert(m, Batch(Window(raw, Threshold(m))))
  }

  // ---------------------------------------------------------------------------------------------
  // One run
  // ---------------------------------------------------------------------------------------------

  /** What one incremental run leaves for key k, exactly.  A live key inside the window is overridden by its
      group over the window, which carries its newest row; any other key is left alone. */
  lemma RunEffect(model: seq<Staged>, raw: seq<Row>, k: int)
    requires UniqueIds(model) && Aligned(raw, k)
    ensures UniqueIds(StageRun(Some(model), raw))
    ensures
      var n, t := Newest(raw, k), Threshold(model);
      var staged := Lookup(StageRun(Some(model), raw), k);
      if n.Some? && !n.value.deleted && n.value.commitAt >= t
      then staged == Group(Window(raw, t), k) && staged.Some? && Carries(staged.value, n.value)
      else staged == Lookup(model, k)
  {
    var t := Threshold(model);
    BatchIsGroups(Window(raw, t), k);
    DeleteInsertOverrides(model, Batch(Window(raw, t)), k);
    WindowKeepsNewest(raw, t, k);
    if Newest(Window(raw, t), k).Some? && !Newest(raw, k).value.deleted {
      GroupCarriesNewest(Window(raw, t), k);
    }
  }

  /** The staged row holds, field by field, what the row says; a column NULL there may hold something else. */
  ghost predicate ShowsRow(staged: Option<Staged>, n: Row) {
    && staged.Some? && staged.value.transactionId == n.key
    && staged.value.loanId == n.loanId && staged.value.date == n.date
    && staged.value.commitAt == n.commitAt && staged.value.version == n.version
    && |staged.value.cells| == |n.cells|
    && forall c :: 0 <= c < |n.cells| && n.cells[c].Some? ==> staged.value.cells[c] == n.cells[c]
  }

  /** The lookback in plain hours: a live key whose newest version was committed no more than 48 hours before every
      staged row is staged again; one committed earlier than that, by the newest staged row, is left as it was. */
  lemma LookbackIs48Hours(model: seq<Staged>, raw: seq<Row>, k: int)
    requires model != [] && UniqueIds(model) && Aligned(raw, k)
    requires Newest(raw, k).Some? && !Newest(raw, k).value.deleted
    ensures
      var n, staged := Newest(raw, k).value, Lookup(StageRun(Some(model), raw), k);
      && ((forall s :: s in model ==> n.commitAt >= s.commitAt - 172_800_000) ==> ShowsRow(staged, n))
      && ((exists s :: s in model && n.commitAt < s.commitAt - 172_800_000) ==> staged == Lookup(model, k))
  {
    RunEffect(model, raw, k);
  }

  /** Over an empty relation the lookback counts from the epoch. */
  lemma EmptyLookback(raw: seq<Row>, k: int)
    requires Aligned(raw, k) && Newest(raw, k).Some? && !Newest(raw, k).value.deleted
    ensures
      var n, staged := Newest(raw, k).value, Lookup(StageRun(Some([]), raw), k);
      if n.commitAt >= -172_800_000 then ShowsRow(staged, n) else staged == None
  {
    RunEffect([], raw, k);
  }

  /** The first build stages every live key, however old. */
  lemma FirstBuildStagesAll(raw: seq<Row>, k: int)
    ensures
      var n, staged := Newest(raw, k), Lookup(StageRun(None, raw), k);
      if n.Some? && !n.value.deleted then ShowsRow(staged, n.value) else staged == None
  {
    BatchIsGroups(raw, k);
    if Newest(raw, k).Some? && !Newest(raw, k).value.deleted {
      GroupCarriesNewest(raw, k);
    }
  }

  /** The version argMax reads a column from is inside the window, or no version has the column. */
  ghost predicate ColumnInWindow(rows: seq<Row>, t: int, k: int, c: nat) {
    ArgMaxEntry(rows, k, c).None? || ArgMaxEntry(rows, k, c).value.0 >= t
  }

  lemma GroupInWindowIff(rows: seq<Row>, t: int, k: int)
    requires Aligned(rows, k)
    requires Newest(rows, k).Some? && !Newest(rows, k).value.deleted && Newest(rows, k).value.commitAt >= t
    ensures Group(Window(rows, t), k) == Group(rows, k) <==>
              forall c: nat :: c < |Newest(rows, k).value.cells| ==> ColumnInWindow(rows, t, k, c)
  {
    var n := Newest(rows, k).value;
    WindowKeepsNewest(rows, t, k);
    var windowed, full := Group(Window(rows, t), k).value, Group(rows, k).value;
    forall c: nat | c < |n.cells| ensures windowed.cells[c] == full.cells[c] <==> ColumnInWindow(rows, t, k, c) {
      WindowArgMax(rows, t, k, c);
    }
    assert (forall c: nat :: c < |n.cells| ==> windowed.cells[c] == full.cells[c]) ==> windowed.cells == full.cells;
  }

  /** When an incremental run agrees with a full refresh on key k, with no hypothesis on NULLs.  A live key in
      the window: exactly when argMax reads each column from inside it.  A live key outside: exactly when the
      full result is staged already.  Any other key: exactly when it was never staged, so a deleted key that
      was survives every run. */
  lemma RunIsFullRefreshIff(model: seq<Staged>, raw: seq<Row>, k: int)
    requires UniqueIds(model) && Aligned(raw, k)
    ensures
      var n, t := Newest(raw, k), Threshold(model);
      Lookup(StageRun(Some(model), raw), k) == Lookup(StageRun(None, raw), k) <==>
        if n.None? || n.value.deleted then Lookup(model, k).None?
        else if n.value.commitAt >= t then forall c: nat :: c < |n.value.cells| ==> ColumnInWindow(raw, t, k, c)
        else Lookup(model, k) == Group(raw, k)
  {
    RunEffect(model, raw, k);
    BatchIsGroups(raw, k);
    var n := Newest(raw, k);
    if n.Some? && !n.value.deleted && n.value.commitAt >= Threshold(model) {
      GroupInWindowIff(raw, Threshold(model), k);
    }
  }

  lemma StagedGroups(model: seq<Staged>, raw: seq<Row>, k: int)
    requires UniqueIds(model) && Group(Window(raw, Threshold(model)), k).Some?
    ensures Lookup(StageRun(Some(model), raw), k) == Group(Window(raw, Threshold(model)), k)
    ensures Lookup(StageRun(None, raw), k) == Group(raw, k)
  {
    var w := Window(raw, Threshold(model));
    BatchIsGroups(raw, k);
    BatchIsGroups(w, k);
    DeleteInsertOverrides(model, Batch(w), k);
  }

  /** Column by column, for a live key in the window: the incremental row and the full-refresh row
      agree but for nullable columns, and on one of those exactly when no version has a value or the version
      argMax reads on the whole table is in the window too. */
  lemma WindowedColumnsIff(model: seq<Staged>, raw: seq<Row>, k: int, c: nat)
    requires UniqueIds(model) && Aligned(raw, k)
    requires Newest(raw, k).Some? && !Newest(raw, k).value.deleted
    requires Newest(raw, k).value.commitAt >= Threshold(model) && c < |Newest(raw, k).value.cells|
    ensures
      var incremental, full := Lookup(StageRun(Some(model), raw), k), Lookup(StageRun(None, raw), k);
      && incremental.Some? && full.Some?
      && incremental.value.(cells := []) == full.value.(cells := []) == StageRow(Newest(raw, k).value).(cells := [])
      && |incremental.value.cells| == |full.value.cells| == |Newest(raw, k).value.cells|
      && (incremental.value.cells[c] == full.value.cells[c] <==> ColumnInWindow(raw, Threshold(model), k, c))
  {
    var t := Threshold(model);
    WindowKeepsNewest(raw, t, k);
    GroupColumns(raw, k, c);
    GroupColumns(Window(raw, t), k, c);
    StagedGroups(model, raw, k);
    WindowArgMax(raw, t, k, c);
    assert ArgMaxCell(Window(raw, t), k, c) == ArgMaxCell(raw, k, c) <==> ColumnInWindow(raw, t, k, c);
  }

  // ---------------------------------------------------------------------------------------------
  // The stored model
  // ---------------------------------------------------------------------------------------------

  /** The dbt relation: absent until the first build. */
  class LedgerModel {
    var relation: Option<seq<Staged>>

    constructor ()
      ensures relation == None
    {
      relation := None;
    }

    /** dbt run: stage the window and delete+insert it, or build from scratch. */
    method Build(raw: seq<Row>)
      modifies this
      ensures relation == Some(StageRun(old(relation), raw))
    {
      var source := raw;
      if relation.Some? {
        var t := Threshold(relation.value);
        source := Window(raw, t);
      }
      var batch := StageGroups(source);
      if relation.Some? {
        relation := Some(DeleteInsert(relation.value, batch));
      } else {
        relation := Some(batch);
      }
    }

    /** GROUP BY transaction_id over the source rows, deleted keys dropped. */
    static method StageGroups(rows: seq<Row>) returns (batch: seq<Staged>)
      ensures batch == Batch(rows)
    {
      var ks: seq<int> := [];
      for n := 0 to |rows|
        invariant ks == Keys(rows[..n])
      {
        assert rows[..n + 1][..n] == rows[..n];
        if rows[n].key !in ks {
          ks := ks + [rows[n].key];
        }
      }
      assert rows[..|rows|] == rows;
      batch := [];
      for n := 0 to |ks|
        invariant batch == Groups(rows, ks[..n])
      {
        assert ks[..n + 1][..n] == ks[..n];
        var g := Group(rows, ks[n]);
        if g.Some? {
          batch := batch + [g.value];
        }
      }
      assert ks[..|ks|] == ks;
    }
  }
}
