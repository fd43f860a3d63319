/** The CDC landing tables (platform/clickhouse/init/03_raw_tables.sql).

    A raw table is a list of immutable parts.  Inserts append parts and background merges replace
    a set of parts of one partition by their collapse: for every sort key the row with the highest
    `_version`, ties going to the row inserted last.  Deleted rows stay as tombstones. */
module RawTables {
  import opened Wrappers

  datatype Row = Row(
    key: int,
    loanId: int,
    date: int,
    cells: seq<Option<string>>,
    commitAt: int,
    lsn: int,
    version: nat,
    deleted: bool)

  /** ORDER BY and PARTITION BY.  Dimension tables are sorted by their natural key and have one
      partition; the ledger is sorted by (transaction_date, loan_id, transaction_id) and partitioned
      by the month of transaction_date, whatever the calendar is. */
  datatype Layout = Dimension | Ledger(month: int -> int)

  datatype SortKey = SortKey(date: int, loanId: int, key: int)

  function SortKeyOf(layout: Layout, r: Row): SortKey {
    if layout.Dimension? then SortKey(0, 0, r.key) else SortKey(r.date, r.loanId, r.key)
  }

  function PartitionOf(layout: Layout, r: Row): int {
    if layout.Dimension? then 0 else layout.month(r.date)
  }

  predicate SameSlot(layout: Layout, a: Row, b: Row) {
    SortKeyOf(layout, a) == SortKeyOf(layout, b)
  }

  // ---------------------------------------------------------------------------------------------
  // Collapse
  // ---------------------------------------------------------------------------------------------

  function Without(layout: Layout, rows: seq<Row>, r: Row): (rest: seq<Row>)
    ensures forall q :: q in rest <==> q in rows && !SameSlot(layout, q, r)
  {
    if rows == [] then []
    else (if SameSlot(layout, rows[0], r) then [] else [rows[0]]) + Without(layout, rows[1..], r)
  }

  function Absorb(layout: Layout, kept: seq<Row>, r: Row): seq<Row> {
    if exists q | q in kept :: SameSlot(layout, q, r) && q.version > r.version then kept
    else Without(layout, kept, r) + [r]
  }

  function Collapse(layout: Layout, rows: seq<Row>): seq<Row> {
    if rows == [] then []
    else Absorb(layout, Collapse(layout, rows[..|rows| - 1]), rows[|rows| - 1])
  }

  /** Row i is the survivor of its sort key: no row of the key has a higher version, and none
      inserted later has the same one. */
  ghost predicate Survivor(layout: Layout, rows: seq<Row>, i: int) {
    && 0 <= i < |rows|
    && forall j :: 0 <= j < |rows| ==> Yields(layout, rows[j], j, rows[i], i)
  }

  predicate Yields(layout: Layout, loser: Row, j: int, winner: Row, i: int) {
    SameSlot(layout, loser, winner) ==>
      loser.version < winner.version || (loser.version == winner.version && j <= i)
  }

  ghost predicate Survives(layout: Layout, rows: seq<Row>, r: Row) {
    exists i :: Survivor(layout, rows, i) && rows[i] == r
  }

  lemma {:induction false} CollapseSubset(layout: Layout, rows: seq<Row>)
    ensures forall r :: r in Collapse(layout, rows) ==> r in rows
  {
    if rows != [] {
      CollapseSubset(layout, rows[..|rows| - 1]);
    }
  }

  /** Some kept row of the sort key has at least the version of row i. */
  lemma {:induction false} CollapseDominates(layout: Layout, rows: seq<Row>, i: int) returns (q: Row)
    requires 0 <= i < |rows|
    ensures q in Collapse(layout, rows) && SameSlot(layout, q, rows[i]) && q.version >= rows[i].version
  {
    var x := rows[|rows| - 1];
    var kept := Collapse(layout, rows[..|rows| - 1]);
    if i == |rows| - 1 {
      q := x;
    } else {
      q := CollapseDominates(layout, rows[..|rows| - 1], i);
    }
    if exists p | p in kept :: SameSlot(layout, p, x) && p.version > x.version {
      if i == |rows| - 1 {
        q :| q in kept && SameSlot(layout, q, x) && q.version > x.version;
      }
    } else if SameSlot(layout, q, x) {
      q := x;
    }
  }

  /** The collapse holds one row per sort key. */
  lemma {:induction false} CollapseOnePerSlot(layout: Layout, rows: seq<Row>, a: Row, b: Row)
    requires a in Collapse(layout, rows) && b in Collapse(layout, rows) && SameSlot(layout, a, b)
    ensures a == b
  {
    var init, x := rows[..|rows| - 1], rows[|rows| - 1];
    var kept := Collapse(layout, init);
    if a in kept && b in kept {
      CollapseOnePerSlot(layout, init, a, b);
    }
  }

  lemma SurvivorExtends(layout: Layout, init: seq<Row>, x: Row, i: int)
    requires Survivor(layout, init, i)
    requires SameSlot(layout, init[i], x) ==> init[i].version > x.version
    ensures Survivor(layout, init + [x], i)
  {
  }

  lemma LastSurvives(layout: Layout, init: seq<Row>, x: Row)
    requires forall q :: q in Collapse(layout, init) && SameSlot(layout, q, x) ==> q.version <= x.version
    ensures Survivor(layout, init + [x], |init|)
  {
    forall j | 0 <= j < |init| ensures Yields(layout, init[j], j, x, |init|) {
      var q := CollapseDominates(layout, init, j);
    }
  }

  lemma {:induction false} CollapseSurvives(layout: Layout, rows: seq<Row>, r: Row)
    requires r in Collapse(layout, rows)
    ensures Survives(layout, rows, r)
  {
    var n := |rows| - 1;
    var init, x := rows[..n], rows[n];
    var kept := Collapse(layout, init);
    assert rows == init + [x];
    if r in kept && (SameSlot(layout, r, x) ==> r.version > x.version) {
      CollapseSurvives(layout, init, r);
      var i :| Survivor(layout, init, i) && init[i] == r;
      SurvivorExtends(layout, init, x, i);
    } else {
      forall p | p in kept && SameSlot(layout, p, x) ensures p.version <= x.version {
        if r in kept {
          CollapseOnePerSlot(layout, init, p, r);
        }
      }
      LastSurvives(layout, init, x);
    }
  }

  /** The collapse keeps exactly the survivors. */
  lemma CollapseKeepsSurvivors(layout: Layout, rows: seq<Row>, r: Row)
    ensures r in Collapse(layout, rows) <==> Survives(layout, rows, r)
  {
    if r in Collapse(layout, rows) {
      CollapseSurvives(layout, rows, r);
    }
    if Survives(layout, rows, r) {
      var i :| Survivor(layout, rows, i) && rows[i] == r;
      var q := CollapseDominates(layout, rows, i);
      CollapseSurvives(layout, rows, q);
      var k :| Survivor(layout, rows, k) && rows[k] == q;
      assert k == i;
    }
  }

  // ---------------------------------------------------------------------------------------------
  // Parts
  // ---------------------------------------------------------------------------------------------

  datatype Part = Part(partition: int, rows: seq<Row>)

  function AllRows(parts: seq<Part>): seq<Row> {
    if parts == [] then [] else parts[0].rows + AllRows(parts[1..])
  }

  lemma {:induction false} AllRowsAppend(a: seq<Part>, b: seq<Part>)
    ensures AllRows(a + b) == AllRows(a) + AllRows(b)
  {
    if a == [] {
      assert a + b == b;
    } else {
      AllRowsAppend(a[1..], b);
      assert (a + b)[1..] == a[1..] + b && (a + b)[0] == a[0];
      assert a[0].rows + (AllRows(a[1..]) + AllRows(b)) == (a[0].rows + AllRows(a[1..])) + AllRows(b);
    }
  }

  function Inside(layout: Layout, p: int, block: seq<Row>): (r: seq<Row>)
    ensures forall x :: x in r <==> x in block && PartitionOf(layout, x) == p
  {
    if block == [] then []
    else if PartitionOf(layout, block[0]) == p then [block[0]] + Inside(layout, p, block[1..])
    else Inside(layout, p, block[1..])
  }

  function Outside(layout: Layout, p: int, block: seq<Row>): (r: seq<Row>)
    ensures forall x :: x in r <==> x in block && PartitionOf(layout, x) != p
    ensures |r| <= |block|
  {
    if block == [] then []
    else if PartitionOf(layout, block[0]) != p then [block[0]] + Outside(layout, p, block[1..])
    else Outside(layout, p, block[1..])
  }

  /** An inserted block becomes one part per partition it touches. */
  function Split(layout: Layout, block: seq<Row>): seq<Part>
    decreases |block|
  {
    if block == [] then []
    else
      var p := PartitionOf(layout, block[0]);
      [Part(p, Inside(layout, p, block))] + Split(layout, Outside(layout, p, block))
  }

  lemma SplitFirst(layout: Layout, added: seq<Part>, block: seq<Row>)
    requires block != []
    ensures
      var p := PartitionOf(layout, block[0]);
      added + Split(layout, block) ==
      (added + [Part(p, Inside(layout, p, block))]) + Split(layout, Outside(layout, p, block))
  {
    var p := PartitionOf(layout, block[0]);
    var part, others := Part(p, Inside(layout, p, block)), Split(layout, Outside(layout, p, block));
    assert added + ([part] + others) == (added + [part]) + others;
  }

  lemma {:induction false} SplitKeepsRows(layout: Layout, block: seq<Row>)
    ensures forall r :: r in AllRows(Split(layout, block)) <==> r in block
    ensures PartsWellFormed(layout, Split(layout, block))
    decreases |block|
  {
    if block != [] {
      var p := PartitionOf(layout, block[0]);
      SplitKeepsRows(layout, Outside(layout, p, block));
      assert Split(layout, block)[1..] == Split(layout, Outside(layout, p, block));
    }
  }

  lemma InsertAddsRows(layout: Layout, parts: seq<Part>, block: seq<Row>, r: Row)
    ensures r in AllRows(parts + Split(layout, block)) <==> r in AllRows(parts) || r in block
  {
    SplitKeepsRows(layout, block);
    AllRowsAppend(parts, Split(layout, block));
  }

  /** A part holds rows of its own partition only. */
  ghost predicate PartsWellFormed(layout: Layout, parts: seq<Part>) {
    forall i, r :: 0 <= i < |parts| && r in parts[i].rows ==> PartitionOf(layout, r) == parts[i].partition
  }

  function Picked(parts: seq<Part>, chosen: set<nat>, n: nat): seq<Row>
    requires n <= |parts|
  {
    if n == 0 then []
    else if n - 1 in chosen then Picked(parts, chosen, n - 1) + parts[n - 1].rows
    else Picked(parts, chosen, n - 1)
  }

  function Unpicked(parts: seq<Part>, chosen: set<nat>, n: nat): seq<Part>
    requires n <= |parts|
  {
    if n == 0 then []
    else if n - 1 in chosen then Unpicked(parts, chosen, n - 1)
    else Unpicked(parts, chosen, n - 1) + [parts[n - 1]]
  }

  /** Merges run inside one partition. */
  predicate Mergeable(parts: seq<Part>, p: int, chosen: set<nat>) {
    && chosen != {}
    && forall i | i in chosen :: i < |parts| && parts[i].partition == p
  }

  function MergeParts(layout: Layout, parts: seq<Part>, p: int, chosen: set<nat>): seq<Part> {
    Unpicked(parts, chosen, |parts|) + [Part(p, Collapse(layout, Picked(parts, chosen, |parts|)))]
  }

  lemma AllRowsPush(parts: seq<Part>, p: Part, r: Row)
    ensures r in AllRows(parts + [p]) <==> r in AllRows(parts) || r in p.rows
  {
    AllRowsAppend(parts, [p]);
    assert [p][1..] == [];
    assert AllRows([p]) == p.rows;
  }

  lemma {:induction false} PickedOrNot(parts: seq<Part>, chosen: set<nat>, n: nat, r: Row)
    requires n <= |parts|
    ensures r in AllRows(parts[..n]) <==>
              r in Picked(parts, chosen, n) || r in AllRows(Unpicked(parts, chosen, n))
  {
    if n > 0 {
      var last := parts[n - 1];
      PickedOrNot(parts, chosen, n - 1, r);
      assert parts[..n] == parts[..n - 1] + [last];
      AllRowsPush(parts[..n - 1], last, r);
      if n - 1 !in chosen {
        AllRowsPush(Unpicked(parts, chosen, n - 1), last, r);
      }
    }
  }

  // ---------------------------------------------------------------------------------------------
  // What inserts and merges keep
  // ---------------------------------------------------------------------------------------------

  /** `after` invents no row, and every row of `before` is matched there, on its own sort key, by a
      row of at least its version. */
  ghost predicate Covers(layout: Layout, before: seq<Row>, after: seq<Row>) {
    && (forall r :: r in after ==> r in before)
    && (forall d {:trigger Covered(layout, d, after)} :: d in before ==> Covered(layout, d, after))
  }

  ghost predicate Covered(layout: Layout, d: Row, rows: seq<Row>) {
    exists r :: r in rows && SameSlot(layout, r, d) && r.version >= d.version
  }

  lemma CollapseCovers(layout: Layout, rows: seq<Row>)
    ensures Covers(layout, rows, Collapse(layout, rows))
  {
    CollapseSubset(layout, rows);
    forall d | d in rows ensures Covered(layout, d, Collapse(layout, rows)) {
      var i :| 0 <= i < |rows| && rows[i] == d;
      var q := CollapseDominates(layout, rows, i);
    }
  }

  /** Merging any set of parts of a partition covers the table: a background merge loses only rows
      that a newer version of the same sort key supersedes. */
  lemma MergeCovers(layout: Layout, parts: seq<Part>, p: int, chosen: set<nat>)
    ensures Covers(layout, AllRows(parts), AllRows(MergeParts(layout, parts, p, chosen)))
  {
    var picked, left := Picked(parts, chosen, |parts|), Unpicked(parts, chosen, |parts|);
    var merged := Part(p, Collapse(layout, picked));
    AllRowsAppend(left, [merged]);
    assert AllRows([merged]) == merged.rows;
    CollapseCovers(layout, picked);
    assert parts[..|parts|] == parts;
    forall r ensures r in AllRows(parts) <==> r in picked || r in AllRows(left) {
      PickedOrNot(parts, chosen, |parts|, r);
    }
    forall d | d in AllRows(parts) ensures Covered(layout, d, AllRows(left) + merged.rows) {
      if d in picked {
        assert Covered(layout, d, merged.rows);
        var r :| r in merged.rows && SameSlot(layout, r, d) && r.version >= d.version;
        assert r in AllRows(left) + merged.rows;
      } else {
        assert d in AllRows(left) + merged.rows;
      }
    }
  }

  // ---------------------------------------------------------------------------------------------
  // Reading the newest version of a natural key
  // ---------------------------------------------------------------------------------------------

  /** The row of key k with the highest version; among equals, the one inserted last. */
  function Newest(rows: seq<Row>, k: int): (n: Option<Row>)
    ensures n.Some? ==> n.value in rows && n.value.key == k
    ensures forall r :: r in rows && r.key == k ==> n.Some? && r.version <= n.value.version
  {
    if rows == [] then None
    else
      var before, r := Newest(rows[..|rows| - 1], k), rows[|rows| - 1];
      if r.key == k && (before.None? || r.version >= before.value.version) then Some(r) else before
  }

  lemma NewestOfPush(rows: seq<Row>, r: Row, k: int)
    ensures Newest(rows + [r], k) ==
              if r.key == k && (Newest(rows, k).None? || r.version >= Newest(rows, k).value.version)
              then Some(r) else Newest(rows, k)
  {
    assert (rows + [r])[..|rows|] == rows;
  }

  function NewestVersion(rows: seq<Row>, k: int): int {
    match Newest(rows, k) case None => -1 case Some(r) => r.version
  }

  /** No two different rows of the key carry the same version. */
  ghost predicate UniqueVersions(rows: seq<Row>, k: int) {
    forall a, b :: a in rows && b in rows && a.key == b.key == k && a.version == b.version ==> a == b
  }

  lemma CoversKeepsNewest(layout: Layout, before: seq<Row>, after: seq<Row>, k: int)
    requires Covers(layout, before, after)
    ensures NewestVersion(after, k) == NewestVersion(before, k)
    ensures UniqueVersions(before, k) ==> Newest(after, k) == Newest(before, k)
  {
    match Newest(before, k)
    case None =>
    case Some(r) =>
      assert Covered(layout, r, after);
  }

  /** Merge invariance of the per-key collapse. */
  lemma MergeKeepsNewest(layout: Layout, parts: seq<Part>, p: int, chosen: set<nat>, k: int)
    requires UniqueVersions(AllRows(parts), k)
    ensures Newest(AllRows(MergeParts(layout, parts, p, chosen)), k) == Newest(AllRows(parts), k)
  {
    MergeCovers(layout, parts, p, chosen);
    CoversKeepsNewest(layout, AllRows(parts), AllRows(MergeParts(layout, parts, p, chosen)), k);
  }

  /** What OPTIMIZE ... FINAL CLEANUP would leave: the collapse without its tombstones. */
  function CleanedUp(layout: Layout, rows: seq<Row>): (live: seq<Row>)
    ensures forall r :: r in live <==> r in Collapse(layout, rows) && !r.deleted
  {
    Live(Collapse(layout, rows))
  }

  function Live(rows: seq<Row>): (live: seq<Row>)
    ensures forall r :: r in live <==> r in rows && !r.deleted
  {
    if rows == [] then [] else (if rows[0].deleted then [] else [rows[0]]) + Live(rows[1..])
  }

  /** Why tombstones must stay: for a deleted key, an older live row delivered late is read as deleted after any
      ordinary collapse, and is read as live after a cleaning one. */
  lemma CleanupWouldResurrect(layout: Layout, rows: seq<Row>, late: Row)
    requires Newest(rows, late.key).Some? && OneSlot(layout, rows, late.key)
    requires Newest(rows, late.key).value.deleted && late.version < Newest(rows, late.key).value.version
    requires !late.deleted && UniqueVersions(rows, late.key)
    ensures Newest(Collapse(layout, rows) + [late], late.key) == Newest(rows, late.key)
    ensures Newest(CleanedUp(layout, rows) + [late], late.key) == Some(late)
  {
    var k, kept, cleaned := late.key, Collapse(layout, rows), CleanedUp(layout, rows);
    CollapseCovers(layout, rows);
    CoversKeepsNewest(layout, rows, kept, k);
    NewestOfPush(kept, late, k);
    NewestOfPush(cleaned, late, k);
    forall r | r in kept && r.key == k ensures r.deleted {
      CollapseOnePerSlot(layout, rows, r, Newest(kept, k).value);
    }
  }

  // ---------------------------------------------------------------------------------------------
  // FINAL
  // ---------------------------------------------------------------------------------------------

  /** `SELECT * FROM t FINAL WHERE _is_deleted = 0`: merge-on-read over every part. */
  ghost predicate InFinal(layout: Layout, rows: seq<Row>, r: Row) {
    r in Collapse(layout, rows) && !r.deleted
  }

  lemma {:induction false} NewestInCollapse(rows: seq<Row>, k: int)
    ensures Newest(rows, k).Some? ==> Newest(rows, k).value in Collapse(Dimension, rows)
  {
    if rows != [] {
      var init := rows[..|rows| - 1];
      NewestInCollapse(init, k);
      CollapseSubset(Dimension, init);
    }
  }

  /** On a dimension table FINAL returns, per key, its newest row if that is live, and nothing else. */
  lemma FinalReadsNewest(rows: seq<Row>, r: Row)
    ensures InFinal(Dimension, rows, r) <==> Newest(rows, r.key) == Some(r) && !r.deleted
  {
    NewestInCollapse(rows, r.key);
    if r in Collapse(Dimension, rows) {
      CollapseSubset(Dimension, rows);
      CollapseOnePerSlot(Dimension, rows, Newest(rows, r.key).value, r);
    }
  }

  /** Every row of the key sits on one sort key: a transaction never changes date or loan. */
  ghost predicate OneSlot(layout: Layout, rows: seq<Row>, k: int) {
    forall a, b :: a in rows && b in rows && a.key == b.key == k ==> SameSlot(layout, a, b)
  }

  ghost predicate OneRow(rows: seq<Row>, k: int) {
    forall a, b :: a in rows && b in rows && a.key == b.key == k ==> a == b
  }

  /** On any layout FINAL collapses a key to a single row exactly when all its rows share a sort key.
      On the ledger an edited date or loan leaves two rows of one transaction behind. */
  lemma FinalCollapsesIff(layout: Layout, rows: seq<Row>, k: int)
    ensures OneSlot(layout, rows, k) <==>
              OneRow(Collapse(layout, rows), k)
  {
    CollapseCovers(layout, rows);
    forall a, b | OneSlot(layout, rows, k) && a in Collapse(layout, rows) && b in Collapse(layout, rows)
      && a.key == b.key == k
      ensures a == b
    {
      CollapseOnePerSlot(layout, rows, a, b);
    }
    if x, y :| x in rows && y in rows && x.key == y.key == k && !SameSlot(layout, x, y) {
      assert Covered(layout, x, Collapse(layout, rows)) && Covered(layout, y, Collapse(layout, rows));
    }
  }

  /** No version of the key changed its date or its loan. */
  ghost predicate SameDateAndLoan(rows: seq<Row>, k: int) {
    forall a, b :: a in rows && b in rows && a.key == b.key == k ==> a.date == b.date && a.loanId == b.loanId
  }

  lemma LedgerSlotIff(month: int -> int, rows: seq<Row>, k: int)
    ensures OneSlot(Ledger(month), rows, k) <==> SameDateAndLoan(rows, k)
    ensures OneSlot(Dimension, rows, k)
  {
    if SameDateAndLoan(rows, k) {
      forall a, b | a in rows && b in rows && a.key == b.key == k ensures SameSlot(Ledger(month), a, b) {
      }
    }
  }

  /** On the ledger that is when no version of the transaction changed its date or its loan; on a dimension table FINAL
      always leaves one row. */
  lemma LedgerFinalIff(month: int -> int, rows: seq<Row>, k: int)
    ensures OneRow(Collapse(Ledger(month), rows), k) <==> SameDateAndLoan(rows, k)
    ensures OneRow(Collapse(Dimension, rows), k)
  {
    LedgerSlotIff(month, rows, k);
    FinalCollapsesIff(Ledger(month), rows, k);
    FinalCollapsesIff(Dimension, rows, k);
  }

  /** A part of an inserted ledger block holds the rows of one month, and no two parts of the block the same month; of a
      dimension block there is one part. */
  lemma {:induction false} PartsAreMonths(layout: Layout, block: seq<Row>, i: nat, j: nat)
    requires i < |Split(layout, block)| && j < |Split(layout, block)|
    ensures
      var parts := Split(layout, block);
      && parts[i].rows != []
      && (forall r :: r in parts[i].rows ==>
            parts[i].partition == if layout.Dimension? then 0 else layout.month(r.date))
      && (parts[i].partition == parts[j].partition ==> i == j)
    decreases |block|
  {
    var p := PartitionOf(layout, block[0]);
    var rest := Outside(layout, p, block);
    if i > 0 && j > 0 {
      PartsAreMonths(layout, rest, i - 1, j - 1);
    } else if i > 0 {
      PartsAreMonths(layout, rest, i - 1, i - 1);
      PartIsOutside(layout, rest, i - 1, p);
    } else if j > 0 {
      PartIsOutside(layout, rest, j - 1, p);
    }
  }

  lemma PartIsOutside(layout: Layout, block: seq<Row>, i: nat, p: int)
    requires i < |Split(layout, block)| && forall r :: r in block ==> PartitionOf(layout, r) != p
    ensures Split(layout, block)[i].partition != p
  {
    PartHasRow(layout, block, i);
    SplitKeepsRows(layout, block);
    var r := Split(layout, block)[i].rows[0];
    RowOfPart(Split(layout, block), i, r);
  }

  lemma {:induction false} PartHasRow(layout: Layout, block: seq<Row>, i: nat)
    requires i < |Split(layout, block)|
    ensures Split(layout, block)[i].rows != []
    decreases |block|
  {
    if i > 0 {
      PartHasRow(layout, Outside(layout, PartitionOf(layout, block[0]), block), i - 1);
    }
  }

  lemma {:induction false} RowOfPart(parts: seq<Part>, i: nat, r: Row)
    requires i < |parts| && r in parts[i].rows
    ensures r in AllRows(parts)
  {
    if i > 0 {
      RowOfPart(parts[1..], i - 1, r);
    }
  }

  // ---------------------------------------------------------------------------------------------
  // Merge invariance
  // ---------------------------------------------------------------------------------------------

  datatype MergeStep = MergeStep(partition: int, chosen: set<nat>)

  /** Background merges in the order they happen; one that is not possible changes nothing. */
  function RunMerges(layout: Layout, parts: seq<Part>, merges: seq<MergeStep>): seq<Part> {
    if merges == [] then parts
    else
      var before, m := RunMerges(layout, parts, merges[..|merges| - 1]), merges[|merges| - 1];
      if Mergeable(before, m.partition, m.chosen) then MergeParts(layout, before, m.partition, m.chosen) else before
  }

  lemma CoversTransitive(layout: Layout, a: seq<Row>, b: seq<Row>, c: seq<Row>)
    requires Covers(layout, a, b) && Covers(layout, b, c)
    ensures Covers(layout, a, c)
  {
    forall d | d in a ensures Covered(layout, d, c) {
      assert Covered(layout, d, b);
      var r :| r in b && SameSlot(layout, r, d) && r.version >= d.version;
      assert Covered(layout, r, c);
    }
  }

  lemma {:induction false} MergesCover(layout: Layout, parts: seq<Part>, merges: seq<MergeStep>)
    ensures Covers(layout, AllRows(parts), AllRows(RunMerges(layout, parts, merges)))
  {
    if merges == [] {
      forall d | d in AllRows(parts) ensures Covered(layout, d, AllRows(parts)) {
      }
    } else {
      var init, m := merges[..|merges| - 1], merges[|merges| - 1];
      var before := RunMerges(layout, parts, init);
      MergesCover(layout, parts, init);
      if Mergeable(before, m.partition, m.chosen) {
        MergeCovers(layout, before, m.partition, m.chosen);
        CoversTransitive(layout, AllRows(parts), AllRows(before),
                         AllRows(MergeParts(layout, before, m.partition, m.chosen)));
      }
    }
  }

  ghost predicate TopOfSlot(layout: Layout, rows: seq<Row>, r: Row) {
    r in rows && forall q :: q in rows && SameSlot(layout, q, r) ==> q.version <= r.version
  }

  lemma TopSurvives(layout: Layout, rows: seq<Row>, r: Row)
    requires UniqueVersions(rows, r.key)
    ensures r in Collapse(layout, rows) <==> TopOfSlot(layout, rows, r)
  {
    CollapseSubset(layout, rows);
    CollapseKeepsSurvivors(layout, rows, r);
    if r in Collapse(layout, rows) {
      var i :| Survivor(layout, rows, i) && rows[i] == r;
      forall q | q in rows && SameSlot(layout, q, r) ensures q.version <= r.version {
        var j :| 0 <= j < |rows| && rows[j] == q;
        assert Yields(layout, rows[j], j, rows[i], i);
      }
    }
    if TopOfSlot(layout, rows, r) {
      var i :| 0 <= i < |rows| && rows[i] == r;
      var q := CollapseDominates(layout, rows, i);
      assert q.version == r.version;
      SlotsKeepKeys(layout, q, r);
    }
  }

  lemma SlotsKeepKeys(layout: Layout, a: Row, b: Row)
    requires SameSlot(layout, a, b)
    ensures a.key == b.key
  {
  }

  /** Merging any subsets of parts, inside their partitions, in any order and any number of times, changes
      neither the newest row of a key nor what FINAL returns for it, on either layout. */
  lemma MergeInvariance(layout: Layout, parts: seq<Part>, merges: seq<MergeStep>, r: Row)
    requires UniqueVersions(AllRows(parts), r.key)
    ensures
      var before, after := AllRows(parts), AllRows(RunMerges(layout, parts, merges));
      && Newest(after, r.key) == Newest(before, r.key)
      && (InFinal(layout, after, r) <==> InFinal(layout, before, r))
  {
    var before, after := AllRows(parts), AllRows(RunMerges(layout, parts, merges));
    MergesCover(layout, parts, merges);
    CoversKeepsNewest(layout, before, after, r.key);
    TopSurvives(layout, before, r);
    TopSurvives(layout, after, r);
    if TopOfSlot(layout, before, r) {
      assert Covered(layout, r, after);
      var q :| q in after && SameSlot(layout, q, r) && q.version >= r.version;
      SlotsKeepKeys(layout, q, r);
    }
    if TopOfSlot(layout, after, r) {
      forall q | q in before && SameSlot(layout, q, r) ensures q.version <= r.version {
        assert Covered(layout, q, after);
      }
    }
  }

  // ---------------------------------------------------------------------------------------------
  // OPTIMIZE ... FINAL
  // ---------------------------------------------------------------------------------------------

  /** Every part of partition p. */
  function PartsOf(parts: seq<Part>, p: int): set<nat> {
    set i: nat | i < |parts| && parts[i].partition == p
  }

  lemma {:induction false} UnpickedFrom(parts: seq<Part>, chosen: set<nat>, n: nat, r: Row) returns (i: nat)
    requires n <= |parts| && r in AllRows(Unpicked(parts, chosen, n))
    ensures i < n && i !in chosen && r in parts[i].rows
  {
    if n - 1 in chosen {
      i := UnpickedFrom(parts, chosen, n - 1, r);
    } else {
      AllRowsPush(Unpicked(parts, chosen, n - 1), parts[n - 1], r);
      if r in parts[n - 1].rows {
        i := n - 1;
      } else {
        i := UnpickedFrom(parts, chosen, n - 1, r);
      }
    }
  }

  /** Merging every part of a partition collapses all its rows. */
  lemma MergeWholePartition(layout: Layout, parts: seq<Part>, p: int, r: Row)
    requires PartsWellFormed(layout, parts) && PartitionOf(layout, r) == p
    ensures
      var picked := Picked(parts, PartsOf(parts, p), |parts|);
      && (r in picked <==> r in AllRows(parts))
      && (r in AllRows(MergeParts(layout, parts, p, PartsOf(parts, p))) <==> r in Collapse(layout, picked))
  {
    var chosen := PartsOf(parts, p);
    var picked, left := Picked(parts, chosen, |parts|), Unpicked(parts, chosen, |parts|);
    assert parts[..|parts|] == parts;
    PickedOrNot(parts, chosen, |parts|, r);
    if r in AllRows(left) {
      var i := UnpickedFrom(parts, chosen, |parts|, r);
      assert false;
    }
    AllRowsPush(left, Part(p, Collapse(layout, picked)), r);
  }

  /** No two rows of the partition share a sort key. */
  ghost predicate OptimizedIn(layout: Layout, rows: seq<Row>, p: int) {
    forall a, b :: a in rows && b in rows && PartitionOf(layout, a) == p && SameSlot(layout, a, b) ==> a == b
  }

  lemma SlotsKeepPartitions(layout: Layout, a: Row, b: Row)
    requires SameSlot(layout, a, b)
    ensures PartitionOf(layout, a) == PartitionOf(layout, b)
  {
  }

  lemma MergeOptimizes(layout: Layout, parts: seq<Part>, p: int)
    requires PartsWellFormed(layout, parts)
    ensures OptimizedIn(layout, AllRows(MergeParts(layout, parts, p, PartsOf(parts, p))), p)
  {
    var rows := AllRows(MergeParts(layout, parts, p, PartsOf(parts, p)));
    forall a, b | a in rows && b in rows && PartitionOf(layout, a) == p && SameSlot(layout, a, b) ensures a == b {
      SlotsKeepPartitions(layout, a, b);
      MergeWholePartition(layout, parts, p, a);
      MergeWholePartition(layout, parts, p, b);
      CollapseOnePerSlot(layout, Picked(parts, PartsOf(parts, p), |parts|), a, b);
    }
  }

  lemma MergeKeepsWellFormed(layout: Layout, parts: seq<Part>, p: int, chosen: set<nat>)
    requires PartsWellFormed(layout, parts) && Mergeable(parts, p, chosen)
    ensures PartsWellFormed(layout, MergeParts(layout, parts, p, chosen))
  {
    UnpickedWellFormed(layout, parts, chosen, |parts|);
    PickedInside(layout, parts, p, chosen, |parts|);
    CollapseSubset(layout, Picked(parts, chosen, |parts|));
  }

  lemma {:induction false} UnpickedWellFormed(layout: Layout, parts: seq<Part>, chosen: set<nat>, n: nat)
    requires n <= |parts| && PartsWellFormed(layout, parts)
    ensures PartsWellFormed(layout, Unpicked(parts, chosen, n))
  {
    if n > 0 {
      UnpickedWellFormed(layout, parts, chosen, n - 1);
    }
  }

  lemma {:induction false} PickedInside(layout: Layout, parts: seq<Part>, p: int, chosen: set<nat>, n: nat)
    requires n <= |parts| && PartsWellFormed(layout, parts) && Mergeable(parts, p, chosen)
    ensures forall r :: r in Picked(parts, chosen, n) ==> PartitionOf(layout, r) == p
  {
    if n > 0 {
      PickedInside(layout, parts, p, chosen, n - 1);
    }
  }

  /** OPTIMIZE ... FINAL, one partition after the other: all parts of each are merged. */
  function OptimizeFinal(layout: Layout, parts: seq<Part>, partitions: seq<int>): seq<Part> {
    if partitions == [] then parts
    else
      var before, p := OptimizeFinal(layout, parts, partitions[..|partitions| - 1]), partitions[|partitions| - 1];
      if PartsOf(before, p) == {} then before else MergeParts(layout, before, p, PartsOf(before, p))
  }

  /** Afterwards the listed partitions hold one row per sort key: the newest, or the last of the newest. */
  lemma {:induction false} OptimizeFinalCollapses(layout: Layout, parts: seq<Part>, partitions: seq<int>)
    requires PartsWellFormed(layout, parts)
    ensures
      var after := OptimizeFinal(layout, parts, partitions);
      && PartsWellFormed(layout, after) && Covers(layout, AllRows(parts), AllRows(after))
      && forall p :: p in partitions ==> OptimizedIn(layout, AllRows(after), p)
  {
    if partitions == [] {
      CoversItself(layout, AllRows(parts));
    } else {
      var init, p := partitions[..|partitions| - 1], partitions[|partitions| - 1];
      var before, after := OptimizeFinal(layout, parts, init), OptimizeFinal(layout, parts, partitions);
      OptimizeFinalCollapses(layout, parts, init);
      forall q ensures q in partitions <==> q in init || q == p {
      }
      if PartsOf(before, p) == {} {
        NoRowsIn(layout, before, p);
      } else {
        assert Mergeable(before, p, PartsOf(before, p));
        MergeKeepsWellFormed(layout, before, p, PartsOf(before, p));
        MergeCovers(layout, before, p, PartsOf(before, p));
        CoversTransitive(layout, AllRows(parts), AllRows(before), AllRows(after));
        MergeOptimizes(layout, before, p);
      }
    }
  }

  lemma CoversItself(layout: Layout, rows: seq<Row>)
    ensures Covers(layout, rows, rows)
  {
    forall d | d in rows ensures Covered(layout, d, rows) {
    }
  }

  lemma NoRowsIn(layout: Layout, parts: seq<Part>, p: int)
    requires PartsWellFormed(layout, parts) && PartsOf(parts, p) == {}
    ensures OptimizedIn(layout, AllRows(parts), p)
  {
    forall r | r in AllRows(parts) ensures PartitionOf(layout, r) != p {
      var i := PartOf(parts, r);
      assert i !in PartsOf(parts, p);
    }
  }

  lemma {:induction false} PartOf(parts: seq<Part>, r: Row) returns (i: nat)
    requires r in AllRows(parts)
    ensures i < |parts| && r in parts[i].rows
  {
    if r in parts[0].rows {
      i := 0;
    } else {
      i := PartOf(parts[1..], r);
      i := i + 1;
    }
  }

  // ---------------------------------------------------------------------------------------------
  // The table
  // ---------------------------------------------------------------------------------------------

  class RawTable {
    const layout: Layout
    var parts: seq<Part>

    constructor (layout: Layout)
      ensures this.layout == layout && parts == []
    {
      this.layout := layout;
      parts := [];
    }

    /** Appends the block, one part per partition. */
    method Insert(block: seq<Row>)
      modifies this`parts
      ensures parts == old(parts) + Split(layout, block)
    {
      var rest, added: seq<Part> := block, [];
      while rest != []
        invariant parts == old(parts) && added + Split(layout, rest) == Split(layout, block)
        decreases |rest|
      {
        var p := PartitionOf(layout, rest[0]);
        SplitFirst(layout, added, rest);
        added, rest := added + [Part(p, Inside(layout, p, rest))], Outside(layout, p, rest);
      }
      assert added + [] == added;
      parts := parts + added;
    }

    method CollapseRows(rows: seq<Row>) returns (kept: seq<Row>)
      ensures kept == Collapse(layout, rows)
    {
      kept := [];
      for n := 0 to |rows|
        invariant kept == Collapse(layout, rows[..n])
      {
        assert rows[..n + 1][..n] == rows[..n];
        kept := Absorb(layout, kept, rows[n]);
      }
      assert rows[..|rows|] == rows;
    }

    /** Replaces the chosen parts of partition p by their collapse. */
    method Merge(p: int, chosen: set<nat>)
      requires Mergeable(parts, p, chosen)
      modifies this`parts
      ensures parts == MergeParts(layout, old(parts), p, chosen)
      ensures Covers(layout, AllRows(old(parts)), AllRows(parts))
    {
      var picked: seq<Row>, left: seq<Part> := [], [];
      for n := 0 to |parts|
        invariant parts == old(parts)
        invariant picked == Picked(parts, chosen, n) && left == Unpicked(parts, chosen, n)
      {
        if n in chosen {
          picked := picked + parts[n].rows;
        } else {
          left := left + [parts[n]];
        }
      }
      var kept := CollapseRows(picked);
      MergeCovers(layout, parts, p, chosen);
      parts := left + [Part(p, kept)];
    }
  }
}
