/** The gate between CDC and dbt: CDCCaughtUpSensor.poke (orchestration/plugins/fineract/sensors.py)
    over v_reconciliation_counts (platform/clickhouse/init/05_ops_views.sql). */
module CaughtUpGate {
  import opened Wrappers
  import opened RawTables
  import opened Replication

  // ---------------------------------------------------------------------------------------------
  // v_reconciliation_counts
  // ---------------------------------------------------------------------------------------------

  /** countDistinctIf(key, _is_deleted = 0) counts these; the raw rows are not collapsed first. */
  function LiveKeys(rows: seq<Row>): set<int> {
    set r | r in rows && !r.deleted :: r.key
  }

  /** The keys a collapsed read returns. */
  function CurrentKeys(rows: seq<Row>): set<int> {
    set r | r in rows && Newest(rows, r.key) == Some(r) && !r.deleted :: r.key
  }

  lemma SubsetSize(a: set<int>, b: set<int>)
    requires a <= b
    ensures |b - a| == |b| - |a|
    ensures |a| == |b| ==> a == b
  {
    assert b == a + (b - a);
    assert |b| == |a| + |b - a|;
    if |a| == |b| {
      assert b - a == {};
    }
  }

  /** Every live version of a deleted key has been merged away. */
  ghost predicate TombstonesSettled(rows: seq<Row>) {
    forall r :: r in rows && !r.deleted ==> !Newest(rows, r.key).value.deleted
  }

  /** live_keys never undercounts the collapsed live rows, and counts them exactly when no deleted key
      has a live version left. */
  lemma LiveKeysOvercount(rows: seq<Row>)
    ensures |LiveKeys(rows)| >= |CurrentKeys(rows)|
    ensures |LiveKeys(rows)| == |CurrentKeys(rows)| <==> TombstonesSettled(rows)
  {
    var live, current := LiveKeys(rows), CurrentKeys(rows);
    assert current <= live;
    SubsetSize(current, live);
    if TombstonesSettled(rows) {
      forall k | k in live ensures k in current {
        var r :| r in rows && !r.deleted && r.key == k;
        assert Newest(rows, k).value in rows;
      }
      assert live == current;
    }
    if live == current {
      forall r | r in rows && !r.deleted ensures !Newest(rows, r.key).value.deleted {
        assert r.key in current;
      }
    }
  }

  /** OPTIMIZE ... FINAL on a dimension table makes the view exact. */
  lemma OptimizeMakesCountExact(rows: seq<Row>)
    ensures LiveKeys(Collapse(Dimension, rows)) == CurrentKeys(rows)
  {
    forall k ensures k in LiveKeys(Collapse(Dimension, rows)) <==> k in CurrentKeys(rows) {
      if k in LiveKeys(Collapse(Dimension, rows)) {
        var r :| r in Collapse(Dimension, rows) && !r.deleted && r.key == k;
        FinalReadsNewest(rows, r);
      }
      if k in CurrentKeys(rows) {
        var r :| r in rows && Newest(rows, r.key) == Some(r) && !r.deleted && r.key == k;
        FinalReadsNewest(rows, r);
      }
    }
  }

  // ---------------------------------------------------------------------------------------------
  // What row parity means
  // ---------------------------------------------------------------------------------------------

  /** Keys of the source table that ClickHouse has not seen live. */
  function Missing(s: State): set<int> {
    Source(s.history).Keys - LiveKeys(AllRows(s.parts))
  }

  /** Keys the view counts as live that the source table does not hold. */
  function Phantom(s: State): set<int> {
    LiveKeys(AllRows(s.parts)) - Source(s.history).Keys
  }

  function Abs(x: int): nat {
    if x < 0 then -x else x
  }

  /** The parity check of one entity. */
  predicate CountsWithin(s: State, tolerance: int) {
    Abs(|Source(s.history)| - |LiveKeys(AllRows(s.parts))|) <= tolerance
  }

  lemma SplitSize(a: set<int>, b: set<int>)
    ensures |a| == |a - b| + |a * b|
  {
    assert a == (a - b) + (a * b);
  }

  ghost predicate SameKeys(s: State) {
    LiveKeys(AllRows(s.parts)) == Source(s.history).Keys
  }

  lemma SameKeysIff(s: State)
    ensures SameKeys(s) <==> Missing(s) == {} && Phantom(s) == {}
  {
    if Missing(s) == {} && Phantom(s) == {} {
      forall k ensures k in LiveKeys(AllRows(s.parts)) <==> k in Source(s.history).Keys {
        assert k !in Missing(s) && k !in Phantom(s);
      }
    }
  }

  /** In any state: the parity check compares missing and phantom keys, which cancel out; so where it holds at
      tolerance zero the key sets are the same exactly when there is no phantom. */
  lemma ParityIff(s: State, tolerance: int)
    ensures CountsWithin(s, tolerance) <==> Abs(|Missing(s)| - |Phantom(s)|) <= tolerance
    ensures |Source(s.history)| == |LiveKeys(AllRows(s.parts))| ==>
              (SameKeys(s) <==> Phantom(s) == {})
    ensures SameKeys(s) <==> Missing(s) == {} && Phantom(s) == {}
  {
    var live, keys := LiveKeys(AllRows(s.parts)), Source(s.history).Keys;
    assert |Source(s.history)| == |keys|;
    SplitSize(keys, live);
    SplitSize(live, keys);
    assert keys * live == live * keys;
    SameKeysIff(s);
    if |keys| == |live| && Phantom(s) == {} {
      assert |Missing(s)| == 0;
    }
  }

  ghost predicate HasLiveVersion(rows: seq<Row>, k: int) {
    exists r :: r in rows && r.key == k && !r.deleted
  }

  /** In a reachable state a phantom is a key the source deleted last while a live version of it is still stored. */
  lemma PhantomIff(pipe: Pipe, s: State, k: int)
    requires Inv(pipe, s)
    ensures k in Phantom(s) <==>
              && HasLiveVersion(AllRows(s.parts), k)
              && Last(s.history, k).Some? && s.history[Last(s.history, k).value].deletes
  {
    SourceIsLastChange(s.history, k);
    if HasLiveVersion(AllRows(s.parts), k) {
      var r :| r in AllRows(s.parts) && r.key == k && !r.deleted;
      var i := OriginOf(pipe, s, r);
    }
  }

  ghost predicate NoDeletes(history: seq<Change>) {
    forall i :: 0 <= i < |history| ==> !history[i].deletes
  }

  /** While the source deletes nothing there is no phantom. */
  lemma NoPhantoms(pipe: Pipe, s: State)
    requires Inv(pipe, s) && NoDeletes(s.history)
    ensures Phantom(s) == {}
  {
    forall k | k in Phantom(s) ensures false {
      PhantomIff(pipe, s, k);
    }
  }

  /** And parity bounds the missing keys, both ways. */
  lemma ParityWithoutDeletes(pipe: Pipe, s: State, tolerance: int)
    requires Inv(pipe, s) && NoDeletes(s.history)
    ensures Phantom(s) == {}
    ensures CountsWithin(s, tolerance) <==> |Missing(s)| <= tolerance
  {
    NoPhantoms(pipe, s);
    ParityIff(s, tolerance);
  }

  lemma SourcePush(history: seq<Change>, c: Change)
    ensures Source(history + [c]) ==
              if c.deletes then Source(history) - {c.key} else Source(history)[c.key := ChangeImage(c)]
  {
    assert (history + [c])[..|history|] == history;
  }

  /** Delivering one committed change keeps the invariant and appends its row. */
  lemma AfterDelivery(pipe: Pipe, s: State, j: nat) returns (t: State)
    requires Inv(pipe, s) && j < |s.history| && RowAt(pipe, s.history, j).Some?
    ensures Inv(pipe, t) && t.history == s.history
    ensures AllRows(t.parts) == AllRows(s.parts) + [RowAt(pipe, s.history, j).value]
  {
    t := Next(pipe, s, Deliver([j]));
    NextKeepsInv(pipe, s, Deliver([j]));
    DeliverOne(pipe, s, j);
  }

  lemma OneLiveKey(rows: seq<Row>, live: Row)
    requires rows == [] + [live] && !live.deleted
    ensures LiveKeys(rows) == {live.key}
  {
    assert live in rows;
  }

  /** Through any pipe parity can hold while a row is missing: one phantom stands in for it. */
  lemma ParityMissesWithDeletes(pipe: Pipe) returns (s: State)
    ensures Inv(pipe, s)
    ensures |Source(s.history)| == |LiveKeys(AllRows(s.parts))| && Missing(s) == {2} && Phantom(s) == {1}
  {
    var a := Change(1, false, 1, 20, [], 1000, 1);
    var b := Change(1, true, 1, 20, [], 2000, 2);
    var c := Change(2, false, 1, 20, [], 3000, 3);
    var history := [] + [a] + [b] + [c];
    SourcePush([], a);
    SourcePush([] + [a], b);
    SourcePush([] + [a] + [b], c);
    s := AfterDelivery(pipe, State(history, [], {}), 0);
    OneLiveKey(AllRows(s.parts), RowAt(pipe, history, 0).value);
    assert Source(s.history).Keys == {2};
  }

  // ---------------------------------------------------------------------------------------------
  // Deletes that carry only the key
  // ---------------------------------------------------------------------------------------------

  /** The ledger's pipe: deletes carry the primary key alone, and never land. */
  predicate KeyOnlyLedger(pipe: Pipe) {
    pipe.layout.Ledger? && pipe.identity.KeyOnly?
  }

  ghost predicate AllDelivered(s: State) {
    forall i: nat :: i < |s.history| ==> i in s.delivered
  }

  lemma LedgerRowsAreLive(pipe: Pipe, s: State, r: Row)
    requires KeyOnlyLedger(pipe) && Inv(pipe, s) && r in AllRows(s.parts)
    ensures !r.deleted
  {
    var i := OriginOf(pipe, s, r);
  }

  /** No commit, delivery or merge takes a key out of the ledger's live keys. */
  lemma NextKeepsLiveKeys(pipe: Pipe, s: State, a: Action)
    requires KeyOnlyLedger(pipe) && Inv(pipe, s)
    ensures LiveKeys(AllRows(s.parts)) <= LiveKeys(AllRows(Next(pipe, s, a).parts))
  {
    var t := Next(pipe, s, a);
    NextKeepsInv(pipe, s, a);
    forall k | k in LiveKeys(AllRows(s.parts)) ensures k in LiveKeys(AllRows(t.parts)) {
      NextNeverRegresses(pipe, s, a, k);
      var n := Newest(AllRows(t.parts), k).value;
      LedgerRowsAreLive(pipe, t, n);
    }
  }

  lemma {:induction false} RunKeepsLiveKeys(pipe: Pipe, s: State, actions: seq<Action>)
    requires KeyOnlyLedger(pipe) && Inv(pipe, s)
    ensures LiveKeys(AllRows(s.parts)) <= LiveKeys(AllRows(Run(pipe, s, actions).parts))
    decreases |actions|
  {
    if actions != [] {
      NextKeepsInv(pipe, s, actions[0]);
      NextKeepsLiveKeys(pipe, s, actions[0]);
      RunKeepsLiveKeys(pipe, Next(pipe, s, actions[0]), actions[1..]);
    }
  }

  /** A ledger that has been delivered completely misses nothing. */
  lemma DeliveredLedgerMissesNothing(pipe: Pipe, s: State)
    requires KeyOnlyLedger(pipe) && Inv(pipe, s) && AllDelivered(s)
    ensures Missing(s) == {}
  {
    forall k | k in Source(s.history).Keys ensures k in LiveKeys(AllRows(s.parts)) {
      SourceIsLastChange(s.history, k);
      var i := Last(s.history, k).value;
      assert Accounted(pipe, s, i);
      var r :| r in AllRows(s.parts) && SameSlot(pipe.layout, r, RowAt(pipe, s.history, i).value);
      LedgerRowsAreLive(pipe, s, r);
    }
  }

  /** Of a completely delivered ledger the parity check counts the phantoms, and nothing else. */
  lemma DeliveredLedgerParityIff(pipe: Pipe, s: State, tolerance: int)
    requires KeyOnlyLedger(pipe) && Inv(pipe, s) && AllDelivered(s)
    ensures CountsWithin(s, tolerance) <==> |Phantom(s)| <= tolerance
  {
    DeliveredLedgerMissesNothing(pipe, s);
    ParityIff(s, tolerance);
  }

  /** What the lost deletes of the ledger do to the gate.  A key that is a phantom stays one over every further run,
      until the source holds it again; and until then a gate at tolerance zero cannot pass once everything
      has been delivered, whatever is delivered again or merged. */
  lemma LostDeletesBlockGate(pipe: Pipe, s: State, actions: seq<Action>, k: int)
    requires KeyOnlyLedger(pipe) && Inv(pipe, s) && k in Phantom(s)
    ensures
      var t := Run(pipe, s, actions);
      && (k in Phantom(t) <==> k !in Source(t.history))
      && (AllDelivered(t) && k !in Source(t.history) ==> !CountsWithin(t, 0))
  {
    var t := Run(pipe, s, actions);
    RunKeepsInv(pipe, s, actions);
    RunKeepsLiveKeys(pipe, s, actions);
    if AllDelivered(t) && k !in Source(t.history) {
      DeliveredLedgerParityIff(pipe, t, 0);
      assert Phantom(t) != {};
    }
  }

  /** The ledger of DeleteIsLost: one row inserted, deleted and completely delivered is a phantom. */
  lemma LostDeleteIsPhantom(month: int -> int) returns (s: State)
    ensures Inv(Pipe(Ledger(month), KeyOnly), s) && AllDelivered(s) && 7 in Phantom(s)
  {
    var pipe := Pipe(Ledger(month), KeyOnly);
    var history, actions := DeleteIsLost(month);
    s := Run(pipe, State(history, [], {}), actions);
    RunKeepsInv(pipe, State(history, [], {}), actions);
    var r := Newest(AllRows(s.parts), 7).value;
    LedgerRowsAreLive(pipe, s, r);
  }

  // ---------------------------------------------------------------------------------------------
  // When the gate opens
  // ---------------------------------------------------------------------------------------------

  predicate DeletesLand(pipe: Pipe) {
    pipe.layout.Dimension? || pipe.identity.Full?
  }

  ghost predicate AllSettled(pipe: Pipe, s: State) {
    forall k :: Settled(pipe, s, k)
  }

  lemma CurrentIfRead(s: State, k: int)
    ensures k in CurrentKeys(AllRows(s.parts)) <==> Read(s, k).Some?
  {
    if Read(s, k).Some? {
      assert Newest(AllRows(s.parts), k).value in AllRows(s.parts);
    }
  }

  /** Where deletes land, the keys a collapsed read of a settled table returns are those of the source. */
  lemma CurrentAreSource(pipe: Pipe, s: State)
    requires Inv(pipe, s) && AllSettled(pipe, s) && DeletesLand(pipe)
    ensures CurrentKeys(AllRows(s.parts)) == Source(s.history).Keys
  {
    forall k ensures k in CurrentKeys(AllRows(s.parts)) <==> k in Source(s.history).Keys {
      assert Settled(pipe, s, k);
      CurrentIfRead(s, k);
      SettledAgreesIff(pipe, s, k);
      LastLandedIsLast(pipe, s.history, k);
    }
  }

  lemma LastLandedIsLast(pipe: Pipe, history: seq<Change>, k: int)
    requires DeletesLand(pipe)
    ensures LastLanded(pipe, history, k, |history|) == Last(history, k)
  {
    if Last(history, k).Some? {
      assert RowAt(pipe, history, Last(history, k).value).Some?;
    }
  }

  lemma SettledMissesNothing(pipe: Pipe, s: State)
    requires Inv(pipe, s) && AllSettled(pipe, s) && DeletesLand(pipe)
    ensures Missing(s) == {}
    ensures SameKeys(s) <==> TombstonesSettled(AllRows(s.parts))
  {
    var live, current := LiveKeys(AllRows(s.parts)), CurrentKeys(AllRows(s.parts));
    CurrentAreSource(pipe, s);
    LiveKeysOvercount(AllRows(s.parts));
    assert current <= live;
    SubsetSize(current, live);
  }

  /** A settled table whose deletes land misses nothing, and the parity check counts what collapses have still to
      remove: at tolerance zero it passes exactly when no deleted key has a live version left. */
  lemma SettledParityIff(pipe: Pipe, s: State, tolerance: int)
    requires Inv(pipe, s) && AllSettled(pipe, s) && DeletesLand(pipe)
    ensures Missing(s) == {}
    ensures CountsWithin(s, tolerance) <==> |Phantom(s)| <= tolerance
    ensures CountsWithin(s, 0) <==> TombstonesSettled(AllRows(s.parts))
    ensures SameKeys(s) <==> TombstonesSettled(AllRows(s.parts))
  {
    SettledMissesNothing(pipe, s);
    ParityIff(s, tolerance);
    ParityIff(s, 0);
    assert |Missing(s)| == 0;
    assert |Phantom(s)| == 0 <==> Phantom(s) == {};
  }

  /** Every transaction stays on one sort key, as every row of a dimension table does. */
  ghost predicate AllOneSlot(layout: Layout, rows: seq<Row>) {
    forall k :: OneSlot(layout, rows, k)
  }

  lemma OptimizedHasNoRemains(layout: Layout, rows: seq<Row>)
    requires AllOneSlot(layout, rows) && forall r :: r in rows ==> OptimizedIn(layout, rows, PartitionOf(layout, r))
    ensures TombstonesSettled(rows)
  {
    forall r | r in rows && !r.deleted ensures !Newest(rows, r.key).value.deleted {
      assert OneSlot(layout, rows, r.key);
      assert SameSlot(layout, r, Newest(rows, r.key).value);
    }
  }

  lemma DimensionIsOneSlot(rows: seq<Row>)
    ensures AllOneSlot(Dimension, rows)
  {
  }

  lemma FewerRowsOneSlot(layout: Layout, before: seq<Row>, after: seq<Row>)
    requires Covers(layout, before, after) && AllOneSlot(layout, before)
    ensures AllOneSlot(layout, after)
  {
    forall k ensures OneSlot(layout, after, k) {
      assert OneSlot(layout, before, k);
    }
  }

  /** The merges of OPTIMIZE ... FINAL as steps of a run. */
  lemma {:induction false} OptimizeSteps(pipe: Pipe, s: State, partitions: seq<int>) returns (actions: seq<Action>)
    requires PartsWellFormed(pipe.layout, s.parts)
    ensures Run(pipe, s, actions) == s.(parts := OptimizeFinal(pipe.layout, s.parts, partitions))
  {
    if partitions == [] {
      actions := [];
    } else {
      var init, p := partitions[..|partitions| - 1], partitions[|partitions| - 1];
      actions := OptimizeSteps(pipe, s, init);
      var t := Run(pipe, s, actions);
      if PartsOf(t.parts, p) != {} {
        var last := Merge(p, PartsOf(t.parts, p));
        RunSplit(pipe, s, actions, [last]);
        assert [last][1..] == [];
        assert Run(pipe, t, [last]) == Run(pipe, Next(pipe, t, last), []);
        assert Mergeable(t.parts, p, PartsOf(t.parts, p));
        actions := actions + [last];
      }
    }
  }

  /** The gate's way to pass: once a table whose deletes land is settled, OPTIMIZE ... FINAL of all its partitions
      leaves the same keys on both sides, and the parity check holds at tolerance zero.  On a dimension table
      that is all it takes; on the ledger no transaction may have changed its sort key. */
  lemma OptimizeOpensGate(pipe: Pipe, before: seq<Action>, partitions: seq<int>) returns (after: seq<Action>)
    requires DeletesLand(pipe) && AllSettled(pipe, Run(pipe, START, before))
    requires pipe.layout.Dimension? || AllOneSlot(pipe.layout, AllRows(Run(pipe, START, before).parts))
    requires forall r :: r in AllRows(Run(pipe, START, before).parts) ==> PartitionOf(pipe.layout, r) in partitions
    ensures
      var s, t := Run(pipe, START, before), Run(pipe, START, before + after);
      && t == s.(parts := OptimizeFinal(pipe.layout, s.parts, partitions))
      && SameKeys(t) && CountsWithin(t, 0)
  {
    var s := Run(pipe, START, before);
    RunKeepsWellFormed(pipe, START, before);
    after := OptimizeSteps(pipe, s, partitions);
    RunSplit(pipe, START, before, after);
    RunKeepsInv(pipe, START, before + after);
    var t := Run(pipe, START, before + after);
    OptimizeFinalCollapses(pipe.layout, s.parts, partitions);
    if pipe.layout.Dimension? {
      DimensionIsOneSlot(AllRows(s.parts));
    }
    FewerRowsOneSlot(pipe.layout, AllRows(s.parts), AllRows(t.parts));
    OptimizedHasNoRemains(pipe.layout, AllRows(t.parts));
    StaysSettled(pipe, s, t);
    SettledParityIff(pipe, t, 0);
  }

  lemma StaysSettled(pipe: Pipe, s: State, t: State)
    requires AllSettled(pipe, s) && t == s.(parts := t.parts)
    ensures AllSettled(pipe, t)
  {
    forall k ensures Settled(pipe, t, k) {
      assert Settled(pipe, s, k);
    }
  }

  // ---------------------------------------------------------------------------------------------
  // Parity says nothing about content
  // ---------------------------------------------------------------------------------------------

  ghost predicate DeliveredAs(pipe: Pipe, s: State, m: nat)
    requires m < |s.history|
  {
    exists i: nat :: i in s.delivered && i < |s.history| && RowAt(pipe, s.history, i) == RowAt(pipe, s.history, m)
  }

  /** A key reads as its last change exactly when that change, or one landing as the same row, was delivered. */
  lemma ContentAgreesIff(pipe: Pipe, s: State, k: int)
    requires Inv(pipe, s) && Last(s.history, k).Some?
    requires RowAt(pipe, s.history, Last(s.history, k).value).Some?
    requires NoRival(pipe, s.history, Last(s.history, k).value)
    ensures
      var m := Last(s.history, k).value;
      Newest(AllRows(s.parts), k) == RowAt(pipe, s.history, m) <==> DeliveredAs(pipe, s, m)
    ensures DeliveredAs(pipe, s, Last(s.history, k).value) ==> Read(s, k) == SourceRead(s.history, k)
  {
    var m := Last(s.history, k).value;
    SourceIsLastChange(s.history, k);
    if Newest(AllRows(s.parts), k) == RowAt(pipe, s.history, m) {
      var i := OriginOf(pipe, s, Newest(AllRows(s.parts), k).value);
    }
    if DeliveredAs(pipe, s, m) {
      var i: nat :| i in s.delivered && i < |s.history| && RowAt(pipe, s.history, i) == RowAt(pipe, s.history, m);
      SameRowNoRival(pipe, s.history, m, i);
      DeliveredWinnerIsRead(pipe, s, i);
    }
  }

  lemma SameRowNoRival(pipe: Pipe, history: seq<Change>, m: nat, i: nat)
    requires m < |history| && i < |history| && RowAt(pipe, history, m).Some? && NoRival(pipe, history, m)
    requires RowAt(pipe, history, i) == RowAt(pipe, history, m)
    ensures NoRival(pipe, history, i) && history[i].key == history[m].key
  {
    forall j | 0 <= j < |history| && history[j].key == history[i].key ensures !Rival(pipe, history, i, j) {
      assert !Rival(pipe, history, m, j);
    }
  }

  lemma TwoUpdates(a: Change, b: Change)
    requires a.key == b.key && !a.deletes && !b.deletes
    ensures Source([] + [a] + [b]) == map[a.key := ChangeImage(b)]
  {
    SourcePush([], a);
    SourcePush([] + [a], b);
  }

  lemma OneRowReads(s: State, r: Row)
    requires AllRows(s.parts) == [] + [r] && !r.deleted
    ensures Read(s, r.key) == Some(ImageOf(r)) && LiveKeys(AllRows(s.parts)) == {r.key}
  {
    NewestPush([], r);
    OneLiveKey(AllRows(s.parts), r);
  }

  lemma OnlyKey(s: State, k: int)
    requires Source(s.history).Keys == {k} && LiveKeys(AllRows(s.parts)) == {k}
    ensures Missing(s) == {} && Phantom(s) == {}
  {
  }

  /** So parity can hold over old content: of any two updates of a row with different images, ClickHouse may have and
      read the first alone, while both tables hold the one key. */
  lemma ParityIgnoresContent(pipe: Pipe, a: Change, b: Change) returns (s: State)
    requires a.key == b.key && !a.deletes && !b.deletes && ChangeImage(a) != ChangeImage(b)
    ensures Inv(pipe, s) && NoDeletes(s.history) && Missing(s) == {} && Phantom(s) == {}
    ensures Read(s, a.key) != SourceRead(s.history, a.key)
  {
    var history := [] + [a] + [b];
    TwoUpdates(a, b);
    s := AfterDelivery(pipe, State(history, [], {}), 0);
    OneRowReads(s, RowAt(pipe, history, 0).value);
    OnlyKey(s, a.key);
  }

  // ---------------------------------------------------------------------------------------------
  // poke
  // ---------------------------------------------------------------------------------------------

  /** ENTITY_TABLES: the entity's row in v_reconciliation_counts. */
  const ENTITIES: map<string, string> := map[
    "clients" := "clients",
    "loans" := "loans",
    "loan_transactions" := "loan_transactions",
    "savings_accounts" := "savings_accounts",
    "offices" := "offices",
    "staff" := "staff",
    "loan_products" := "loan_products",
    "savings_products" := "savings_products"]

  function CountOf(counts: map<string, nat>, name: string): nat {
    if name in counts then counts[name] else 0
  }

  predicate Parity(source: map<string, nat>, live: map<string, nat>, tolerance: int, entity: string)
    requires entity in ENTITIES
  {
    Abs(CountOf(source, entity) - CountOf(live, ENTITIES[entity])) <= tolerance
  }

  /** The entities the gate knows. */
  ghost predicate Gated(entity: string) {
    || entity == "clients" || entity == "loans" || entity == "loan_transactions" || entity == "savings_accounts"
    || entity == "offices" || entity == "staff" || entity == "loan_products" || entity == "savings_products"
  }

  ghost predicate Counts(counts: map<string, nat>, name: string, n: nat) {
    if name in counts then n == counts[name] else n == 0
  }

  /** Which counts are compared: the entity's source rows with the live keys of its own row in the view, a missing
      count being zero; and they may differ by the tolerance either way. */
  lemma ParityCompares(
      source: map<string, nat>, live: map<string, nat>, tolerance: int, entity: string, s: nat, l: nat)
    requires Counts(source, entity, s) && Counts(live, entity, l)
    ensures entity in ENTITIES <==> Gated(entity)
    ensures entity in ENTITIES ==>
              (Parity(source, live, tolerance, entity) <==> s - l <= tolerance && l - s <= tolerance)
  {
  }

  /** One poke: `source` are the Postgres row counts by entity, `live` the live_keys of the view,
      `freshness` the freshness_seconds of the audited tables.  An unknown entity raises. */
  method Poke(
      entities: seq<string>, source: map<string, nat>, live: map<string, nat>, tolerance: int,
      freshness: seq<real>, maxLag: real)
    returns (r: Result<bool, string>)
    ensures r.Failure? <==> exists e :: e in entities && e !in ENTITIES
    ensures r.Failure? ==> exists i :: 0 <= i < |entities| && entities[i] == r.error && r.error !in ENTITIES
                             && forall j :: 0 <= j < i ==> entities[j] in ENTITIES
    ensures r.Success? ==>
              (r.value <==>
                && (forall e :: e in entities ==> e in ENTITIES && Parity(source, live, tolerance, e))
                && (forall j :: 0 <= j < |freshness| ==> freshness[j] <= maxLag))
  {
    var caughtUp := true;
    for i := 0 to |entities|
      invariant forall j :: 0 <= j < i ==> entities[j] in ENTITIES
      invariant caughtUp <==> forall j :: 0 <= j < i ==> Parity(source, live, tolerance, entities[j])
    {
      if entities[i] !in ENTITIES {
        return Failure(entities[i]);
      }
      var delta := CountOf(source, entities[i]) - CountOf(live, ENTITIES[entities[i]]);
      if Abs(delta) > tolerance {
        caughtUp := false;
      }
    }
    ghost var parity := caughtUp;
    assert parity <==> forall e :: e in entities ==> e in ENTITIES && Parity(source, live, tolerance, e);
    for i := 0 to |freshness|
      invariant caughtUp <==> parity && forall j :: 0 <= j < i ==> freshness[j] <= maxLag
    {
      if freshness[i] > maxLag {
        caughtUp := false;
      }
    }
    return Success(caughtUp);
  }

  /** The counts a poke sees when it looks at these states of the gated entities. */
  ghost predicate Snapshot(
      states: map<string, State>, source: map<string, nat>, live: map<string, nat>, entities: seq<string>)
  {
    forall e :: e in entities ==>
      && e in states && e in ENTITIES && e in source && ENTITIES[e] in live
      && source[e] == |Source(states[e].history)|
      && live[ENTITIES[e]] == |LiveKeys(AllRows(states[e].parts))|
  }

  /** What a passing parity half means, in any states: every gated entity's missing and phantom keys differ in
      number by at most `tolerance`; and at tolerance zero every gated entity has the same keys on both
      sides exactly when none of them has a phantom. */
  lemma GateIsSound(
      states: map<string, State>, source: map<string, nat>, live: map<string, nat>, entities: seq<string>,
      tolerance: int)
    requires Snapshot(states, source, live, entities)
    ensures (forall e :: e in entities ==> Parity(source, live, tolerance, e)) <==>
              (forall e :: e in entities ==> Abs(|Missing(states[e])| - |Phantom(states[e])|) <= tolerance)
    ensures (forall e :: e in entities ==> Parity(source, live, 0, e)) ==>
              ((forall e :: e in entities ==> SameKeys(states[e])) <==>
                (forall e :: e in entities ==> Phantom(states[e]) == {}))
  {
    forall e | e in entities
      ensures Parity(source, live, tolerance, e) <==> Abs(|Missing(states[e])| - |Phantom(states[e])|) <= tolerance
      ensures Parity(source, live, 0, e) ==> (SameKeys(states[e]) <==> Phantom(states[e]) == {})
    {
      ParityIff(states[e], tolerance);
      ParityIff(states[e], 0);
    }
  }

  /** Gate soundness over reachable states without deletes: the parity half of a poke passes exactly when every
      gated entity misses at most `tolerance` keys, and at tolerance zero exactly when every gated
      entity has the same keys on both sides. */
  lemma GateWithoutDeletes(
      pipes: map<string, Pipe>, states: map<string, State>, source: map<string, nat>, live: map<string, nat>,
      entities: seq<string>, tolerance: int)
    requires Snapshot(states, source, live, entities)
    requires forall e :: e in entities ==>
               e in pipes && Inv(pipes[e], states[e]) && NoDeletes(states[e].history)
    ensures (forall e :: e in entities ==> Parity(source, live, tolerance, e)) <==>
              (forall e :: e in entities ==> |Missing(states[e])| <= tolerance)
    ensures (forall e :: e in entities ==> Parity(source, live, 0, e)) <==>
              (forall e :: e in entities ==> SameKeys(states[e]))
  {
    forall e | e in entities
      ensures Parity(source, live, tolerance, e) <==> |Missing(states[e])| <= tolerance
      ensures Parity(source, live, 0, e) <==> SameKeys(states[e])
    {
      ParityWithoutDeletes(pipes[e], states[e], tolerance);
      ParityWithoutDeletes(pipes[e], states[e], 0);
      ParityIff(states[e], 0);
    }
  }
}
