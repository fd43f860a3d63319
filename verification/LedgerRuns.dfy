/** Replication steps interleaved with dbt runs of the incremental ledger model: the incremental model
    refines a full refresh, and through it the source table.  Every hypothesis is about one key. */
module LedgerRuns {
  import opened Wrappers
  import opened RawTables
  import opened CdcViews
  import opened Replication
  import opened LedgerStaging

  datatype World = World(repl: State, model: Option<seq<Staged>>)

  datatype Step = Replicate(action: Action) | Stage

  function Raw(w: World): seq<Row> {
    AllRows(w.repl.parts)
  }

  function StepWorld(pipe: Pipe, w: World, step: Step): World {
    match step
    case Replicate(a) => World(Next(pipe, w.repl, a), w.model)
    case Stage => World(w.repl, Some(StageRun(w.model, Raw(w))))
  }

  function RunWorld(pipe: Pipe, w: World, steps: seq<Step>): World
    decreases |steps|
  {
    if steps == [] then w else RunWorld(pipe, StepWorld(pipe, w, steps[0]), steps[1..])
  }

  /** The lookback hypothesis for key k: once the model exists, an event of the key delivered for the first
      time was committed no earlier than the model's watermark less the lookback. */
  ghost predicate TimelyStep(pipe: Pipe, w: World, step: Step, k: int) {
    step.Replicate? && step.action.Deliver? && CanDeliver(w.repl, step.action.batch) && w.model.Some? ==>
      forall i :: i in step.action.batch && i !in w.repl.delivered
                  && w.repl.history[i].key == k && RowAt(pipe, w.repl.history, i).Some? ==>
        RowAt(pipe, w.repl.history, i).value.commitAt >= Threshold(w.model.value)
  }

  ghost predicate Timely(pipe: Pipe, w: World, steps: seq<Step>, k: int)
    decreases |steps|
  {
    steps == [] || (TimelyStep(pipe, w, steps[0], k) && Timely(pipe, StepWorld(pipe, w, steps[0]), steps[1..], k))
  }

  /** What the committed history must satisfy for key k: commits from 1970 on, and one row per version. */
  ghost predicate CleanKey(pipe: Pipe, history: seq<Change>, k: int) {
    && (forall i :: 0 <= i < |history| && history[i].key == k && RowAt(pipe, history, i).Some? ==>
          RowAt(pipe, history, i).value.commitAt >= 0)
    && (forall i, j :: 0 <= i < |history| && 0 <= j < |history| && history[i].key == history[j].key == k ==>
          NoTie(pipe, history, i, j))
  }

  ghost predicate NoTie(pipe: Pipe, history: seq<Change>, i: nat, j: nat)
    requires i < |history| && j < |history|
  {
    var a, b := RowAt(pipe, history, i), RowAt(pipe, history, j);
    a.Some? && b.Some? && a.value.version == b.value.version ==> a == b
  }

  lemma CleanRows(pipe: Pipe, s: State, k: int)
    requires Inv(pipe, s) && CleanKey(pipe, s.history, k)
    ensures Aligned(AllRows(s.parts), k)
    ensures UniqueVersions(AllRows(s.parts), k)
  {
    var rows := AllRows(s.parts);
    forall a | a in rows && a.key == k ensures a.version == a.commitAt {
      var i := OriginOf(pipe, s, a);
      VersionIsCommitTimeIff(pipe.layout, Capture(pipe.identity, s.history[i]));
    }
    forall a, b | a in rows && b in rows && a.key == b.key == k && a.version == b.version ensures a == b {
      var i := OriginOf(pipe, s, a);
      var j := OriginOf(pipe, s, b);
      assert NoTie(pipe, s.history, i, j);
    }
  }

  lemma {:induction false} HistoryGrows(pipe: Pipe, w: World, steps: seq<Step>)
    ensures w.repl.history <= RunWorld(pipe, w, steps).repl.history
    decreases |steps|
  {
    if steps != [] {
      HistoryGrows(pipe, StepWorld(pipe, w, steps[0]), steps[1..]);
    }
  }

  lemma CleanPrefix(pipe: Pipe, h: seq<Change>, history: seq<Change>, k: int)
    requires CleanKey(pipe, history, k) && h <= history
    ensures CleanKey(pipe, h, k)
  {
    forall i, j | 0 <= i < |h| && 0 <= j < |h| && h[i].key == h[j].key == k ensures NoTie(pipe, h, i, j) {
      assert NoTie(pipe, history, i, j);
    }
  }

  // ---------------------------------------------------------------------------------------------
  // The invariant: a live key's newest row is carried, or pending inside the next window
  // ---------------------------------------------------------------------------------------------

  ghost predicate CarriedOrPending(w: World, k: int)
    requires w.model.Some?
  {
    var n, staged := Newest(Raw(w), k), Lookup(w.model.value, k);
    n.Some? && !n.value.deleted ==>
      n.value.commitAt >= Threshold(w.model.value) || (staged.Some? && Carries(staged.value, n.value))
  }

  /** Some delivered version of key k holds v in column c. */
  ghost predicate Supplied(pipe: Pipe, s: State, k: int, c: nat, v: Option<string>) {
    exists i: nat :: Supplies(pipe, s, k, c, v, i)
  }

  ghost predicate Supplies(pipe: Pipe, s: State, k: int, c: nat, v: Option<string>, i: nat) {
    && i in s.delivered && i < |s.history| && s.history[i].key == k
    && RowAt(pipe, s.history, i).Some? && Cell(RowAt(pipe, s.history, i).value, c) == v
  }

  /** Every value staged for the key was delivered in some version of it. */
  ghost predicate Sourced(pipe: Pipe, s: State, staged: Option<Staged>, k: int) {
    staged.Some? ==>
      forall c: nat :: c < |staged.value.cells| && staged.value.cells[c].Some? ==>
        Supplied(pipe, s, k, c, staged.value.cells[c])
  }

  ghost predicate WorldInv(pipe: Pipe, w: World, k: int) {
    && Inv(pipe, w.repl)
    && (w.model.Some? ==>
          UniqueIds(w.model.value) && CarriedOrPending(w, k) && Sourced(pipe, w.repl, Lookup(w.model.value, k), k))
  }

  lemma SourcedStays(pipe: Pipe, s: State, t: State, staged: Option<Staged>, k: int)
    requires Sourced(pipe, s, staged, k)
    requires s.history <= t.history && s.delivered <= t.delivered
    ensures Sourced(pipe, t, staged, k)
  {
    if staged.Some? {
      forall c: nat | c < |staged.value.cells| && staged.value.cells[c].Some?
        ensures Supplied(pipe, t, k, c, staged.value.cells[c])
      {
        var i: nat :| Supplies(pipe, s, k, c, staged.value.cells[c], i);
        assert Supplies(pipe, t, k, c, staged.value.cells[c], i);
      }
    }
  }

  lemma GroupIsSourced(pipe: Pipe, s: State, rows: seq<Row>, k: int)
    requires Inv(pipe, s) && forall r :: r in rows ==> r in AllRows(s.parts)
    ensures Sourced(pipe, s, Group(rows, k), k)
  {
    var g := Group(rows, k);
    if g.Some? {
      forall c: nat | c < |g.value.cells| && g.value.cells[c].Some? ensures Supplied(pipe, s, k, c, g.value.cells[c]) {
        GroupColumns(rows, k, c);
        ArgMaxEntryIsBest(rows, k, c);
        var r :| r in rows && r.key == k && Cell(r, c) == g.value.cells[c];
        var i := OriginOf(pipe, s, r);
        assert Supplies(pipe, s, k, c, g.value.cells[c], i);
      }
    }
  }

  // ---------------------------------------------------------------------------------------------
  // Every step keeps it
  // ---------------------------------------------------------------------------------------------

  /** A delivery leaves the newest row of a key alone, or replaces it by an event delivered for the
      first time. */
  lemma NewestAfterDelivery(pipe: Pipe, s: State, batch: seq<nat>, k: int) returns (i: nat)
    requires Inv(pipe, s) && CanDeliver(s, batch) && CleanKey(pipe, s.history, k)
    ensures
      var n := Newest(AllRows(Next(pipe, s, Deliver(batch)).parts), k);
      n == Newest(AllRows(s.parts), k)
      || (i in batch && i !in s.delivered && i < |s.history| && s.history[i].key == k
          && RowAt(pipe, s.history, i) == n)
  {
    i := 0;
    var n := Newest(AllRows(Next(pipe, s, Deliver(batch)).parts), k);
    NextNeverRegresses(pipe, s, Deliver(batch), k);
    if n.Some? {
      i := DeliveredOrigin(pipe, s, batch, n.value);
      if i in s.delivered {
        DeliveredBefore(pipe, s, k, i, n.value);
      }
    }
  }

  lemma DeliveredOrigin(pipe: Pipe, s: State, batch: seq<nat>, r: Row) returns (i: nat)
    requires Inv(pipe, s) && CanDeliver(s, batch)
    requires r in AllRows(Next(pipe, s, Deliver(batch)).parts)
    ensures i < |s.history| && RowAt(pipe, s.history, i) == Some(r) && s.history[i].key == r.key
    ensures i in s.delivered || i in batch
  {
    NextKeepsInv(pipe, s, Deliver(batch));
    i := OriginOf(pipe, Next(pipe, s, Deliver(batch)), r);
  }

  /** A row delivered before, and at least as new as anything stored, is the newest row. */
  lemma DeliveredBefore(pipe: Pipe, s: State, k: int, i: nat, r: Row)
    requires Inv(pipe, s) && CleanKey(pipe, s.history, k)
    requires i in s.delivered && i < |s.history| && RowAt(pipe, s.history, i) == Some(r) && r.key == k
    requires NewestVersion(AllRows(s.parts), k) <= r.version
    ensures Newest(AllRows(s.parts), k) == Some(r)
  {
    assert Accounted(pipe, s, i);
    var n := Newest(AllRows(s.parts), k).value;
    assert r.version <= n.version;
    var j := OriginOf(pipe, s, n);
    assert NoTie(pipe, s.history, i, j);
  }

  lemma DeliverKeepsPending(pipe: Pipe, w: World, batch: seq<nat>, k: int)
    requires Inv(pipe, w.repl) && CleanKey(pipe, w.repl.history, k)
    requires w.model.Some? && CarriedOrPending(w, k)
    requires CanDeliver(w.repl, batch) && TimelyStep(pipe, w, Replicate(Deliver(batch)), k)
    ensures CarriedOrPending(StepWorld(pipe, w, Replicate(Deliver(batch))), k)
  {
    var i := NewestAfterDelivery(pipe, w.repl, batch, k);
  }

  lemma MergeKeepsPending(pipe: Pipe, w: World, p: int, chosen: set<nat>, k: int)
    requires w.model.Some? && CarriedOrPending(w, k)
    requires UniqueVersions(Raw(w), k)
    ensures CarriedOrPending(StepWorld(pipe, w, Replicate(Merge(p, chosen))), k)
  {
    if Mergeable(w.repl.parts, p, chosen) {
      MergeKeepsNewest(pipe.layout, w.repl.parts, p, chosen, k);
    }
  }

  lemma ReplicateKeepsInv(pipe: Pipe, w: World, a: Action, k: int)
    requires WorldInv(pipe, w, k) && CleanKey(pipe, w.repl.history, k) && TimelyStep(pipe, w, Replicate(a), k)
    ensures WorldInv(pipe, StepWorld(pipe, w, Replicate(a)), k)
  {
    NextKeepsInv(pipe, w.repl, a);
    if w.model.Some? {
      SourcedStays(pipe, w.repl, Next(pipe, w.repl, a), Lookup(w.model.value, k), k);
      match a
      case Commit(c) =>
      case Deliver(batch) => if CanDeliver(w.repl, batch) { DeliverKeepsPending(pipe, w, batch, k); }
      case Merge(p, chosen) => CleanRows(pipe, w.repl, k); MergeKeepsPending(pipe, w, p, chosen, k);
    }
  }

  /** What a dbt run after any such history stages for key k, and what a full refresh would. */
  lemma StageStagesNewest(pipe: Pipe, w: World, k: int)
    requires WorldInv(pipe, w, k) && CleanKey(pipe, w.repl.history, k)
    ensures
      var n, m := Newest(Raw(w), k), StageRun(w.model, Raw(w));
      var staged, full := Lookup(m, k), Lookup(StageRun(None, Raw(w)), k);
      && UniqueIds(m) && Sourced(pipe, w.repl, staged, k) && Sourced(pipe, w.repl, full, k)
      && (if n.Some? && !n.value.deleted
          then staged.Some? && Carries(staged.value, n.value) && full.Some? && Carries(full.value, n.value)
          else full.None? && staged == if w.model.Some? then Lookup(w.model.value, k) else None)
  {
    var raw, n := Raw(w), Newest(Raw(w), k);
    CleanRows(pipe, w.repl, k);
    BatchIsGroups(raw, k);
    GroupIsSourced(pipe, w.repl, raw, k);
    if n.Some? && !n.value.deleted {
      GroupCarriesNewest(raw, k);
    }
    if w.model.Some? {
      RunEffect(w.model.value, raw, k);
      GroupIsSourced(pipe, w.repl, Window(raw, Threshold(w.model.value)), k);
    }
  }

  lemma StepKeepsInv(pipe: Pipe, w: World, step: Step, k: int)
    requires WorldInv(pipe, w, k) && CleanKey(pipe, w.repl.history, k) && TimelyStep(pipe, w, step, k)
    ensures WorldInv(pipe, StepWorld(pipe, w, step), k)
  {
    match step
    case Replicate(a) => ReplicateKeepsInv(pipe, w, a, k);
    case Stage => StageStagesNewest(pipe, w, k);
  }

  lemma {:induction false} RunWorldKeepsInv(pipe: Pipe, w: World, steps: seq<Step>, k: int)
    requires WorldInv(pipe, w, k) && Timely(pipe, w, steps, k)
    requires CleanKey(pipe, RunWorld(pipe, w, steps).repl.history, k)
    ensures WorldInv(pipe, RunWorld(pipe, w, steps), k)
    decreases |steps|
  {
    if steps != [] {
      HistoryGrows(pipe, w, steps);
      CleanPrefix(pipe, w.repl.history, RunWorld(pipe, w, steps).repl.history, k);
      StepKeepsInv(pipe, w, steps[0], k);
      RunWorldKeepsInv(pipe, StepWorld(pipe, w, steps[0]), steps[1..], k);
    }
  }

  // ---------------------------------------------------------------------------------------------
  // Refinement
  // ---------------------------------------------------------------------------------------------

  const EMPTY := World(START, None)

  /** Incremental refines full refresh, over any interleaving of commits, deliveries, merges and dbt runs, with
      hypotheses on key k alone and none on NULLs.  A live key's incremental row and its full-refresh row both
      carry the newest row, on every field and every column that is not NULL in it; where it is NULL each holds
      NULL or a value that some delivered version had.  Any other key keeps what was staged, or nothing. */
  lemma IncrementalCarriesNewest(pipe: Pipe, steps: seq<Step>, k: int)
    requires Timely(pipe, EMPTY, steps, k)
    requires CleanKey(pipe, RunWorld(pipe, EMPTY, steps).repl.history, k)
    ensures
      var w := RunWorld(pipe, EMPTY, steps);
      var n := Newest(Raw(w), k);
      var incremental, full := Lookup(StageRun(w.model, Raw(w)), k), Lookup(StageRun(None, Raw(w)), k);
      && UniqueIds(StageRun(w.model, Raw(w)))
      && Sourced(pipe, w.repl, incremental, k) && Sourced(pipe, w.repl, full, k)
      && (if n.Some? && !n.value.deleted
          then incremental.Some? && Carries(incremental.value, n.value) && full.Some? && Carries(full.value, n.value)
          else full.None? && incremental == if w.model.Some? then Lookup(w.model.value, k) else None)
  {
    RunWorldKeepsInv(pipe, EMPTY, steps, k);
    StageStagesNewest(pipe, RunWorld(pipe, EMPTY, steps), k);
  }

  /** No update of key k turns a column back to NULL. */
  ghost predicate NeverNulls(pipe: Pipe, history: seq<Change>, k: int) {
    forall i, j :: 0 <= i < |history| && 0 <= j < |history| && history[i].key == history[j].key == k ==>
      KeepsColumns(pipe, history, i, j)
  }

  ghost predicate KeepsColumns(pipe: Pipe, history: seq<Change>, i: nat, j: nat)
    requires i < |history| && j < |history|
  {
    var a, b := RowAt(pipe, history, i), RowAt(pipe, history, j);
    a.Some? && b.Some? && a.value.version <= b.value.version && !b.value.deleted ==>
      forall c: nat :: Cell(a.value, c).Some? ==> Cell(b.value, c).Some?
  }

  /** If no update of the key turns a column to NULL, what carries the newest row and was delivered is it. */
  lemma CarriedExactly(pipe: Pipe, s: State, staged: Option<Staged>, k: int)
    requires Inv(pipe, s) && NeverNulls(pipe, s.history, k) && Sourced(pipe, s, staged, k)
    requires staged.Some? && Newest(AllRows(s.parts), k).Some? && !Newest(AllRows(s.parts), k).value.deleted
    requires Carries(staged.value, Newest(AllRows(s.parts), k).value)
    ensures staged == Some(StageRow(Newest(AllRows(s.parts), k).value))
  {
    var x, n := staged.value, Newest(AllRows(s.parts), k).value;
    var j := OriginOf(pipe, s, n);
    forall c: nat | c < |n.cells| ensures x.cells[c] == n.cells[c] {
      if n.cells[c].None? && x.cells[c].Some? {
        var i: nat :| Supplies(pipe, s, k, c, x.cells[c], i);
        assert Accounted(pipe, s, i);
        assert KeepsColumns(pipe, s.history, i, j);
        assert Cell(n, c).Some?;
      }
    }
    assert x.cells == n.cells;
  }

  /** So when key k never loses a column either, a further run leaves exactly what a full refresh would, except
      that a key whose newest event is a delete keeps the row an earlier run materialised for it. */
  lemma IncrementalRefinesFullRefresh(pipe: Pipe, steps: seq<Step>, k: int)
    requires Timely(pipe, EMPTY, steps, k)
    requires CleanKey(pipe, RunWorld(pipe, EMPTY, steps).repl.history, k)
    requires NeverNulls(pipe, RunWorld(pipe, EMPTY, steps).repl.history, k)
    ensures
      var w := RunWorld(pipe, EMPTY, steps);
      var incremental, full := StageRun(w.model, Raw(w)), StageRun(None, Raw(w));
      var live := Newest(Raw(w), k).Some? && !Newest(Raw(w), k).value.deleted;
      && UniqueIds(incremental)
      && (Lookup(incremental, k) == Lookup(full, k) <==>
            live || w.model.None? || Lookup(w.model.value, k).None?)
      && (live ==> Lookup(incremental, k) == Some(StageRow(Newest(Raw(w), k).value)))
      && (!live && w.model.Some? ==> Lookup(incremental, k) == Lookup(w.model.value, k))
  {
    var w := RunWorld(pipe, EMPTY, steps);
    IncrementalCarriesNewest(pipe, steps, k);
    RunWorldKeepsInv(pipe, EMPTY, steps, k);
    if Newest(Raw(w), k).Some? && !Newest(Raw(w), k).value.deleted {
      CarriedExactly(pipe, w.repl, Lookup(StageRun(w.model, Raw(w)), k), k);
      CarriedExactly(pipe, w.repl, Lookup(StageRun(None, Raw(w)), k), k);
    }
  }

  lemma SourceLiveIsRead(pipe: Pipe, s: State, k: int)
    requires Inv(pipe, s) && Settled(pipe, s, k) && SourceRead(s.history, k).Some?
    ensures Read(s, k) == SourceRead(s.history, k)
  {
    SettledAgreesIff(pipe, s, k);
    SourceIsLastChange(s.history, k);
    LastLandsOrDeletes(pipe, s.history, k);
  }

  /** The staged row shows the image: loan, date and every column that is not NULL in it. */
  ghost predicate Shows(staged: Option<Staged>, image: Image) {
    && staged.Some? && staged.value.loanId == image.loanId && staged.value.date == image.date
    && |staged.value.cells| == |image.cells|
    && forall c :: 0 <= c < |image.cells| && image.cells[c].Some? ==> staged.value.cells[c] == image.cells[c]
  }

  /** End to end: for a settled key the source holds, the staged ledger row shows the last committed image, and
      is it if no update of the key turned a column to NULL. */
  lemma StagedLedgerShowsSource(pipe: Pipe, steps: seq<Step>, k: int)
    requires Timely(pipe, EMPTY, steps, k)
    requires CleanKey(pipe, RunWorld(pipe, EMPTY, steps).repl.history, k)
    requires Settled(pipe, RunWorld(pipe, EMPTY, steps).repl, k)
    ensures
      var w := RunWorld(pipe, EMPTY, steps);
      var staged, source := Lookup(StageRun(w.model, Raw(w)), k), SourceRead(w.repl.history, k);
      source.Some? ==>
        && Shows(staged, source.value)
        && (NeverNulls(pipe, w.repl.history, k) ==> StagedImage(staged) == source)
  {
    var w := RunWorld(pipe, EMPTY, steps);
    IncrementalCarriesNewest(pipe, steps, k);
    RunWorldKeepsInv(pipe, EMPTY, steps, k);
    if SourceRead(w.repl.history, k).Some? {
      SourceLiveIsRead(pipe, w.repl, k);
      if NeverNulls(pipe, w.repl.history, k) {
        CarriedExactly(pipe, w.repl, Lookup(StageRun(w.model, Raw(w)), k), k);
      }
    }
  }

  function StagedImage(s: Option<Staged>): Option<Image> {
    match s case None => None case Some(r) => Some(Image(r.loanId, r.date, r.cells))
  }
}
