/** CDC replication as a step system: source commits, at-least-once delivery in any order, and
    background merges at any time.  The source table is what replaying the committed history gives;
    a read of the raw table collapses each key to its newest version. */
module Replication {
  import opened Wrappers
  import opened RawTables
  import opened CdcViews

  /** REPLICA IDENTITY: FULL puts the whole before image in a delete, DEFAULT only the primary key. */
  datatype Identity = Full | KeyOnly

  datatype Pipe = Pipe(layout: Layout, identity: Identity)

  /** One committed change; for a delete the columns are the before image. */
  datatype Change = Change(
    key: int, deletes: bool, loanId: int, date: int, cells: seq<Option<string>>, commitMs: int, lsn: int)

  datatype Image = Image(loanId: int, date: int, cells: seq<Option<string>>)

  function Capture(identity: Identity, c: Change): Event {
    if c.deletes && identity.KeyOnly? then
      Event("", Some(c.key), None, None, seq(|c.cells|, _ => None), Some("d"), Some("true"),
            Some(c.commitMs), Some(c.commitMs), Some(c.lsn))
    else
      Event("", Some(c.key), Some(c.loanId), Some(c.date), c.cells,
            Some(if c.deletes then "d" else "u"), Some(if c.deletes then "true" else "false"),
            Some(c.commitMs), Some(c.commitMs), Some(c.lsn))
  }

  /** The raw row change i lands as, if the views accept it. */
  function RowAt(pipe: Pipe, history: seq<Change>, i: nat): (r: Option<Row>)
    requires i < |history|
    ensures r.Some? ==> r.value.key == history[i].key && r.value.deleted == history[i].deletes
    ensures r.None? <==> pipe == Pipe(pipe.layout, KeyOnly) && pipe.layout.Ledger? && history[i].deletes
    ensures r.Some? && (!r.value.deleted || pipe.identity.Full?) ==> ImageOf(r.value) == ChangeImage(history[i])
    ensures r.Some? ==> r.value.lsn == history[i].lsn
    ensures r.Some? && Representable(history[i].commitMs) ==>
              r.value.version == r.value.commitAt == history[i].commitMs
  {
    RowOf(pipe.layout, Capture(pipe.identity, history[i]))
  }

  function ImageOf(r: Row): Image {
    Image(r.loanId, r.date, r.cells)
  }

  function ChangeImage(c: Change): Image {
    Image(c.loanId, c.date, c.cells)
  }

  // ---------------------------------------------------------------------------------------------
  // The source of truth
  // ---------------------------------------------------------------------------------------------

  function Source(history: seq<Change>): map<int, Image> {
    if history == [] then map[]
    else
      var before, c := Source(history[..|history| - 1]), history[|history| - 1];
      if c.deletes then before - {c.key} else before[c.key := ChangeImage(c)]
  }

  /** Index of the last change of key k. */
  function Last(history: seq<Change>, k: int): (n: Option<nat>)
    ensures n.Some? ==> n.value < |history| && history[n.value].key == k
    ensures forall i :: 0 <= i < |history| && history[i].key == k ==> n.Some? && i <= n.value
  {
    if history == [] then None
    else if history[|history| - 1].key == k then Some(|history| - 1)
    else Last(history[..|history| - 1], k)
  }

  /** Index of the last change of key k that lands as a row. */
  function LastLanded(pipe: Pipe, history: seq<Change>, k: int, n: nat): (m: Option<nat>)
    requires n <= |history|
    ensures m.Some? ==> m.value < n && history[m.value].key == k && RowAt(pipe, history, m.value).Some?
    ensures forall i :: 0 <= i < n && history[i].key == k && RowAt(pipe, history, i).Some? ==>
              m.Some? && i <= m.value
  {
    if n == 0 then None
    else if history[n - 1].key == k && RowAt(pipe, history, n - 1).Some? then Some(n - 1)
    else LastLanded(pipe, history, k, n - 1)
  }

  function SourceRead(history: seq<Change>, k: int): Option<Image> {
    if k in Source(history) then Some(Source(history)[k]) else None
  }

  lemma {:induction false} SourceIsLastChange(history: seq<Change>, k: int)
    ensures SourceRead(history, k) ==
              match Last(history, k)
              case None => None
              case Some(i) => if history[i].deletes then None else Some(ChangeImage(history[i]))
  {
    if history != [] {
      SourceIsLastChange(history[..|history| - 1], k);
    }
  }

  // ---------------------------------------------------------------------------------------------
  // Steps and runs
  // ---------------------------------------------------------------------------------------------

  datatype State = State(history: seq<Change>, parts: seq<Part>, delivered: set<nat>)

  datatype Action =
    | Commit(change: Change)
    | Deliver(batch: seq<nat>)
    | Merge(partition: int, chosen: set<nat>)

  const START := State([], [], {})

  predicate CanDeliver(s: State, batch: seq<nat>) {
    forall i | i in batch :: i < |s.history|
  }

  function LandedRows(pipe: Pipe, history: seq<Change>, batch: seq<nat>): (rows: seq<Row>)
    requires forall i :: i in batch ==> i < |history|
    ensures forall r :: r in rows <==> exists i :: i in batch && RowAt(pipe, history, i) == Some(r)
  {
    if batch == [] then []
    else
      assert batch[0] in batch && forall i :: i in batch <==> i == batch[0] || i in batch[1..];
      var rest := LandedRows(pipe, history, batch[1..]);
      match RowAt(pipe, history, batch[0])
      case None => rest
      case Some(r) => [r] + rest
  }

  /** One step.  A delivery names events committed so far, in any order and any number of times; a
      step that is not possible in s leaves it alone. */
  function Next(pipe: Pipe, s: State, a: Action): State {
    match a
    case Commit(c) => s.(history := s.history + [c])
    case Deliver(batch) =>
      if CanDeliver(s, batch) then
        State(s.history,
              s.parts + Split(pipe.layout, LandedRows(pipe, s.history, batch)),
              s.delivered + set i | i in batch)
      else s
    case Merge(p, chosen) =>
      if Mergeable(s.parts, p, chosen) then s.(parts := MergeParts(pipe.layout, s.parts, p, chosen)) else s
  }

  function Run(pipe: Pipe, s: State, actions: seq<Action>): State
    decreases |actions|
  {
    if actions == [] then s else Run(pipe, Next(pipe, s, actions[0]), actions[1..])
  }

  // ---------------------------------------------------------------------------------------------
  // The invariant
  // ---------------------------------------------------------------------------------------------

  ghost predicate Origin(pipe: Pipe, s: State, r: Row, i: nat) {
    i in s.delivered && i < |s.history| && RowAt(pipe, s.history, i) == Some(r)
  }

  ghost predicate Accounted(pipe: Pipe, s: State, i: nat) {
    && i < |s.history|
    && match RowAt(pipe, s.history, i)
       case None => true
       case Some(d) => Covered(pipe.layout, d, AllRows(s.parts))
  }

  /** Every raw row comes from a delivered event, and every delivered event that lands is covered by
      a row of its sort key that is at least as new. */
  ghost predicate Inv(pipe: Pipe, s: State) {
    && (forall r :: r in AllRows(s.parts) ==> exists i :: Origin(pipe, s, r, i))
    && (forall i {:trigger Accounted(pipe, s, i)} :: i in s.delivered ==> Accounted(pipe, s, i))
  }

  lemma OriginOf(pipe: Pipe, s: State, r: Row) returns (i: nat)
    requires Inv(pipe, s) && r in AllRows(s.parts)
    ensures Origin(pipe, s, r, i) && s.history[i].key == r.key
  {
    i :| Origin(pipe, s, r, i);
  }

  lemma CommitKeepsInv(pipe: Pipe, s: State, c: Change)
    requires Inv(pipe, s)
    ensures Inv(pipe, Next(pipe, s, Commit(c)))
  {
    var t := Next(pipe, s, Commit(c));
    forall r | r in AllRows(t.parts) ensures exists i :: Origin(pipe, t, r, i) {
      var i :| Origin(pipe, s, r, i);
      assert Origin(pipe, t, r, i);
    }
    forall i | i in t.delivered ensures Accounted(pipe, t, i) {
      assert Accounted(pipe, s, i);
    }
  }

  lemma DeliverKeepsInv(pipe: Pipe, s: State, batch: seq<nat>)
    requires Inv(pipe, s)
    ensures Inv(pipe, Next(pipe, s, Deliver(batch)))
  {
    if CanDeliver(s, batch) {
      var t := Next(pipe, s, Deliver(batch));
      var block := LandedRows(pipe, s.history, batch);
      forall r ensures r in AllRows(t.parts) <==> r in AllRows(s.parts) || r in block {
        InsertAddsRows(pipe.layout, s.parts, block, r);
      }
      forall r | r in AllRows(t.parts) ensures exists i :: Origin(pipe, t, r, i) {
        if r in AllRows(s.parts) {
          var i :| Origin(pipe, s, r, i);
          assert Origin(pipe, t, r, i);
        } else {
          var i :| i in batch && RowAt(pipe, s.history, i) == Some(r);
          assert Origin(pipe, t, r, i);
        }
      }
      forall i | i in t.delivered ensures Accounted(pipe, t, i) {
        if i in s.delivered {
          assert Accounted(pipe, s, i);
        }
        if i in batch && RowAt(pipe, s.history, i).Some? {
          assert RowAt(pipe, s.history, i).value in block;
        }
      }
    }
  }

  lemma MergeKeepsInv(pipe: Pipe, s: State, p: int, chosen: set<nat>)
    requires Inv(pipe, s)
    ensures Inv(pipe, Next(pipe, s, Merge(p, chosen)))
  {
    if Mergeable(s.parts, p, chosen) {
      var t := Next(pipe, s, Merge(p, chosen));
      MergeCovers(pipe.layout, s.parts, p, chosen);
      forall r | r in AllRows(t.parts) ensures exists i :: Origin(pipe, t, r, i) {
        var i :| Origin(pipe, s, r, i);
        assert Origin(pipe, t, r, i);
      }
      forall i | i in t.delivered ensures Accounted(pipe, t, i) {
        assert Accounted(pipe, s, i);
        if RowAt(pipe, s.history, i).Some? {
          var d := RowAt(pipe, s.history, i).value;
          var r :| r in AllRows(s.parts) && SameSlot(pipe.layout, r, d) && r.version >= d.version;
          assert Covered(pipe.layout, r, AllRows(t.parts));
        }
      }
    }
  }

  lemma NextKeepsInv(pipe: Pipe, s: State, a: Action)
    requires Inv(pipe, s)
    ensures Inv(pipe, Next(pipe, s, a))
  {
    match a
    case Commit(c) => CommitKeepsInv(pipe, s, c);
    case Deliver(batch) => DeliverKeepsInv(pipe, s, batch);
    case Merge(p, chosen) => MergeKeepsInv(pipe, s, p, chosen);
  }

  /** The invariant holds after every run. */
  lemma {:induction false} RunKeepsInv(pipe: Pipe, s: State, actions: seq<Action>)
    requires Inv(pipe, s)
    ensures Inv(pipe, Run(pipe, s, actions))
    decreases |actions|
  {
    if actions != [] {
      NextKeepsInv(pipe, s, actions[0]);
      RunKeepsInv(pipe, Next(pipe, s, actions[0]), actions[1..]);
    }
  }

  /** Every part stays inside its partition. */
  lemma {:induction false} RunKeepsWellFormed(pipe: Pipe, s: State, actions: seq<Action>)
    requires PartsWellFormed(pipe.layout, s.parts)
    ensures PartsWellFormed(pipe.layout, Run(pipe, s, actions).parts)
    decreases |actions|
  {
    if actions != [] {
      NextKeepsWellFormed(pipe, s, actions[0]);
      RunKeepsWellFormed(pipe, Next(pipe, s, actions[0]), actions[1..]);
    }
  }

  lemma NextKeepsWellFormed(pipe: Pipe, s: State, a: Action)
    requires PartsWellFormed(pipe.layout, s.parts)
    ensures PartsWellFormed(pipe.layout, Next(pipe, s, a).parts)
  {
    match a
    case Commit(c) =>
    case Deliver(batch) =>
      if CanDeliver(s, batch) {
        SplitKeepsRows(pipe.layout, LandedRows(pipe, s.history, batch));
      }
    case Merge(p, chosen) =>
      if Mergeable(s.parts, p, chosen) {
        MergeKeepsWellFormed(pipe.layout, s.parts, p, chosen);
      }
  }

  lemma {:induction false} RunSplit(pipe: Pipe, s: State, a: seq<Action>, b: seq<Action>)
    ensures Run(pipe, s, a + b) == Run(pipe, Run(pipe, s, a), b)
    decreases |a|
  {
    if a == [] {
      assert a + b == b;
    } else {
      assert (a + b)[0] == a[0] && (a + b)[1..] == a[1..] + b;
      RunSplit(pipe, Next(pipe, s, a[0]), a[1..], b);
    }
  }

  // ---------------------------------------------------------------------------------------------
  // Convergence
  // ---------------------------------------------------------------------------------------------

  /** What a collapsed read of the raw table returns for key k. */
  function Read(s: State, k: int): Option<Image> {
    match Newest(AllRows(s.parts), k)
    case None => None
    case Some(r) => if r.deleted then None else Some(ImageOf(r))
  }

  /** No other landing change of the key reaches the version of change m, unless it lands as the very
      same row.  Commit milliseconds are the version, so two changes of a key committed in the same
      millisecond are rivals; the LSN is stored but breaks no tie. */
  ghost predicate NoRival(pipe: Pipe, history: seq<Change>, m: nat)
    requires m < |history| && RowAt(pipe, history, m).Some?
  {
    forall i :: 0 <= i < |history| && history[i].key == history[m].key ==> !Rival(pipe, history, m, i)
  }

  ghost predicate Rival(pipe: Pipe, history: seq<Change>, m: nat, i: nat)
    requires m < |history| && i < |history| && RowAt(pipe, history, m).Some?
  {
    && RowAt(pipe, history, i).Some?
    && RowAt(pipe, history, i).value.version >= RowAt(pipe, history, m).value.version
    && RowAt(pipe, history, i) != RowAt(pipe, history, m)
  }

  /** Once change m of a key has been delivered, and nothing rivals it, the key reads as m whatever
      else was delivered, in whatever order, and whatever was merged. */
  lemma DeliveredWinnerIsRead(pipe: Pipe, s: State, m: nat)
    requires Inv(pipe, s)
    requires m < |s.history| && m in s.delivered && RowAt(pipe, s.history, m).Some?
    requires NoRival(pipe, s.history, m)
    ensures Newest(AllRows(s.parts), s.history[m].key) == RowAt(pipe, s.history, m)
  {
    var k, w := s.history[m].key, RowAt(pipe, s.history, m).value;
    assert Accounted(pipe, s, m);
    var n := Newest(AllRows(s.parts), k).value;
    var i :| Origin(pipe, s, n, i);
    assert !Rival(pipe, s.history, m, i);
  }

  /** The hypotheses of convergence for key k: its last landing change was delivered and has no rival. */
  ghost predicate Settled(pipe: Pipe, s: State, k: int) {
    match LastLanded(pipe, s.history, k, |s.history|)
    case None => true
    case Some(m) => m in s.delivered && NoRival(pipe, s.history, m)
  }

  lemma SettledRead(pipe: Pipe, s: State, k: int)
    requires Inv(pipe, s) && Settled(pipe, s, k)
    ensures Read(s, k) ==
              match LastLanded(pipe, s.history, k, |s.history|)
              case None => None
              case Some(m) => if s.history[m].deletes then None else Some(ChangeImage(s.history[m]))
  {
    match LastLanded(pipe, s.history, k, |s.history|)
    case None =>
    case Some(m) => DeliveredWinnerIsRead(pipe, s, m);
  }

  /** A last change that does not land is a delete, and the last one that does land is then live. */
  lemma LastLandsOrDeletes(pipe: Pipe, history: seq<Change>, k: int)
    ensures
      var m := LastLanded(pipe, history, k, |history|);
      var n := Last(history, k);
      || m == n
      || (n.Some? && history[n.value].deletes && (m.Some? ==> !history[m.value].deletes))
  {
    var m, n := LastLanded(pipe, history, k, |history|), Last(history, k);
    if m != n {
      assert RowAt(pipe, history, n.value).None?;
    }
  }

  lemma SettledAgreesIff(pipe: Pipe, s: State, k: int)
    requires Inv(pipe, s) && Settled(pipe, s, k)
    ensures
      var m := LastLanded(pipe, s.history, k, |s.history|);
      Read(s, k) == SourceRead(s.history, k) <==> m.None? || m == Last(s.history, k)
  {
    SourceIsLastChange(s.history, k);
    SettledRead(pipe, s, k);
    LastLandsOrDeletes(pipe, s.history, k);
  }

  /** Convergence over every run: for a settled key the raw table and the source agree exactly when
      the key's very last change landed, or no change of it landed at all.  They disagree only over a
      delete the views drop. */
  lemma Convergence(pipe: Pipe, actions: seq<Action>, k: int)
    requires Settled(pipe, Run(pipe, START, actions), k)
    ensures
      var s := Run(pipe, START, actions);
      var m := LastLanded(pipe, s.history, k, |s.history|);
      Read(s, k) == SourceRead(s.history, k) <==> m.None? || m == Last(s.history, k)
  {
    RunKeepsInv(pipe, START, actions);
    SettledAgreesIff(pipe, Run(pipe, START, actions), k);
  }

  // ---------------------------------------------------------------------------------------------
  // Convergence by commit times alone
  // ---------------------------------------------------------------------------------------------

  /** Among the changes of its key, all committed since 1970, change m has strictly the latest commit time. */
  ghost predicate LatestCommit(history: seq<Change>, m: nat) {
    && m < |history| && Representable(history[m].commitMs)
    && forall i :: 0 <= i < |history| && history[i].key == history[m].key && i != m ==>
         0 <= history[i].commitMs < history[m].commitMs
  }

  lemma LatestCommitHasNoRival(pipe: Pipe, history: seq<Change>, m: nat)
    requires LatestCommit(history, m) && RowAt(pipe, history, m).Some?
    ensures NoRival(pipe, history, m)
  {
    forall i | 0 <= i < |history| && history[i].key == history[m].key ensures !Rival(pipe, history, m, i) {
      assert i == m || Representable(history[i].commitMs);
    }
  }

  /** Whatever order its changes came in: once the key's last landing change has been delivered, and was committed
      strictly later than all others, table and source agree exactly when that is its last change, or none
      landed at all. */
  lemma ConvergenceByCommitTimes(pipe: Pipe, actions: seq<Action>, k: int)
    requires
      var s := Run(pipe, START, actions);
      var m := LastLanded(pipe, s.history, k, |s.history|);
      m.Some? ==> m.value in s.delivered && LatestCommit(s.history, m.value)
    ensures
      var s := Run(pipe, START, actions);
      var m := LastLanded(pipe, s.history, k, |s.history|);
      Read(s, k) == SourceRead(s.history, k) <==> m.None? || m == Last(s.history, k)
  {
    var s := Run(pipe, START, actions);
    var m := LastLanded(pipe, s.history, k, |s.history|);
    if m.Some? {
      LatestCommitHasNoRival(pipe, s.history, m.value);
    }
    Convergence(pipe, actions, k);
  }

  /** The changes of key k were committed at strictly increasing times since 1970. */
  ghost predicate CommittedInOrder(history: seq<Change>, k: int) {
    && (forall i :: 0 <= i < |history| && history[i].key == k ==> Representable(history[i].commitMs))
    && forall i, j :: 0 <= i < j < |history| && history[i].key == k && history[j].key == k ==>
         history[i].commitMs < history[j].commitMs
  }

  ghost predicate KeyDelivered(s: State, k: int) {
    forall i: nat :: i < |s.history| && s.history[i].key == k ==> i in s.delivered
  }

  lemma InOrderSettles(pipe: Pipe, s: State, k: int)
    requires CommittedInOrder(s.history, k) && KeyDelivered(s, k)
    ensures Settled(pipe, s, k)
  {
    var last := LastLanded(pipe, s.history, k, |s.history|);
    if last.Some? {
      var m := last.value;
      forall i | 0 <= i < |s.history| && s.history[i].key == k ensures !Rival(pipe, s.history, m, i) {
        if i < m {
          assert s.history[i].commitMs < s.history[m].commitMs;
        }
      }
    }
  }

  /** With FULL replica identity, or on a dimension table, every settled key converges. */
  lemma ConvergenceWhenDeletesLand(pipe: Pipe, actions: seq<Action>, k: int)
    requires pipe.layout.Dimension? || pipe.identity.Full?
    requires Settled(pipe, Run(pipe, START, actions), k)
    ensures
      var s := Run(pipe, START, actions);
      Read(s, k) == SourceRead(s.history, k)
  {
    Convergence(pipe, actions, k);
  }

  // ---------------------------------------------------------------------------------------------
  // Convergence needs the absence of rivals
  // ---------------------------------------------------------------------------------------------

  /** Every change of the history has been delivered, and nothing was committed since. */
  ghost predicate Complete(s: State, history: seq<Change>) {
    s.history == history && forall i: nat :: i < |history| ==> i in s.delivered
  }

  ghost predicate AlwaysReads(pipe: Pipe, history: seq<Change>, k: int, r: Row) {
    forall actions: seq<Action> ::
      Complete(Run(pipe, State(history, [], {}), actions), history) ==>
        Newest(AllRows(Run(pipe, State(history, [], {}), actions).parts), k) == Some(r)
  }

  function UpTo(n: nat): (s: seq<nat>)
    ensures forall i: nat :: i in s <==> i < n
  {
    if n == 0 then [] else UpTo(n - 1) + [n - 1]
  }

  lemma SplitOne(layout: Layout, r: Row)
    ensures Split(layout, [r]) == [Part(PartitionOf(layout, r), [r])]
  {
    var p := PartitionOf(layout, r);
    assert [r][1..] == [];
    assert Inside(layout, p, [r][1..]) == [] && Inside(layout, p, [r]) == [r];
    assert Outside(layout, p, [r][1..]) == [] && Outside(layout, p, [r]) == [];
  }

  lemma DeliverOne(pipe: Pipe, s: State, j: nat)
    requires j < |s.history| && RowAt(pipe, s.history, j).Some?
    ensures AllRows(Next(pipe, s, Deliver([j])).parts) == AllRows(s.parts) + [RowAt(pipe, s.history, j).value]
  {
    var r := RowAt(pipe, s.history, j).value;
    var part := Part(PartitionOf(pipe.layout, r), [r]);
    assert [j][1..] == [] && LandedRows(pipe, s.history, [j]) == [r];
    SplitOne(pipe.layout, r);
    AllRowsAppend(s.parts, [part]);
    assert [part][1..] == [] && AllRows([part]) == [r];
  }

  lemma RunTwo(pipe: Pipe, s: State, a: Action, b: Action)
    ensures Run(pipe, s, [a, b]) == Next(pipe, Next(pipe, s, a), b)
  {
    assert [a, b][1..] == [b] && [b][1..] == [];
    assert Run(pipe, Next(pipe, s, a), [b]) == Run(pipe, Next(pipe, Next(pipe, s, a), b), []);
  }

  lemma NewestPush(rows: seq<Row>, r: Row)
    requires forall q :: q in rows && q.key == r.key ==> q.version <= r.version
    ensures Newest(rows + [r], r.key) == Some(r)
  {
    assert (rows + [r])[..|rows|] == rows;
  }

  ghost predicate HasHighestVersion(pipe: Pipe, history: seq<Change>, j: nat) {
    && j < |history| && RowAt(pipe, history, j).Some?
    && forall i :: 0 <= i < |history| && history[i].key == history[j].key && RowAt(pipe, history, i).Some? ==>
         RowAt(pipe, history, i).value.version <= RowAt(pipe, history, j).value.version
  }

  /** Delivering everything and then change j once more makes j the read of its key, if no landing
      change of the key has a higher version. */
  lemma RedeliveredLast(pipe: Pipe, history: seq<Change>, j: nat) returns (actions: seq<Action>)
    requires HasHighestVersion(pipe, history, j)
    ensures Complete(Run(pipe, State(history, [], {}), actions), history)
    ensures Newest(AllRows(Run(pipe, State(history, [], {}), actions).parts), history[j].key)
            == RowAt(pipe, history, j)
  {
    var s0, d0, d1 := State(history, [], {}), Deliver(UpTo(|history|)), Deliver([j]);
    var s1 := Next(pipe, s0, d0);
    actions := [d0, d1];
    RunTwo(pipe, s0, d0, d1);
    DeliverOne(pipe, s1, j);
    NextKeepsInv(pipe, s0, d0);
    var rows, r := AllRows(s1.parts), RowAt(pipe, history, j).value;
    forall q | q in rows && q.key == r.key ensures q.version <= r.version {
      RowsWithin(pipe, s1, j, q);
    }
    NewestPush(rows, r);
    EverythingDelivered(pipe, history, d1);
  }

  lemma EverythingDelivered(pipe: Pipe, history: seq<Change>, a: Action)
    ensures Complete(Next(pipe, State(history, [], {}), Deliver(UpTo(|history|))), history)
    ensures a.Deliver? ==>
              Complete(Next(pipe, Next(pipe, State(history, [], {}), Deliver(UpTo(|history|))), a), history)
  {
  }

  lemma RowsWithin(pipe: Pipe, s: State, j: nat, q: Row)
    requires Inv(pipe, s) && HasHighestVersion(pipe, s.history, j)
    requires q in AllRows(s.parts) && q.key == s.history[j].key
    ensures q.version <= RowAt(pipe, s.history, j).value.version
  {
    var i :| Origin(pipe, s, q, i);
  }

  lemma {:induction false} HighestVersion(pipe: Pipe, history: seq<Change>, k: int, n: nat, i: nat) returns (j: nat)
    requires i < n <= |history| && history[i].key == k && RowAt(pipe, history, i).Some?
    ensures j < n && history[j].key == k && RowAt(pipe, history, j).Some?
    ensures RowAt(pipe, history, j).value.version >= RowAt(pipe, history, i).value.version
    ensures forall x :: 0 <= x < n && history[x].key == k && RowAt(pipe, history, x).Some? ==>
              RowAt(pipe, history, x).value.version <= RowAt(pipe, history, j).value.version
  {
    j := i;
    for x := 0 to n
      invariant j < n && history[j].key == k && RowAt(pipe, history, j).Some?
      invariant RowAt(pipe, history, j).value.version >= RowAt(pipe, history, i).value.version
      invariant forall y :: 0 <= y < x && history[y].key == k && RowAt(pipe, history, y).Some? ==>
                  RowAt(pipe, history, y).value.version <= RowAt(pipe, history, j).value.version
    {
      if history[x].key == k && RowAt(pipe, history, x).Some?
         && RowAt(pipe, history, x).value.version > RowAt(pipe, history, j).value.version {
        j := x;
      }
    }
  }

  /** Every complete run reads the key as change m exactly when change m has no rival.  With a rival,
      some complete run reads another row: two updates in one millisecond are enough. */
  lemma AlwaysReadsIff(pipe: Pipe, history: seq<Change>, m: nat)
    requires m < |history| && RowAt(pipe, history, m).Some?
    ensures AlwaysReads(pipe, history, history[m].key, RowAt(pipe, history, m).value) <==> NoRival(pipe, history, m)
  {
    var k, w := history[m].key, RowAt(pipe, history, m).value;
    if NoRival(pipe, history, m) {
      forall actions | Complete(Run(pipe, State(history, [], {}), actions), history)
        ensures Newest(AllRows(Run(pipe, State(history, [], {}), actions).parts), k) == Some(w)
      {
        RunKeepsInv(pipe, State(history, [], {}), actions);
        DeliveredWinnerIsRead(pipe, Run(pipe, State(history, [], {}), actions), m);
      }
    } else {
      var i: nat :| i < |history| && history[i].key == k && Rival(pipe, history, m, i);
      var j := HighestVersion(pipe, history, k, |history|, i);
      if RowAt(pipe, history, j) == Some(w) {
        j := i;
      }
      var actions := RedeliveredLast(pipe, history, j);
    }
  }

  /** Two updates of a row in one millisecond: all of the history is delivered, and the raw table
      reads the first update where the source holds the second, although their LSNs differ. */
  lemma SameMillisecondDiverges(pipe: Pipe) returns (history: seq<Change>, actions: seq<Action>)
    ensures |history| == 2 && history[0].commitMs == history[1].commitMs && history[0].lsn < history[1].lsn
    ensures Complete(Run(pipe, State(history, [], {}), actions), history)
    ensures Read(Run(pipe, State(history, [], {}), actions), 7) != SourceRead(history, 7)
  {
    var first := Change(7, false, 1, 20, [Some("100.00")], 1700000000000, 41);
    var second := Change(7, false, 1, 20, [Some("250.00")], 1700000000000, 42);
    history := [first, second];
    actions := RedeliveredLast(pipe, history, 0);
    SourceIsLastChange(history, 7);
    assert Last(history, 7) == Some(1);
    assert first.cells[0] != second.cells[0];
  }

  /** A ledger row inserted and then deleted: with primary-key-only replica identity everything is delivered
      and the raw table still reads the row. */
  lemma DeleteIsLost(month: int -> int) returns (history: seq<Change>, actions: seq<Action>)
    ensures
      var pipe := Pipe(Ledger(month), KeyOnly);
      var s := Run(pipe, State(history, [], {}), actions);
      && |history| == 2 && Complete(s, history)
      && SourceRead(history, 7) == None
      && Read(s, 7) == Some(ChangeImage(history[0]))
  {
    var pipe := Pipe(Ledger(month), KeyOnly);
    history := [Change(7, false, 1, 20, [Some("100.00")], 1700000000000, 41),
                Change(7, true, 1, 20, [Some("100.00")], 1700000005000, 42)];
    actions := RedeliveredLast(pipe, history, 0);
    SourceIsLastChange(history, 7);
    assert Last(history, 7) == Some(1);
  }

  // ---------------------------------------------------------------------------------------------
  // No regression, no resurrection
  // ---------------------------------------------------------------------------------------------

  lemma NextNeverRegresses(pipe: Pipe, s: State, a: Action, k: int)
    requires Inv(pipe, s)
    ensures NewestVersion(AllRows(s.parts), k) <= NewestVersion(AllRows(Next(pipe, s, a).parts), k)
  {
    match a
    case Commit(c) =>
    case Deliver(batch) =>
      if CanDeliver(s, batch) {
        var block := LandedRows(pipe, s.history, batch);
        forall r ensures r in AllRows(s.parts + Split(pipe.layout, block)) <==> r in AllRows(s.parts) || r in block {
          InsertAddsRows(pipe.layout, s.parts, block, r);
        }
      }
    case Merge(p, chosen) =>
      if Mergeable(s.parts, p, chosen) {
        MergeCovers(pipe.layout, s.parts, p, chosen);
        CoversKeepsNewest(pipe.layout, AllRows(s.parts), AllRows(Next(pipe, s, a).parts), k);
      }
  }

  /** Over any run the collapsed version of a key never decreases. */
  lemma {:induction false} NoRegression(pipe: Pipe, s: State, actions: seq<Action>, k: int)
    requires Inv(pipe, s)
    ensures NewestVersion(AllRows(s.parts), k) <= NewestVersion(AllRows(Run(pipe, s, actions).parts), k)
    decreases |actions|
  {
    if actions != [] {
      NextKeepsInv(pipe, s, actions[0]);
      NextNeverRegresses(pipe, s, actions[0], k);
      NoRegression(pipe, Next(pipe, s, actions[0]), actions[1..], k);
    }
  }

  /** Once a delete of version v has been delivered, whatever makes the key live again is a delivered
      live event of version v or more, and its image is what is read.  Replaying or delivering late
      anything older than the delete never does it. */
  lemma NoResurrection(pipe: Pipe, s: State, actions: seq<Action>, d: nat)
    requires Inv(pipe, s)
    requires d in s.delivered && d < |s.history| && RowAt(pipe, s.history, d).Some? && s.history[d].deletes
    ensures
      var t := Run(pipe, s, actions);
      var k, v := s.history[d].key, RowAt(pipe, s.history, d).value.version;
      Read(t, k).Some? ==>
        exists i: nat :: i in t.delivered && i < |t.history| && t.history[i].key == k && !t.history[i].deletes
          && RowAt(pipe, t.history, i).Some? && RowAt(pipe, t.history, i).value.version >= v
          && Read(t, k) == Some(ChangeImage(t.history[i]))
  {
    var t := Run(pipe, s, actions);
    var k := s.history[d].key;
    assert Accounted(pipe, s, d);
    NoRegression(pipe, s, actions, k);
    RunKeepsInv(pipe, s, actions);
    if Read(t, k).Some? {
      var r := Newest(AllRows(t.parts), k).value;
      var i :| Origin(pipe, t, r, i);
    }
  }
}
