/** The materialized views that turn Debezium events into typed rows
    (platform/clickhouse/init/04_materialized_views.sql).  Wire casts of the business columns are
    left to the library: `cells` pass through. */
module CdcViews {
  import opened Wrappers
  import opened RawTables

  datatype Event = Event(
    error: string,
    key: Option<int>,
    loanId: Option<int>,
    date: Option<int>,
    cells: seq<Option<string>>,
    op: Option<string>,
    deletedFlag: Option<string>,
    sourceTsMs: Option<int>,
    tsMs: Option<int>,
    lsn: Option<int>)

  const TWO_64: int := 0x1_0000_0000_0000_0000

  /** toUInt64 of an Int64 wraps a negative value. */
  function ToUInt64(x: int): (u: nat)
    requires -TWO_64 < x
    ensures x >= 0 ==> u == x
    ensures x < 0 ==> u == TWO_64 + x
  {
    if x >= 0 then x else TWO_64 + x
  }

  function Int64(x: int): (y: int)
    ensures -0x8000_0000_0000_0000 <= y < 0x8000_0000_0000_0000
    ensures -0x8000_0000_0000_0000 <= x < 0x8000_0000_0000_0000 ==> y == x
  {
    var m := x % TWO_64;
    if m < 0x8000_0000_0000_0000 then m else m - TWO_64
  }

  function CommitMs(e: Event): int {
    Int64(e.sourceTsMs.GetOr(e.tsMs.GetOr(0)))
  }

  predicate IsDelete(e: Event) {
    e.op.GetOr("") == "d" || e.deletedFlag.GetOr("false") == "true"
  }

  /** mv_<table>: parse failures and rows without their key columns are filtered out.  The ledger
      also needs loan_id and transaction_date. */
  function RowOf(layout: Layout, e: Event): Option<Row> {
    if e.error != "" || e.key.None? || (layout.Ledger? && (e.loanId.None? || e.date.None?)) then None
    else Some(Row(e.key.value, e.loanId.GetOr(0), e.date.GetOr(0), e.cells,
                  CommitMs(e), e.lsn.GetOr(0), ToUInt64(CommitMs(e)), IsDelete(e)))
  }

  /** mv_<table>_errors */
  predicate Quarantined(e: Event) {
    e.error != ""
  }

  datatype AuditRow = AuditRow(key: int, op: string, commitAt: int, lsn: int)

  /** mv_<table>_audit */
  function AuditOf(e: Event): Option<AuditRow> {
    if e.error != "" || e.key.None? then None
    else Some(AuditRow(e.key.value, e.op.GetOr("r"), CommitMs(e), e.lsn.GetOr(0)))
  }

  /** Routing.  An event is quarantined or audited, never both, and vanishes exactly when it parses
      but has no key.  A landed row is always audited under the same key and commit time; the audited
      events that do not land are exactly the ledger events without a loan or a date. */
  lemma Routing(layout: Layout, e: Event)
    ensures !(Quarantined(e) && AuditOf(e).Some?)
    ensures !Quarantined(e) && AuditOf(e).None? <==> e.error == "" && e.key.None?
    ensures RowOf(layout, e).Some? ==>
              && AuditOf(e).Some?
              && AuditOf(e).value.key == RowOf(layout, e).value.key
              && AuditOf(e).value.commitAt == RowOf(layout, e).value.commitAt
    ensures AuditOf(e).Some? && RowOf(layout, e).None? <==>
              && layout.Ledger? && e.error == "" && e.key.Some?
              && (e.loanId.None? || e.date.None?)
  {
  }

  /** What lands is what the event says, column by column; a NULL date or loan on a dimension lands as zero. */
  lemma LandedRowIs(layout: Layout, e: Event)
    requires RowOf(layout, e).Some?
    ensures
      var r := RowOf(layout, e).value;
      && e.key == Some(r.key) && r.cells == e.cells
      && (e.loanId == Some(r.loanId) || (e.loanId == None && r.loanId == 0))
      && (e.date == Some(r.date) || (e.date == None && r.date == 0))
      && (e.lsn == Some(r.lsn) || (e.lsn == None && r.lsn == 0))
      && (r.deleted <==> e.op == Some("d") || e.deletedFlag == Some("true"))
  {
  }

  /** A time in the range of the column, from 1970 on. */
  predicate Representable(t: int) {
    0 <= t < 0x8000_0000_0000_0000
  }

  /** The version of a landed row is the time the source committed the change, whenever the connector read it: a change
      read again after a restart keeps its place.  Only an event without a source time goes by the time it
      was read, and one without either is as old as the epoch.  The audit row has the same time. */
  lemma VersionIsSourceCommit(layout: Layout, e: Event, t: int)
    requires RowOf(layout, e).Some? && Representable(t)
    requires e.sourceTsMs == Some(t) || (e.sourceTsMs == None && (e.tsMs == Some(t) || (e.tsMs == None && t == 0)))
    ensures RowOf(layout, e).value.version == RowOf(layout, e).value.commitAt == t
    ensures AuditOf(e).Some? && AuditOf(e).value.commitAt == t
  {
  }

  /** Commit time and version carry the same number exactly from 1970 on; before it the version
      wraps and outranks every later commit. */
  lemma VersionIsCommitTimeIff(layout: Layout, e: Event)
    requires RowOf(layout, e).Some?
    ensures
      var r := RowOf(layout, e).value;
      && (r.version == r.commitAt <==> r.commitAt >= 0)
      && (r.commitAt < 0 ==>
            forall f: Event :: RowOf(layout, f).Some? && RowOf(layout, f).value.commitAt >= 0 ==>
              RowOf(layout, f).value.version < r.version)
  {
  }

  /** A commit before 1970 lands with its own, negative time and a version near 2^64. */
  lemma EarlyCommitWraps(layout: Layout, e: Event, t: int)
    requires RowOf(layout, e).Some? && e.sourceTsMs == Some(t) && -0x8000_0000_0000_0000 <= t < 0
    ensures RowOf(layout, e).value.commitAt == t
    ensures RowOf(layout, e).value.version == 0x1_0000_0000_0000_0000 + t
  {
  }

  /** What the audit keeps of an event. */
  lemma AuditRowIs(e: Event)
    requires AuditOf(e).Some?
    ensures
      var a := AuditOf(e).value;
      && e.key == Some(a.key) && (e.op == Some(a.op) || (e.op == None && a.op == "r"))
      && (e.lsn == Some(a.lsn) || (e.lsn == None && a.lsn == 0))
  {
  }
}
