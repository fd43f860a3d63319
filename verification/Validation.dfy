/** Mapped records and ingestion-side data quality (ingestion/fineract_ingest/validation.py). */
module Validation {
  import opened Wrappers

  datatype Value = Null | Int(n: int) | Dec(x: real) | Text(s: string)

  /** A mapped record: column name to value. */
  type Record = map<string, Value>

  function Get(r: Record, column: string): Value {
    if column in r then r[column] else Null
  }

  predicate Private(column: string) {
    column != "" && column[0] == '_'
  }

  // ---------------------------------------------------------------------------------------------
  // Row level
  // ---------------------------------------------------------------------------------------------

  datatype Rule = PrimaryKeyNotNull | PrimaryKeyPositive | RecordNotEmpty | MapperException

  function Business(pk: string, mapped: Record): set<string> {
    set c | c in mapped && c != pk && !Private(c)
  }

  /** validate_record: the rule a mapped record breaks, if any. */
  function ValidateRecord(pk: string, mapped: Record): (rule: Option<Rule>)
    ensures rule.None? ==> pk in mapped && !mapped[pk].Null?
    ensures rule == Some(PrimaryKeyNotNull) <==> pk !in mapped || mapped[pk].Null?
    ensures rule == Some(PrimaryKeyPositive) <==> exists n :: n < 0 && Get(mapped, pk) == Int(n)
    ensures rule == Some(RecordNotEmpty) <==>
              && !Get(mapped, pk).Null? && !(exists n :: n < 0 && Get(mapped, pk) == Int(n))
              && (exists c :: c in mapped && c != pk && !Private(c))
              && (forall c :: c in mapped && c != pk && !Private(c) ==> mapped[c].Null?)
    ensures rule != Some(MapperException)
  {
    if Get(mapped, pk).Null? then Some(PrimaryKeyNotNull)
    else if mapped[pk].Int? && mapped[pk].n < 0 then Some(PrimaryKeyPositive)
    else if Business(pk, mapped) != {} && forall c | c in Business(pk, mapped) :: mapped[c].Null? then
      assert exists c :: c in Business(pk, mapped);
      Some(RecordNotEmpty)
    else
      assert forall c :: c in mapped && c != pk && !Private(c) ==> c in Business(pk, mapped);
      None
  }

  // ---------------------------------------------------------------------------------------------
  // Batch level
  // ---------------------------------------------------------------------------------------------

  datatype Severity = Error | Warn

  datatype Kind = RowCountMin | NotNull | Unique | NonNegative | Range | OtherKind

  datatype Expectation = Expectation(
    name: string, kind: Kind, columns: seq<string>, severity: Severity,
    minValue: Option<real>, maxValue: Option<real>)

  datatype ExpectationResult = ExpectationResult(
    name: string, severity: Severity, passed: bool, observed: Option<nat>, threshold: Option<real>)
  {
    predicate IsBlockingFailure() {
      !passed && severity == Error
    }
  }

  function Numeric(v: Value): Option<real> {
    match v
    case Int(n) => Some(n as real)
    case Dec(x) => Some(x)
    case _ => None
  }

  /** The values the counting checks object to. */
  predicate Bad(e: Expectation, v: Value) {
    match e.kind
    case NotNull => v.Null?
    case NonNegative => Numeric(v).Some? && Numeric(v).value < 0.0
    case Range =>
      Numeric(v).Some? && ((e.minValue.Some? && Numeric(v).value < e.minValue.value)
                           || (e.maxValue.Some? && Numeric(v).value > e.maxValue.value))
    case _ => false
  }

  function BadCount(e: Expectation, rows: seq<Record>, column: string): (n: nat)
    ensures n == 0 <==> forall i :: 0 <= i < |rows| ==> !Bad(e, Get(rows[i], column))
  {
    if rows == [] then 0
    else BadCount(e, rows[..|rows| - 1], column) + if Bad(e, Get(rows[|rows| - 1], column)) then 1 else 0
  }

  function NonNull(rows: seq<Record>, column: string): (vs: seq<Value>)
    ensures forall v :: v in vs <==> exists i :: 0 <= i < |rows| && Get(rows[i], column) == v && !v.Null?
  {
    if rows == [] then []
    else
      NonNull(rows[..|rows| - 1], column)
      + if Get(rows[|rows| - 1], column).Null? then [] else [Get(rows[|rows| - 1], column)]
  }

  ghost predicate NoDup(vs: seq<Value>) {
    forall i, j :: 0 <= i < j < |vs| ==> vs[i] != vs[j]
  }

  lemma NoDupPush(vs: seq<Value>, x: Value)
    ensures NoDup(vs + [x]) <==> NoDup(vs) && x !in vs
  {
    var all := vs + [x];
    if NoDup(all) {
      forall i, j | 0 <= i < j < |vs| ensures vs[i] != vs[j] {
        assert all[i] != all[j];
      }
      forall i | 0 <= i < |vs| ensures vs[i] != x {
        assert all[i] != all[|vs|];
      }
    }
  }

  lemma {:induction false} ElementsSize(vs: seq<Value>)
    ensures |Elements(vs)| <= |vs|
    ensures |Elements(vs)| == |vs| <==> NoDup(vs)
  {
    if vs != [] {
      var init, x := vs[..|vs| - 1], vs[|vs| - 1];
      ElementsSize(init);
      assert vs == init + [x];
      NoDupPush(init, x);
      assert Elements(vs) == Elements(init) + {x};
    }
  }

  function DuplicateCount(rows: seq<Record>, column: string): nat {
    ElementsSize(NonNull(rows, column));
    |NonNull(rows, column)| - |Elements(NonNull(rows, column))|
  }

  /** What one column adds to the count. */
  function ColumnFailures(e: Expectation, rows: seq<Record>, column: string): nat {
    if e.kind.Unique? then DuplicateCount(rows, column) else BadCount(e, rows, column)
  }

  function Failures(e: Expectation, rows: seq<Record>, columns: seq<string>): nat {
    if columns == [] then 0
    else
      Failures(e, rows, columns[..|columns| - 1])
      + ColumnFailures(e, rows, columns[|columns| - 1])
  }

  /** `min_value or 1`: an absent bound and a bound of zero both mean one. */
  function MinRows(e: Expectation): real {
    if e.minValue.None? || e.minValue.value == 0.0 then 1.0 else e.minValue.value
  }

  function ResultOf(e: Expectation, rows: seq<Record>): ExpectationResult {
    match e.kind
    case RowCountMin =>
      ExpectationResult(e.name, e.severity, |rows| as real >= MinRows(e), Some(|rows|), Some(MinRows(e)))
    case OtherKind => ExpectationResult(e.name, Warn, true, None, None)
    case _ =>
      var failures := Failures(e, rows, e.columns);
      ExpectationResult(e.name, e.severity, failures == 0, Some(failures), Some(0.0))
  }

  /** _check_not_null, _check_non_negative and _check_range, one column. */
  method CountBad(e: Expectation, rows: seq<Record>, column: string) returns (n: nat)
    ensures n == BadCount(e, rows, column)
  {
    n := 0;
    for i := 0 to |rows|
      invariant n == BadCount(e, rows[..i], column)
    {
      assert rows[..i + 1][..i] == rows[..i];
      if Bad(e, Get(rows[i], column)) {
        n := n + 1;
      }
    }
    assert rows[..|rows|] == rows;
  }

  /** _check_unique, one column. */
  method CountDuplicates(rows: seq<Record>, column: string) returns (n: nat)
    ensures n == DuplicateCount(rows, column)
  {
    var values: seq<Value> := [];
    for i := 0 to |rows|
      invariant values == NonNull(rows[..i], column)
    {
      assert rows[..i + 1][..i] == rows[..i];
      if !Get(rows[i], column).Null? {
        values := values + [Get(rows[i], column)];
      }
    }
    assert rows[..|rows|] == rows;
    ElementsSize(values);
    n := |values| - |Elements(values)|;
  }

  /** _evaluate_one: counts column by column. */
  method EvaluateOne(e: Expectation, rows: seq<Record>) returns (r: ExpectationResult)
    ensures r == ResultOf(e, rows)
  {
    if e.kind.RowCountMin? {
      return ExpectationResult(e.name, e.severity, |rows| as real >= MinRows(e), Some(|rows|), Some(MinRows(e)));
    }
    if e.kind.OtherKind? {
      return ExpectationResult(e.name, Warn, true, None, None);
    }
    var failures: nat, columns := 0, e.columns;
    for c := 0 to |columns|
      invariant failures == Failures(e, rows, columns[..c])
    {
      assert columns[..c + 1][..c] == columns[..c];
      var found: nat;
      if e.kind.Unique? {
        found := CountDuplicates(rows, columns[c]);
      } else {
        found := CountBad(e, rows, columns[c]);
      }
      failures := failures + found;
    }
    assert columns[..|columns|] == columns;
    return ExpectationResult(e.name, e.severity, failures == 0, Some(failures), Some(0.0));
  }

  function ResultsOf(es: seq<Expectation>, rows: seq<Record>): (rs: seq<ExpectationResult>)
    ensures |rs| == |es| && forall i :: 0 <= i < |es| ==> rs[i] == ResultOf(es[i], rows)
  {
    seq(|es|, i requires 0 <= i < |es| => ResultOf(es[i], rows))
  }

  method EvaluateExpectations(es: seq<Expectation>, rows: seq<Record>) returns (rs: seq<ExpectationResult>)
    ensures rs == ResultsOf(es, rows)
  {
    rs := [];
    for i := 0 to |es|
      invariant |rs| == i && forall j :: 0 <= j < i ==> rs[j] == ResultOf(es[j], rows)
    {
      var r := EvaluateOne(es[i], rows);
      rs := rs + [r];
    }
  }

  // ---------------------------------------------------------------------------------------------
  // What a passing expectation means
  // ---------------------------------------------------------------------------------------------

  /** No two rows share a value of the column, NULLs aside. */
  ghost predicate ColumnUnique(rows: seq<Record>, column: string) {
    forall i, j :: 0 <= i < j < |rows| && !Get(rows[i], column).Null? ==> Get(rows[i], column) != Get(rows[j], column)
  }

  lemma ColumnUniquePush(rows: seq<Record>, r: Record, column: string)
    ensures ColumnUnique(rows + [r], column) <==>
              ColumnUnique(rows, column) && (Get(r, column).Null? || Get(r, column) !in NonNull(rows, column))
  {
    var all := rows + [r];
    if ColumnUnique(all, column) {
      forall i, j | 0 <= i < j < |rows| && !Get(rows[i], column).Null?
        ensures Get(rows[i], column) != Get(rows[j], column)
      {
        assert Get(all[i], column) != Get(all[j], column);
      }
      forall i | 0 <= i < |rows| && !Get(rows[i], column).Null? ensures Get(rows[i], column) != Get(r, column) {
        assert Get(all[i], column) != Get(all[|rows|], column);
      }
    }
  }

  lemma {:induction false} NoDuplicatesIff(rows: seq<Record>, column: string)
    ensures ColumnUnique(rows, column) <==> NoDup(NonNull(rows, column))
  {
    if rows != [] {
      var init, r := rows[..|rows| - 1], rows[|rows| - 1];
      NoDuplicatesIff(init, column);
      assert rows == init + [r];
      ColumnUniquePush(init, r, column);
      NoDupPush(NonNull(init, column), Get(r, column));
      if Get(r, column).Null? {
        assert NonNull(rows, column) == NonNull(init, column);
      }
    }
  }

  ghost predicate ColumnHolds(e: Expectation, rows: seq<Record>, column: string) {
    if e.kind.Unique? then ColumnUnique(rows, column)
    else forall i :: 0 <= i < |rows| ==> !Bad(e, Get(rows[i], column))
  }

  lemma ColumnHoldsIff(e: Expectation, rows: seq<Record>, column: string)
    ensures ColumnHolds(e, rows, column) <==> ColumnFailures(e, rows, column) == 0
  {
    if e.kind.Unique? {
      NoDuplicatesIff(rows, column);
      ElementsSize(NonNull(rows, column));
    }
  }

  lemma {:induction false} NoFailuresIff(e: Expectation, rows: seq<Record>, columns: seq<string>)
    ensures Failures(e, rows, columns) == 0 <==> forall c :: c in columns ==> ColumnFailures(e, rows, c) == 0
  {
    if columns != [] {
      var init, c := columns[..|columns| - 1], columns[|columns| - 1];
      NoFailuresIff(e, rows, init);
      assert forall x :: x in columns <==> x in init || x == c;
    }
  }

  /** A column expectation passes exactly when each of its columns holds on every row. */
  lemma ExpectationPassesIff(e: Expectation, rows: seq<Record>)
    requires !e.kind.RowCountMin? && !e.kind.OtherKind?
    ensures ResultOf(e, rows).passed <==> forall c :: c in e.columns ==> ColumnHolds(e, rows, c)
  {
    NoFailuresIff(e, rows, e.columns);
    forall c ensures ColumnHolds(e, rows, c) <==> ColumnFailures(e, rows, c) == 0 {
      ColumnHoldsIff(e, rows, c);
    }
  }

  // ---------------------------------------------------------------------------------------------
  // What an expectation asks of the rows
  // ---------------------------------------------------------------------------------------------

  predicate IsBelow(v: Value, bound: real) {
    match v case Int(n) => n as real < bound case Dec(x) => x < bound case _ => false
  }

  predicate IsAbove(v: Value, bound: real) {
    match v case Int(n) => n as real > bound case Dec(x) => x > bound case _ => false
  }

  /** The rows meet the expectation: no NULL where there must be none, no repeated value, no negative number, none out
      of range, enough rows.  Text and NULL are never negative or out of range; an unknown kind asks nothing. */
  ghost predicate Meets(e: Expectation, rows: seq<Record>) {
    match e.kind
    case RowCountMin =>
      if e.minValue == None || e.minValue == Some(0.0) then |rows| >= 1 else |rows| as real >= e.minValue.value
    case NotNull => forall c, i :: c in e.columns && 0 <= i < |rows| ==> c in rows[i] && rows[i][c] != Null
    case Unique =>
      forall c, i, j :: c in e.columns && 0 <= i < j < |rows| && c in rows[i] && rows[i][c] != Null && c in rows[j] ==>
        rows[i][c] != rows[j][c]
    case NonNegative =>
      forall c, i :: c in e.columns && 0 <= i < |rows| && c in rows[i] ==> !IsBelow(rows[i][c], 0.0)
    case Range =>
      forall c, i :: c in e.columns && 0 <= i < |rows| && c in rows[i] ==>
        && (e.minValue.Some? ==> !IsBelow(rows[i][c], e.minValue.value))
        && (e.maxValue.Some? ==> !IsAbove(rows[i][c], e.maxValue.value))
    case OtherKind => true
  }

  lemma ColumnMeets(e: Expectation, rows: seq<Record>)
    requires !e.kind.RowCountMin? && !e.kind.OtherKind?
    ensures Meets(e, rows) <==> forall c :: c in e.columns ==> ColumnHolds(e, rows, c)
  {
    if Meets(e, rows) {
      forall c | c in e.columns ensures ColumnHolds(e, rows, c) {
      }
    }
    if forall c :: c in e.columns ==> ColumnHolds(e, rows, c) {
      HoldingMeets(e, rows);
    }
  }

  lemma HoldingMeets(e: Expectation, rows: seq<Record>)
    requires !e.kind.RowCountMin? && !e.kind.OtherKind?
    requires forall c :: c in e.columns ==> ColumnHolds(e, rows, c)
    ensures Meets(e, rows)
  {
    forall c, i | c in e.columns && 0 <= i < |rows| && !e.kind.Unique? ensures !Bad(e, Get(rows[i], c)) {
      assert ColumnHolds(e, rows, c);
    }
    forall c, i, j | e.kind.Unique? && c in e.columns && 0 <= i < j < |rows| && !Get(rows[i], c).Null?
      ensures Get(rows[i], c) != Get(rows[j], c)
    {
      assert ColumnHolds(e, rows, c);
    }
  }

  /** An expectation passes exactly when the rows meet it; and a failure blocks exactly when it is declared an error. */
  lemma PassesIffMet(e: Expectation, rows: seq<Record>)
    ensures ResultOf(e, rows).passed <==> Meets(e, rows)
    ensures ResultOf(e, rows).IsBlockingFailure() <==> e.severity == Error && !Meets(e, rows)
  {
    if !e.kind.RowCountMin? && !e.kind.OtherKind? {
      ExpectationPassesIff(e, rows);
      ColumnMeets(e, rows);
    }
  }

  ghost function BadRows(e: Expectation, rows: seq<Record>, n: nat, column: string): set<nat>
    requires n <= |rows|
  {
    set i: nat | i < n && Bad(e, Get(rows[i], column))
  }

  lemma {:induction false} BadCountIsSize(e: Expectation, rows: seq<Record>, column: string)
    ensures BadCount(e, rows, column) == |BadRows(e, rows, |rows|, column)|
  {
    if rows == [] {
      assert BadRows(e, rows, 0, column) == {};
    } else {
      var init, n := rows[..|rows| - 1], |rows| - 1;
      BadCountIsSize(e, init, column);
      assert BadRows(e, rows, n, column) == BadRows(e, init, n, column);
      assert BadRows(e, rows, |rows|, column) ==
        BadRows(e, rows, n, column) + if Bad(e, Get(rows[n], column)) then {n} else {};
    }
  }

  /** What is reported of a column expectation: its name and severity, and over its columns the number of rows that
      fail, or of values that repeat, added up. */
  lemma ReportedFailures(e: Expectation, rows: seq<Record>, columns: seq<string>, column: string)
    requires !e.kind.RowCountMin? && !e.kind.OtherKind?
    ensures ResultOf(e, rows).name == e.name && ResultOf(e, rows).severity == e.severity
    ensures ResultOf(e, rows).observed == Some(Failures(e, rows, e.columns)) && Failures(e, rows, []) == 0
    ensures Failures(e, rows, columns + [column])
         == Failures(e, rows, columns)
            + if e.kind.Unique? then DuplicateCount(rows, column) else |BadRows(e, rows, |rows|, column)|
  {
    assert (columns + [column])[..|columns|] == columns;
    BadCountIsSize(e, rows, column);
  }
}
