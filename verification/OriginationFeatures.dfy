/** The point-in-time features of the training dataset
    (transform/fineract_analytics/models/ml/ml_loan_default_features.sql): the prior-loan and prior-repayment
    joins, the columns aggregated from them, and what each column can depend on. */
module OriginationFeatures {
  import opened Wrappers
  import opened LoanRollup

  /** A disbursed loan.  `writtenOff` and `daysPastDue` are its status today; the rest is fixed when it is
      disbursed. */
  datatype Loan = Loan(
    id: int,
    clientId: Option<int>,
    productId: Option<int>,
    principal: int,
    principalDisbursed: int,
    disbursed: int,
    writtenOff: bool,
    daysPastDue: int)

  // ---------------------------------------------------------------------------------------------
  // Rows: selection, projection, and one list of rows per row
  // ---------------------------------------------------------------------------------------------

  function Filter<T>(p: T -> bool, s: seq<T>): seq<T> {
    if s == [] then [] else if p(s[0]) then [s[0]] + Filter(p, s[1..]) else Filter(p, s[1..])
  }

  function Map<T, U>(f: T -> U, s: seq<T>): seq<U> {
    if s == [] then [] else [f(s[0])] + Map(f, s[1..])
  }

  function Flat<T, U>(f: T -> seq<U>, s: seq<T>): seq<U> {
    if s == [] then [] else f(s[0]) + Flat(f, s[1..])
  }

  lemma {:induction false} FilterRows<T>(p: T -> bool, s: seq<T>, x: T)
    ensures x in Filter(p, s) <==> x in s && p(x)
  {
    if s != [] {
      FilterRows(p, s[1..], x);
      assert s == [s[0]] + s[1..];
    }
  }

  lemma {:induction false} FilterConcat<T>(p: T -> bool, a: seq<T>, b: seq<T>)
    ensures Filter(p, a + b) == Filter(p, a) + Filter(p, b)
  {
    if a == [] {
      assert a + b == b;
    } else {
      FilterConcat(p, a[1..], b);
      assert (a + b)[1..] == a[1..] + b;
    }
  }

  lemma {:induction false} MapConcat<T, U>(f: T -> U, a: seq<T>, b: seq<T>)
    ensures Map(f, a + b) == Map(f, a) + Map(f, b)
  {
    if a == [] {
      assert a + b == b;
    } else {
      MapConcat(f, a[1..], b);
      assert (a + b)[1..] == a[1..] + b && (a + b)[0] == a[0];
      assert [f(a[0])] + (Map(f, a[1..]) + Map(f, b)) == ([f(a[0])] + Map(f, a[1..])) + Map(f, b);
    }
  }

  lemma {:induction false} FlatConcat<T, U>(f: T -> seq<U>, a: seq<T>, b: seq<T>)
    ensures Flat(f, a + b) == Flat(f, a) + Flat(f, b)
  {
    if a == [] {
      assert a + b == b;
    } else {
      FlatConcat(f, a[1..], b);
      assert (a + b)[1..] == a[1..] + b && (a + b)[0] == a[0];
      assert f(a[0]) + (Flat(f, a[1..]) + Flat(f, b)) == (f(a[0]) + Flat(f, a[1..])) + Flat(f, b);
    }
  }

  lemma {:induction false} MapAt<T, U>(f: T -> U, s: seq<T>)
    ensures |Map(f, s)| == |s| && forall i :: 0 <= i < |s| ==> Map(f, s)[i] == f(s[i])
  {
    if s != [] {
      MapAt(f, s[1..]);
    }
  }

  // ---------------------------------------------------------------------------------------------
  // The order rows are stored in never matters
  // ---------------------------------------------------------------------------------------------

  ghost predicate SameRows<T>(a: seq<T>, b: seq<T>) {
    multiset(a) == multiset(b)
  }

  lemma FirstElsewhere<T>(a: seq<T>, b: seq<T>) returns (front: seq<T>, back: seq<T>)
    requires a != [] && SameRows(a, b)
    ensures b == front + [a[0]] + back && SameRows(a[1..], front + back)
  {
    assert a == [a[0]] + a[1..];
    assert a[0] in multiset(a) && a[0] in multiset(b);
    var i :| 0 <= i < |b| && b[i] == a[0];
    front, back := b[..i], b[i + 1..];
    assert b == front + [a[0]] + back;
    assert multiset(a[1..]) == multiset(a) - multiset{a[0]};
    calc {
      multiset(front + back);
      (multiset(front) + multiset{a[0]} + multiset(back)) - multiset{a[0]};
      multiset(b) - multiset{a[0]};
    }
  }

  lemma {:induction false} FilterSame<T>(p: T -> bool, a: seq<T>, b: seq<T>)
    requires SameRows(a, b)
    ensures SameRows(Filter(p, a), Filter(p, b))
  {
    if a == [] {
      assert |multiset(b)| == 0;
    } else {
      var front, back := FirstElsewhere(a, b);
      FilterSame(p, a[1..], front + back);
      FilterConcat(p, front, back);
      FilterConcat(p, front + [a[0]], back);
      FilterConcat(p, front, [a[0]]);
    }
  }

  lemma {:induction false} MapSame<T, U>(f: T -> U, a: seq<T>, b: seq<T>)
    requires SameRows(a, b)
    ensures SameRows(Map(f, a), Map(f, b))
  {
    if a == [] {
      assert |multiset(b)| == 0;
    } else {
      var front, back := FirstElsewhere(a, b);
      MapSame(f, a[1..], front + back);
      MapConcat(f, front, back);
      MapConcat(f, front + [a[0]], back);
      MapConcat(f, front, [a[0]]);
    }
  }

  lemma {:induction false} FlatSame<T, U>(f: T -> seq<U>, a: seq<T>, b: seq<T>)
    requires SameRows(a, b)
    ensures SameRows(Flat(f, a), Flat(f, b))
  {
    if a == [] {
      assert |multiset(b)| == 0;
    } else {
      var front, back := FirstElsewhere(a, b);
      FlatSame(f, a[1..], front + back);
      FlatConcat(f, front, back);
      FlatConcat(f, front + [a[0]], back);
      FlatConcat(f, front, [a[0]]);
    }
  }

  lemma {:induction false} FlatPointwise<T, U>(f: T -> seq<U>, g: T -> seq<U>, s: seq<T>)
    requires forall x :: x in s ==> SameRows(f(x), g(x))
    ensures SameRows(Flat(f, s), Flat(g, s))
  {
    if s != [] {
      FlatPointwise(f, g, s[1..]);
    }
  }

  lemma {:induction false} TotalConcat(a: seq<int>, b: seq<int>)
    ensures Total(a + b) == Total(a) + Total(b)
  {
    if a == [] {
      assert a + b == b;
    } else {
      TotalConcat(a[1..], b);
      assert (a + b)[1..] == a[1..] + b;
    }
  }

  lemma {:induction false} TotalSame(a: seq<int>, b: seq<int>)
    requires SameRows(a, b)
    ensures Total(a) == Total(b)
  {
    if a == [] {
      assert |multiset(b)| == 0;
    } else {
      var front, back := FirstElsewhere(a, b);
      TotalSame(a[1..], front + back);
      TotalConcat(front, back);
      TotalConcat(front + [a[0]], back);
      TotalConcat(front, [a[0]]);
    }
  }

  lemma SizeSame<T>(a: seq<T>, b: seq<T>)
    requires SameRows(a, b)
    ensures |a| == |b|
  {
    assert |multiset(a)| == |a| && |multiset(b)| == |b|;
  }

  function Max(s: seq<int>): Option<int> {
    if s == [] then None else Some(MaxOf(s))
  }

  lemma MaxSame(a: seq<int>, b: seq<int>)
    requires SameRows(a, b)
    ensures Max(a) == Max(b)
  {
    SizeSame(a, b);
    if a != [] {
      ExtremesBound(a);
      ExtremesBound(b);
      assert MaxOf(a) in multiset(a) && MaxOf(b) in multiset(b);
      assert MaxOf(a) in b && MaxOf(b) in a by {
        assert MaxOf(a) in multiset(b) && MaxOf(b) in multiset(a);
      }
    }
  }

  /** countDistinct: NULLs are not counted. */
  function Distinct(s: seq<Option<int>>): set<int> {
    set o | o in s && o.Some? :: o.value
  }

  lemma DistinctSame(a: seq<Option<int>>, b: seq<Option<int>>)
    requires SameRows(a, b)
    ensures Distinct(a) == Distinct(b)
  {
    assert forall o :: o in a <==> o in multiset(a);
    assert forall o :: o in b <==> o in multiset(b);
  }

  // ---------------------------------------------------------------------------------------------
  // The two joins and their groups
  // ---------------------------------------------------------------------------------------------

  /** The self-join's condition; a NULL client matches nothing. */
  predicate IsPrior(id: int, client: Option<int>, day: int, prev: Loan) {
    client.Some? && prev.clientId == client && prev.id != id && prev.disbursed < day
  }

  function PriorTo(id: int, client: Option<int>, day: int): Loan -> bool {
    prev => IsPrior(id, client, day, prev)
  }

  function PriorLoans(loans: seq<Loan>, cur: Loan): seq<Loan> {
    Filter(PriorTo(cur.id, cur.clientId, cur.disbursed), loans)
  }

  predicate IsRepayment(loan: int, day: int, t: Tx) {
    t.loanId == loan && t.date < day && Classify(t.typeId) == Repayment
  }

  function RepaymentOf(loan: int, day: int): Tx -> bool {
    t => IsRepayment(loan, day, t)
  }

  function RepaymentsBefore(txs: seq<Tx>, day: int): int -> seq<Tx> {
    loan => Filter(RepaymentOf(loan, day), txs)
  }

  function IdOf(l: Loan): int { l.id }

  function PriorRepayments(loans: seq<Loan>, txs: seq<Tx>, cur: Loan): seq<Tx> {
    Flat(RepaymentsBefore(txs, cur.disbursed), Map(IdOf, PriorLoans(loans, cur)))
  }

  /** Each joined row carries cur.loan_id, the grouping key. */
  function Tag<T>(key: int, rows: seq<T>): seq<(int, T)> {
    if rows == [] then [] else [(key, rows[0])] + Tag(key, rows[1..])
  }

  function LoanJoin(curs: seq<Loan>, loans: seq<Loan>): seq<(int, Loan)> {
    if curs == [] then [] else Tag(curs[0].id, PriorLoans(loans, curs[0])) + LoanJoin(curs[1..], loans)
  }

  function TxJoin(curs: seq<Loan>, loans: seq<Loan>, txs: seq<Tx>): seq<(int, Tx)> {
    if curs == [] then []
    else Tag(curs[0].id, PriorRepayments(loans, txs, curs[0])) + TxJoin(curs[1..], loans, txs)
  }

  /** GROUP BY cur.loan_id, one group. */
  function Group<T>(rows: seq<(int, T)>, key: int): seq<T> {
    if rows == [] then [] else (if rows[0].0 == key then [rows[0].1] else []) + Group(rows[1..], key)
  }

  lemma {:induction false} GroupTag<T>(key: int, rows: seq<T>, more: seq<(int, T)>, k: int)
    ensures Group(Tag(key, rows) + more, k) == (if k == key then rows else []) + Group(more, k)
  {
    if rows == [] {
      assert Tag(key, rows) + more == more;
    } else {
      GroupTag(key, rows[1..], more, k);
      assert Tag(key, rows) + more == [(key, rows[0])] + (Tag(key, rows[1..]) + more);
      assert (Tag(key, rows) + more)[1..] == Tag(key, rows[1..]) + more;
    }
  }

  ghost predicate DistinctIds(loans: seq<Loan>) {
    forall i, j :: 0 <= i < j < |loans| ==> loans[i].id != loans[j].id
  }

  lemma {:induction false} NoGroup(curs: seq<Loan>, loans: seq<Loan>, txs: seq<Tx>, k: int)
    requires forall c :: c in curs ==> c.id != k
    ensures Group(LoanJoin(curs, loans), k) == [] && Group(TxJoin(curs, loans, txs), k) == []
  {
    if curs != [] {
      NoGroup(curs[1..], loans, txs, k);
      GroupTag(curs[0].id, PriorLoans(loans, curs[0]), LoanJoin(curs[1..], loans), k);
      GroupTag(curs[0].id, PriorRepayments(loans, txs, curs[0]), TxJoin(curs[1..], loans, txs), k);
    }
  }

  /** With one row per loan, a loan's groups are its own joins: no other loan's rows land in them. */
  lemma {:induction false} GroupsAreJoins(curs: seq<Loan>, loans: seq<Loan>, txs: seq<Tx>, cur: Loan)
    requires DistinctIds(curs) && cur in curs
    ensures Group(LoanJoin(curs, loans), cur.id) == PriorLoans(loans, cur)
    ensures Group(TxJoin(curs, loans, txs), cur.id) == PriorRepayments(loans, txs, cur)
  {
    var first, rest := curs[0], curs[1..];
    assert curs == [first] + rest;
    GroupTag(first.id, PriorLoans(loans, first), LoanJoin(rest, loans), cur.id);
    GroupTag(first.id, PriorRepayments(loans, txs, first), TxJoin(rest, loans, txs), cur.id);
    if cur == first {
      assert forall c :: c in rest ==> c.id != cur.id;
      NoGroup(rest, loans, txs, cur.id);
    } else {
      var i :| 0 <= i < |rest| && rest[i] == cur;
      assert curs[0].id != curs[i + 1].id;
      GroupsAreJoins(rest, loans, txs, cur);
    }
  }

  // ---------------------------------------------------------------------------------------------
  // The columns
  // ---------------------------------------------------------------------------------------------

  datatype Features = Features(
    priorLoans: nat,
    priorWrittenOff: nat,
    priorDelinquent: nat,
    totalDisbursed: int,
    maxPrincipal: int,
    distinctProducts: nat,
    daysSinceLoan: Option<int>,
    repayments: nat,
    totalRepaid: int,
    averageRepayment: real,
    reversals: nat,
    daysSinceRepayment: Option<int>,
    firstTime: bool)

  const DELINQUENT_DAYS := 30

  function WrittenOff(l: Loan): bool { l.writtenOff }
  function Delinquent(l: Loan): bool { l.daysPastDue > DELINQUENT_DAYS }
  function Reversed(t: Tx): bool { t.isReversed.GetOr(0) == 1 }
  function Principal(l: Loan): int { l.principal }
  function PrincipalDisbursed(l: Loan): int { l.principalDisbursed }
  function Product(l: Loan): Option<int> { l.productId }
  function DisbursedOn(l: Loan): int { l.disbursed }
  function Paid(t: Tx): int { Amount(t) }
  function PaidOn(t: Tx): int { t.date }

  function DaysSince(latest: Option<int>, day: int): Option<int> {
    match latest
    case None => None
    case Some(d) => Some(day - d)
  }

  function Average(amounts: seq<int>): real {
    if amounts == [] then 0.0 else Total(amounts) as real / |amounts| as real
  }

  /** The feature columns of a loan disbursed on `day`, from its two groups. */
  function Columns(day: int, prior: seq<Loan>, repaid: seq<Tx>): Features {
    Features(
      |prior|,
      |Filter(WrittenOff, prior)|,
      |Filter(Delinquent, prior)|,
      Total(Map(PrincipalDisbursed, prior)),
      Max(Map(Principal, prior)).GetOr(0),
      |Distinct(Map(Product, prior))|,
      DaysSince(Max(Map(DisbursedOn, prior)), day),
      |repaid|,
      Total(Map(Paid, repaid)),
      Average(Map(Paid, repaid)),
      |Filter(Reversed, repaid)|,
      DaysSince(Max(Map(PaidOn, repaid)), day),
      |prior| == 0)
  }

  /** The row the model emits for a loan: both CTEs left-joined on loan_id. */
  function FeatureRow(loans: seq<Loan>, txs: seq<Tx>, l: Loan): Features {
    Columns(l.disbursed, Group(LoanJoin(loans, loans), l.id), Group(TxJoin(loans, loans, txs), l.id))
  }

  // ---------------------------------------------------------------------------------------------
  // The leakage test finds nothing
  // ---------------------------------------------------------------------------------------------

  /** The WHERE clause of tests/assert_ml_features_are_point_in_time.sql. */
  predicate Leaks(f: Features) {
    || (f.daysSinceLoan.Some? && f.daysSinceLoan.value <= 0)
    || (f.daysSinceRepayment.Some? && f.daysSinceRepayment.value <= 0)
    || (f.firstTime && f.priorLoans > 0)
    || (!f.firstTime && f.priorLoans == 0)
  }

  lemma {:induction false} FlatRows<T, U>(f: T -> seq<U>, s: seq<T>, u: U) returns (x: T)
    requires u in Flat(f, s)
    ensures x in s && u in f(x)
  {
    if u in f(s[0]) {
      x := s[0];
    } else {
      x := FlatRows(f, s[1..], u);
    }
  }

  /** p is another loan of the client of l, disbursed on an earlier day. */
  ghost predicate Earlier(p: Loan, l: Loan) {
    l.clientId.Some? && p.clientId == l.clientId && p.id != l.id && p.disbursed < l.disbursed
  }

  /** A repayment made before the day l was disbursed.  It is one by its type, 2, reversed or not. */
  ghost predicate RepaidBefore(t: Tx, l: Loan) {
    t.typeId == Some(2) && t.date < l.disbursed
  }

  /** Which rows a loan's features are computed from: its client's other loans disbursed strictly earlier, and
      those loans' repayments dated strictly earlier. */
  lemma PriorRows(loans: seq<Loan>, txs: seq<Tx>, l: Loan)
    ensures forall p :: p in PriorLoans(loans, l) <==> p in loans && Earlier(p, l)
    ensures forall t :: t in PriorRepayments(loans, txs, l) ==>
              t in txs && RepaidBefore(t, l) && exists p :: p in PriorLoans(loans, l) && p.id == t.loanId
  {
    forall p ensures p in PriorLoans(loans, l) <==> p in loans && Earlier(p, l) {
      FilterRows(PriorTo(l.id, l.clientId, l.disbursed), loans, p);
    }
    var prior := PriorLoans(loans, l);
    forall t | t in PriorRepayments(loans, txs, l)
      ensures t in txs && RepaidBefore(t, l)
      ensures exists p :: p in prior && p.id == t.loanId
    {
      var id := FlatRows(RepaymentsBefore(txs, l.disbursed), Map(IdOf, prior), t);
      FilterRows(RepaymentOf(id, l.disbursed), txs, t);
      MapAt(IdOf, prior);
      var i :| 0 <= i < |prior| && Map(IdOf, prior)[i] == id;
      assert prior[i] in prior && prior[i].id == t.loanId;
    }
  }

  lemma DaysSinceEarlier(days: seq<int>, day: int)
    requires forall d :: d in days ==> d < day
    ensures DaysSince(Max(days), day).Some? ==> DaysSince(Max(days), day).value > 0
  {
    if days != [] {
      ExtremesBound(days);
    }
  }

  /** No row of any dataset is returned by the leakage test; a borrower is first-time exactly when no other loan
      of the client was disbursed earlier. */
  lemma LeakageTestIsEmpty(loans: seq<Loan>, txs: seq<Tx>, l: Loan)
    requires DistinctIds(loans) && l in loans
    ensures !Leaks(FeatureRow(loans, txs, l))
    ensures
      var f := FeatureRow(loans, txs, l);
      && (f.daysSinceLoan.Some? ==> f.daysSinceLoan.value > 0)
      && (f.daysSinceRepayment.Some? ==> f.daysSinceRepayment.value > 0)
      && (f.firstTime <==> f.priorLoans == 0)
    ensures FeatureRow(loans, txs, l).firstTime <==> forall p :: p in loans ==> !Earlier(p, l)
  {
    GroupsAreJoins(loans, loans, txs, l);
    PriorRows(loans, txs, l);
    var prior, repaid := PriorLoans(loans, l), PriorRepayments(loans, txs, l);
    MapAt(DisbursedOn, prior);
    forall d | d in Map(DisbursedOn, prior) ensures d < l.disbursed {
      var i :| 0 <= i < |prior| && d == prior[i].disbursed;
      assert prior[i] in prior;
    }
    DaysSinceEarlier(Map(DisbursedOn, prior), l.disbursed);
    MapAt(PaidOn, repaid);
    forall d | d in Map(PaidOn, repaid) ensures d < l.disbursed {
      var i :| 0 <= i < |repaid| && d == repaid[i].date;
      assert repaid[i] in repaid;
    }
    DaysSinceEarlier(Map(PaidOn, repaid), l.disbursed);
    assert prior != [] ==> prior[0] in prior;
  }

  // ---------------------------------------------------------------------------------------------
  // What the columns hold
  // ---------------------------------------------------------------------------------------------

  lemma {:induction false} FilterCounts<T>(p: T -> bool, s: seq<T>, x: T)
    ensures multiset(Filter(p, s))[x] == if p(x) then multiset(s)[x] else 0
  {
    if s != [] {
      FilterCounts(p, s[1..], x);
      assert s == [s[0]] + s[1..];
    }
  }

  lemma {:induction false} FlatCounts(txs: seq<Tx>, ids: seq<int>, day: int, t: Tx)
    requires forall i, j :: 0 <= i < j < |ids| ==> ids[i] != ids[j]
    ensures multiset(Flat(RepaymentsBefore(txs, day), ids))[t]
         == if t.loanId in ids && IsRepayment(t.loanId, day, t) then multiset(txs)[t] else 0
  {
    if ids != [] {
      FlatCounts(txs, ids[1..], day, t);
      FilterCounts(RepaymentOf(ids[0], day), txs, t);
      assert ids[0] !in ids[1..];
      assert t.loanId in ids <==> t.loanId == ids[0] || t.loanId in ids[1..];
    }
  }

  lemma {:induction false} FilterKeepsDistinct(p: Loan -> bool, loans: seq<Loan>)
    requires DistinctIds(loans)
    ensures DistinctIds(Filter(p, loans))
  {
    if loans != [] {
      FilterKeepsDistinct(p, loans[1..]);
      var rest := Filter(p, loans[1..]);
      forall i | 0 <= i < |rest| ensures loans[0].id != rest[i].id {
        FilterRows(p, loans[1..], rest[i]);
        var j :| 0 <= j < |loans[1..]| && loans[1..][j] == rest[i];
        assert loans[0].id != loans[j + 1].id;
      }
    }
  }

  /** No fan-out and no loss: a ledger row takes part once for each time it is stored, exactly when it is a
      repayment dated before the observation date on a prior loan. */
  lemma RepaymentsJoinOnce(loans: seq<Loan>, txs: seq<Tx>, l: Loan, t: Tx)
    requires DistinctIds(loans)
    ensures multiset(PriorRepayments(loans, txs, l))[t]
         == if (exists p :: p in loans && Earlier(p, l) && p.id == t.loanId) && RepaidBefore(t, l)
            then multiset(txs)[t] else 0
  {
    var ids := Map(IdOf, PriorLoans(loans, l));
    PriorIds(loans, l, t.loanId);
    FlatCounts(txs, ids, l.disbursed, t);
    assert IsRepayment(t.loanId, l.disbursed, t) <==> RepaidBefore(t, l);
  }

  /** The ids the repayments are joined on: those of the earlier loans, each once. */
  lemma PriorIds(loans: seq<Loan>, l: Loan, id: int)
    requires DistinctIds(loans)
    ensures
      var ids := Map(IdOf, PriorLoans(loans, l));
      && (forall i, j :: 0 <= i < j < |ids| ==> ids[i] != ids[j])
      && (id in ids <==> exists p :: p in loans && Earlier(p, l) && p.id == id)
  {
    var prior := PriorLoans(loans, l);
    FilterKeepsDistinct(PriorTo(l.id, l.clientId, l.disbursed), loans);
    MapAt(IdOf, prior);
    PriorRows(loans, [], l);
    if id in Map(IdOf, prior) {
      var i :| 0 <= i < |prior| && Map(IdOf, prior)[i] == id;
      assert prior[i] in prior && prior[i].id == id;
    }
    if p :| p in loans && Earlier(p, l) && p.id == id {
      assert p in prior;
      var i :| 0 <= i < |prior| && prior[i] == p;
      assert Map(IdOf, prior)[i] == id;
    }
  }

  ghost function PriorSet(loans: seq<Loan>, l: Loan): set<Loan> {
    set p | p in loans && Earlier(p, l)
  }

  lemma {:induction false} DistinctSize(loans: seq<Loan>, s: set<Loan>)
    requires DistinctIds(loans) && forall x :: x in s <==> x in loans
    ensures |s| == |loans|
  {
    if loans == [] {
      assert s == {};
    } else {
      assert loans == [loans[0]] + loans[1..];
      assert loans[0] !in loans[1..];
      DistinctSize(loans[1..], s - {loans[0]});
    }
  }

  lemma LoanColumns(loans: seq<Loan>, prior: seq<Loan>, l: Loan)
    requires DistinctIds(prior) && prior == PriorLoans(loans, l)
    requires forall p :: p in prior <==> p in PriorSet(loans, l)
    ensures |prior| == |PriorSet(loans, l)|
    ensures prior != [] ==>
              && (exists p :: p in PriorSet(loans, l) && Max(Map(Principal, prior)) == Some(p.principal))
              && (forall p :: p in PriorSet(loans, l) ==> p.principal <= Max(Map(Principal, prior)).GetOr(0))
              && (exists p :: p in PriorSet(loans, l) && Max(Map(DisbursedOn, prior)) == Some(p.disbursed))
              && (forall p :: p in PriorSet(loans, l) ==> p.disbursed <= Max(Map(DisbursedOn, prior)).GetOr(0))
  {
    DistinctSize(prior, PriorSet(loans, l));
    if prior != [] {
      MaxOfColumn(Principal, prior);
      MaxOfColumn(DisbursedOn, prior);
    }
  }

  lemma MaxOfColumn<T>(f: T -> int, s: seq<T>)
    requires s != []
    ensures exists x :: x in s && Max(Map(f, s)) == Some(f(x))
    ensures forall x :: x in s ==> f(x) <= Max(Map(f, s)).GetOr(0)
  {
    MapAt(f, s);
    ExtremesBound(Map(f, s));
    var i :| 0 <= i < |s| && Map(f, s)[i] == MaxOf(Map(f, s));
    assert s[i] in s;
    forall x | x in s ensures f(x) <= Max(Map(f, s)).GetOr(0) {
      var j :| 0 <= j < |s| && s[j] == x;
      assert Map(f, s)[j] == f(x);
    }
  }

  /** The prior-loan columns against the set of prior loans: their number, the largest principal, and the days
      since the nearest one; without any, zeros and a NULL. */
  lemma PriorColumnsAreExact(loans: seq<Loan>, txs: seq<Tx>, l: Loan)
    requires DistinctIds(loans) && l in loans
    ensures
      var f, prior := FeatureRow(loans, txs, l), PriorSet(loans, l);
      && f.priorLoans == |prior|
      && (prior == {} ==> f.maxPrincipal == 0 && f.daysSinceLoan == None && f.totalDisbursed == 0)
      && (prior != {} ==>
            && (exists p :: p in prior && f.maxPrincipal == p.principal)
            && (forall p :: p in prior ==> p.principal <= f.maxPrincipal)
            && f.daysSinceLoan.Some?
            && (exists p :: p in prior && f.daysSinceLoan.value == l.disbursed - p.disbursed)
            && (forall p :: p in prior ==> f.daysSinceLoan.value <= l.disbursed - p.disbursed))
  {
    GroupsAreJoins(loans, loans, txs, l);
    PriorRows(loans, txs, l);
    var prior := PriorLoans(loans, l);
    FilterKeepsDistinct(PriorTo(l.id, l.clientId, l.disbursed), loans);
    LoanColumns(loans, prior, l);
    assert prior != [] ==> prior[0] in prior;
  }

  lemma FilterSize(p: Loan -> bool, loans: seq<Loan>, s: set<Loan>)
    requires DistinctIds(loans) && forall x :: x in s <==> x in loans && p(x)
    ensures |Filter(p, loans)| == |s|
  {
    FilterKeepsDistinct(p, loans);
    forall x ensures x in Filter(p, loans) <==> x in loans && p(x) {
      FilterRows(p, loans, x);
    }
    DistinctSize(Filter(p, loans), s);
  }

  lemma ProductsOf(prior: seq<Loan>, rows: set<Loan>)
    requires forall p :: p in prior <==> p in rows
    ensures Distinct(Map(Product, prior)) == set p | p in rows && p.productId.Some? :: p.productId.value
  {
    MapAt(Product, prior);
    forall p | p in rows ensures p.productId in Map(Product, prior) {
      var i :| 0 <= i < |prior| && prior[i] == p;
      assert Map(Product, prior)[i] == p.productId;
    }
    forall o | o in Map(Product, prior) ensures exists p :: p in rows && p.productId == o {
      var i :| 0 <= i < |prior| && Map(Product, prior)[i] == o;
      assert prior[i] in prior && prior[i].productId == o;
    }
  }

  ghost function DisbursedSum(prior: seq<Loan>): int {
    if prior == [] then 0 else prior[0].principalDisbursed + DisbursedSum(prior[1..])
  }

  lemma {:induction false} DisbursedIsSum(prior: seq<Loan>)
    ensures Total(Map(PrincipalDisbursed, prior)) == DisbursedSum(prior)
  {
    if prior != [] {
      DisbursedIsSum(prior[1..]);
      assert Map(PrincipalDisbursed, prior)[1..] == Map(PrincipalDisbursed, prior[1..]);
    }
  }

  /** The counts over the set of prior loans: written off today, more than 30 days past due today, and the
      products they were of. */
  lemma PriorCountsAreExact(loans: seq<Loan>, txs: seq<Tx>, l: Loan)
    requires DistinctIds(loans) && l in loans
    ensures
      var f, prior := FeatureRow(loans, txs, l), PriorSet(loans, l);
      && f.priorWrittenOff == |set p | p in prior && p.writtenOff|
      && f.priorDelinquent == |set p | p in prior && p.daysPastDue > 30|
      && f.distinctProducts == |set p | p in prior && p.productId.Some? :: p.productId.value|
      && f.totalDisbursed == DisbursedSum(PriorLoans(loans, l))
  {
    DisbursedIsSum(PriorLoans(loans, l));
    GroupsAreJoins(loans, loans, txs, l);
    PriorRows(loans, txs, l);
    var prior := PriorLoans(loans, l);
    FilterKeepsDistinct(PriorTo(l.id, l.clientId, l.disbursed), loans);
    FilterSize(WrittenOff, prior, set p | p in PriorSet(loans, l) && p.writtenOff);
    FilterSize(Delinquent, prior, set p | p in PriorSet(loans, l) && p.daysPastDue > 30);
    ProductsOf(prior, PriorSet(loans, l));
  }

  /** What the rows amount to; a NULL amount adds nothing. */
  ghost function AmountPaid(txs: seq<Tx>): int {
    if txs == [] then 0 else (if txs[0].amount.Some? then txs[0].amount.value else 0) + AmountPaid(txs[1..])
  }

  lemma {:induction false} PaidIsSum(txs: seq<Tx>)
    ensures Total(Map(Paid, txs)) == AmountPaid(txs) && |Map(Paid, txs)| == |txs|
  {
    if txs != [] {
      PaidIsSum(txs[1..]);
      assert Map(Paid, txs)[1..] == Map(Paid, txs[1..]);
    }
  }

  ghost function ReversedAmong(txs: seq<Tx>): nat {
    if txs == [] then 0 else (if txs[0].isReversed == Some(1) then 1 else 0) + ReversedAmong(txs[1..])
  }

  lemma {:induction false} ReversedIsCount(txs: seq<Tx>)
    ensures |Filter(Reversed, txs)| == ReversedAmong(txs)
  {
    if txs != [] {
      ReversedIsCount(txs[1..]);
    }
  }

  lemma Quotient(total: real, n: real)
    requires n > 0.0
    ensures total / n * n == total
  {
  }

  /** n times the average is the total, and without any the average is zero. */
  ghost predicate IsAverage(average: real, n: nat, total: int) {
    average * n as real == total as real && (n == 0 ==> average == 0.0)
  }

  /** The average times the number of amounts is their sum. */
  lemma AverageOf(amounts: seq<int>)
    ensures IsAverage(Average(amounts), |amounts|, Total(amounts))
  {
    if amounts != [] {
      Quotient(Total(amounts) as real, |amounts| as real);
    }
  }

  /** The repayment columns against the joined repayments; the average times their number is their sum, and zero
      without any. */
  lemma RepaymentColumnsAreExact(loans: seq<Loan>, txs: seq<Tx>, l: Loan)
    requires DistinctIds(loans) && l in loans
    ensures
      var f, repaid := FeatureRow(loans, txs, l), PriorRepayments(loans, txs, l);
      && f.repayments == |repaid| && f.totalRepaid == AmountPaid(repaid) && f.reversals == ReversedAmong(repaid)
      && IsAverage(f.averageRepayment, |repaid|, AmountPaid(repaid))
      && (repaid == [] ==> f.daysSinceRepayment == None)
      && (repaid != [] ==>
            && f.daysSinceRepayment.Some?
            && (exists t :: t in repaid && f.daysSinceRepayment.value == l.disbursed - t.date)
            && (forall t :: t in repaid ==> f.daysSinceRepayment.value <= l.disbursed - t.date))
  {
    GroupsAreJoins(loans, loans, txs, l);
    var repaid := PriorRepayments(loans, txs, l);
    PaidIsSum(repaid);
    ReversedIsCount(repaid);
    AverageOf(Map(Paid, repaid));
    if repaid != [] {
      MaxOfColumn(PaidOn, repaid);
    }
  }

  // ---------------------------------------------------------------------------------------------
  // Other clients
  // ---------------------------------------------------------------------------------------------

  /** Both datasets store the same loans of the client of l, equally often ... */
  ghost predicate SameLoansOfClient(loans: seq<Loan>, loans': seq<Loan>, l: Loan) {
    forall p: Loan :: l.clientId.Some? && p.clientId == l.clientId ==> multiset(loans)[p] == multiset(loans')[p]
  }

  ghost predicate OnClientsLoan(loans: seq<Loan>, l: Loan, t: Tx) {
    exists p :: p in loans && l.clientId.Some? && p.clientId == l.clientId && p.id == t.loanId
  }

  /** ... and the same ledger rows on those loans. */
  ghost predicate SameLedgerOfClient(loans: seq<Loan>, txs: seq<Tx>, txs': seq<Tx>, l: Loan) {
    forall t: Tx :: OnClientsLoan(loans, l, t) ==> multiset(txs)[t] == multiset(txs')[t]
  }

  lemma SamePriorLoans(loans: seq<Loan>, loans': seq<Loan>, l: Loan)
    requires SameLoansOfClient(loans, loans', l)
    ensures SameRows(PriorLoans(loans, l), PriorLoans(loans', l))
  {
    var prior, prior' := PriorLoans(loans, l), PriorLoans(loans', l);
    forall p: Loan ensures multiset(prior)[p] == multiset(prior')[p] {
      FilterCounts(PriorTo(l.id, l.clientId, l.disbursed), loans, p);
      FilterCounts(PriorTo(l.id, l.clientId, l.disbursed), loans', p);
    }
    assert multiset(prior) == multiset(prior');
  }

  lemma SamePriorRepayments(loans: seq<Loan>, txs: seq<Tx>, loans': seq<Loan>, txs': seq<Tx>, l: Loan)
    requires DistinctIds(loans) && DistinctIds(loans')
    requires SameLoansOfClient(loans, loans', l) && SameLedgerOfClient(loans, txs, txs', l)
    ensures SameRows(PriorRepayments(loans, txs, l), PriorRepayments(loans', txs', l))
  {
    var repaid, repaid' := PriorRepayments(loans, txs, l), PriorRepayments(loans', txs', l);
    forall t: Tx ensures multiset(repaid)[t] == multiset(repaid')[t] {
      RepaymentsJoinOnce(loans, txs, l, t);
      RepaymentsJoinOnce(loans', txs', l, t);
      SameEarlierLoans(loans, loans', l, t);
      if exists p :: p in loans && Earlier(p, l) && p.id == t.loanId {
        assert OnClientsLoan(loans, l, t);
      }
    }
    assert multiset(repaid) == multiset(repaid');
  }

  lemma SameEarlierLoans(loans: seq<Loan>, loans': seq<Loan>, l: Loan, t: Tx)
    requires SameLoansOfClient(loans, loans', l)
    ensures (exists p :: p in loans && Earlier(p, l) && p.id == t.loanId) <==>
            (exists p :: p in loans' && Earlier(p, l) && p.id == t.loanId)
  {
    forall p | Earlier(p, l) ensures p in loans <==> p in loans' {
      assert p in loans <==> multiset(loans)[p] > 0;
      assert p in loans' <==> multiset(loans')[p] > 0;
    }
  }

  lemma SameGroupsSameColumns(day: int, prior: seq<Loan>, prior': seq<Loan>, repaid: seq<Tx>, repaid': seq<Tx>)
    requires SameRows(prior, prior') && SameRows(repaid, repaid')
    ensures Columns(day, prior, repaid) == Columns(day, prior', repaid')
  {
    LoanGroupsSame(prior, prior');
    TxGroupsSame(repaid, repaid');
  }

  lemma LoanGroupsSame(prior: seq<Loan>, prior': seq<Loan>)
    requires SameRows(prior, prior')
    ensures |prior| == |prior'|
    ensures |Filter(WrittenOff, prior)| == |Filter(WrittenOff, prior')|
    ensures |Filter(Delinquent, prior)| == |Filter(Delinquent, prior')|
    ensures Total(Map(PrincipalDisbursed, prior)) == Total(Map(PrincipalDisbursed, prior'))
    ensures Max(Map(Principal, prior)) == Max(Map(Principal, prior'))
    ensures Distinct(Map(Product, prior)) == Distinct(Map(Product, prior'))
    ensures Max(Map(DisbursedOn, prior)) == Max(Map(DisbursedOn, prior'))
  {
    SizeSame(prior, prior');
    FilterSame(WrittenOff, prior, prior');
    SizeSame(Filter(WrittenOff, prior), Filter(WrittenOff, prior'));
    FilterSame(Delinquent, prior, prior');
    SizeSame(Filter(Delinquent, prior), Filter(Delinquent, prior'));
    MapSame(PrincipalDisbursed, prior, prior');
    TotalSame(Map(PrincipalDisbursed, prior), Map(PrincipalDisbursed, prior'));
    MapSame(Principal, prior, prior');
    MaxSame(Map(Principal, prior), Map(Principal, prior'));
    MapSame(Product, prior, prior');
    DistinctSame(Map(Product, prior), Map(Product, prior'));
    MapSame(DisbursedOn, prior, prior');
    MaxSame(Map(DisbursedOn, prior), Map(DisbursedOn, prior'));
  }

  lemma TxGroupsSame(repaid: seq<Tx>, repaid': seq<Tx>)
    requires SameRows(repaid, repaid')
    ensures |repaid| == |repaid'|
    ensures Total(Map(Paid, repaid)) == Total(Map(Paid, repaid'))
    ensures Average(Map(Paid, repaid)) == Average(Map(Paid, repaid'))
    ensures |Filter(Reversed, repaid)| == |Filter(Reversed, repaid')|
    ensures Max(Map(PaidOn, repaid)) == Max(Map(PaidOn, repaid'))
  {
    SizeSame(repaid, repaid');
    MapSame(Paid, repaid, repaid');
    TotalSame(Map(Paid, repaid), Map(Paid, repaid'));
    SizeSame(Map(Paid, repaid), Map(Paid, repaid'));
    FilterSame(Reversed, repaid, repaid');
    SizeSame(Filter(Reversed, repaid), Filter(Reversed, repaid'));
    MapSame(PaidOn, repaid, repaid');
    MaxSame(Map(PaidOn, repaid), Map(PaidOn, repaid'));
  }

  /** No other client has a say: whatever loans other clients have, and whatever happens on them, every feature of the
      loan is the same, the columns that read today's status included; and a loan without a client has none of
      anyone's history. */
  lemma OtherClientsDoNotMatter(loans: seq<Loan>, txs: seq<Tx>, loans': seq<Loan>, txs': seq<Tx>, l: Loan)
    requires DistinctIds(loans) && DistinctIds(loans') && l in loans && l in loans'
    requires SameLoansOfClient(loans, loans', l) && SameLedgerOfClient(loans, txs, txs', l)
    ensures FeatureRow(loans, txs, l) == FeatureRow(loans', txs', l)
  {
    GroupsAreJoins(loans, loans, txs, l);
    GroupsAreJoins(loans', loans', txs', l);
    SamePriorLoans(loans, loans', l);
    SamePriorRepayments(loans, txs, loans', txs', l);
    SameGroupsSameColumns(l.disbursed, PriorLoans(loans, l), PriorLoans(loans', l),
                          PriorRepayments(loans, txs, l), PriorRepayments(loans', txs', l));
  }

  // ---------------------------------------------------------------------------------------------
  // Non-interference
  // ---------------------------------------------------------------------------------------------

  /** A row as it was known at origination: today's status erased. */
  function Known(l: Loan): Loan { l.(writtenOff := false, daysPastDue := 0) }
  function KnownTx(t: Tx): Tx { t.(isReversed := None) }

  function DisbursedBefore(day: int): Loan -> bool { (l: Loan) => l.disbursed < day }
  function DatedBefore(day: int): Tx -> bool { (t: Tx) => t.date < day }

  /** Everything on record strictly before `day`. */
  function KnownLoans(loans: seq<Loan>, day: int): seq<Loan> { Map(Known, Filter(DisbursedBefore(day), loans)) }
  function KnownTxs(txs: seq<Tx>, day: int): seq<Tx> { Map(KnownTx, Filter(DatedBefore(day), txs)) }

  lemma {:induction false} PriorFromKnown(loans: seq<Loan>, id: int, client: Option<int>, day: int)
    ensures Map(Known, Filter(PriorTo(id, client, day), loans))
         == Filter(PriorTo(id, client, day), KnownLoans(loans, day))
  {
    if loans != [] {
      PriorFromKnown(loans[1..], id, client, day);
      var l, p := loans[0], PriorTo(id, client, day);
      assert p(l) == p(Known(l));
      if DisbursedBefore(day)(l) {
        assert KnownLoans(loans, day) == [Known(l)] + KnownLoans(loans[1..], day);
        assert KnownLoans(loans, day)[1..] == KnownLoans(loans[1..], day);
      }
    }
  }

  lemma {:induction false} RepaymentsFromKnown(txs: seq<Tx>, loan: int, day: int)
    ensures Map(KnownTx, Filter(RepaymentOf(loan, day), txs)) == Filter(RepaymentOf(loan, day), KnownTxs(txs, day))
  {
    if txs != [] {
      RepaymentsFromKnown(txs[1..], loan, day);
      var t, p := txs[0], RepaymentOf(loan, day);
      assert p(t) == p(KnownTx(t));
      if DatedBefore(day)(t) {
        assert KnownTxs(txs, day) == [KnownTx(t)] + KnownTxs(txs[1..], day);
        assert KnownTxs(txs, day)[1..] == KnownTxs(txs[1..], day);
      }
    }
  }

  lemma {:induction false} JoinFromKnown(txs: seq<Tx>, ids: seq<int>, day: int)
    ensures Map(KnownTx, Flat(RepaymentsBefore(txs, day), ids)) == Flat(RepaymentsBefore(KnownTxs(txs, day), day), ids)
  {
    if ids != [] {
      JoinFromKnown(txs, ids[1..], day);
      RepaymentsFromKnown(txs, ids[0], day);
      MapConcat(KnownTx, RepaymentsBefore(txs, day)(ids[0]), Flat(RepaymentsBefore(txs, day), ids[1..]));
    }
  }

  lemma {:induction false} MapThrough<T, U>(f: T -> U, blur: T -> T, s: seq<T>)
    requires forall x :: x in s ==> f(blur(x)) == f(x)
    ensures Map(f, Map(blur, s)) == Map(f, s)
  {
    if s != [] {
      MapThrough(f, blur, s[1..]);
      assert Map(blur, s)[1..] == Map(blur, s[1..]);
    }
  }

  /** A column that does not read today's status is the same on rows that look the same at origination. */
  lemma ColumnSame<T, U>(f: T -> U, blur: T -> T, a: seq<T>, b: seq<T>)
    requires SameRows(Map(blur, a), Map(blur, b))
    requires forall x :: x in a || x in b ==> f(blur(x)) == f(x)
    ensures SameRows(Map(f, a), Map(f, b))
  {
    MapSame(f, Map(blur, a), Map(blur, b));
    MapThrough(f, blur, a);
    MapThrough(f, blur, b);
  }

  /** Two datasets that hold the same history before `day`. */
  ghost predicate SameHistory(loans: seq<Loan>, txs: seq<Tx>, loans': seq<Loan>, txs': seq<Tx>, day: int) {
    && SameRows(KnownLoans(loans, day), KnownLoans(loans', day))
    && SameRows(KnownTxs(txs, day), KnownTxs(txs', day))
  }

  lemma PriorSame(loans: seq<Loan>, loans': seq<Loan>, l: Loan, l': Loan)
    requires l.id == l'.id && l.clientId == l'.clientId && l.disbursed == l'.disbursed
    requires SameRows(KnownLoans(loans, l.disbursed), KnownLoans(loans', l.disbursed))
    ensures SameRows(Map(Known, PriorLoans(loans, l)), Map(Known, PriorLoans(loans', l')))
  {
    PriorFromKnown(loans, l.id, l.clientId, l.disbursed);
    PriorFromKnown(loans', l.id, l.clientId, l.disbursed);
    FilterSame(PriorTo(l.id, l.clientId, l.disbursed), KnownLoans(loans, l.disbursed), KnownLoans(loans', l.disbursed));
  }

  lemma RepaidSame(txs: seq<Tx>, txs': seq<Tx>, ids: seq<int>, ids': seq<int>, day: int)
    requires SameRows(ids, ids') && SameRows(KnownTxs(txs, day), KnownTxs(txs', day))
    ensures SameRows(Map(KnownTx, Flat(RepaymentsBefore(txs, day), ids)),
                     Map(KnownTx, Flat(RepaymentsBefore(txs', day), ids')))
  {
    JoinFromKnown(txs, ids, day);
    JoinFromKnown(txs', ids', day);
    var known, known' := KnownTxs(txs, day), KnownTxs(txs', day);
    FlatSame(RepaymentsBefore(known, day), ids, ids');
    forall id | id in ids' ensures SameRows(RepaymentsBefore(known, day)(id), RepaymentsBefore(known', day)(id)) {
      FilterSame(RepaymentOf(id, day), known, known');
    }
    FlatPointwise(RepaymentsBefore(known, day), RepaymentsBefore(known', day), ids');
  }

  /** The three columns that read today's status, erased. */
  function WithoutStatus(f: Features): Features {
    f.(priorWrittenOff := 0, priorDelinquent := 0, reversals := 0)
  }

  lemma ColumnsSame(day: int, prior: seq<Loan>, prior': seq<Loan>, repaid: seq<Tx>, repaid': seq<Tx>)
    requires SameRows(Map(Known, prior), Map(Known, prior'))
    requires SameRows(Map(KnownTx, repaid), Map(KnownTx, repaid'))
    ensures WithoutStatus(Columns(day, prior, repaid)) == WithoutStatus(Columns(day, prior', repaid'))
  {
    LoanColumnsSame(prior, prior');
    TxColumnsSame(repaid, repaid');
  }

  lemma LoanColumnsSame(prior: seq<Loan>, prior': seq<Loan>)
    requires SameRows(Map(Known, prior), Map(Known, prior'))
    ensures |prior| == |prior'|
    ensures Total(Map(PrincipalDisbursed, prior)) == Total(Map(PrincipalDisbursed, prior'))
    ensures Max(Map(Principal, prior)) == Max(Map(Principal, prior'))
    ensures Distinct(Map(Product, prior)) == Distinct(Map(Product, prior'))
    ensures Max(Map(DisbursedOn, prior)) == Max(Map(DisbursedOn, prior'))
  {
    MapAt(Known, prior);
    MapAt(Known, prior');
    SizeSame(Map(Known, prior), Map(Known, prior'));
    ColumnSame(PrincipalDisbursed, Known, prior, prior');
    TotalSame(Map(PrincipalDisbursed, prior), Map(PrincipalDisbursed, prior'));
    ColumnSame(Principal, Known, prior, prior');
    MaxSame(Map(Principal, prior), Map(Principal, prior'));
    ColumnSame(Product, Known, prior, prior');
    DistinctSame(Map(Product, prior), Map(Product, prior'));
    ColumnSame(DisbursedOn, Known, prior, prior');
    MaxSame(Map(DisbursedOn, prior), Map(DisbursedOn, prior'));
  }

  lemma TxColumnsSame(repaid: seq<Tx>, repaid': seq<Tx>)
    requires SameRows(Map(KnownTx, repaid), Map(KnownTx, repaid'))
    ensures |repaid| == |repaid'|
    ensures Total(Map(Paid, repaid)) == Total(Map(Paid, repaid'))
    ensures Average(Map(Paid, repaid)) == Average(Map(Paid, repaid'))
    ensures Max(Map(PaidOn, repaid)) == Max(Map(PaidOn, repaid'))
  {
    MapAt(KnownTx, repaid);
    MapAt(KnownTx, repaid');
    SizeSame(Map(KnownTx, repaid), Map(KnownTx, repaid'));
    ColumnSame(Paid, KnownTx, repaid, repaid');
    TotalSame(Map(Paid, repaid), Map(Paid, repaid'));
    SizeSame(Map(Paid, repaid), Map(Paid, repaid'));
    ColumnSame(PaidOn, KnownTx, repaid, repaid');
    MaxSame(Map(PaidOn, repaid), Map(PaidOn, repaid'));
  }

  /** Point-in-time correctness: whatever two datasets hold from the observation date on, and whatever became of
      the earlier loans since, every column but the three that read today's status is the same. */
  lemma PointInTime(loans: seq<Loan>, txs: seq<Tx>, l: Loan, loans': seq<Loan>, txs': seq<Tx>, l': Loan)
    requires DistinctIds(loans) && l in loans && DistinctIds(loans') && l' in loans'
    requires l.id == l'.id && l.clientId == l'.clientId && l.disbursed == l'.disbursed
    requires SameHistory(loans, txs, loans', txs', l.disbursed)
    ensures WithoutStatus(FeatureRow(loans, txs, l)) == WithoutStatus(FeatureRow(loans', txs', l'))
  {
    GroupsAreJoins(loans, loans, txs, l);
    GroupsAreJoins(loans', loans', txs', l');
    PriorSame(loans, loans', l, l');
    var prior, prior' := PriorLoans(loans, l), PriorLoans(loans', l');
    ColumnSame(IdOf, Known, prior, prior');
    RepaidSame(txs, txs', Map(IdOf, prior), Map(IdOf, prior'), l.disbursed);
    ColumnsSame(l.disbursed, prior, prior', PriorRepayments(loans, txs, l), PriorRepayments(loans', txs', l'));
  }

  /** In particular a loan disbursed, and a transaction dated, on the observation date or later changes nothing but
      those three columns. */
  lemma LaterRowsDoNotMatter(loans: seq<Loan>, txs: seq<Tx>, l: Loan, p: Loan, t: Tx)
    requires DistinctIds(loans + [p]) && l in loans && p.disbursed >= l.disbursed && t.date >= l.disbursed
    ensures WithoutStatus(FeatureRow(loans + [p], txs + [t], l)) == WithoutStatus(FeatureRow(loans, txs, l))
  {
    var day := l.disbursed;
    FilterConcat(DisbursedBefore(day), loans, [p]);
    FilterConcat(DatedBefore(day), txs, [t]);
    FilterAll(DisbursedBefore(day), false, [p]);
    FilterAll(DatedBefore(day), false, [t]);
    assert Filter(DisbursedBefore(day), loans) + [] == Filter(DisbursedBefore(day), loans);
    assert Filter(DatedBefore(day), txs) + [] == Filter(DatedBefore(day), txs);
    assert DistinctIds(loans) by {
      forall i, j | 0 <= i < j < |loans| ensures loans[i].id != loans[j].id {
        assert (loans + [p])[i].id != (loans + [p])[j].id;
      }
    }
    PointInTime(loans + [p], txs + [t], l, loans, txs, l);
  }

  // ---------------------------------------------------------------------------------------------
  // The columns that read today's status are not point-in-time
  // ---------------------------------------------------------------------------------------------

  /** The same loans, all with one status; the same transactions, all reversed or none. */
  function Restatus(writtenOff: bool, daysPastDue: int): Loan -> Loan {
    (l: Loan) => l.(writtenOff := writtenOff, daysPastDue := daysPastDue)
  }

  function Reverse(flag: int): Tx -> Tx {
    (t: Tx) => t.(isReversed := Some(flag))
  }

  lemma {:induction false} FilterThrough<T>(p: T -> bool, f: T -> T, s: seq<T>)
    requires forall x :: p(f(x)) == p(x)
    ensures Filter(p, Map(f, s)) == Map(f, Filter(p, s))
  {
    if s != [] {
      FilterThrough(p, f, s[1..]);
      assert Map(f, s)[1..] == Map(f, s[1..]);
      assert p(f(s[0])) == p(s[0]);
      if p(s[0]) {
        assert Filter(p, s)[1..] == Filter(p, s[1..]);
      }
    }
  }

  lemma {:induction false} MapAfter<T>(g: T -> T, f: T -> T, s: seq<T>)
    requires forall x :: g(f(x)) == g(x)
    ensures Map(g, Map(f, s)) == Map(g, s)
  {
    if s != [] {
      MapAfter(g, f, s[1..]);
      assert Map(f, s)[1..] == Map(f, s[1..]);
    }
  }

  lemma {:induction false} FilterAll<T>(p: T -> bool, keep: bool, s: seq<T>)
    requires forall x :: x in s ==> p(x) == keep
    ensures Filter(p, s) == if keep then s else []
  {
    if s != [] {
      FilterAll(p, keep, s[1..]);
    }
  }

  ghost function Restated(loans: seq<Loan>, writtenOff: bool, daysPastDue: int): seq<Loan> {
    Map(Restatus(writtenOff, daysPastDue), loans)
  }

  /** Restating every status leaves the history before any day as it was. */
  lemma RestatedIsHistory(loans: seq<Loan>, day: int, writtenOff: bool, daysPastDue: int)
    ensures KnownLoans(Restated(loans, writtenOff, daysPastDue), day) == KnownLoans(loans, day)
    ensures DistinctIds(loans) ==> DistinctIds(Restated(loans, writtenOff, daysPastDue))
  {
    var f := Restatus(writtenOff, daysPastDue);
    FilterThrough(DisbursedBefore(day), f, loans);
    MapAfter(Known, f, Filter(DisbursedBefore(day), loans));
    MapAt(f, loans);
  }

  lemma RestatedCounts(loans: seq<Loan>, txs: seq<Tx>, l: Loan, writtenOff: bool, daysPastDue: int)
    requires DistinctIds(loans) && l in loans
    ensures
      var l' := Restatus(writtenOff, daysPastDue)(l);
      var loans' := Restated(loans, writtenOff, daysPastDue);
      && DistinctIds(loans') && l' in loans'
      && FeatureRow(loans', txs, l').priorWrittenOff == (if writtenOff then |PriorLoans(loans, l)| else 0)
      && FeatureRow(loans', txs, l').priorDelinquent
           == (if daysPastDue > DELINQUENT_DAYS then |PriorLoans(loans, l)| else 0)
  {
    var f := Restatus(writtenOff, daysPastDue);
    var l', loans', prior := f(l), Map(f, loans), PriorLoans(loans, l);
    RestatedIsHistory(loans, 0, writtenOff, daysPastDue);
    MapAt(f, loans);
    var i :| 0 <= i < |loans| && loans[i] == l;
    assert loans'[i] == l';
    GroupsAreJoins(loans', loans', txs, l');
    FilterThrough(PriorTo(l.id, l.clientId, l.disbursed), f, loans);
    assert PriorLoans(loans', l') == Map(f, prior);
    MapAt(f, prior);
    FilterAll(WrittenOff, writtenOff, Map(f, prior));
    FilterAll(Delinquent, daysPastDue > DELINQUENT_DAYS, Map(f, prior));
  }

  /** A dataset with the same loans on record before the observation date of l, and l' for l in it. */
  ghost predicate SameLoansBefore(loans': seq<Loan>, l': Loan, loans: seq<Loan>, l: Loan) {
    && DistinctIds(loans') && l' in loans'
    && l.id == l'.id && l.clientId == l'.clientId && l.disbursed == l'.disbursed
    && SameRows(KnownLoans(loans', l.disbursed), KnownLoans(loans, l.disbursed))
  }

  /** The history before the observation date decides the loan's written-off count. */
  ghost predicate WrittenOffKnown(loans: seq<Loan>, txs: seq<Tx>, l: Loan) {
    forall loans': seq<Loan>, l': Loan {:trigger FeatureRow(loans', txs, l')} ::
      SameLoansBefore(loans', l', loans, l) ==>
        FeatureRow(loans', txs, l').priorWrittenOff == FeatureRow(loans, txs, l).priorWrittenOff
  }

  /** The history before the observation date decides the loan's delinquent count. */
  ghost predicate DelinquentKnown(loans: seq<Loan>, txs: seq<Tx>, l: Loan) {
    forall loans': seq<Loan>, l': Loan {:trigger FeatureRow(loans', txs, l')} ::
      SameLoansBefore(loans', l', loans, l) ==>
        FeatureRow(loans', txs, l').priorDelinquent == FeatureRow(loans, txs, l).priorDelinquent
  }

  /** Without a prior loan both counts are zero, whatever else the dataset holds. */
  lemma NoPriorNoStatus(loans': seq<Loan>, l': Loan, loans: seq<Loan>, txs: seq<Tx>, l: Loan)
    requires DistinctIds(loans) && l in loans && PriorLoans(loans, l) == []
    requires SameLoansBefore(loans', l', loans, l)
    ensures FeatureRow(loans', txs, l').priorWrittenOff == FeatureRow(loans, txs, l).priorWrittenOff == 0
    ensures FeatureRow(loans', txs, l').priorDelinquent == FeatureRow(loans, txs, l).priorDelinquent == 0
  {
    PriorSame(loans', loans, l', l);
    LoanColumnsSame(PriorLoans(loans', l'), PriorLoans(loans, l));
    GroupsAreJoins(loans, loans, txs, l);
    GroupsAreJoins(loans', loans', txs, l');
  }

  /** Restating every status gives a dataset with the same loans before, and these counts. */
  lemma RestatedIsSame(loans: seq<Loan>, txs: seq<Tx>, l: Loan, writtenOff: bool, daysPastDue: int)
    requires DistinctIds(loans) && l in loans
    ensures
      var l', loans' := Restatus(writtenOff, daysPastDue)(l), Restated(loans, writtenOff, daysPastDue);
      && SameLoansBefore(loans', l', loans, l)
      && FeatureRow(loans', txs, l').priorWrittenOff == (if writtenOff then |PriorLoans(loans, l)| else 0)
      && FeatureRow(loans', txs, l').priorDelinquent
           == (if daysPastDue > DELINQUENT_DAYS then |PriorLoans(loans, l)| else 0)
  {
    RestatedCounts(loans, txs, l, writtenOff, daysPastDue);
    RestatedIsHistory(loans, l.disbursed, writtenOff, daysPastDue);
  }

  /** The written-off count is known only for a first-time borrower: one earlier loan is enough for its later fate
      to change it. */
  lemma WrittenOffKnownIff(loans: seq<Loan>, txs: seq<Tx>, l: Loan)
    requires DistinctIds(loans) && l in loans
    ensures WrittenOffKnown(loans, txs, l) <==> PriorLoans(loans, l) == []
  {
    if PriorLoans(loans, l) == [] {
      forall loans': seq<Loan>, l': Loan | SameLoansBefore(loans', l', loans, l)
        ensures FeatureRow(loans', txs, l').priorWrittenOff == FeatureRow(loans, txs, l).priorWrittenOff
      {
        NoPriorNoStatus(loans', l', loans, txs, l);
      }
    } else {
      RestatedIsSame(loans, txs, l, true, 0);
      RestatedIsSame(loans, txs, l, false, 0);
      assert FeatureRow(Restated(loans, true, 0), txs, Restatus(true, 0)(l)).priorWrittenOff
          != FeatureRow(Restated(loans, false, 0), txs, Restatus(false, 0)(l)).priorWrittenOff;
    }
  }

  /** And so is the delinquent count. */
  lemma DelinquentKnownIff(loans: seq<Loan>, txs: seq<Tx>, l: Loan)
    requires DistinctIds(loans) && l in loans
    ensures DelinquentKnown(loans, txs, l) <==> PriorLoans(loans, l) == []
  {
    if PriorLoans(loans, l) == [] {
      forall loans': seq<Loan>, l': Loan | SameLoansBefore(loans', l', loans, l)
        ensures FeatureRow(loans', txs, l').priorDelinquent == FeatureRow(loans, txs, l).priorDelinquent
      {
        NoPriorNoStatus(loans', l', loans, txs, l);
      }
    } else {
      RestatedIsSame(loans, txs, l, false, 31);
      RestatedIsSame(loans, txs, l, false, 0);
      assert FeatureRow(Restated(loans, false, 31), txs, Restatus(false, 31)(l)).priorDelinquent
          != FeatureRow(Restated(loans, false, 0), txs, Restatus(false, 0)(l)).priorDelinquent;
    }
  }

  /** The history before the observation date decides the loan's reversal count. */
  ghost predicate ReversalsKnown(loans: seq<Loan>, txs: seq<Tx>, l: Loan) {
    forall txs' {:trigger FeatureRow(loans, txs', l)} ::
      SameRows(KnownTxs(txs', l.disbursed), KnownTxs(txs, l.disbursed))
      ==> FeatureRow(loans, txs', l).reversals == FeatureRow(loans, txs, l).reversals
  }

  lemma {:induction false} ReversedJoin(txs: seq<Tx>, ids: seq<int>, day: int, flag: int)
    ensures Flat(RepaymentsBefore(Map(Reverse(flag), txs), day), ids)
         == Map(Reverse(flag), Flat(RepaymentsBefore(txs, day), ids))
  {
    if ids != [] {
      ReversedJoin(txs, ids[1..], day, flag);
      FilterThrough(RepaymentOf(ids[0], day), Reverse(flag), txs);
      MapConcat(Reverse(flag), RepaymentsBefore(txs, day)(ids[0]), Flat(RepaymentsBefore(txs, day), ids[1..]));
    }
  }

  lemma ReversedCounts(loans: seq<Loan>, txs: seq<Tx>, l: Loan, flag: int)
    requires DistinctIds(loans) && l in loans
    ensures
      var txs' := Map(Reverse(flag), txs);
      && KnownTxs(txs', l.disbursed) == KnownTxs(txs, l.disbursed)
      && FeatureRow(loans, txs', l).reversals == (if flag == 1 then |PriorRepayments(loans, txs, l)| else 0)
  {
    var f, repaid := Reverse(flag), PriorRepayments(loans, txs, l);
    FilterThrough(DatedBefore(l.disbursed), f, txs);
    MapAfter(KnownTx, f, Filter(DatedBefore(l.disbursed), txs));
    GroupsAreJoins(loans, loans, Map(f, txs), l);
    ReversedJoin(txs, Map(IdOf, PriorLoans(loans, l)), l.disbursed, flag);
    MapAt(f, repaid);
    FilterAll(Reversed, flag == 1, Map(f, repaid));
  }

  /** Only without a prior repayment: a repayment dated earlier may be reversed later. */
  lemma ReversalsKnownIff(loans: seq<Loan>, txs: seq<Tx>, l: Loan)
    requires DistinctIds(loans) && l in loans
    ensures ReversalsKnown(loans, txs, l) <==> PriorRepayments(loans, txs, l) == []
  {
    GroupsAreJoins(loans, loans, txs, l);
    if PriorRepayments(loans, txs, l) == [] {
      forall txs' | SameRows(KnownTxs(txs', l.disbursed), KnownTxs(txs, l.disbursed))
        ensures FeatureRow(loans, txs', l).reversals == FeatureRow(loans, txs, l).reversals
      {
        GroupsAreJoins(loans, loans, txs', l);
        var ids := Map(IdOf, PriorLoans(loans, l));
        RepaidSame(txs', txs, ids, ids, l.disbursed);
        TxColumnsSame(PriorRepayments(loans, txs', l), PriorRepayments(loans, txs, l));
      }
    } else {
      ReversedCounts(loans, txs, l, 1);
      ReversedCounts(loans, txs, l, 0);
      assert FeatureRow(loans, Map(Reverse(1), txs), l).reversals
          != FeatureRow(loans, Map(Reverse(0), txs), l).reversals;
    }
  }
}
