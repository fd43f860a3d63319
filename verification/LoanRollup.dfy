/** The ledger rolled up to loan grain (transform/fineract_analytics/models/intermediate/
    int_loan_repayment_behaviour.sql), with standard SQL NULLs in joins and window frames.  Amounts are
    integers of the smallest decimal unit and dates are day numbers. */
module LoanRollup {
  import opened Wrappers

  datatype Category =
    | Disbursement | Repayment | Accrual | WaiveInterest | WriteOff | RecoveryRepayment | WaiveCharges
    | ChargePayment | Refund | Other

  /** transaction_category of the staging model. */
  function Classify(typeId: Option<int>): Category {
    match typeId
    case None => Other
    case Some(t) =>
      if t == 1 then Disbursement
      else if t == 2 then Repayment
      else if t == 4 then Accrual
      else if t == 5 then WaiveInterest
      else if t == 6 then WriteOff
      else if t == 7 then RecoveryRepayment
      else if t == 8 then WaiveCharges
      else if t == 9 then ChargePayment
      else if t == 10 then Refund
      else Other
  }

  /** One staged ledger row. */
  datatype Tx = Tx(loanId: int, typeId: Option<int>, isReversed: Option<int>, amount: Option<int>, date: int)

  predicate Countable(t: Tx) {
    t.isReversed.GetOr(0) != 1
  }

  function Amount(t: Tx): int {
    t.amount.GetOr(0)
  }

  // ---------------------------------------------------------------------------------------------
  // The CTEs
  // ---------------------------------------------------------------------------------------------

  /** WHERE transaction_category = c AND is_countable = 1 */
  function Counted(txs: seq<Tx>, c: Category): seq<Tx> {
    if txs == [] then []
    else (if Classify(txs[0].typeId) == c && Countable(txs[0]) then [txs[0]] else []) + Counted(txs[1..], c)
  }

  /** The rows of one group. */
  function OfLoan(txs: seq<Tx>, loan: int): seq<Tx> {
    if txs == [] then []
    else (if txs[0].loanId == loan then [txs[0]] else []) + OfLoan(txs[1..], loan)
  }

  lemma {:induction false} CountedRows(txs: seq<Tx>, c: Category, t: Tx)
    ensures t in Counted(txs, c) <==> t in txs && Classify(t.typeId) == c && Countable(t)
  {
    if txs != [] {
      CountedRows(txs[1..], c, t);
      assert txs == [txs[0]] + txs[1..];
    }
  }

  lemma {:induction false} OfLoanRows(txs: seq<Tx>, loan: int, t: Tx)
    ensures t in OfLoan(txs, loan) <==> t in txs && t.loanId == loan
  {
    if txs != [] {
      OfLoanRows(txs[1..], loan, t);
      assert txs == [txs[0]] + txs[1..];
    }
  }

  /** GROUP BY loan_id: the groups, in order of first appearance. */
  function Loans(txs: seq<Tx>): (ks: seq<int>)
    ensures forall k :: k in ks <==> exists t :: t in txs && t.loanId == k
    ensures forall i, j :: 0 <= i < j < |ks| ==> ks[i] != ks[j]
  {
    if txs == [] then []
    else
      assert forall t :: t in txs <==> t in txs[..|txs| - 1] || t == txs[|txs| - 1];
      var before, k := Loans(txs[..|txs| - 1]), txs[|txs| - 1].loanId;
      if k in before then before else before + [k]
  }

  function Sum(txs: seq<Tx>): int {
    if txs == [] then 0 else Amount(txs[0]) + Sum(txs[1..])
  }

  function Dates(txs: seq<Tx>): seq<int> {
    if txs == [] then [] else [txs[0].date] + Dates(txs[1..])
  }

  function MinOf(ds: seq<int>): int
    requires ds != []
  {
    if |ds| == 1 then ds[0] else if ds[0] < MinOf(ds[1..]) then ds[0] else MinOf(ds[1..])
  }

  function MaxOf(ds: seq<int>): int
    requires ds != []
  {
    if |ds| == 1 then ds[0] else if ds[0] > MaxOf(ds[1..]) then ds[0] else MaxOf(ds[1..])
  }

  lemma {:induction false} ExtremesBound(ds: seq<int>)
    requires ds != []
    ensures MinOf(ds) in ds && forall d :: d in ds ==> MinOf(ds) <= d
    ensures MaxOf(ds) in ds && forall d :: d in ds ==> d <= MaxOf(ds)
  {
    if |ds| > 1 {
      ExtremesBound(ds[1..]);
      assert ds == [ds[0]] + ds[1..];
    }
  }

  /** A row of `repayments` or `disbursements`. */
  datatype Flow = Flow(loanId: int, count: nat, total: int, first: int, last: int)

  function FlowOf(txs: seq<Tx>, loan: int): Flow
    requires OfLoan(txs, loan) != []
  {
    var ts := OfLoan(txs, loan);
    DatesSize(ts);
    Flow(loan, |ts|, Sum(ts), MinOf(Dates(ts)), MaxOf(Dates(ts)))
  }

  lemma {:induction false} DatesSize(txs: seq<Tx>)
    ensures |Dates(txs)| == |txs|
  {
    if txs != [] { DatesSize(txs[1..]); }
  }

  function Flows(txs: seq<Tx>, ks: seq<int>): (r: seq<Flow>)
    requires forall k :: k in ks ==> OfLoan(txs, k) != []
    ensures |r| == |ks| && forall i :: 0 <= i < |ks| ==> r[i] == FlowOf(txs, ks[i])
  {
    if ks == [] then []
    else
      assert ks[0] in ks && forall k :: k in ks[1..] ==> k in ks;
      [FlowOf(txs, ks[0])] + Flows(txs, ks[1..])
  }

  lemma LoanHasRows(txs: seq<Tx>, k: int)
    ensures k in Loans(txs) <==> OfLoan(txs, k) != []
  {
    if OfLoan(txs, k) != [] {
      OfLoanRows(txs, k, OfLoan(txs, k)[0]);
    }
    if k in Loans(txs) {
      var t :| t in txs && t.loanId == k;
      OfLoanRows(txs, k, t);
    }
  }

  function FlowTable(txs: seq<Tx>): seq<Flow> {
    assert forall k :: k in Loans(txs) ==> OfLoan(txs, k) != [] by {
      forall k | k in Loans(txs) { LoanHasRows(txs, k); }
    }
    Flows(txs, Loans(txs))
  }

  /** A row of `anomalies`. */
  datatype Activity = Activity(loanId: int, reversed: nat, transactions: nat)

  function ReversedCount(txs: seq<Tx>): nat {
    if txs == [] then 0 else (if txs[0].isReversed.GetOr(0) == 1 then 1 else 0) + ReversedCount(txs[1..])
  }

  function Activities(txs: seq<Tx>, ks: seq<int>): (r: seq<Activity>)
    ensures |r| == |ks|
    ensures forall i :: 0 <= i < |ks| ==>
              r[i] == Activity(ks[i], ReversedCount(OfLoan(txs, ks[i])), |OfLoan(txs, ks[i])|)
  {
    if ks == [] then []
    else [Activity(ks[0], ReversedCount(OfLoan(txs, ks[0])), |OfLoan(txs, ks[0])|)] + Activities(txs, ks[1..])
  }

  // ---------------------------------------------------------------------------------------------
  // Gaps between consecutive repayments
  // ---------------------------------------------------------------------------------------------

  predicate SortedDates(ds: seq<int>) {
    forall i, j :: 0 <= i < j < |ds| ==> ds[i] <= ds[j]
  }

  function Insert(d: int, ds: seq<int>): (r: seq<int>)
    ensures |r| == |ds| + 1
  {
    if ds == [] then [d] else if d <= ds[0] then [d] + ds else [ds[0]] + Insert(d, ds[1..])
  }

  /** ORDER BY transaction_date */
  function Sort(ds: seq<int>): (r: seq<int>)
    ensures |r| == |ds|
  {
    if ds == [] then [] else Insert(ds[0], Sort(ds[1..]))
  }

  lemma {:induction false} InsertKeepsSorted(d: int, ds: seq<int>)
    requires SortedDates(ds)
    ensures SortedDates(Insert(d, ds))
  {
    if ds != [] && d > ds[0] {
      InsertKeepsSorted(d, ds[1..]);
      InsertAdds(d, ds[1..]);
      var rest := Insert(d, ds[1..]);
      forall i | 0 <= i < |rest| ensures ds[0] <= rest[i] {
        assert rest[i] in multiset(rest);
      }
    }
  }

  lemma {:induction false} InsertAdds(d: int, ds: seq<int>)
    ensures multiset(Insert(d, ds)) == multiset(ds) + multiset{d}
  {
    if ds != [] {
      assert ds == [ds[0]] + ds[1..];
      if d > ds[0] {
        InsertAdds(d, ds[1..]);
      }
    }
  }

  /** The window order is sorted ... */
  lemma {:induction false} SortIsSorted(ds: seq<int>)
    ensures SortedDates(Sort(ds))
  {
    if ds != [] {
      SortIsSorted(ds[1..]);
      InsertKeepsSorted(ds[0], Sort(ds[1..]));
    }
  }

  /** ... and a permutation of the dates. */
  lemma {:induction false} SortIsPermutation(ds: seq<int>)
    ensures multiset(Sort(ds)) == multiset(ds)
  {
    if ds != [] {
      assert ds == [ds[0]] + ds[1..];
      SortIsPermutation(ds[1..]);
      InsertAdds(ds[0], Sort(ds[1..]));
    }
  }

  /** dateDiff with the row 1 PRECEDING; the first row has none. */
  function Gaps(ds: seq<int>): (g: seq<int>)
    ensures |g| == if |ds| == 0 then 0 else |ds| - 1
  {
    if |ds| <= 1 then [] else [ds[1] - ds[0]] + Gaps(ds[1..])
  }

  /** WHERE gap_days >= 0 */
  function NonNegative(g: seq<int>): seq<int> {
    if g == [] then [] else (if g[0] >= 0 then [g[0]] else []) + NonNegative(g[1..])
  }

  function Total(g: seq<int>): int {
    if g == [] then 0 else g[0] + Total(g[1..])
  }

  lemma {:induction false} GapsTelescope(ds: seq<int>)
    requires SortedDates(ds) && ds != []
    ensures NonNegative(Gaps(ds)) == Gaps(ds)
    ensures Total(Gaps(ds)) == ds[|ds| - 1] - ds[0]
  {
    if |ds| > 1 {
      GapsTelescope(ds[1..]);
    }
  }

  /** A row of `intervals`: the average gap is `sum` over `count`. */
  datatype Interval = Interval(loanId: int, sum: int, count: nat)

  /** The gaps the interval aggregates see. */
  function KeptGaps(ds: seq<int>): seq<int> {
    NonNegative(Gaps(Sort(ds)))
  }

  /** The gaps between dates add up to the span from the earliest to the latest, and none is dropped. */
  lemma GapsSpanDates(ds: seq<int>)
    requires ds != []
    ensures |KeptGaps(ds)| == |ds| - 1
    ensures Total(KeptGaps(ds)) == MaxOf(ds) - MinOf(ds)
  {
    SortIsSorted(ds);
    SortIsPermutation(ds);
    GapsTelescope(Sort(ds));
    EndsAreExtremes(ds, Sort(ds));
  }

  lemma EndsAreExtremes(ds: seq<int>, sorted: seq<int>)
    requires ds != [] && sorted != [] && SortedDates(sorted) && multiset(sorted) == multiset(ds)
    ensures sorted[0] == MinOf(ds) && sorted[|sorted| - 1] == MaxOf(ds)
  {
    ExtremesBound(ds);
    assert sorted[0] in multiset(sorted) && sorted[|sorted| - 1] in multiset(sorted);
    assert sorted[0] in multiset(ds) && sorted[|sorted| - 1] in multiset(ds);
    assert sorted[0] in ds && sorted[|sorted| - 1] in ds;
    assert MinOf(ds) in multiset(ds) && MaxOf(ds) in multiset(ds);
    assert MinOf(ds) in multiset(sorted) && MaxOf(ds) in multiset(sorted);
    var i :| 0 <= i < |sorted| && sorted[i] == MinOf(ds);
    var j :| 0 <= j < |sorted| && sorted[j] == MaxOf(ds);
  }

  function IntervalOf(txs: seq<Tx>, loan: int): (i: Option<Interval>)
    ensures i.Some? ==> i.value.loanId == loan
  {
    var gaps := KeptGaps(Dates(OfLoan(txs, loan)));
    if gaps == [] then None else Some(Interval(loan, Total(gaps), |gaps|))
  }

  function Intervals(txs: seq<Tx>, ks: seq<int>): (r: seq<Interval>)
    ensures forall x :: x in r ==> x.loanId in ks
  {
    if ks == [] then []
    else (match IntervalOf(txs, ks[0]) case None => [] case Some(i) => [i]) + Intervals(txs, ks[1..])
  }

  // ---------------------------------------------------------------------------------------------
  // Joins
  // ---------------------------------------------------------------------------------------------

  function Find<T>(key: T -> int, xs: seq<T>, k: int): (f: Option<T>)
    ensures f.Some? ==> f.value in xs && key(f.value) == k
    ensures f.None? ==> forall i :: 0 <= i < |xs| ==> key(xs[i]) != k
  {
    if xs == [] then None else if key(xs[0]) == k then Some(xs[0]) else Find(key, xs[1..], k)
  }

  ghost predicate Keyed<T>(key: T -> int, xs: seq<T>) {
    forall i, j :: 0 <= i < j < |xs| ==> key(xs[i]) != key(xs[j])
  }

  lemma {:induction false} FindUnique<T>(key: T -> int, xs: seq<T>, i: nat)
    requires Keyed(key, xs) && i < |xs|
    ensures Find(key, xs, key(xs[i])) == Some(xs[i])
  {
    if i > 0 {
      assert key(xs[0]) != key(xs[i]);
      assert Keyed(key, xs[1..]);
      FindUnique(key, xs[1..], i - 1);
    }
  }

  /** The rows of one left row joined on the key: one per match. */
  function Matches<L, R>(l: L, k: int, kr: R -> int, rs: seq<R>): seq<(Option<L>, Option<R>)> {
    if rs == [] then []
    else (if kr(rs[0]) == k then [(Some(l), Some(rs[0]))] else []) + Matches(l, k, kr, rs[1..])
  }

  /** LEFT JOIN */
  function LeftJoin<L, R>(kl: L -> int, ls: seq<L>, kr: R -> int, rs: seq<R>): seq<(Option<L>, Option<R>)> {
    if ls == [] then []
    else
      var m := Matches(ls[0], kl(ls[0]), kr, rs);
      (if m == [] then [(Some(ls[0]), None)] else m) + LeftJoin(kl, ls[1..], kr, rs)
  }

  function Unmatched<L, R>(kl: L -> int, ls: seq<L>, kr: R -> int, rs: seq<R>): (u: seq<(Option<L>, Option<R>)>)
    ensures forall i :: 0 <= i < |u| ==>
              u[i].0.None? && u[i].1.Some? && u[i].1.value in rs && Find(kl, ls, kr(u[i].1.value)).None?
    ensures forall i :: 0 <= i < |rs| && Find(kl, ls, kr(rs[i])).None? ==> (None, Some(rs[i])) in u
  {
    if rs == [] then []
    else
      (if Find(kl, ls, kr(rs[0])).None? then [(None, Some(rs[0]))] else []) + Unmatched(kl, ls, kr, rs[1..])
  }

  /** FULL OUTER JOIN */
  function FullJoin<L, R>(kl: L -> int, ls: seq<L>, kr: R -> int, rs: seq<R>): seq<(Option<L>, Option<R>)> {
    LeftJoin(kl, ls, kr, rs) + Unmatched(kl, ls, kr, rs)
  }

  lemma {:induction false} MatchesUnique<L, R>(l: L, k: int, kr: R -> int, rs: seq<R>)
    requires Keyed(kr, rs)
    ensures Matches(l, k, kr, rs) == if Find(kr, rs, k).None? then [] else [(Some(l), Find(kr, rs, k))]
  {
    if rs != [] {
      assert Keyed(kr, rs[1..]) by {
        forall i, j | 0 <= i < j < |rs| - 1 ensures kr(rs[1..][i]) != kr(rs[1..][j]) {
          assert kr(rs[i + 1]) != kr(rs[j + 1]);
        }
      }
      MatchesUnique(l, k, kr, rs[1..]);
      if kr(rs[0]) == k {
        assert Find(kr, rs[1..], k).None? by {
          forall j | 0 <= j < |rs| - 1 ensures kr(rs[1..][j]) != k {
            assert kr(rs[0]) != kr(rs[j + 1]);
          }
        }
      }
    }
  }

  /** With unique keys on the right a left join has one row per left row: no fan-out and no loss. */
  lemma {:induction false} LeftJoinRows<L, R>(kl: L -> int, ls: seq<L>, kr: R -> int, rs: seq<R>)
    requires Keyed(kr, rs)
    ensures |LeftJoin(kl, ls, kr, rs)| == |ls|
    ensures forall i :: 0 <= i < |ls| ==> LeftJoin(kl, ls, kr, rs)[i] == (Some(ls[i]), Find(kr, rs, kl(ls[i])))
  {
    if ls != [] {
      MatchesUnique(ls[0], kl(ls[0]), kr, rs);
      LeftJoinRows(kl, ls[1..], kr, rs);
    }
  }

  /** COALESCE of the two keys; a full-join row always has one. */
  function CoalesceKey<L, R>(kl: L -> int, kr: R -> int, j: (Option<L>, Option<R>)): int {
    match j
    case (Some(l), _) => kl(l)
    case (None, Some(r)) => kr(r)
    case (None, None) => 0
  }

  ghost predicate DistinctRight<L, R>(kr: R -> int, u: seq<(Option<L>, Option<R>)>) {
    && (forall i :: 0 <= i < |u| ==> u[i].1.Some?)
    && forall i, j :: 0 <= i < j < |u| ==> kr(u[i].1.value) != kr(u[j].1.value)
  }

  lemma {:induction false} UnmatchedRows<L, R>(kl: L -> int, ls: seq<L>, kr: R -> int, rs: seq<R>)
    requires Keyed(kr, rs)
    ensures DistinctRight(kr, Unmatched(kl, ls, kr, rs))
  {
    if rs != [] {
      KeyedTail(kr, rs);
      UnmatchedRows(kl, ls, kr, rs[1..]);
      assert Unmatched(kl, ls, kr, rs) ==
        (if Find(kl, ls, kr(rs[0])).None? then [(None, Some(rs[0]))] else []) + Unmatched(kl, ls, kr, rs[1..]);
    }
  }

  lemma KeyedTail<T>(key: T -> int, xs: seq<T>)
    requires Keyed(key, xs) && xs != []
    ensures Keyed(key, xs[1..]) && forall x :: x in xs[1..] ==> key(x) != key(xs[0])
  {
    forall i, j | 0 <= i < j < |xs| - 1 ensures key(xs[1..][i]) != key(xs[1..][j]) {
      assert key(xs[i + 1]) != key(xs[j + 1]);
    }
    forall x | x in xs[1..] ensures key(x) != key(xs[0]) {
      var j :| 0 <= j < |xs| - 1 && xs[1..][j] == x;
      assert key(xs[0]) != key(xs[j + 1]);
    }
  }

  ghost predicate HasKey<T>(key: T -> int, xs: seq<T>, k: int) {
    Find(key, xs, k).Some?
  }

  lemma HasKeyOf<T>(key: T -> int, xs: seq<T>, x: T)
    requires x in xs
    ensures HasKey(key, xs, key(x))
  {
  }

  /** Row i of a full join pairs what each side holds for its key, and one side holds something. */
  lemma FullJoinPairs<L, R>(
      kl: L -> int, ls: seq<L>, kr: R -> int, rs: seq<R>, kj: ((Option<L>, Option<R>)) -> int, i: nat)
    requires Keyed(kl, ls) && Keyed(kr, rs)
    requires forall j :: kj(j) == CoalesceKey(kl, kr, j)
    requires i < |FullJoin(kl, ls, kr, rs)|
    ensures
      var j := FullJoin(kl, ls, kr, rs)[i];
      && j == (Find(kl, ls, kj(j)), Find(kr, rs, kj(j)))
      && (HasKey(kl, ls, kj(j)) || HasKey(kr, rs, kj(j)))
      && (i < |ls| ==> j.0 == Some(ls[i])) && (i >= |ls| ==> !HasKey(kl, ls, kj(j)))
  {
    var left, j := LeftJoin(kl, ls, kr, rs), FullJoin(kl, ls, kr, rs)[i];
    LeftJoinRows(kl, ls, kr, rs);
    if i < |left| {
      FindUnique(kl, ls, i);
    } else {
      var x :| 0 <= x < |rs| && rs[x] == j.1.value;
      FindUnique(kr, rs, x);
    }
  }

  lemma KeyOfRow<L, R>(kl: L -> int, kr: R -> int, kj: ((Option<L>, Option<R>)) -> int, j: (Option<L>, Option<R>))
    requires forall x :: kj(x) == CoalesceKey(kl, kr, x)
    ensures j.0.Some? ==> kj(j) == kl(j.0.value)
    ensures j.0.None? && j.1.Some? ==> kj(j) == kr(j.1.value)
  {
    assert kj(j) == CoalesceKey(kl, kr, j);
  }

  lemma UnmatchedKeyed<L, R>(
      kl: L -> int, ls: seq<L>, kr: R -> int, rs: seq<R>, kj: ((Option<L>, Option<R>)) -> int)
    requires Keyed(kr, rs)
    requires forall j :: kj(j) == CoalesceKey(kl, kr, j)
    ensures Keyed(kj, Unmatched(kl, ls, kr, rs))
  {
    var u := Unmatched(kl, ls, kr, rs);
    UnmatchedRows(kl, ls, kr, rs);
    forall i, j | 0 <= i < j < |u| ensures kj(u[i]) != kj(u[j]) {
      KeyOfRow(kl, kr, kj, u[i]);
      KeyOfRow(kl, kr, kj, u[j]);
    }
  }

  lemma LeftKeyDiffers<L, R>(
      kl: L -> int, ls: seq<L>, kr: R -> int, rs: seq<R>, kj: ((Option<L>, Option<R>)) -> int, i: nat, j: nat)
    requires Keyed(kl, ls) && Keyed(kr, rs)
    requires forall x :: kj(x) == CoalesceKey(kl, kr, x)
    requires i < |ls| && i < j < |FullJoin(kl, ls, kr, rs)|
    ensures kj(FullJoin(kl, ls, kr, rs)[i]) != kj(FullJoin(kl, ls, kr, rs)[j])
  {
    FullJoinPairs(kl, ls, kr, rs, kj, i);
    FullJoinPairs(kl, ls, kr, rs, kj, j);
    KeyOfRow(kl, kr, kj, FullJoin(kl, ls, kr, rs)[i]);
    if j < |ls| {
      KeyOfRow(kl, kr, kj, FullJoin(kl, ls, kr, rs)[j]);
      assert kl(ls[i]) != kl(ls[j]);
    } else {
      HasKeyOf(kl, ls, ls[i]);
    }
  }

  lemma UnmatchedIndex<L, R>(kl: L -> int, ls: seq<L>, kr: R -> int, rs: seq<R>, i: nat)
    requires Keyed(kr, rs) && |ls| <= i < |FullJoin(kl, ls, kr, rs)|
    ensures i - |ls| < |Unmatched(kl, ls, kr, rs)|
    ensures FullJoin(kl, ls, kr, rs)[i] == Unmatched(kl, ls, kr, rs)[i - |ls|]
  {
    LeftJoinRows(kl, ls, kr, rs);
  }

  lemma RightKeyDiffers<L, R>(
      kl: L -> int, ls: seq<L>, kr: R -> int, rs: seq<R>, kj: ((Option<L>, Option<R>)) -> int, i: nat, j: nat)
    requires Keyed(kl, ls) && Keyed(kr, rs)
    requires forall x :: kj(x) == CoalesceKey(kl, kr, x)
    requires |ls| <= i < j < |FullJoin(kl, ls, kr, rs)|
    ensures kj(FullJoin(kl, ls, kr, rs)[i]) != kj(FullJoin(kl, ls, kr, rs)[j])
  {
    UnmatchedIndex(kl, ls, kr, rs, i);
    UnmatchedIndex(kl, ls, kr, rs, j);
    UnmatchedKeyed(kl, ls, kr, rs, kj);
  }

  lemma FullJoinKeyed<L, R>(
      kl: L -> int, ls: seq<L>, kr: R -> int, rs: seq<R>, kj: ((Option<L>, Option<R>)) -> int)
    requires Keyed(kl, ls) && Keyed(kr, rs)
    requires forall j :: kj(j) == CoalesceKey(kl, kr, j)
    ensures Keyed(kj, FullJoin(kl, ls, kr, rs))
  {
    forall i, j | 0 <= i < j < |FullJoin(kl, ls, kr, rs)|
      ensures kj(FullJoin(kl, ls, kr, rs)[i]) != kj(FullJoin(kl, ls, kr, rs)[j])
    {
      if i < |ls| {
        LeftKeyDiffers(kl, ls, kr, rs, kj, i, j);
      } else {
        RightKeyDiffers(kl, ls, kr, rs, kj, i, j);
      }
    }
  }

  lemma FullJoinHasKeys<L, R>(
      kl: L -> int, ls: seq<L>, kr: R -> int, rs: seq<R>, kj: ((Option<L>, Option<R>)) -> int, k: int)
    requires Keyed(kl, ls) && Keyed(kr, rs)
    requires forall j :: kj(j) == CoalesceKey(kl, kr, j)
    ensures HasKey(kj, FullJoin(kl, ls, kr, rs), k) <==> HasKey(kl, ls, k) || HasKey(kr, rs, k)
  {
    var js := FullJoin(kl, ls, kr, rs);
    LeftJoinRows(kl, ls, kr, rs);
    if HasKey(kl, ls, k) {
      var x :| 0 <= x < |ls| && ls[x] == Find(kl, ls, k).value;
      assert js[x].0 == Some(ls[x]);
      HasKeyOf(kj, js, js[x]);
    } else if HasKey(kr, rs, k) {
      var r := Find(kr, rs, k).value;
      var y :| 0 <= y < |rs| && rs[y] == r;
      assert (None, Some(rs[y])) in Unmatched(kl, ls, kr, rs);
      HasKeyOf(kj, js, (None, Some(r)));
    }
    if HasKey(kj, js, k) {
      var x :| 0 <= x < |js| && js[x] == Find(kj, js, k).value;
      FullJoinPairs(kl, ls, kr, rs, kj, x);
    }
  }

  /** With unique keys on both sides a full outer join has exactly one row per key of either side, pairing
      what each side holds for it. */
  lemma FullJoinRows<L, R>(
      kl: L -> int, ls: seq<L>, kr: R -> int, rs: seq<R>, kj: ((Option<L>, Option<R>)) -> int)
    requires Keyed(kl, ls) && Keyed(kr, rs)
    requires forall j :: kj(j) == CoalesceKey(kl, kr, j)
    ensures
      var js := FullJoin(kl, ls, kr, rs);
      && Keyed(kj, js)
      && (forall i :: 0 <= i < |js| ==> js[i] == (Find(kl, ls, kj(js[i])), Find(kr, rs, kj(js[i]))))
      && (forall k :: HasKey(kj, js, k) <==> HasKey(kl, ls, k) || HasKey(kr, rs, k))
  {
    var js := FullJoin(kl, ls, kr, rs);
    FullJoinKeyed(kl, ls, kr, rs, kj);
    forall i | 0 <= i < |js| ensures js[i] == (Find(kl, ls, kj(js[i])), Find(kr, rs, kj(js[i]))) {
      FullJoinPairs(kl, ls, kr, rs, kj, i);
    }
    forall k ensures HasKey(kj, js, k) <==> HasKey(kl, ls, k) || HasKey(kr, rs, k) {
      FullJoinHasKeys(kl, ls, kr, rs, kj, k);
    }
  }

  // ---------------------------------------------------------------------------------------------
  // The model
  // ---------------------------------------------------------------------------------------------

  /** One row of int_loan_repayment_behaviour. */
  datatype Behaviour = Behaviour(
    loanId: int, repaymentCount: nat, totalRepaid: int, firstRepayment: Option<int>, lastRepayment: Option<int>,
    disbursementCount: nat, totalDisbursed: int, reversed: nat, transactions: nat,
    gapSum: Option<int>, gapCount: nat)

  type FlowPair = (Option<Flow>, Option<Flow>)
  type LedgerRow = (Option<FlowPair>, Option<Activity>)

  function FlowKey(f: Flow): int { f.loanId }
  function ActivityKey(a: Activity): int { a.loanId }
  function IntervalKey(i: Interval): int { i.loanId }
  function PairKey(j: FlowPair): int { CoalesceKey(FlowKey, FlowKey, j) }
  function RowKey(j: LedgerRow): int { CoalesceKey(PairKey, ActivityKey, j) }

  function Repayments(txs: seq<Tx>): seq<Flow> { FlowTable(Counted(txs, Repayment)) }
  function Disbursements(txs: seq<Tx>): seq<Flow> { FlowTable(Counted(txs, Disbursement)) }
  function Anomalies(txs: seq<Tx>): seq<Activity> { Activities(txs, Loans(txs)) }
  function IntervalTable(txs: seq<Tx>): seq<Interval> {
    Intervals(Counted(txs, Repayment), Loans(Counted(txs, Repayment)))
  }

  /** repayments FULL JOIN disbursements FULL JOIN anomalies */
  function Joined(txs: seq<Tx>): seq<LedgerRow> {
    FullJoin(PairKey, Pairs(txs), ActivityKey, Anomalies(txs))
  }

  function Select(row: (Option<LedgerRow>, Option<Interval>)): Behaviour
    requires row.0.Some?
  {
    var j := row.0.value;
    var pair := j.0.GetOr((None, None));
    var (r, d, a, i) := (pair.0, pair.1, j.1, row.1);
    Behaviour(
      RowKey(j),
      if r.Some? then r.value.count else 0, if r.Some? then r.value.total else 0,
      if r.Some? then Some(r.value.first) else None, if r.Some? then Some(r.value.last) else None,
      if d.Some? then d.value.count else 0, if d.Some? then d.value.total else 0,
      if a.Some? then a.value.reversed else 0, if a.Some? then a.value.transactions else 0,
      if i.Some? then Some(i.value.sum) else None, if i.Some? then i.value.count else 0)
  }

  function SelectAll(rows: seq<(Option<LedgerRow>, Option<Interval>)>): (r: seq<Behaviour>)
    requires forall i :: 0 <= i < |rows| ==> rows[i].0.Some?
    ensures |r| == |rows| && forall i :: 0 <= i < |rows| ==> r[i] == Select(rows[i])
  {
    if rows == [] then [] else [Select(rows[0])] + SelectAll(rows[1..])
  }

  function Rollup(txs: seq<Tx>): seq<Behaviour> {
    IntervalsKeyed(txs);
    LeftJoinRows(RowKey, Joined(txs), IntervalKey, IntervalTable(txs));
    SelectAll(LeftJoin(RowKey, Joined(txs), IntervalKey, IntervalTable(txs)))
  }

  lemma {:induction false} IntervalsOfKeys(txs: seq<Tx>, ks: seq<int>)
    requires forall i, j :: 0 <= i < j < |ks| ==> ks[i] != ks[j]
    ensures Keyed(IntervalKey, Intervals(txs, ks))
  {
    if ks != [] {
      IntervalsOfKeys(txs, ks[1..]);
      var rest := Intervals(txs, ks[1..]);
      forall x | x in rest ensures IntervalKey(x) != ks[0] {
        assert x.loanId in ks[1..];
      }
      assert forall i :: 0 <= i < |rest| ==> rest[i] in rest;
    }
  }

  lemma FindCons<T>(key: T -> int, x: T, rest: seq<T>, k: int)
    ensures Find(key, [x] + rest, k) == if key(x) == k then Some(x) else Find(key, rest, k)
  {
    assert ([x] + rest)[1..] == rest;
  }

  lemma {:induction false} FindInterval(txs: seq<Tx>, ks: seq<int>, k: int)
    requires forall i, j :: 0 <= i < j < |ks| ==> ks[i] != ks[j]
    ensures Find(IntervalKey, Intervals(txs, ks), k) == if k in ks then IntervalOf(txs, k) else None
  {
    if ks != [] {
      FindInterval(txs, ks[1..], k);
      assert ks[0] !in ks[1..];
      var rest, first := Intervals(txs, ks[1..]), IntervalOf(txs, ks[0]);
      if first.None? {
        assert Intervals(txs, ks) == rest;
      } else {
        FindCons(IntervalKey, first.value, rest, k);
      }
    }
  }

  lemma IntervalsKeyed(txs: seq<Tx>)
    ensures Keyed(IntervalKey, IntervalTable(txs))
  {
    IntervalsOfKeys(Counted(txs, Repayment), Loans(Counted(txs, Repayment)));
  }

  // ---------------------------------------------------------------------------------------------
  // One row per loan
  // ---------------------------------------------------------------------------------------------

  lemma FlowTableRows(txs: seq<Tx>)
    ensures |FlowTable(txs)| == |Loans(txs)|
    ensures forall i :: 0 <= i < |Loans(txs)| ==>
              OfLoan(txs, Loans(txs)[i]) != [] && FlowTable(txs)[i] == FlowOf(txs, Loans(txs)[i])
    ensures forall i :: 0 <= i < |Loans(txs)| ==> FlowKey(FlowTable(txs)[i]) == Loans(txs)[i]
    ensures Keyed(FlowKey, FlowTable(txs))
  {
    forall k | k in Loans(txs) ensures OfLoan(txs, k) != [] {
      LoanHasRows(txs, k);
    }
  }

  lemma FlowTableKeyed(txs: seq<Tx>, k: int)
    ensures Keyed(FlowKey, FlowTable(txs))
    ensures k !in Loans(txs) ==> Find(FlowKey, FlowTable(txs), k).None?
    ensures k in Loans(txs) ==> OfLoan(txs, k) != [] && Find(FlowKey, FlowTable(txs), k) == Some(FlowOf(txs, k))
  {
    LoanHasRows(txs, k);
    FlowTableRows(txs);
    var ks, table := Loans(txs), FlowTable(txs);
    if k in ks {
      var i :| 0 <= i < |ks| && ks[i] == k;
      FindUnique(FlowKey, table, i);
    }
  }

  lemma AnomaliesKeyed(txs: seq<Tx>, k: int)
    ensures Keyed(ActivityKey, Anomalies(txs))
    ensures Find(ActivityKey, Anomalies(txs), k) ==
              if k in Loans(txs) then Some(Activity(k, ReversedCount(OfLoan(txs, k)), |OfLoan(txs, k)|)) else None
  {
    var ks, table := Loans(txs), Anomalies(txs);
    assert forall i :: 0 <= i < |ks| ==> ActivityKey(table[i]) == ks[i];
    if k in ks {
      var i :| 0 <= i < |ks| && ks[i] == k;
      FindUnique(ActivityKey, table, i);
    }
  }

  function PairFor(txs: seq<Tx>, k: int): FlowPair {
    (Find(FlowKey, Repayments(txs), k), Find(FlowKey, Disbursements(txs), k))
  }

  function Pairs(txs: seq<Tx>): seq<FlowPair> {
    FullJoin(FlowKey, Repayments(txs), FlowKey, Disbursements(txs))
  }

  lemma PairRows(txs: seq<Tx>)
    ensures Keyed(PairKey, Pairs(txs))
    ensures forall i :: 0 <= i < |Pairs(txs)| ==> Pairs(txs)[i] == PairFor(txs, PairKey(Pairs(txs)[i]))
    ensures forall k :: HasKey(PairKey, Pairs(txs), k) <==>
              HasKey(FlowKey, Repayments(txs), k) || HasKey(FlowKey, Disbursements(txs), k)
  {
    FlowTableKeyed(Counted(txs, Repayment), 0);
    FlowTableKeyed(Counted(txs, Disbursement), 0);
    FullJoinRows(FlowKey, Repayments(txs), FlowKey, Disbursements(txs), PairKey);
  }

  lemma KeysAreLoans(txs: seq<Tx>, k: int)
    ensures HasKey(FlowKey, Repayments(txs), k) || HasKey(FlowKey, Disbursements(txs), k) ==> k in Loans(txs)
    ensures HasKey(ActivityKey, Anomalies(txs), k) <==> k in Loans(txs)
  {
    FlowTableKeyed(Counted(txs, Repayment), k);
    FlowTableKeyed(Counted(txs, Disbursement), k);
    AnomaliesKeyed(txs, k);
    forall t ensures (t in Counted(txs, Repayment) || t in Counted(txs, Disbursement)) ==> t in txs {
      CountedRows(txs, Repayment, t);
      CountedRows(txs, Disbursement, t);
    }
  }

  lemma PairAt(txs: seq<Tx>, pairs: seq<FlowPair>, k: int)
    requires forall i :: 0 <= i < |pairs| ==> pairs[i] == PairFor(txs, PairKey(pairs[i]))
    requires HasKey(PairKey, pairs, k) <==>
               HasKey(FlowKey, Repayments(txs), k) || HasKey(FlowKey, Disbursements(txs), k)
    ensures Find(PairKey, pairs, k).GetOr((None, None)) == PairFor(txs, k)
  {
    if HasKey(PairKey, pairs, k) {
      var i :| 0 <= i < |pairs| && pairs[i] == Find(PairKey, pairs, k).value;
    }
  }

  lemma JoinedPairs(txs: seq<Tx>)
    ensures Keyed(RowKey, Joined(txs))
    ensures forall i :: 0 <= i < |Joined(txs)| ==>
              Joined(txs)[i] == (Find(PairKey, Pairs(txs), RowKey(Joined(txs)[i])),
                                 Find(ActivityKey, Anomalies(txs), RowKey(Joined(txs)[i])))
    ensures forall k :: HasKey(RowKey, Joined(txs), k) <==>
              HasKey(PairKey, Pairs(txs), k) || HasKey(ActivityKey, Anomalies(txs), k)
  {
    PairRows(txs);
    AnomaliesKeyed(txs, 0);
    FullJoinRows(PairKey, Pairs(txs), ActivityKey, Anomalies(txs), RowKey);
  }

  /** Row i of the joined ledger holds each side's row for its loan. */
  lemma JoinedRow(txs: seq<Tx>, i: nat)
    requires i < |Joined(txs)|
    ensures
      var row := Joined(txs)[i];
      && RowKey(row) in Loans(txs)
      && row.1 == Find(ActivityKey, Anomalies(txs), RowKey(row))
      && row.0.GetOr((None, None)) == PairFor(txs, RowKey(row))
  {
    JoinedPairs(txs);
    var row := Joined(txs)[i];
    var k := RowKey(row);
    HasKeyOf(RowKey, Joined(txs), row);
    PairRows(txs);
    KeysAreLoans(txs, k);
    PairAt(txs, Pairs(txs), k);
  }

  /** The joined ledger has a row for every loan with a transaction, and only one. */
  lemma JoinedLoans(txs: seq<Tx>, k: int)
    ensures Keyed(RowKey, Joined(txs))
    ensures k in Loans(txs) <==> exists i :: 0 <= i < |Joined(txs)| && RowKey(Joined(txs)[i]) == k
  {
    JoinedPairs(txs);
    KeysAreLoans(txs, k);
    if k in Loans(txs) {
      var i :| 0 <= i < |Joined(txs)| && Joined(txs)[i] == Find(RowKey, Joined(txs), k).value;
    }
    forall i | 0 <= i < |Joined(txs)| ensures RowKey(Joined(txs)[i]) in Loans(txs) {
      JoinedRow(txs, i);
    }
  }

  // ---------------------------------------------------------------------------------------------
  // What the rollup reports
  // ---------------------------------------------------------------------------------------------

  ghost predicate OneRowFor(rows: seq<Behaviour>, k: int) {
    exists i :: 0 <= i < |rows| && rows[i].loanId == k
      && forall j :: 0 <= j < |rows| && rows[j].loanId == k ==> j == i
  }

  lemma RowOf(txs: seq<Tx>, i: nat)
    requires i < |Rollup(txs)|
    ensures |Rollup(txs)| == |Joined(txs)|
    ensures Rollup(txs)[i] ==
              Select((Some(Joined(txs)[i]), Find(IntervalKey, IntervalTable(txs), RowKey(Joined(txs)[i]))))
    ensures Rollup(txs)[i].loanId == RowKey(Joined(txs)[i])
  {
    IntervalsKeyed(txs);
    LeftJoinRows(RowKey, Joined(txs), IntervalKey, IntervalTable(txs));
  }

  lemma RollupSize(txs: seq<Tx>)
    ensures |Rollup(txs)| == |Joined(txs)|
  {
    IntervalsKeyed(txs);
    LeftJoinRows(RowKey, Joined(txs), IntervalKey, IntervalTable(txs));
  }

  /** One row for every loan with a transaction, and no other row. */
  lemma OneRowPerLoan(txs: seq<Tx>, k: int)
    ensures k in Loans(txs) ==> OneRowFor(Rollup(txs), k)
    ensures k !in Loans(txs) ==> forall i :: 0 <= i < |Rollup(txs)| ==> Rollup(txs)[i].loanId != k
  {
    JoinedLoans(txs, k);
    RollupSize(txs);
    forall i | 0 <= i < |Rollup(txs)| ensures Rollup(txs)[i].loanId == RowKey(Joined(txs)[i]) {
      RowOf(txs, i);
    }
    if k in Loans(txs) {
      var i :| 0 <= i < |Joined(txs)| && RowKey(Joined(txs)[i]) == k;
      forall j | 0 <= j < |Rollup(txs)| && Rollup(txs)[j].loanId == k ensures j == i {
        assert RowKey(Joined(txs)[j]) == RowKey(Joined(txs)[i]);
      }
    }
  }

  /** Row i, column group by column group, in terms of what each CTE holds for its loan. */
  lemma RowParts(txs: seq<Tx>, i: nat)
    requires i < |Rollup(txs)|
    ensures
      var row := Rollup(txs)[i];
      var r, d := Find(FlowKey, Repayments(txs), row.loanId), Find(FlowKey, Disbursements(txs), row.loanId);
      var a, g := Find(ActivityKey, Anomalies(txs), row.loanId), Find(IntervalKey, IntervalTable(txs), row.loanId);
      && row.repaymentCount == (if r.Some? then r.value.count else 0)
      && row.totalRepaid == (if r.Some? then r.value.total else 0)
      && row.firstRepayment == (if r.Some? then Some(r.value.first) else None)
      && row.lastRepayment == (if r.Some? then Some(r.value.last) else None)
      && row.disbursementCount == (if d.Some? then d.value.count else 0)
      && row.totalDisbursed == (if d.Some? then d.value.total else 0)
      && row.reversed == (if a.Some? then a.value.reversed else 0)
      && row.transactions == (if a.Some? then a.value.transactions else 0)
      && row.gapSum == (if g.Some? then Some(g.value.sum) else None)
      && row.gapCount == (if g.Some? then g.value.count else 0)
  {
    RowOf(txs, i);
    JoinedRow(txs, i);
  }

  lemma RepaymentsFor(txs: seq<Tx>, c: Category, k: int)
    ensures
      var f, ts := Find(FlowKey, FlowTable(Counted(txs, c)), k), OfLoan(Counted(txs, c), k);
      && (f.None? <==> ts == [])
      && (f.Some? ==> |Dates(ts)| > 0 && f.value == Flow(k, |ts|, Sum(ts), MinOf(Dates(ts)), MaxOf(Dates(ts))))
  {
    FlowTableKeyed(Counted(txs, c), k);
    LoanHasRows(Counted(txs, c), k);
    DatesSize(OfLoan(Counted(txs, c), k));
  }

  /** A row's measures are those of its loan's countable transactions; zero, not NULL, when it has none. */
  lemma MeasuresAreExact(txs: seq<Tx>, i: nat)
    requires i < |Rollup(txs)|
    ensures
      var row := Rollup(txs)[i];
      var repaid := OfLoan(Counted(txs, Repayment), row.loanId);
      var disbursed := OfLoan(Counted(txs, Disbursement), row.loanId);
      && row.repaymentCount == |repaid| && row.totalRepaid == Sum(repaid)
      && row.disbursementCount == |disbursed| && row.totalDisbursed == Sum(disbursed)
      && row.transactions == |OfLoan(txs, row.loanId)| && row.reversed == ReversedCount(OfLoan(txs, row.loanId))
  {
    RowParts(txs, i);
    var k := Rollup(txs)[i].loanId;
    RepaymentsFor(txs, Repayment, k);
    RepaymentsFor(txs, Disbursement, k);
    AnomaliesKeyed(txs, k);
    LoanHasRows(txs, k);
  }

  function LoanGaps(txs: seq<Tx>, k: int): seq<int> {
    KeptGaps(Dates(OfLoan(Counted(txs, Repayment), k)))
  }

  lemma IntervalFor(txs: seq<Tx>, k: int)
    ensures
      var gaps := LoanGaps(txs, k);
      Find(IntervalKey, IntervalTable(txs), k) == if gaps == [] then None else Some(Interval(k, Total(gaps), |gaps|))
  {
    var counted := Counted(txs, Repayment);
    FindInterval(counted, Loans(counted), k);
    LoanHasRows(counted, k);
  }

  lemma RepaidFlow(txs: seq<Tx>, k: int) returns (f: Flow)
    requires OfLoan(Counted(txs, Repayment), k) != []
    ensures Find(FlowKey, Repayments(txs), k) == Some(f)
    ensures |LoanGaps(txs, k)| == f.count - 1 && Total(LoanGaps(txs, k)) == f.last - f.first
  {
    RepaymentsFor(txs, Repayment, k);
    f := Find(FlowKey, Repayments(txs), k).value;
    DatesSize(OfLoan(Counted(txs, Repayment), k));
    GapsSpanDates(Dates(OfLoan(Counted(txs, Repayment), k)));
  }

  /** The gaps telescope: a loan with at least two repayments has one gap fewer than repayments, and they add
      up to the days between its first and its last; any other loan has no interval row. */
  lemma IntervalsSpanRepayments(txs: seq<Tx>, i: nat)
    requires i < |Rollup(txs)|
    ensures
      var row := Rollup(txs)[i];
      && (row.repaymentCount >= 2 ==>
            && row.gapCount == row.repaymentCount - 1
            && row.firstRepayment.Some? && row.lastRepayment.Some?
            && row.gapSum.Some? && row.gapSum.value == row.lastRepayment.value - row.firstRepayment.value)
      && (row.repaymentCount < 2 ==> row.gapSum.None? && row.gapCount == 0)
  {
    RowParts(txs, i);
    var k := Rollup(txs)[i].loanId;
    IntervalFor(txs, k);
    if OfLoan(Counted(txs, Repayment), k) != [] {
      var f := RepaidFlow(txs, k);
    } else {
      RepaymentsFor(txs, Repayment, k);
      assert LoanGaps(txs, k) == [];
    }
  }

  function LoanIds(rows: seq<Behaviour>): (ks: seq<int>)
    ensures |ks| == |rows| && forall i :: 0 <= i < |rows| ==> ks[i] == rows[i].loanId
  {
    if rows == [] then [] else [rows[0].loanId] + LoanIds(rows[1..])
  }

  function SumRepaid(rows: seq<Behaviour>): int {
    if rows == [] then 0 else rows[0].totalRepaid + SumRepaid(rows[1..])
  }

  function SumByLoan(txs: seq<Tx>, ks: seq<int>): int {
    if ks == [] then 0 else Sum(OfLoan(txs, ks[0])) + SumByLoan(txs, ks[1..])
  }

  lemma OfLoanCons(t: Tx, txs: seq<Tx>, k: int)
    ensures Sum(OfLoan([t] + txs, k)) == Sum(OfLoan(txs, k)) + if t.loanId == k then Amount(t) else 0
  {
    assert ([t] + txs)[1..] == txs;
    if t.loanId == k {
      assert OfLoan([t] + txs, k) == [t] + OfLoan(txs, k);
      assert ([t] + OfLoan(txs, k))[1..] == OfLoan(txs, k);
    } else {
      assert OfLoan([t] + txs, k) == OfLoan(txs, k);
    }
  }

  lemma {:induction false} OneMoreTx(t: Tx, txs: seq<Tx>, ks: seq<int>)
    requires forall i, j :: 0 <= i < j < |ks| ==> ks[i] != ks[j]
    ensures SumByLoan([t] + txs, ks) == SumByLoan(txs, ks) + if t.loanId in ks then Amount(t) else 0
  {
    if ks != [] {
      OneMoreTx(t, txs, ks[1..]);
      OfLoanCons(t, txs, ks[0]);
      assert ks[0] !in ks[1..];
      assert t.loanId in ks <==> t.loanId == ks[0] || t.loanId in ks[1..];
    }
  }

  lemma {:induction false} NothingToSum(ks: seq<int>)
    ensures SumByLoan([], ks) == 0
  {
    if ks != [] { NothingToSum(ks[1..]); }
  }

  /** Splitting a sum by distinct keys that cover it loses and repeats nothing. */
  lemma {:induction false} SumsSplit(txs: seq<Tx>, ks: seq<int>)
    requires forall i, j :: 0 <= i < j < |ks| ==> ks[i] != ks[j]
    requires forall t :: t in txs ==> t.loanId in ks
    ensures SumByLoan(txs, ks) == Sum(txs)
  {
    if txs == [] {
      NothingToSum(ks);
    } else {
      SumsSplit(txs[1..], ks);
      assert txs == [txs[0]] + txs[1..];
      OneMoreTx(txs[0], txs[1..], ks);
    }
  }

  lemma {:induction false} RepaidByLoan(txs: seq<Tx>, rows: seq<Behaviour>)
    requires forall i :: 0 <= i < |rows| ==> rows[i].totalRepaid == Sum(OfLoan(txs, rows[i].loanId))
    ensures SumRepaid(rows) == SumByLoan(txs, LoanIds(rows))
  {
    if rows != [] {
      RepaidByLoan(txs, rows[1..]);
      assert LoanIds(rows)[1..] == LoanIds(rows[1..]);
    }
  }

  /** Conservation: total_repaid over all rows is the amount over all countable repayments. */
  lemma RollupConserves(txs: seq<Tx>)
    ensures SumRepaid(Rollup(txs)) == Sum(Counted(txs, Repayment))
  {
    var rows, counted := Rollup(txs), Counted(txs, Repayment);
    forall i | 0 <= i < |rows| ensures rows[i].totalRepaid == Sum(OfLoan(counted, rows[i].loanId)) {
      MeasuresAreExact(txs, i);
    }
    RepaidByLoan(counted, rows);
    forall i, j | 0 <= i < j < |rows| ensures LoanIds(rows)[i] != LoanIds(rows)[j] {
      RowsDiffer(txs, i, j);
    }
    forall t | t in counted ensures t.loanId in LoanIds(rows) {
      CountedRows(txs, Repayment, t);
      OneRowPerLoan(txs, t.loanId);
      var i :| 0 <= i < |rows| && rows[i].loanId == t.loanId;
      assert LoanIds(rows)[i] == t.loanId;
    }
    SumsSplit(counted, LoanIds(rows));
  }

  lemma RowsDiffer(txs: seq<Tx>, i: nat, j: nat)
    requires i < j < |Rollup(txs)|
    ensures Rollup(txs)[i].loanId != Rollup(txs)[j].loanId
  {
    RowOf(txs, i);
    RowOf(txs, j);
    JoinedLoans(txs, 0);
  }

  // ---------------------------------------------------------------------------------------------
  // The measures in terms of the ledger's own columns
  // ---------------------------------------------------------------------------------------------

  /** A transaction of the given type that has not been reversed. */
  ghost predicate Standing(t: Tx, typeId: int) {
    t.typeId == Some(typeId) && t.isReversed != Some(1)
  }

  /** How many standing transactions of a type the loan has. */
  ghost function StandingCount(txs: seq<Tx>, k: int, typeId: int): nat {
    if txs == [] then 0
    else StandingCount(txs[1..], k, typeId) + if txs[0].loanId == k && Standing(txs[0], typeId) then 1 else 0
  }

  /** What they amount to; a NULL amount adds nothing. */
  ghost function StandingAmount(txs: seq<Tx>, k: int, typeId: int): int {
    if txs == [] then 0
    else
      StandingAmount(txs[1..], k, typeId)
      + if txs[0].loanId == k && Standing(txs[0], typeId) && txs[0].amount.Some? then txs[0].amount.value else 0
  }

  /** The two categories the rollup sums, by type id. */
  lemma CategoriesAre(t: Tx)
    ensures Classify(t.typeId) == Repayment && Countable(t) <==> Standing(t, 2)
    ensures Classify(t.typeId) == Disbursement && Countable(t) <==> Standing(t, 1)
  {
  }

  /** And every category by type id; any other id, or none, is `Other`. */
  lemma CategoryOfType(typeId: int)
    ensures Classify(Some(typeId)) ==
              match typeId
              case 1 => Disbursement case 2 => Repayment case 4 => Accrual case 5 => WaiveInterest case 6 => WriteOff
              case 7 => RecoveryRepayment case 8 => WaiveCharges case 9 => ChargePayment case 10 => Refund
              case _ => Other
    ensures Classify(None) == Other
  {
  }

  ghost predicate Codes(c: Category, typeId: int) {
    (c == Repayment && typeId == 2) || (c == Disbursement && typeId == 1)
  }

  lemma CountedCons(t: Tx, txs: seq<Tx>, c: Category)
    ensures Counted([t] + txs, c) ==
              if Classify(t.typeId) == c && Countable(t) then [t] + Counted(txs, c) else Counted(txs, c)
  {
    assert ([t] + txs)[1..] == txs;
  }

  lemma OfLoanSize(t: Tx, txs: seq<Tx>, k: int)
    ensures |OfLoan([t] + txs, k)| == |OfLoan(txs, k)| + if t.loanId == k then 1 else 0
  {
    assert ([t] + txs)[1..] == txs;
  }

  lemma {:induction false} CountedStanding(txs: seq<Tx>, k: int, c: Category, typeId: int)
    requires Codes(c, typeId)
    ensures |OfLoan(Counted(txs, c), k)| == StandingCount(txs, k, typeId)
    ensures Sum(OfLoan(Counted(txs, c), k)) == StandingAmount(txs, k, typeId)
  {
    if txs != [] {
      CountedStanding(txs[1..], k, c, typeId);
      CategoriesAre(txs[0]);
      assert txs == [txs[0]] + txs[1..];
      CountedCons(txs[0], txs[1..], c);
      OfLoanSize(txs[0], Counted(txs[1..], c), k);
      OfLoanCons(txs[0], Counted(txs[1..], c), k);
    }
  }

  ghost function LedgerCount(txs: seq<Tx>, k: int): nat {
    if txs == [] then 0 else LedgerCount(txs[1..], k) + if txs[0].loanId == k then 1 else 0
  }

  ghost function ReversedOf(txs: seq<Tx>, k: int): nat {
    if txs == [] then 0
    else ReversedOf(txs[1..], k) + if txs[0].loanId == k && txs[0].isReversed == Some(1) then 1 else 0
  }

  lemma ReversedCons(t: Tx, txs: seq<Tx>, k: int)
    ensures ReversedCount(OfLoan([t] + txs, k))
         == ReversedCount(OfLoan(txs, k)) + if t.loanId == k && t.isReversed == Some(1) then 1 else 0
  {
    assert ([t] + txs)[1..] == txs;
    if t.loanId == k {
      assert OfLoan([t] + txs, k) == [t] + OfLoan(txs, k);
      assert ([t] + OfLoan(txs, k))[1..] == OfLoan(txs, k);
    } else {
      assert OfLoan([t] + txs, k) == OfLoan(txs, k);
    }
  }

  lemma {:induction false} LedgerNumbers(txs: seq<Tx>, k: int)
    ensures |OfLoan(txs, k)| == LedgerCount(txs, k)
    ensures ReversedCount(OfLoan(txs, k)) == ReversedOf(txs, k)
  {
    if txs != [] {
      LedgerNumbers(txs[1..], k);
      assert txs == [txs[0]] + txs[1..];
      OfLoanSize(txs[0], txs[1..], k);
      ReversedCons(txs[0], txs[1..], k);
    }
  }

  /** The measures of a row, from the ledger's columns alone: repayments are the loan's transactions of type 2 that are
      not reversed and disbursements those of type 1, counted and summed with a NULL amount as nothing; and
      all its transactions are counted, and the reversed among them. */
  lemma MeasuresInLedgerTerms(txs: seq<Tx>, i: nat)
    requires i < |Rollup(txs)|
    ensures
      var row := Rollup(txs)[i];
      && row.repaymentCount == StandingCount(txs, row.loanId, 2)
      && row.totalRepaid == StandingAmount(txs, row.loanId, 2)
      && row.disbursementCount == StandingCount(txs, row.loanId, 1)
      && row.totalDisbursed == StandingAmount(txs, row.loanId, 1)
      && row.transactions == LedgerCount(txs, row.loanId) && row.reversed == ReversedOf(txs, row.loanId)
  {
    var k := Rollup(txs)[i].loanId;
    MeasuresAreExact(txs, i);
    CountedStanding(txs, k, Repayment, 2);
    CountedStanding(txs, k, Disbursement, 1);
    LedgerNumbers(txs, k);
  }

  lemma {:induction false} DatesOf(txs: seq<Tx>, d: int)
    ensures d in Dates(txs) <==> exists t :: t in txs && t.date == d
  {
    if txs != [] {
      DatesOf(txs[1..], d);
      assert txs == [txs[0]] + txs[1..];
    }
  }

  /** First and last repayment date are those of the loan's standing repayments, and NULL without one. */
  lemma RepaymentDatesAre(txs: seq<Tx>, i: nat)
    requires i < |Rollup(txs)|
    ensures
      var row := Rollup(txs)[i];
      if exists t :: t in txs && t.loanId == row.loanId && Standing(t, 2) then
        && row.firstRepayment.Some? && row.lastRepayment.Some?
        && RepaidOn(txs, row.loanId, row.firstRepayment.value) && RepaidOn(txs, row.loanId, row.lastRepayment.value)
        && forall t :: t in txs && t.loanId == row.loanId && Standing(t, 2) ==>
             row.firstRepayment.value <= t.date <= row.lastRepayment.value
      else row.firstRepayment == None && row.lastRepayment == None
  {
    RowParts(txs, i);
    var k := Rollup(txs)[i].loanId;
    var repaid := OfLoan(Counted(txs, Repayment), k);
    RepaymentsFor(txs, Repayment, k);
    forall t ensures t in repaid <==> t in txs && t.loanId == k && Standing(t, 2) {
      OfLoanRows(Counted(txs, Repayment), k, t);
      CountedRows(txs, Repayment, t);
      CategoriesAre(t);
    }
    if repaid != [] {
      assert repaid[0] in repaid;
      DateExtremes(txs, k, repaid);
    }
  }

  ghost predicate RepaidOn(txs: seq<Tx>, k: int, d: int) {
    exists t :: t in txs && t.loanId == k && Standing(t, 2) && t.date == d
  }

  lemma DateExtremes(txs: seq<Tx>, k: int, repaid: seq<Tx>)
    requires repaid != [] && |Dates(repaid)| > 0
    requires forall t :: t in repaid <==> t in txs && t.loanId == k && Standing(t, 2)
    ensures RepaidOn(txs, k, MinOf(Dates(repaid))) && RepaidOn(txs, k, MaxOf(Dates(repaid)))
    ensures forall t :: t in repaid ==> MinOf(Dates(repaid)) <= t.date <= MaxOf(Dates(repaid))
  {
    ExtremesBound(Dates(repaid));
    DatesOf(repaid, MinOf(Dates(repaid)));
    DatesOf(repaid, MaxOf(Dates(repaid)));
    forall t | t in repaid ensures t.date in Dates(repaid) {
      DatesOf(repaid, t.date);
    }
  }

  lemma SumCons(t: Tx, txs: seq<Tx>)
    ensures Sum([t] + txs) == Sum(txs) + if t.amount.Some? then t.amount.value else 0
  {
    assert ([t] + txs)[1..] == txs;
  }

  /** One more ledger row changes what is repaid in all by its amount if it is a standing repayment, and not at all
      otherwise. */
  lemma OneMoreRowAdds(txs: seq<Tx>, t: Tx)
    ensures SumRepaid(Rollup([t] + txs))
         == SumRepaid(Rollup(txs)) + if Standing(t, 2) && t.amount.Some? then t.amount.value else 0
  {
    RollupConserves([t] + txs);
    RollupConserves(txs);
    CategoriesAre(t);
    CountedCons(t, txs, Repayment);
    SumCons(t, Counted(txs, Repayment));
  }
}
