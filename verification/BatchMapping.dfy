/** _map_and_validate (ingestion/fineract_ingest/pipeline.py) and payload_hash
    (ingestion/fineract_ingest/parsers.py).  The entity mapper and the digest are parameters: any mapper
    that may fail, any digest of the canonical material. */
module BatchMapping {
  import opened Wrappers
  import opened Validation

  /** An item the API returned: one dict() takes, as it does every object and a few others (an empty list or
      string, a list of pairs), or one it refuses. */
  datatype Raw = Taken(json: string) | Refused(json: string)

  /** Mapping exceptions are failures. */
  type Mapper = Raw -> Result<Record, string>

  type Digest = Record -> string

  const AUDIT: set<string> := {"_ingested_at", "_updated_at", "_payload_hash"}

  /** What payload_hash covers: every column but the audit ones.  Sorting the items makes the encoding a
      function of this map alone. */
  function Material(r: Record): Record {
    r - AUDIT
  }

  const SOURCE := "_source_system"
  const HASH := "_payload_hash"

  /** The mapped record with its source system and payload hash. */
  function Finish(digest: Digest, mapped: Record): (row: Record)
    ensures HASH in row && forall c :: !Private(c) ==> (c in row <==> c in mapped) && Get(row, c) == Get(mapped, c)
    ensures row[HASH] == Text(digest(Material(row)))
    ensures Get(row, "_source_system") == Text("fineract")
  {
    var sourced := mapped[SOURCE := Text("fineract")];
    var row := sourced[HASH := Text(digest(Material(sourced)))];
    assert Material(row) == Material(sourced);
    row
  }

  datatype Rejection = Rejection(sourceKey: Option<Value>, rule: Rule, payload: Raw)

  datatype Verdict = Reject(rejection: Rejection) | Land(key: Value, row: Record)

  /** What makes a record valid: it maps, to a key that is there and is no negative number, and unless it has no
      business column at all, one of them is not NULL. */
  ghost predicate Valid(pk: string, mapper: Mapper, raw: Raw) {
    && mapper(raw).Success?
    && var mapped := mapper(raw).value;
    && pk in mapped && mapped[pk] != Null && (mapped[pk].Int? ==> mapped[pk].n >= 0)
    && ((exists c :: c in mapped && c != pk && !("_" <= c)) ==>
          exists c :: c in mapped && c != pk && !("_" <= c) && mapped[c] != Null)
  }

  /** The rule an invalid record is rejected for: the first of the four it breaks. */
  ghost predicate RejectedFor(pk: string, mapper: Mapper, raw: Raw, rule: Rule) {
    !Valid(pk, mapper, raw) &&
    if mapper(raw).Failure? then rule == MapperException
    else if pk !in mapper(raw).value || mapper(raw).value[pk] == Null then rule == PrimaryKeyNotNull
    else if mapper(raw).value[pk].Int? && mapper(raw).value[pk].n < 0 then rule == PrimaryKeyPositive
    else rule == RecordNotEmpty
  }

  lemma PrivateIff(c: string)
    ensures Private(c) <==> "_" <= c
  {
  }

  /** Validation in terms of the record. */
  lemma ValidIff(pk: string, mapper: Mapper, raw: Raw)
    ensures Valid(pk, mapper, raw) <==> mapper(raw).Success? && ValidateRecord(pk, mapper(raw).value).None?
    ensures mapper(raw).Success? && ValidateRecord(pk, mapper(raw).value).Some? ==>
              RejectedFor(pk, mapper, raw, ValidateRecord(pk, mapper(raw).value).value)
  {
    forall c: string ensures Private(c) <==> "_" <= c {
      PrivateIff(c);
    }
  }

  /** The body of the loop of _map_and_validate up to the duplicate check: valid records land under their key, with
      the mapped columns; any other is rejected for the first rule it breaks, under its key if it has one. */
  function JudgeRecord(pk: string, mapper: Mapper, digest: Digest, raw: Raw): (v: Verdict)
    ensures v.Land? <==> Valid(pk, mapper, raw)
    ensures v.Land? ==> v.key == Get(mapper(raw).value, pk)
    ensures v.Land? && !Private(pk) ==> !v.key.Null? && Get(v.row, pk) == v.key && HASH in v.row
    ensures v.Land? ==> forall c :: !("_" <= c) ==> Get(v.row, c) == Get(mapper(raw).value, c)
    ensures v.Reject? ==> v.rejection.payload == raw && RejectedFor(pk, mapper, raw, v.rejection.rule)
    ensures v.Reject? ==>
              if v.rejection.rule == MapperException || v.rejection.rule == PrimaryKeyNotNull
              then v.rejection.sourceKey == None
              else v.rejection.sourceKey == Some(Get(mapper(raw).value, pk))
  {
    ValidIff(pk, mapper, raw);
    assert forall c: string :: Private(c) <==> "_" <= c by {
      forall c: string { PrivateIff(c); }
    }
    match mapper(raw)
    case Failure(_) => Reject(Rejection(None, MapperException, raw))
    case Success(mapped) =>
      match ValidateRecord(pk, mapped)
      case Some(rule) =>
        Reject(Rejection(if rule == PrimaryKeyNotNull then None else Some(Get(mapped, pk)), rule, raw))
      case None => Land(mapped[pk], Finish(digest, mapped))
  }

  type Judge = Raw -> Verdict

  /** A judge never lands a record without its key. */
  ghost predicate KeepsKeys(pk: string, judge: Judge) {
    forall raw :: judge(raw).Land? ==> !judge(raw).key.Null? && Get(judge(raw).row, pk) == judge(raw).key
  }

  function JudgeOf(pk: string, mapper: Mapper, digest: Digest): (judge: Judge)
    requires !Private(pk)
    ensures KeepsKeys(pk, judge)
    ensures forall raw :: judge(raw) == JudgeRecord(pk, mapper, digest, raw)
  {
    raw => JudgeRecord(pk, mapper, digest, raw)
  }

  function Verdicts(judge: Judge, raws: seq<Raw>): (vs: seq<Verdict>)
    ensures |vs| == |raws| && forall i :: 0 <= i < |raws| ==> vs[i] == judge(raws[i])
  {
    if raws == [] then [] else Verdicts(judge, raws[..|raws| - 1]) + [judge(raws[|raws| - 1])]
  }

  // ---------------------------------------------------------------------------------------------
  // Last write wins
  // ---------------------------------------------------------------------------------------------

  /** Among the first n records, record i lands and no later one lands with its key. */
  ghost predicate LastOfKey(vs: seq<Verdict>, n: nat, i: nat)
    requires n <= |vs|
  {
    i < n && vs[i].Land? && forall j :: i < j < n && vs[j].Land? ==> vs[j].key != vs[i].key
  }

  ghost predicate Increasing(kept: seq<nat>) {
    forall i, j :: 0 <= i < j < |kept| ==> kept[i] < kept[j]
  }

  /** `kept` lists, in order, exactly the records that are the last of their key. */
  ghost predicate Survivors(vs: seq<Verdict>, n: nat, kept: seq<nat>)
    requires n <= |vs|
  {
    Increasing(kept) && forall i: nat :: i in kept <==> LastOfKey(vs, n, i)
  }

  ghost predicate RowsOf(vs: seq<Verdict>, kept: seq<nat>, rows: seq<Record>) {
    && |rows| == |kept|
    && forall i :: 0 <= i < |kept| ==> kept[i] < |vs| && vs[kept[i]].Land? && rows[i] == vs[kept[i]].row
  }

  function Rejections(vs: seq<Verdict>, n: nat): seq<Rejection>
    requires n <= |vs|
  {
    if n == 0 then []
    else Rejections(vs, n - 1) + match vs[n - 1] case Reject(r) => [r] case Land(_, _) => []
  }

  /** Drops the rows of the key, as the list comprehension over mapped_rows does. */
  method DropKey(pk: string, rows: seq<Record>, key: Value, ghost kept: seq<nat>, ghost vs: seq<Verdict>)
    returns (left: seq<Record>, ghost leftKept: seq<nat>)
    requires RowsOf(vs, kept, rows) && Increasing(kept)
    requires forall i :: 0 <= i < |kept| ==> Get(rows[i], pk) == vs[kept[i]].key
    ensures RowsOf(vs, leftKept, left) && Increasing(leftKept)
    ensures forall i :: 0 <= i < |leftKept| ==> Get(left[i], pk) == vs[leftKept[i]].key
    ensures forall i: nat :: i in leftKept <==> i in kept && vs[i].key != key
  {
    left, leftKept := [], [];
    for n := 0 to |rows|
      invariant RowsOf(vs, leftKept, left) && Increasing(leftKept)
      invariant forall i :: 0 <= i < |leftKept| ==> Get(left[i], pk) == vs[leftKept[i]].key
      invariant forall i: nat :: i in leftKept <==> i in kept[..n] && vs[i].key != key
    {
      assert kept[..n + 1] == kept[..n] + [kept[n]];
      if Get(rows[n], pk) != key {
        assert forall i: nat :: i in leftKept ==> i < kept[n];
        left, leftKept := left + [rows[n]], leftKept + [kept[n]];
      }
    }
    assert kept[..|rows|] == kept;
  }

  /** The valid records, by position. */
  ghost function ValidAt(pk: string, mapper: Mapper, raws: seq<Raw>): set<nat> {
    set i: nat | i < |raws| && Valid(pk, mapper, raws[i])
  }

  /** What each record maps to. */
  ghost function MappedAt(mapper: Mapper, raws: seq<Raw>): (ms: seq<Result<Record, string>>)
    ensures |ms| == |raws| && forall i :: 0 <= i < |raws| ==> ms[i] == mapper(raws[i])
  {
    seq(|raws|, i requires 0 <= i < |raws| => mapper(raws[i]))
  }

  ghost function KeyIn(pk: string, mapped: Result<Record, string>): Value {
    if mapped.Success? then Get(mapped.value, pk) else Null
  }

  /** Of the positions in `at`, i is the last with its key. */
  ghost predicate LastAmong(at: set<nat>, pk: string, ms: seq<Result<Record, string>>, i: nat) {
    i in at && i < |ms| && forall j :: i < j < |ms| && j in at ==> KeyIn(pk, ms[j]) != KeyIn(pk, ms[i])
  }

  /** The row has the mapped values in every column that is not private. */
  ghost predicate RowCarries(row: Record, mapped: Result<Record, string>) {
    mapped.Success? && forall c :: !("_" <= c) ==> Get(row, c) == Get(mapped.value, c)
  }

  /** `kept` lists, in order, the last position of each key, and the rows are what was mapped there. */
  ghost predicate KeepsLast(
      at: set<nat>, pk: string, ms: seq<Result<Record, string>>, kept: seq<nat>, rows: seq<Record>)
  {
    && Increasing(kept) && (forall i: nat :: i in kept <==> LastAmong(at, pk, ms, i))
    && |rows| == |kept| && forall p :: 0 <= p < |kept| ==> kept[p] < |ms| && RowCarries(rows[p], ms[kept[p]])
  }

  /** The rows are those of the last valid record of each key, in order. */
  ghost predicate KeepsLastValid(pk: string, mapper: Mapper, raws: seq<Raw>, kept: seq<nat>, rows: seq<Record>) {
    KeepsLast(ValidAt(pk, mapper, raws), pk, MappedAt(mapper, raws), kept, rows)
  }

  /** `at` lists the records that are not valid, in order, and these are quarantined with payload and rule. */
  ghost predicate Quarantines(pk: string, mapper: Mapper, raws: seq<Raw>, at: seq<nat>, rejects: seq<Rejection>) {
    && Increasing(at) && (forall i: nat :: i in at <==> i < |raws| && i !in ValidAt(pk, mapper, raws))
    && |rejects| == |at|
    && forall p :: 0 <= p < |at| ==>
         at[p] < |raws| && rejects[p].payload == raws[at[p]] && RejectedFor(pk, mapper, raws[at[p]], rejects[p].rule)
  }

  /** What the loop body makes of record i. */
  lemma VerdictAt(pk: string, mapper: Mapper, digest: Digest, raws: seq<Raw>, i: nat)
    requires !Private(pk) && i < |raws|
    ensures
      var v := Verdicts(JudgeOf(pk, mapper, digest), raws)[i];
      && (v.Land? <==> i in ValidAt(pk, mapper, raws))
      && (v.Land? ==> v.key == KeyIn(pk, mapper(raws[i])) && RowCarries(v.row, mapper(raws[i])))
      && (v.Reject? ==> v.rejection.payload == raws[i] && RejectedFor(pk, mapper, raws[i], v.rejection.rule))
  {
    assert Verdicts(JudgeOf(pk, mapper, digest), raws)[i] == JudgeRecord(pk, mapper, digest, raws[i]);
  }

  /** The verdict of a record that lands. */
  ghost predicate LandsAs(v: Verdict, pk: string, mapped: Result<Record, string>) {
    v.Land? && v.key == KeyIn(pk, mapped) && RowCarries(v.row, mapped)
  }

  lemma SurvivorsByPosition(
      vs: seq<Verdict>, kept: seq<nat>, rows: seq<Record>, at: set<nat>, pk: string, ms: seq<Result<Record, string>>)
    requires Survivors(vs, |vs|, kept) && RowsOf(vs, kept, rows) && LandAt(vs, at, pk, ms)
    ensures KeepsLast(at, pk, ms, kept, rows)
  {
    forall i: nat ensures LastOfKey(vs, |vs|, i) <==> LastAmong(at, pk, ms, i) {
    }
  }

  /** Which verdicts land, and how. */
  ghost predicate LandAt(vs: seq<Verdict>, at: set<nat>, pk: string, ms: seq<Result<Record, string>>) {
    && |ms| == |vs|
    && (forall i: nat :: i in at <==> i < |vs| && vs[i].Land?)
    && (forall i: nat :: i < |vs| && vs[i].Land? ==> LandsAs(vs[i], pk, ms[i]))
  }

  lemma VerdictsLandAt(pk: string, mapper: Mapper, digest: Digest, raws: seq<Raw>)
    requires !Private(pk)
    ensures LandAt(Verdicts(JudgeOf(pk, mapper, digest), raws), ValidAt(pk, mapper, raws), pk, MappedAt(mapper, raws))
  {
    var vs := Verdicts(JudgeOf(pk, mapper, digest), raws);
    forall i: nat | i < |raws|
      ensures vs[i].Land? <==> i in ValidAt(pk, mapper, raws)
      ensures vs[i].Land? ==> LandsAs(vs[i], pk, MappedAt(mapper, raws)[i])
    {
      VerdictAt(pk, mapper, digest, raws, i);
    }
  }

  lemma SurvivorsAreLastValid(
      pk: string, mapper: Mapper, digest: Digest, raws: seq<Raw>, kept: seq<nat>, rows: seq<Record>)
    requires !Private(pk)
    requires
      var vs := Verdicts(JudgeOf(pk, mapper, digest), raws);
      Survivors(vs, |raws|, kept) && RowsOf(vs, kept, rows)
    ensures KeepsLastValid(pk, mapper, raws, kept, rows)
  {
    VerdictsLandAt(pk, mapper, digest, raws);
    SurvivorsByPosition(Verdicts(JudgeOf(pk, mapper, digest), raws), kept, rows, ValidAt(pk, mapper, raws), pk,
                        MappedAt(mapper, raws));
  }

  lemma IncreasingPush(kept: seq<nat>, n: nat)
    requires Increasing(kept) && forall i: nat :: i in kept ==> i < n
    ensures Increasing(kept + [n])
    ensures forall i: nat :: i in kept + [n] <==> i in kept || i == n
  {
    assert forall p :: 0 <= p < |kept| ==> kept[p] in kept;
  }

  /** `at` lists the rejected among the first n verdicts, and these are the rejections. */
  ghost predicate RejectsAt(vs: seq<Verdict>, n: nat, at: seq<nat>, rejects: seq<Rejection>)
    requires n <= |vs|
  {
    && Increasing(at) && (forall i: nat :: i in at <==> i < n && vs[i].Reject?)
    && |at| == |rejects| && forall p :: 0 <= p < |at| ==> IsRejection(vs, at[p], rejects[p])
  }

  ghost predicate IsRejection(vs: seq<Verdict>, i: nat, rejection: Rejection) {
    i < |vs| && vs[i] == Reject(rejection)
  }

  lemma RejectsPush(vs: seq<Verdict>, n: nat, at: seq<nat>, rejects: seq<Rejection>)
    requires n < |vs| && RejectsAt(vs, n, at, rejects) && vs[n].Reject?
    ensures RejectsAt(vs, n + 1, at + [n], rejects + [vs[n].rejection])
  {
    var more, all := at + [n], rejects + [vs[n].rejection];
    IncreasingPush(at, n);
    forall p | 0 <= p < |more| ensures IsRejection(vs, more[p], all[p]) {
      if p < |at| {
        assert IsRejection(vs, at[p], rejects[p]);
      }
    }
  }

  lemma {:induction false} RejectionsByPosition(vs: seq<Verdict>, n: nat) returns (at: seq<nat>)
    requires n <= |vs|
    ensures RejectsAt(vs, n, at, Rejections(vs, n))
  {
    if n == 0 {
      at := [];
    } else {
      at := RejectionsByPosition(vs, n - 1);
      if vs[n - 1].Reject? {
        RejectsPush(vs, n - 1, at, Rejections(vs, n - 1));
        at := at + [n - 1];
      } else {
        assert Rejections(vs, n) == Rejections(vs, n - 1);
      }
    }
  }

  lemma RejectionsAreInvalid(pk: string, mapper: Mapper, digest: Digest, raws: seq<Raw>) returns (at: seq<nat>)
    requires !Private(pk)
    ensures Quarantines(pk, mapper, raws, at, Rejections(Verdicts(JudgeOf(pk, mapper, digest), raws), |raws|))
  {
    var vs := Verdicts(JudgeOf(pk, mapper, digest), raws);
    at := RejectionsByPosition(vs, |raws|);
    forall i: nat | i < |raws| ensures vs[i].Reject? <==> i !in ValidAt(pk, mapper, raws) {
      VerdictAt(pk, mapper, digest, raws, i);
    }
    var rejects := Rejections(vs, |raws|);
    forall p | 0 <= p < |at|
      ensures rejects[p].payload == raws[at[p]] && RejectedFor(pk, mapper, raws[at[p]], rejects[p].rule)
    {
      assert IsRejection(vs, at[p], rejects[p]);
      VerdictAt(pk, mapper, digest, raws, at[p]);
    }
  }

  /** _map_and_validate: quarantines what is not valid, and keeps each key's last valid record, in order
      of last occurrence. */
  method MapAndValidate(pk: string, mapper: Mapper, digest: Digest, raws: seq<Raw>)
    returns (rows: seq<Record>, rejects: seq<Rejection>)
    requires !Private(pk)
    ensures
      var vs := Verdicts(JudgeOf(pk, mapper, digest), raws);
      Keyed(pk, vs) && exists kept :: Survivors(vs, |raws|, kept) && RowsOf(vs, kept, rows)
    ensures rejects == Rejections(Verdicts(JudgeOf(pk, mapper, digest), raws), |raws|)
    ensures exists kept :: KeepsLastValid(pk, mapper, raws, kept, rows)
    ensures exists at :: Quarantines(pk, mapper, raws, at, rejects)
  {
    ghost var kept;
    rows, rejects, kept := Accumulate(pk, JudgeOf(pk, mapper, digest), raws);
    SurvivorsAreLastValid(pk, mapper, digest, raws, kept, rows);
    ghost var at := RejectionsAreInvalid(pk, mapper, digest, raws);
  }

  method Accumulate(pk: string, judge: Judge, raws: seq<Raw>)
    returns (rows: seq<Record>, rejects: seq<Rejection>, ghost kept: seq<nat>)
    requires KeepsKeys(pk, judge)
    ensures Keyed(pk, Verdicts(judge, raws))
    ensures Survivors(Verdicts(judge, raws), |raws|, kept)
    ensures RowsOf(Verdicts(judge, raws), kept, rows)
    ensures rejects == Rejections(Verdicts(judge, raws), |raws|)
  {
    ghost var vs := Verdicts(judge, raws);
    var seen: set<Value> := {};
    rows, rejects, kept := [], [], [];
    for n := 0 to |raws|
      invariant Batch(pk, vs, n, rows, seen, kept)
      invariant rejects == Rejections(vs, n)
    {
      var v := judge(raws[n]);
      if v.Reject? {
        rejects := rejects + [v.rejection];
        KeepOnReject(pk, vs, n, rows, seen, kept);
      } else {
        rows, seen, kept := LandRow(pk, v, rows, seen, n, kept, vs);
      }
    }
  }

  /** What the loop of _map_and_validate knows after n records. */
  ghost predicate Batch(pk: string, vs: seq<Verdict>, n: nat, rows: seq<Record>, seen: set<Value>, kept: seq<nat>)
    requires n <= |vs|
  {
    && Survivors(vs, n, kept)
    && RowsOf(vs, kept, rows)
    && (forall i :: 0 <= i < |kept| ==> Get(rows[i], pk) == vs[kept[i]].key)
    && (forall i :: 0 <= i < n && vs[i].Land? ==> vs[i].key in seen)
  }

  /** The landing half of the loop body: drop the key's earlier row if the key was seen, then append. */
  method LandRow(
      pk: string, v: Verdict, rows: seq<Record>, seen: set<Value>, ghost n: nat, ghost kept: seq<nat>,
      ghost vs: seq<Verdict>)
    returns (rows': seq<Record>, seen': set<Value>, ghost kept': seq<nat>)
    requires n < |vs| && v == vs[n] && v.Land? && Get(v.row, pk) == v.key
    requires Batch(pk, vs, n, rows, seen, kept)
    ensures Batch(pk, vs, n + 1, rows', seen', kept')
  {
    var left;
    ghost var leftKept;
    if v.key in seen {
      left, leftKept := DropKey(pk, rows, v.key, kept, vs);
    } else {
      left, leftKept := rows, kept;
      forall i: nat | i in kept ensures vs[i].key != v.key {
        assert LastOfKey(vs, n, i);
      }
    }
    KeepOnLand(vs, n, kept, leftKept);
    return left + [v.row], seen + {v.key}, leftKept + [n];
  }

  lemma KeepOnReject(pk: string, vs: seq<Verdict>, n: nat, rows: seq<Record>, seen: set<Value>, kept: seq<nat>)
    requires n < |vs| && vs[n].Reject? && Batch(pk, vs, n, rows, seen, kept)
    ensures Batch(pk, vs, n + 1, rows, seen, kept)
  {
    forall i: nat ensures LastOfKey(vs, n, i) <==> LastOfKey(vs, n + 1, i) {
    }
  }

  lemma KeepOnLand(vs: seq<Verdict>, n: nat, before: seq<nat>, after: seq<nat>)
    requires n < |vs| && vs[n].Land? && Survivors(vs, n, before) && Increasing(after)
    requires forall i: nat :: i in after <==> i in before && vs[i].key != vs[n].key
    ensures Survivors(vs, n + 1, after + [n])
  {
    forall i: nat | i in after ensures i < n {
      assert LastOfKey(vs, n, i);
    }
    forall i: nat ensures i in after + [n] <==> LastOfKey(vs, n + 1, i) {
      assert i in after ==> LastOfKey(vs, n, i);
      assert LastOfKey(vs, n + 1, i) && i < n ==> LastOfKey(vs, n, i);
    }
    assert forall j :: 0 <= j < |after| ==> after[j] in after;
  }

  // ---------------------------------------------------------------------------------------------
  // What the batch satisfies
  // ---------------------------------------------------------------------------------------------

  /** Landed verdicts carry the key their row holds. */
  ghost predicate Keyed(pk: string, vs: seq<Verdict>) {
    forall i :: 0 <= i < |vs| && vs[i].Land? ==> !vs[i].key.Null? && Get(vs[i].row, pk) == vs[i].key
  }

  /** The batch is unique on its key, and holds for each landing record's key the row of the last record
      that landed with it. */
  lemma BatchIsLastWriteWins(pk: string, vs: seq<Verdict>, rows: seq<Record>, kept: seq<nat>, i: nat)
    requires Keyed(pk, vs) && Survivors(vs, |vs|, kept) && RowsOf(vs, kept, rows)
    ensures ColumnUnique(rows, pk)
    ensures
      i < |vs| && vs[i].Land? ==>
        exists p: nat, j: nat :: p < |rows| && i <= j && LastOfKey(vs, |vs|, j)
          && vs[j].key == vs[i].key && rows[p] == vs[j].row && Get(rows[p], pk) == vs[i].key
  {
    forall a, b | 0 <= a < b < |rows| ensures Get(rows[a], pk) != Get(rows[b], pk) {
      assert LastOfKey(vs, |vs|, kept[a]) by { assert kept[a] in kept; }
      assert LastOfKey(vs, |vs|, kept[b]) by { assert kept[b] in kept; }
    }
    if i < |vs| && vs[i].Land? {
      var j := i;
      for m := i + 1 to |vs|
        invariant i <= j < m <= |vs| && vs[j].Land? && vs[j].key == vs[i].key
        invariant forall x :: j < x < m && vs[x].Land? ==> vs[x].key != vs[i].key
      {
        if vs[m].Land? && vs[m].key == vs[i].key {
          j := m;
        }
      }
      assert LastOfKey(vs, |vs|, j);
      assert j in kept;
      var p :| 0 <= p < |kept| && kept[p] == j;
      assert rows[p] == vs[j].row;
    }
  }

  /** Records that landed but were overtaken by a later one of their key. */
  ghost function Superseded(vs: seq<Verdict>, n: nat): set<nat>
    requires n <= |vs|
  {
    set i: nat | i < n && vs[i].Land? && !LastOfKey(vs, n, i)
  }

  ghost function Landed(vs: seq<Verdict>, n: nat): set<nat>
    requires n <= |vs|
  {
    set i: nat | i < n && vs[i].Land?
  }

  lemma {:induction false} LandedCount(vs: seq<Verdict>, n: nat)
    requires n <= |vs|
    ensures |Landed(vs, n)| + |Rejections(vs, n)| == n
  {
    if n > 0 {
      LandedCount(vs, n - 1);
      assert Landed(vs, n) == Landed(vs, n - 1) + if vs[n - 1].Land? then {n - 1} else {};
    } else {
      assert Landed(vs, n) == {};
    }
  }

  ghost function SetOf(kept: seq<nat>): set<nat> {
    set i: nat | i in kept
  }

  lemma {:induction false} IncreasingSize(kept: seq<nat>)
    requires Increasing(kept)
    ensures |SetOf(kept)| == |kept|
  {
    if kept != [] {
      var init, x := kept[..|kept| - 1], kept[|kept| - 1];
      IncreasingSize(init);
      assert kept == init + [x];
      assert x !in init;
      assert SetOf(kept) == SetOf(init) + {x};
    }
  }

  /** Nothing vanishes: every raw record is a reject, a row, or superseded by a later one of its key. */
  lemma RecordsAreConserved(vs: seq<Verdict>, kept: seq<nat>)
    requires Survivors(vs, |vs|, kept)
    ensures |vs| == |Rejections(vs, |vs|)| + |kept| + |Superseded(vs, |vs|)|
  {
    var rows := SetOf(kept);
    LandedCount(vs, |vs|);
    IncreasingSize(kept);
    forall i: nat ensures i in rows <==> i in Landed(vs, |vs|) && i !in Superseded(vs, |vs|) {
      assert i in kept <==> LastOfKey(vs, |vs|, i);
    }
    assert Landed(vs, |vs|) == rows + Superseded(vs, |vs|);
    assert |Landed(vs, |vs|)| == |rows| + |Superseded(vs, |vs|)|;
  }

  /** not_null and unique on the primary key can never block a batch that came out of the mapping. */
  lemma KeyChecksNeverBlock(pk: string, vs: seq<Verdict>, rows: seq<Record>, kept: seq<nat>, e: Expectation)
    requires Keyed(pk, vs) && Survivors(vs, |vs|, kept) && RowsOf(vs, kept, rows)
    requires (e.kind.NotNull? || e.kind.Unique?) && e.columns == [pk]
    ensures !ResultOf(e, rows).IsBlockingFailure()
  {
    ExpectationPassesIff(e, rows);
    BatchIsLastWriteWins(pk, vs, rows, kept, 0);
    forall p | 0 <= p < |rows| ensures !Get(rows[p], pk).Null? {
      assert kept[p] < |vs|;
    }
    assert ColumnHolds(e, rows, pk);
  }

  // ---------------------------------------------------------------------------------------------
  // payload_hash
  // ---------------------------------------------------------------------------------------------

  /** The digest does not collide on these two.  No digest tells all records apart: what rests on hashes holds
      exactly as far as it tells apart the pairs that are compared. */
  ghost predicate Apart(digest: Digest, a: Record, b: Record) {
    digest(a) == digest(b) ==> a == b
  }

  /** What the digest is taken of: two records have the same material exactly when they agree on every column other
      than the two timestamps and the hash. */
  lemma MaterialIff(a: Record, b: Record)
    ensures Material(a) == Material(b) <==>
              forall c :: c != "_ingested_at" && c != "_updated_at" && c != "_payload_hash" ==>
                (c in a <==> c in b) && (c in a ==> a[c] == b[c])
  {
    if forall c :: c != "_ingested_at" && c != "_updated_at" && c != "_payload_hash" ==>
         (c in a <==> c in b) && (c in a ==> a[c] == b[c])
    {
      assert Material(a).Keys == Material(b).Keys;
      assert Material(a) == Material(b);
    }
    if Material(a) == Material(b) {
      forall c | c != "_ingested_at" && c != "_updated_at" && c != "_payload_hash"
        ensures (c in a <==> c in b) && (c in a ==> a[c] == b[c])
      {
        assert c in a <==> c in Material(a);
        assert c in b <==> c in Material(b);
      }
    }
  }

  /** Two finished rows that agree on every column but the audit ones carry the same hash, so the audit
      timestamps never count as a change; and only such rows do, exactly if the digest tells the two apart. */
  lemma SameHashIff(digest: Digest, a: Record, b: Record)
    ensures
      var x, y := Finish(digest, a), Finish(digest, b);
      && (Material(x) == Material(y) ==> x[HASH] == y[HASH])
      && ((x[HASH] == y[HASH] <==> Material(x) == Material(y)) <==> Apart(digest, Material(x), Material(y)))
  {
  }
}
