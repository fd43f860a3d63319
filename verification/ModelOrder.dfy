/** Build order of the dbt models (scripts/validate_dbt_sql.py, topological_order): a depth-first search that
    mutates `ordered`, `seen` and `visiting`, and raises on a circular ref. */
module ModelOrder {
  import opened Wrappers

  /** Model name to the names it refs; refs to unknown names are ignored. */
  type Models = map<string, set<string>>

  predicate Edge(models: Models, a: string, b: string) {
    a in models && b in models && b in models[a]
  }

  /** A walk along refs between known models. */
  ghost predicate IsPath(models: Models, p: seq<string>) {
    && (forall i :: 0 <= i < |p| ==> p[i] in models)
    && (forall i :: 0 < i < |p| ==> Link(models, p, i))
  }

  ghost predicate Link(models: Models, p: seq<string>, i: int)
    requires 0 < i < |p|
  {
    Edge(models, p[i - 1], p[i])
  }

  ghost predicate IsCycle(models: Models, p: seq<string>) {
    |p| >= 2 && p[0] == p[|p| - 1] && IsPath(models, p)
  }

  ghost predicate HasCycleAt(models: Models, name: string) {
    exists p :: IsCycle(models, p) && p[0] == name
  }

  /** Every known ref of a listed model is listed before it. */
  ghost predicate DependenciesFirst(models: Models, ordered: seq<string>) {
    forall i, d :: 0 <= i < |ordered| && Edge(models, ordered[i], d) ==> d in ordered[..i]
  }

  ghost predicate Distinct(s: seq<string>) {
    forall i, j :: 0 <= i < j < |s| ==> s[i] != s[j]
  }

  // ---------------------------------------------------------------------------------------------
  // sorted()
  // ---------------------------------------------------------------------------------------------

  predicate Before(a: string, b: string) {
    a == "" || (b != "" && (a[0] < b[0] || (a[0] == b[0] && Before(a[1..], b[1..]))))
  }

  lemma {:induction false} BeforeIsTotal(a: string, b: string)
    ensures Before(a, b) || Before(b, a)
  {
    if a != "" && b != "" && a[0] == b[0] {
      BeforeIsTotal(a[1..], b[1..]);
    }
  }

  lemma {:induction false} BeforeIsTransitive(a: string, b: string, c: string)
    requires Before(a, b) && Before(b, c)
    ensures Before(a, c)
  {
    if a != "" && a[0] == b[0] && b[0] == c[0] {
      BeforeIsTransitive(a[1..], b[1..], c[1..]);
    }
  }

  /** a and b first differ at i, where a has the smaller character. */
  ghost predicate LessAt(a: string, b: string, i: nat) {
    i < |a| && i < |b| && a[..i] == b[..i] && a[i] < b[i]
  }

  lemma LessAtTail(a: string, b: string, i: nat)
    requires a != "" && b != "" && a[0] == b[0]
    ensures LessAt(a, b, i + 1) <==> LessAt(a[1..], b[1..], i)
  {
    if i + 1 < |a| && i + 1 < |b| {
      assert a[..i + 1] == [a[0]] + a[1..][..i] && b[..i + 1] == [b[0]] + b[1..][..i];
      assert a[..i + 1][1..] == a[1..][..i] && b[..i + 1][1..] == b[1..][..i];
    }
  }

  lemma SameHeadIfLater(a: string, b: string)
    ensures forall i: nat :: i > 0 && LessAt(a, b, i) ==> a[0] == b[0]
  {
    forall i: nat | i > 0 && LessAt(a, b, i) ensures a[0] == b[0] {
      assert a[..i][0] == a[0] && b[..i][0] == b[0];
    }
  }

  lemma PrefixTail(a: string, b: string)
    requires a != "" && b != "" && a[0] == b[0]
    ensures a <= b <==> a[1..] <= b[1..]
  {
    assert a == [a[0]] + a[1..] && b == [b[0]] + b[1..];
  }

  /** The order of sorted(): a prefix comes first, and otherwise the first difference decides. */
  lemma {:induction false} BeforeIsLexicographic(a: string, b: string)
    ensures Before(a, b) <==> a <= b || exists i: nat :: LessAt(a, b, i)
  {
    if a != "" && b != "" {
      if a[0] == b[0] {
        BeforeIsLexicographic(a[1..], b[1..]);
        PrefixTail(a, b);
        if i: nat :| LessAt(a, b, i) {
          LessAtTail(a, b, i - 1);
        }
        if i: nat :| LessAt(a[1..], b[1..], i) {
          LessAtTail(a, b, i);
        }
      } else {
        assert a[..0] == b[..0] && (LessAt(a, b, 0) <==> a[0] < b[0]);
        SameHeadIfLater(a, b);
      }
    }
  }

  ghost predicate Ascending(s: seq<string>) {
    forall i, j :: 0 <= i < j < |s| ==> Before(s[i], s[j])
  }

  /** s lists, in order, the names taken so far; all others come after them. */
  ghost predicate Taken(names: set<string>, s: seq<string>, rest: set<string>) {
    && Elements(s) + rest == names && Elements(s) !! rest && Distinct(s) && Ascending(s)
    && forall x, y :: x in Elements(s) && y in rest ==> Before(x, y)
  }

  lemma TakeNext(names: set<string>, s: seq<string>, rest: set<string>, m: string)
    requires Taken(names, s, rest) && m in rest && forall x :: x in rest ==> Before(m, x)
    ensures Taken(names, s + [m], rest - {m})
  {
    assert Elements(s + [m]) == Elements(s) + {m};
    assert forall i :: 0 <= i < |s| ==> s[i] in Elements(s);
  }

  method Sorted(names: set<string>) returns (s: seq<string>)
    ensures Elements(s) == names && Distinct(s) && Ascending(s)
  {
    s := [];
    var rest := names;
    while rest != {}
      invariant Taken(names, s, rest)
      decreases |rest|
    {
      var m := Minimum(rest);
      TakeNext(names, s, rest, m);
      s, rest := s + [m], rest - {m};
    }
  }

  method Minimum(names: set<string>) returns (m: string)
    requires names != {}
    ensures m in names && forall x :: x in names ==> Before(m, x)
  {
    m :| m in names;
    BeforeIsTotal(m, m);
    var left, looked := names - {m}, {m};
    while left != {}
      invariant looked + left == names && m in looked
      invariant forall x :: x in looked ==> Before(m, x)
      decreases |left|
    {
      var x :| x in left;
      BeforeIsTotal(m, x);
      BeforeIsTotal(x, x);
      if !Before(m, x) {
        forall y | y in looked ensures Before(x, y) {
          BeforeIsTransitive(x, m, y);
        }
        m := x;
      }
      left, looked := left - {x}, looked + {x};
    }
  }

  // ---------------------------------------------------------------------------------------------
  // The search
  // ---------------------------------------------------------------------------------------------

  class Search {
    const models: Models
    var ordered: seq<string>
    var seen: set<string>
    var visiting: set<string>
    ghost var stack: seq<string>

    ghost predicate Valid()
      reads this
    {
      && Elements(stack) == visiting && Distinct(stack) && IsPath(models, stack)
      && Elements(ordered) == seen && Distinct(ordered) && DependenciesFirst(models, ordered)
      && visiting <= models.Keys && seen <= models.Keys && seen !! visiting
    }

    constructor (models: Models)
      ensures Valid() && this.models == models && ordered == [] && stack == []
    {
      this.models := models;
      ordered, seen, visiting, stack := [], {}, {}, [];
    }

    /** visiting.add(name) */
    method Enter(name: string)
      requires Valid() && name in models && name !in seen && name !in visiting
      requires stack != [] ==> Edge(models, stack[|stack| - 1], name)
      modifies this`visiting, this`stack
      ensures Valid() && stack == old(stack) + [name] && visiting == old(visiting) + {name}
      ensures |models.Keys - visiting| < |models.Keys - old(visiting)|
    {
      PushPath(models, stack, name);
      LessLeft(models.Keys, visiting, name);
      visiting, stack := visiting + {name}, stack + [name];
    }

    /** visiting.discard(name); seen.add(name); ordered.append(models[name]) */
    method Leave(name: string, ghost refs: seq<string>, ghost before: seq<string>)
      requires Valid() && stack == before + [name] && name in models && Elements(refs) == models[name]
      requires forall j :: 0 <= j < |refs| && refs[j] in models ==> refs[j] in seen
      modifies this
      ensures Valid() && stack == before && visiting == old(visiting) - {name}
      ensures ordered == old(ordered) + [name]
    {
      Finish(models, refs, name, ordered, seen);
      PopPath(models, before, name);
      visiting, stack := visiting - {name}, before;
      seen, ordered := seen + {name}, ordered + [name];
    }

    /** visit: Failure names a model on a circular ref. */
    method Visit(name: string) returns (r: Result<(), string>)
      requires Valid()
      requires stack != [] && name in models ==> Edge(models, stack[|stack| - 1], name)
      modifies this
      ensures r.Success? ==> Valid() && stack == old(stack) && visiting == old(visiting)
      ensures r.Success? ==> old(ordered) <= ordered && (name in models ==> name in seen)
      ensures r.Failure? ==> HasCycleAt(models, r.error)
      decreases |models.Keys - visiting|, 0, 0
    {
      if name in seen || name !in models {
        return Success(());
      }
      if name in visiting {
        BackEdge(models, stack, name);
        return Failure(name);
      }
      ghost var path, busy := stack, visiting;
      Enter(name);
      var refs := Sorted(models[name]);
      assert forall j :: 0 <= j < |refs| ==> refs[j] in Elements(refs);
      r := VisitAll(refs);
      if r.Success? {
        Leave(name, refs, path);
        assert visiting == busy;
      }
    }

    /** Visits the names in turn, stopping at the first circular ref. */
    method VisitAll(names: seq<string>) returns (r: Result<(), string>)
      requires Valid()
      requires stack != [] ==>
                 forall j :: 0 <= j < |names| && names[j] in models ==> Edge(models, stack[|stack| - 1], names[j])
      modifies this
      ensures r.Success? ==> Valid() && stack == old(stack) && visiting == old(visiting)
      ensures r.Success? ==> old(ordered) <= ordered
      ensures r.Success? ==> forall j :: 0 <= j < |names| && names[j] in models ==> names[j] in seen
      ensures r.Failure? ==> HasCycleAt(models, r.error)
      decreases |models.Keys - visiting|, 1, |names|
    {
      for k := 0 to |names|
        invariant Valid() && stack == old(stack) && visiting == old(visiting)
        invariant old(ordered) <= ordered
        invariant forall j :: 0 <= j < k && names[j] in models ==> names[j] in seen
      {
        ghost var done := ordered;
        r := Visit(names[k]);
        if r.Failure? {
          return;
        }
        StillSeen(done, ordered);
      }
      return Success(());
    }
  }

  lemma StillSeen(before: seq<string>, after: seq<string>)
    requires before <= after
    ensures Elements(before) <= Elements(after)
  {
  }

  lemma PopPath(models: Models, before: seq<string>, name: string)
    requires Distinct(before + [name]) && IsPath(models, before + [name])
    ensures Distinct(before) && IsPath(models, before) && Elements(before) == Elements(before + [name]) - {name}
  {
    var all := before + [name];
    assert forall i :: 0 <= i < |before| ==> all[i] == before[i];
    assert forall i :: 0 <= i < |before| ==> all[i] != all[|before|];
    forall i | 0 < i < |before| ensures Link(models, before, i) {
      assert Link(models, all, i);
    }
  }

  lemma LessLeft(all: set<string>, busy: set<string>, name: string)
    requires name in all && name !in busy
    ensures |all - (busy + {name})| < |all - busy|
  {
    assert all - busy == (all - (busy + {name})) + {name};
  }

  lemma PushPath(models: Models, stack: seq<string>, name: string)
    requires Distinct(stack) && IsPath(models, stack) && name in models && name !in Elements(stack)
    requires stack != [] ==> Edge(models, stack[|stack| - 1], name)
    ensures Distinct(stack + [name]) && IsPath(models, stack + [name])
    ensures Elements(stack + [name]) == Elements(stack) + {name}
  {
    var all := stack + [name];
    forall i | 0 < i < |all| ensures Link(models, all, i) {
      if i < |stack| {
        assert Link(models, stack, i);
      }
    }
  }

  /** A ref back into the current path closes a cycle. */
  lemma BackEdge(models: Models, stack: seq<string>, name: string)
    requires IsPath(models, stack) && name in stack && name in models
    requires Edge(models, stack[|stack| - 1], name)
    ensures HasCycleAt(models, name)
  {
    var i :| 0 <= i < |stack| && stack[i] == name;
    var p := stack[i..] + [name];
    forall j | 0 < j < |p| ensures Link(models, p, j) {
      if i + j < |stack| {
        assert Link(models, stack, i + j);
      }
    }
    assert IsCycle(models, p);
  }

  lemma Finish(models: Models, refs: seq<string>, name: string, ordered: seq<string>, seen: set<string>)
    requires name in models && Elements(refs) == models[name] && Elements(ordered) == seen && name !in seen
    requires forall j :: 0 <= j < |refs| && refs[j] in models ==> refs[j] in seen
    requires Distinct(ordered) && DependenciesFirst(models, ordered)
    ensures Distinct(ordered + [name]) && DependenciesFirst(models, ordered + [name])
    ensures Elements(ordered + [name]) == seen + {name}
  {
    var all := ordered + [name];
    forall i, d | 0 <= i < |all| && Edge(models, all[i], d) ensures d in all[..i] {
      if i < |ordered| {
        assert all[..i] == ordered[..i];
      } else {
        assert d in Elements(refs);
        assert all[..i] == ordered;
      }
    }
  }

  /** topological_order: terminates on every input, and raises exactly when refs between known models form a
      cycle; otherwise lists every model once, its known refs before it. */
  method TopologicalOrder(models: Models) returns (r: Result<seq<string>, string>)
    ensures r.Failure? <==> exists p :: IsCycle(models, p)
    ensures r.Failure? ==> HasCycleAt(models, r.error)
    ensures r.Success? ==>
              Distinct(r.value) && Elements(r.value) == models.Keys && DependenciesFirst(models, r.value)
  {
    var search := new Search(models);
    var names := Sorted(models.Keys);
    var visited := search.VisitAll(names);
    if visited.Failure? {
      return Failure(visited.error);
    }
    forall x | x in models ensures x in search.seen {
      assert x in Elements(names);
    }
    OrderedMeansAcyclic(models, search.ordered);
    return Success(search.ordered);
  }

  lemma {:induction false} PathClimbsDown(models: Models, ordered: seq<string>, p: seq<string>, n: nat, i: nat)
      returns (j: nat)
    requires DependenciesFirst(models, ordered) && IsPath(models, p) && n < |p|
    requires i < |ordered| && ordered[i] == p[0]
    ensures j < |ordered| && ordered[j] == p[n] && j <= i && (n > 0 ==> j < i)
  {
    j := i;
    if n > 0 {
      var k := PathClimbsDown(models, ordered, p, n - 1, i);
      assert Link(models, p, n);
      j :| 0 <= j < k && ordered[j] == p[n];
    }
  }

  /** A listing of all models with dependencies first exists only if no refs form a cycle. */
  lemma OrderedMeansAcyclic(models: Models, ordered: seq<string>)
    requires DependenciesFirst(models, ordered) && Elements(ordered) == models.Keys && Distinct(ordered)
    ensures !exists p :: IsCycle(models, p)
  {
    forall p | IsCycle(models, p) ensures false {
      assert p[0] in Elements(ordered);
      var i :| 0 <= i < |ordered| && ordered[i] == p[0];
      var j := PathClimbsDown(models, ordered, p, |p| - 1, i);
    }
  }
}
