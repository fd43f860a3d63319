/** _fetch_records (ingestion/fineract_ingest/pipeline.py): a flat collection, or one child collection per
    parent, in which a FineractError ends that child's crawl and nothing else. */
module Fetching {
  import opened Wrappers
  import opened BatchMapping
  import opened FineractClient
  import opened Paging

  datatype Settings = Settings(limit: nat, maxPages: nat, paged: bool)

  function CrawlOf(server: Server<Raw>, c: Settings): Crawl<Raw> {
    if c.paged then CrawlFrom(server, c.limit, c.maxPages, 0, 0) else UnpagedCrawl(server)
  }

  /** The parent id carried down into a child record. */
  type Carry = (int, Raw) -> Raw

  /** `parents` is what the id query returns, or None if it raises. */
  datatype Collection =
    | Flat(server: Server<Raw>)
    | PerParent(parents: Option<seq<int>>, children: int -> Server<Raw>)

  function Enriched(carry: Carry, parent: int, items: seq<Raw>): (r: seq<Raw>)
    ensures |r| == |items| && forall i :: 0 <= i < |items| ==> r[i] == carry(parent, items[i])
  {
    if items == [] then [] else Enriched(carry, parent, items[..|items| - 1]) + [carry(parent, items[|items| - 1])]
  }

  /** A child crawl that raises nothing but FineractError: each item converts to a dict, and no other exception
      escapes the client or the paging. */
  predicate Sound(crawl: Crawl<Raw>) {
    (forall x | x in crawl.items :: x.Taken?) && crawl.ending != Failed(Escaped)
  }

  predicate AllSound(parents: seq<int>, children: int -> Server<Raw>, c: Settings) {
    forall p | p in parents :: Sound(CrawlOf(children(p), c))
  }

  lemma SoundPush(parents: seq<int>, p: int, children: int -> Server<Raw>, c: Settings)
    ensures AllSound(parents + [p], children, c) <==> AllSound(parents, children, c) && Sound(CrawlOf(children(p), c))
  {
    assert forall q :: q in parents + [p] <==> q in parents || q == p;
  }

  /** What the crawls of these parents yield, one after the other. */
  function ChildRecords(carry: Carry, parents: seq<int>, children: int -> Server<Raw>, c: Settings): seq<Raw> {
    if parents == [] then []
    else
      var p := parents[|parents| - 1];
      ChildRecords(carry, parents[..|parents| - 1], children, c)
      + Enriched(carry, p, CrawlOf(children(p), c).items)
  }

  /** list(self._fetch_records(...)) */
  function Fetched(carry: Carry, source: Collection, c: Settings): Result<seq<Raw>, GetError> {
    match source
    case Flat(server) =>
      (match CrawlOf(server, c).ending
       case Failed(e) => Failure(e)
       case _ => Success(CrawlOf(server, c).items))
    case PerParent(parents, children) =>
      if parents.Some? && AllSound(parents.value, children, c)
      then Success(ChildRecords(carry, parents.value, children, c))
      else Failure(Escaped)
  }

  method FetchRecords(carry: Carry, source: Collection, c: Settings) returns (r: Result<seq<Raw>, GetError>)
    ensures r == Fetched(carry, source, c)
  {
    match source {
      case Flat(server) =>
        var crawl := IterItems(server, c.limit, c.maxPages, c.paged);
        r := if crawl.ending.Failed? then Failure(crawl.ending.error) else Success(crawl.items);
      case PerParent(parents, children) =>
        if parents.None? {
          return Failure(Escaped);
        }
        r := FetchChildren(carry, parents.value, children, c);
    }
  }

  /** The loop over the parents: FineractError is logged, anything else propagates. */
  method FetchChildren(carry: Carry, parents: seq<int>, children: int -> Server<Raw>, c: Settings)
    returns (r: Result<seq<Raw>, GetError>)
    ensures r == Fetched(carry, PerParent(Some(parents), children), c)
  {
    var all: seq<Raw> := [];
    for n := 0 to |parents|
      invariant all == ChildRecords(carry, parents[..n], children, c)
      invariant AllSound(parents[..n], children, c)
    {
      var crawl := IterItems(children(parents[n]), c.limit, c.maxPages, c.paged);
      var carried := CarryDown(carry, parents[n], crawl.items);
      assert parents[n] in parents;
      if carried.None? || crawl.ending == Failed(Escaped) {
        return Failure(Escaped);
      }
      assert parents[..n + 1] == parents[..n] + [parents[n]];
      SoundPush(parents[..n], parents[n], children, c);
      all := all + carried.value;
    }
    assert parents[..|parents|] == parents;
    return Success(all);
  }

  /** dict(record) and the parent id, record by record; None if dict() refuses one. */
  method CarryDown(carry: Carry, parent: int, items: seq<Raw>) returns (r: Option<seq<Raw>>)
    ensures r.Some? <==> forall x :: x in items ==> x.Taken?
    ensures r.Some? ==> r.value == Enriched(carry, parent, items)
  {
    var done: seq<Raw> := [];
    for i := 0 to |items|
      invariant done == Enriched(carry, parent, items[..i])
      invariant forall j :: 0 <= j < i ==> items[j].Taken?
    {
      if !items[i].Taken? {
        return None;
      }
      assert items[..i + 1][..i] == items[..i];
      done := done + [carry(parent, items[i])];
    }
    assert items[..|items|] == items;
    return Some(done);
  }

  // ---------------------------------------------------------------------------------------------
  // Isolation
  // ---------------------------------------------------------------------------------------------

  lemma {:induction false} ChildrenConcat(
      carry: Carry, a: seq<int>, b: seq<int>, children: int -> Server<Raw>, c: Settings)
    ensures ChildRecords(carry, a + b, children, c)
         == ChildRecords(carry, a, children, c) + ChildRecords(carry, b, children, c)
  {
    if b == [] {
      assert a + b == a;
    } else {
      ChildrenConcat(carry, a, b[..|b| - 1], children, c);
      var last := b[|b| - 1];
      assert (a + b)[..|a + b| - 1] == a + b[..|b| - 1] && (a + b)[|a + b| - 1] == last;
      var own := Enriched(carry, last, CrawlOf(children(last), c).items);
      var x, y := ChildRecords(carry, a, children, c), ChildRecords(carry, b[..|b| - 1], children, c);
      assert (x + y) + own == x + (y + own);
    }
  }

  lemma {:induction false} ChildrenSame(
      carry: Carry, parents: seq<int>, children: int -> Server<Raw>, other: int -> Server<Raw>, c: Settings)
    requires forall p :: p in parents ==> CrawlOf(children(p), c).items == CrawlOf(other(p), c).items
    ensures ChildRecords(carry, parents, children, c) == ChildRecords(carry, parents, other, c)
  {
    if parents != [] {
      ChildrenSame(carry, parents[..|parents| - 1], children, other, c);
    }
  }

  /** When one parent leaves the others alone.  `other` serves parent i in any way, and the other parents as
      `children` does, soundly: the fetch goes through exactly when the crawl of parent i is sound, and then
      the records of all other parents are the same, in the same places around its own. */
  lemma ParentsAreIsolatedIff(
      carry: Carry, parents: seq<int>, children: int -> Server<Raw>, other: int -> Server<Raw>, c: Settings, i: nat)
    requires i < |parents| && forall j :: 0 <= j < |parents| && j != i ==> parents[j] != parents[i]
    requires forall p :: p in parents && p != parents[i] ==> other(p) == children(p) && Sound(CrawlOf(children(p), c))
    ensures
      var before := ChildRecords(carry, parents[..i], children, c);
      var after := ChildRecords(carry, parents[i + 1..], children, c);
      var crawl := CrawlOf(other(parents[i]), c);
      Fetched(carry, PerParent(Some(parents), other), c) ==
        if Sound(crawl) then Success(before + Enriched(carry, parents[i], crawl.items) + after)
        else Failure(Escaped)
  {
    OneParent(carry, parents, other, c, i);
    ChildrenSame(carry, parents[..i], children, other, c);
    ChildrenSame(carry, parents[i + 1..], children, other, c);
    assert parents[i] in parents;
  }

  /** One reply that sinks the entity: its items hold something dict() refuses, or cannot be iterated. */
  lemma BadReplySinksAll(
      carry: Carry, parents: seq<int>, children: int -> Server<Raw>, c: Settings, p: int, payload: Payload<Raw>)
    requires p in parents && c.maxPages > 0 && children(p)(0, 0) == Success(payload)
    requires payload.Unlistable? || exists x :: x in ItemsOf(payload).0 && x.Refused?
    ensures Fetched(carry, PerParent(Some(parents), children), c) == Failure(Escaped)
  {
    var crawl := CrawlOf(children(p), c);
    if payload.PageObject? || payload.BareList? || payload.Single? {
      assert ItemsOf(payload).0 <= crawl.items;
      var x :| x in ItemsOf(payload).0 && x.Refused?;
      assert x in crawl.items;
    }
    assert !Sound(crawl);
  }

  /** The two shapes: a bare list holding a number, and a page whose items hold null. */
  lemma BadReplies(carry: Carry, parents: seq<int>, children: int -> Server<Raw>, c: Settings, p: int)
    requires p in parents && c.maxPages > 0
    requires children(p)(0, 0) == Success(BareList([Refused("1")]))
             || children(p)(0, 0) == Success(PageObject(Some([Refused("null")]), Absent))
    ensures Fetched(carry, PerParent(Some(parents), children), c) == Failure(Escaped)
  {
    var payload := children(p)(0, 0).value;
    assert ItemsOf(payload).0[0] in ItemsOf(payload).0;
    BadReplySinksAll(carry, parents, children, c, p, payload);
  }

  lemma OneParent(carry: Carry, parents: seq<int>, children: int -> Server<Raw>, c: Settings, i: nat)
    requires i < |parents|
    ensures ChildRecords(carry, parents, children, c) ==
              ChildRecords(carry, parents[..i], children, c)
              + Enriched(carry, parents[i], CrawlOf(children(parents[i]), c).items)
              + ChildRecords(carry, parents[i + 1..], children, c)
  {
    var head := parents[..i] + [parents[i]];
    assert parents == head + parents[i + 1..];
    ChildrenConcat(carry, head, parents[i + 1..], children, c);
    assert head[..i] == parents[..i];
  }

  // ---------------------------------------------------------------------------------------------
  // What an API error looks like afterwards
  // ---------------------------------------------------------------------------------------------

  /** A FineractError turned into the end of the collection. */
  function Ended(reply: Result<Payload<Raw>, GetError>): Result<Payload<Raw>, GetError> {
    if reply.Failure? && reply.error != Escaped then Success(Other) else reply
  }

  /** The same server, whose collection ends where the original raises FineractError. */
  function EndsInstead(server: Server<Raw>): Server<Raw> {
    (n: nat, offset: nat) => Ended(server(n, offset))
  }

  predicate ApiError(ending: Ending) {
    ending.Failed? && ending.error != Escaped
  }

  lemma {:induction false} CrawlEnded(
      server: Server<Raw>, other: Server<Raw>, limit: nat, maxPages: nat, n: nat, offset: nat)
    requires forall m: nat, o: nat :: other(m, o) == Ended(server(m, o))
    ensures
      var crawl := CrawlFrom(server, limit, maxPages, n, offset);
      CrawlFrom(other, limit, maxPages, n, offset)
      == Crawl(crawl.items, if ApiError(crawl.ending) then Finished else crawl.ending)
    decreases maxPages - n
  {
    if n < maxPages && server(n, offset).Success? && !server(n, offset).value.Unlistable? {
      CrawlEnded(server, other, limit, maxPages, n + 1, offset + |ItemsOf(server(n, offset).value).0|);
    }
  }

  lemma CrawlEndsInstead(server: Server<Raw>, limit: nat, maxPages: nat, n: nat, offset: nat)
    ensures
      var crawl := CrawlFrom(server, limit, maxPages, n, offset);
      CrawlFrom(EndsInstead(server), limit, maxPages, n, offset)
      == Crawl(crawl.items, if ApiError(crawl.ending) then Finished else crawl.ending)
  {
    CrawlEnded(server, EndsInstead(server), limit, maxPages, n, offset);
  }

  /** A flat fetch tells an API error from the end of the collection, exactly when there was one.  A fetch per
      parent never does: whatever its crawls lost to FineractError part-way is missing from a fetch that succeeds. */
  lemma ErrorsShowIffFlat(
      carry: Carry, server: Server<Raw>, parents: seq<int>, children: int -> Server<Raw>, c: Settings)
    ensures Fetched(carry, Flat(server), c) == Fetched(carry, Flat(EndsInstead(server)), c)
            <==> !ApiError(CrawlOf(server, c).ending)
    ensures Fetched(carry, PerParent(Some(parents), children), c)
         == Fetched(carry, PerParent(Some(parents), p => EndsInstead(children(p))), c)
  {
    CrawlEndsInstead(server, c.limit, c.maxPages, 0, 0);
    ErrorsHidePerParent(carry, parents, children, c);
  }

  lemma ErrorsHidePerParent(carry: Carry, parents: seq<int>, children: int -> Server<Raw>, c: Settings)
    ensures Fetched(carry, PerParent(Some(parents), children), c)
         == Fetched(carry, PerParent(Some(parents), p => EndsInstead(children(p))), c)
  {
    forall p | p in parents
      ensures CrawlOf(children(p), c).items == CrawlOf(EndsInstead(children(p)), c).items
      ensures Sound(CrawlOf(children(p), c)) == Sound(CrawlOf(EndsInstead(children(p)), c))
    {
      CrawlEndsInstead(children(p), c.limit, c.maxPages, 0, 0);
    }
    ChildrenSame(carry, parents, children, p => EndsInstead(children(p)), c);
  }

  /** Completeness, parent by parent: a child row listed at the first request of its parent's crawl is fetched,
      with its parent id, if that crawl was not cut short and the fetch goes through. */
  lemma ChildRowsAreFetched(
      carry: Carry, parents: seq<int>, children: int -> Server<Raw>, c: Settings, p: int,
      rows: nat -> seq<Raw>, total: nat -> Total, i: nat)
    requires p in parents && c.paged && c.limit > 0
    requires Honours(children(p), c.limit, rows, total) && OnlyPrepends(rows) && NoUnderReport(rows, total)
    requires CrawlOf(children(p), c).ending == Finished && i < |rows(0)|
    requires AllSound(parents, children, c)
    ensures Fetched(carry, PerParent(Some(parents), children), c).Success?
    ensures carry(p, rows(0)[i]) in Fetched(carry, PerParent(Some(parents), children), c).value
  {
    CrawlIsComplete(children(p), c.limit, c.maxPages, rows, total, i);
    var items := CrawlOf(children(p), c).items;
    var j :| 0 <= j < |items| && items[j] == rows(0)[i];
    var at :| 0 <= at < |parents| && parents[at] == p;
    OneParent(carry, parents, children, c, at);
    assert Enriched(carry, p, items)[j] == carry(p, rows(0)[i]);
  }
}
