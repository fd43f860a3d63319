/** Pagination (ingestion/fineract_ingest/client.py, iter_pages) against a server whose collection may change
    between requests (ingestion/fineract_ingest/mock_server.py, page). */
module Paging {
  import opened Wrappers
  import opened Validation
  import opened BatchMapping
  import opened FineractClient

  /** totalFilteredRecords: absent, a number, or a value that does not compare with one. */
  datatype Total = Absent | Count(n: int) | Incomparable

  /** The shapes of a reply.  Unlistable is a page object whose pageItems cannot be iterated; Other is anything
      that is neither a list nor an object. */
  datatype Payload<T> =
    | BareList(list: seq<T>)
    | PageObject(pageItems: Option<seq<T>>, total: Total)
    | Unlistable
    | Single(resource: T)
    | Other

  /** _items_of */
  function ItemsOf<T>(p: Payload<T>): (seq<T>, Total)
    requires !p.Unlistable?
  {
    match p
    case BareList(list) => (list, Count(|list|))
    case PageObject(pageItems, total) => (pageItems.GetOr([]), total)
    case Single(resource) => ([resource], Count(1))
    case Other => ([], Count(0))
  }

  /** How a crawl ends: at the end of the collection, at max_pages, or with the error get or the paging raises. */
  datatype Ending = Finished | PagesExhausted | Failed(error: GetError)

  /** The items a crawl yields, and how it ends. */
  datatype Crawl<T> = Crawl(items: seq<T>, ending: Ending)

  /** The reply to request number n at an offset, or the error get raises. */
  type Server<T> = (nat, nat) -> Result<Payload<T>, GetError>

  /** The rest of a crawl from page n on. */
  function CrawlFrom<T>(server: Server<T>, limit: nat, maxPages: nat, n: nat, offset: nat): Crawl<T>
    decreases maxPages - n
  {
    if n >= maxPages then Crawl([], PagesExhausted)
    else
      match server(n, offset)
      case Failure(e) => Crawl([], Failed(e))
      case Success(payload) =>
        if payload.Unlistable? then Crawl([], Failed(Escaped))
        else
          var (items, total) := ItemsOf(payload);
          var next := offset + |items|;
          if items == [] || |items| < limit then Crawl(items, Finished)
          else if total.Incomparable? then Crawl(items, Failed(Escaped))
          else if total.Count? && next >= total.n then Crawl(items, Finished)
          else
            var rest := CrawlFrom(server, limit, maxPages, n + 1, next);
            Crawl(items + rest.items, rest.ending)
  }

  function UnpagedCrawl<T>(server: Server<T>): Crawl<T> {
    match server(0, 0)
    case Failure(e) => Crawl([], Failed(e))
    case Success(payload) =>
      if payload.Unlistable? then Crawl([], Failed(Escaped)) else Crawl(ItemsOf(payload).0, Finished)
  }

  /** iter_pages, its pages joined as iter_items joins them. */
  method IterItems<T(==)>(server: Server<T>, limit: nat, maxPages: nat, paged: bool) returns (c: Crawl<T>)
    ensures c == if paged then CrawlFrom(server, limit, maxPages, 0, 0) else UnpagedCrawl(server)
  {
    if paged {
      c := IterPages(server, limit, maxPages);
      return;
    }
    var reply := server(0, 0);
    if reply.Failure? {
      return Crawl([], Failed(reply.error));
    }
    if reply.value.Unlistable? {
      return Crawl([], Failed(Escaped));
    }
    return Crawl(ItemsOf(reply.value).0, Finished);
  }

  method IterPages<T(==)>(server: Server<T>, limit: nat, maxPages: nat) returns (c: Crawl<T>)
    ensures c == CrawlFrom(server, limit, maxPages, 0, 0)
  {
    var offset: nat, all: seq<T> := 0, [];
    for n := 0 to maxPages
      invariant CrawlFrom(server, limit, maxPages, 0, 0)
             == Onto(all, CrawlFrom(server, limit, maxPages, n, offset))
    {
      var (page, stop) := Turn(server(n, offset), limit, offset);
      OneTurn(server, limit, maxPages, n, offset, all);
      all, offset := all + page, offset + |page|;
      if stop.Some? {
        return Crawl(all, stop.value);
      }
    }
    return Crawl(all, PagesExhausted);
  }

  /** The page a reply yields, and the ending if the crawl stops with it. */
  function Turn<T>(reply: Result<Payload<T>, GetError>, limit: nat, offset: nat): (seq<T>, Option<Ending>) {
    if reply.Failure? then ([], Some(Failed(reply.error)))
    else if reply.value.Unlistable? then ([], Some(Failed(Escaped)))
    else
      var (items, total) := ItemsOf(reply.value);
      if items == [] || |items| < limit then (items, Some(Finished))
      else if total.Incomparable? then (items, Some(Failed(Escaped)))
      else if total.Count? && offset + |items| >= total.n then (items, Some(Finished))
      else (items, None)
  }

  function Onto<T>(before: seq<T>, rest: Crawl<T>): Crawl<T> {
    Crawl(before + rest.items, rest.ending)
  }

  lemma OneTurn<T>(server: Server<T>, limit: nat, maxPages: nat, n: nat, offset: nat, all: seq<T>)
    requires n < maxPages
    ensures
      var (page, stop) := Turn(server(n, offset), limit, offset);
      Onto(all, CrawlFrom(server, limit, maxPages, n, offset))
        == if stop.Some? then Crawl(all + page, stop.value)
           else Onto(all + page, CrawlFrom(server, limit, maxPages, n + 1, offset + |page|))
  {
    var (page, stop) := Turn(server(n, offset), limit, offset);
    if stop.None? {
      var rest := CrawlFrom(server, limit, maxPages, n + 1, offset + |page|);
      assert all + (page + rest.items) == (all + page) + rest.items;
    }
  }

  // ---------------------------------------------------------------------------------------------
  // The shapes of a reply
  // ---------------------------------------------------------------------------------------------

  /** What a crawl makes of a first reply that is no page: a bare list is the whole collection, a single object its one
      item, and anything else that can be read an empty collection.  What cannot be iterated escapes, and an
      error of the client ends the crawl. */
  lemma FirstReplies<T>(server: Server<T>, limit: nat, maxPages: nat)
    requires maxPages > 0
    ensures
      var crawl, reply := CrawlFrom(server, limit, maxPages, 0, 0), server(0, 0);
      && (forall list: seq<T> :: reply == Success(BareList(list)) ==> crawl == Crawl(list, Finished))
      && (forall x: T :: reply == Success(Single(x)) ==> crawl == Crawl([x], Finished))
      && (forall total :: reply == Success(PageObject(None, total)) ==> crawl == Crawl([], Finished))
      && (reply == Success(Other) ==> crawl == Crawl([], Finished))
      && (reply == Success(Unlistable) ==> crawl == Crawl([], Failed(Escaped)))
      && (forall e :: reply == Failure(e) ==> crawl == Crawl([], Failed(e)))
  {
  }

  /** A page ends the crawl when it is empty or not full, and else when a total is reported that it reaches, or that
      does not compare; its items are yielded in any case.  Only a full page short of its total leads to another
      request, at the offset after it. */
  lemma PageEndsOrContinues<T>(
      server: Server<T>, limit: nat, maxPages: nat, n: nat, offset: nat, items: seq<T>, total: Total)
    requires n < maxPages && server(n, offset) == Success(PageObject(Some(items), total))
    ensures
      var crawl, next := CrawlFrom(server, limit, maxPages, n, offset), offset + |items|;
      if items == [] || |items| < limit || (exists m :: total == Count(m) && next >= m) then
        crawl == Crawl(items, Finished)
      else if total == Incomparable then crawl == Crawl(items, Failed(Escaped))
      else
        var rest := CrawlFrom(server, limit, maxPages, n + 1, next);
        crawl == Crawl(items + rest.items, rest.ending)
  {
  }

  /** A collection that is not paged is read with one request, whatever it says of totals. */
  lemma UnpagedReplies<T>(server: Server<T>)
    ensures
      var crawl, reply := UnpagedCrawl(server), server(0, 0);
      && (forall list: seq<T> :: reply == Success(BareList(list)) ==> crawl == Crawl(list, Finished))
      && (forall items: seq<T>, total :: reply == Success(PageObject(Some(items), total)) ==>
            crawl == Crawl(items, Finished))
      && (forall x: T :: reply == Success(Single(x)) ==> crawl == Crawl([x], Finished))
      && (forall e :: reply == Failure(e) ==> crawl == Crawl([], Failed(e)))
  {
  }

  // ---------------------------------------------------------------------------------------------
  // Servers
  // ---------------------------------------------------------------------------------------------

  /** rows[offset : offset + limit] */
  function Slice<T>(rows: seq<T>, offset: nat, limit: nat): seq<T> {
    if offset >= |rows| then [] else if offset + limit >= |rows| then rows[offset..] else rows[offset..offset + limit]
  }

  /** The server pages over rows(n) at request n, with some reported total. */
  ghost predicate Honours<T(!new)>(
      server: Server<T>, limit: nat, rows: nat -> seq<T>, total: nat -> Total)
  {
    forall n: nat, offset: nat :: Replies(server, n, offset, limit, rows(n), total(n))
  }

  predicate Replies<T(==)>(server: Server<T>, n: nat, offset: nat, limit: nat, rows: seq<T>, total: Total) {
    server(n, offset) == Success(PageObject(Some(Slice(rows, offset, limit)), total))
  }

  /** Rows are only ever prepended, as a newest-first listing does under inserts. */
  ghost predicate OnlyPrepends<T(!new)>(rows: nat -> seq<T>) {
    forall n: nat :: Prepends(rows, n)
  }

  ghost predicate Prepends<T(!new)>(rows: nat -> seq<T>, n: nat) {
    |rows(n)| <= |rows(n + 1)| && rows(n + 1)[|rows(n + 1)| - |rows(n)|..] == rows(n)
  }

  lemma {:induction false} SuffixOf<T(!new)>(rows: nat -> seq<T>, n: nat)
    requires OnlyPrepends(rows)
    ensures |rows(0)| <= |rows(n)| && rows(n)[|rows(n)| - |rows(0)|..] == rows(0)
  {
    if n > 0 {
      SuffixOf(rows, n - 1);
      assert Prepends(rows, n - 1);
      var shift := |rows(n)| - |rows(n - 1)|;
      assert rows(n)[shift..] == rows(n - 1);
      assert rows(n)[shift..][|rows(n - 1)| - |rows(0)|..] == rows(n)[|rows(n)| - |rows(0)|..];
    }
  }

  // ---------------------------------------------------------------------------------------------
  // Which rows a crawl of a changing listing yields
  // ---------------------------------------------------------------------------------------------

  /** Where request n starts as long as every page was full. */
  function Boundary(n: nat, limit: nat): nat {
    if n == 0 then 0 else Boundary(n - 1, limit) + limit
  }

  /** x is listed at every request, at index pos(n). */
  ghost predicate Present<T(!new)>(rows: nat -> seq<T>, x: T, pos: nat -> nat) {
    forall n: nat :: ListedAt(rows(n), x, pos(n))
  }

  predicate ListedAt<T(==)>(rows: seq<T>, x: T, at: nat) {
    at < |rows| && rows[at] == x
  }

  ghost predicate OnlyThere<T(!new)>(rows: nat -> seq<T>, x: T, pos: nat -> nat) {
    forall n: nat, at: nat :: ListedAt(rows(n), x, at) ==> at == pos(n)
  }

  /** Nothing is inserted before x: rows are only removed, or added behind it. */
  ghost predicate NeverPushedBack(pos: nat -> nat) {
    forall n: nat :: pos(n + 1) <= pos(n)
  }

  /** Request n's page covers x. */
  predicate Reaches(limit: nat, pos: nat -> nat, n: nat) {
    Boundary(n, limit) <= pos(n) < Boundary(n + 1, limit)
  }

  /** x is behind page n when request n is answered, and before page n + 1 at the next request. */
  predicate Slips(limit: nat, pos: nat -> nat, n: nat) {
    pos(n) >= Boundary(n + 1, limit) && pos(n + 1) < Boundary(n + 1, limit)
  }

  ghost predicate Unreached(limit: nat, pos: nat -> nat, from: nat, n: nat) {
    forall m: nat :: from <= m <= n ==> !Reaches(limit, pos, m)
  }

  /** Between two requests x slips past the crawl before any page covered it. */
  ghost predicate SlipsUnseen(limit: nat, pos: nat -> nat, from: nat) {
    exists n: nat :: from <= n && Slips(limit, pos, n) && Unreached(limit, pos, from, n)
  }

  /** Totals are never below the size of the listing. */
  ghost predicate NoUnderReport<T(!new)>(rows: nat -> seq<T>, total: nat -> Total) {
    forall m: nat :: total(m).Count? ==> total(m).n >= |rows(m)|
  }

  /** A page that does not reach the end of its listing is full, and a crawl that finishes goes on after it. */
  lemma GoesOn<T(!new)>(
      server: Server<T>, limit: nat, maxPages: nat, rows: nat -> seq<T>, total: nat -> Total, n: nat, offset: nat)
    requires limit > 0 && Honours(server, limit, rows, total) && NoUnderReport(rows, total)
    requires CrawlFrom(server, limit, maxPages, n, offset).ending == Finished && offset + limit < |rows(n)|
    ensures n < maxPages
    ensures
      var items, rest := rows(n)[offset..offset + limit], CrawlFrom(server, limit, maxPages, n + 1, offset + limit);
      CrawlFrom(server, limit, maxPages, n, offset) == Crawl(items + rest.items, rest.ending)
  {
    assert Replies(server, n, offset, limit, rows(n), total(n));
  }

  /** What the page at an offset covers is yielded. */
  lemma PageIsYielded<T(!new)>(
      server: Server<T>, limit: nat, maxPages: nat, rows: nat -> seq<T>, total: nat -> Total,
      n: nat, offset: nat, at: nat)
    requires Honours(server, limit, rows, total) && n < maxPages
    requires offset <= at < offset + limit && at < |rows(n)|
    ensures rows(n)[at] in CrawlFrom(server, limit, maxPages, n, offset).items
  {
    var items := Slice(rows(n), offset, limit);
    assert Replies(server, n, offset, limit, rows(n), total(n));
    assert items[at - offset] == rows(n)[at];
    assert items <= CrawlFrom(server, limit, maxPages, n, offset).items;
  }

  /** The listing changes in any way while it is paged.  From a request x is not before, a crawl that finishes
      yields it unless it slips past unseen. */
  lemma {:induction false} YieldedUnlessSlips<T(!new)>(
      server: Server<T>, limit: nat, maxPages: nat, rows: nat -> seq<T>, total: nat -> Total,
      x: T, pos: nat -> nat, n: nat)
    requires limit > 0 && Honours(server, limit, rows, total) && NoUnderReport(rows, total) && Present(rows, x, pos)
    requires CrawlFrom(server, limit, maxPages, n, Boundary(n, limit)).ending == Finished
    requires pos(n) >= Boundary(n, limit) && !SlipsUnseen(limit, pos, n)
    ensures x in CrawlFrom(server, limit, maxPages, n, Boundary(n, limit)).items
    decreases maxPages - n
  {
    assert ListedAt(rows(n), x, pos(n));
    if Reaches(limit, pos, n) {
      PageIsYielded(server, limit, maxPages, rows, total, n, Boundary(n, limit), pos(n));
    } else {
      GoesOn(server, limit, maxPages, rows, total, n, Boundary(n, limit));
      assert Unreached(limit, pos, n, n);
      assert !Slips(limit, pos, n);
      forall j: nat | n + 1 <= j && Slips(limit, pos, j) ensures !Unreached(limit, pos, n + 1, j) {
        assert !Unreached(limit, pos, n, j);
      }
      YieldedUnlessSlips(server, limit, maxPages, rows, total, x, pos, n + 1);
    }
  }

  /** A page yields its slice, and a crawl that goes on does so at the next boundary. */
  lemma PageOrMore<T(!new)>(
      server: Server<T>, limit: nat, maxPages: nat, rows: nat -> seq<T>, total: nat -> Total, n: nat)
    requires Honours(server, limit, rows, total) && n < maxPages
    ensures
      var crawl := CrawlFrom(server, limit, maxPages, n, Boundary(n, limit));
      var page := Slice(rows(n), Boundary(n, limit), limit);
      || crawl.items == page
      || crawl.items == page + CrawlFrom(server, limit, maxPages, n + 1, Boundary(n + 1, limit)).items
  {
    assert Replies(server, n, Boundary(n, limit), limit, rows(n), total(n));
  }

  lemma NotOnPage<T(!new)>(rows: nat -> seq<T>, x: T, pos: nat -> nat, limit: nat, n: nat)
    requires OnlyThere(rows, x, pos) && !Reaches(limit, pos, n)
    ensures x !in Slice(rows(n), Boundary(n, limit), limit)
  {
    var page, offset := Slice(rows(n), Boundary(n, limit), limit), Boundary(n, limit);
    forall i | 0 <= i < |page| ensures page[i] != x {
      assert page[i] == rows(n)[offset + i];
      assert ListedAt(rows(n), x, offset + i) ==> offset + i == pos(n);
    }
  }

  /** Once x is before the crawl and nothing pushes it back, it is never yielded; nor is it if it is about to slip
      past unseen. */
  lemma {:induction false} NotYielded<T(!new)>(
      server: Server<T>, limit: nat, maxPages: nat, rows: nat -> seq<T>, total: nat -> Total,
      x: T, pos: nat -> nat, n: nat, slip: nat)
    requires Honours(server, limit, rows, total) && OnlyThere(rows, x, pos) && NeverPushedBack(pos)
    requires pos(n) < Boundary(n, limit)
             || (n <= slip && Slips(limit, pos, slip) && Unreached(limit, pos, n, slip))
    ensures x !in CrawlFrom(server, limit, maxPages, n, Boundary(n, limit)).items
    decreases maxPages - n
  {
    if n < maxPages {
      NotOnPage(rows, x, pos, limit, n);
      PageOrMore(server, limit, maxPages, rows, total, n);
      assert pos(n + 1) <= pos(n);
      NotYielded(server, limit, maxPages, rows, total, x, pos, n + 1, slip);
    }
  }

  /** Which rows a crawl yields, whatever happens to the listing: a row listed throughout is yielded unless between
      two requests it slips from behind one page to before the next.  When nothing is inserted before it, as
      when rows are only removed, exactly then is it lost. */
  lemma ListedRowIsYieldedIff<T(!new)>(
      server: Server<T>, limit: nat, maxPages: nat, rows: nat -> seq<T>, total: nat -> Total, x: T, pos: nat -> nat)
    requires limit > 0 && Honours(server, limit, rows, total) && NoUnderReport(rows, total) && Present(rows, x, pos)
    requires CrawlFrom(server, limit, maxPages, 0, 0).ending == Finished
    ensures !SlipsUnseen(limit, pos, 0) ==> x in CrawlFrom(server, limit, maxPages, 0, 0).items
    ensures OnlyThere(rows, x, pos) && NeverPushedBack(pos) ==>
              (x in CrawlFrom(server, limit, maxPages, 0, 0).items <==> !SlipsUnseen(limit, pos, 0))
  {
    if !SlipsUnseen(limit, pos, 0) {
      YieldedUnlessSlips(server, limit, maxPages, rows, total, x, pos, 0);
    } else if OnlyThere(rows, x, pos) && NeverPushedBack(pos) {
      var slip: nat :| Slips(limit, pos, slip) && Unreached(limit, pos, 0, slip);
      NotYielded(server, limit, maxPages, rows, total, x, pos, 0, slip);
    }
  }

  // ---------------------------------------------------------------------------------------------
  // Completeness under concurrent inserts
  // ---------------------------------------------------------------------------------------------

  /** Where item i of the first listing sits in listing n, when rows are only prepended. */
  function PositionOf<T>(rows: nat -> seq<T>, i: nat): nat -> nat {
    n => if |rows(n)| >= |rows(0)| then |rows(n)| - |rows(0)| + i else 0
  }

  lemma WhereIs<T(!new)>(rows: nat -> seq<T>, n: nat, i: nat)
    requires OnlyPrepends(rows) && i < |rows(0)|
    ensures ListedAt(rows(n), rows(0)[i], PositionOf(rows, i)(n))
    ensures PositionOf(rows, i)(n) <= PositionOf(rows, i)(n + 1)
  {
    SuffixOf(rows, n);
    assert rows(n)[|rows(n)| - |rows(0)|..][i] == rows(n)[|rows(n)| - |rows(0)| + i];
    assert Prepends(rows, n);
  }

  /** Completeness: against a server that honours the limit, only prepends rows while it is paged and never
      under-reports its total, a crawl that is not cut off by max_pages yields every row there was at
      its first request. */
  lemma CrawlIsComplete<T(!new)>(
      server: Server<T>, limit: nat, maxPages: nat, rows: nat -> seq<T>, total: nat -> Total, i: nat)
    requires limit > 0 && Honours(server, limit, rows, total) && OnlyPrepends(rows) && NoUnderReport(rows, total)
    requires CrawlFrom(server, limit, maxPages, 0, 0).ending == Finished
    requires i < |rows(0)|
    ensures rows(0)[i] in CrawlFrom(server, limit, maxPages, 0, 0).items
  {
    forall n: nat
      ensures ListedAt(rows(n), rows(0)[i], PositionOf(rows, i)(n))
      ensures !Slips(limit, PositionOf(rows, i), n)
    {
      WhereIs(rows, n, i);
    }
    ListedRowIsYieldedIff(server, limit, maxPages, rows, total, rows(0)[i], PositionOf(rows, i));
  }

  /** Crawl, map and de-duplicate: every row of the first listing that maps and validates ends up in the
      batch exactly once, however often paging repeated it, as the last record of its key. */
  lemma CrawledRowsLandOnce(
      server: Server<Raw>, limit: nat, maxPages: nat, rows: nat -> seq<Raw>, total: nat -> Total, i: nat,
      pk: string, judge: BatchMapping.Judge, batch: seq<Record>, kept: seq<nat>)
    requires limit > 0 && Honours(server, limit, rows, total) && OnlyPrepends(rows) && NoUnderReport(rows, total)
    requires CrawlFrom(server, limit, maxPages, 0, 0).ending == Finished
    requires i < |rows(0)| && judge(rows(0)[i]).Land?
    requires
      var vs := Verdicts(judge, CrawlFrom(server, limit, maxPages, 0, 0).items);
      Keyed(pk, vs) && Survivors(vs, |vs|, kept) && RowsOf(vs, kept, batch)
    ensures
      exists p: nat :: p < |batch| && Get(batch[p], pk) == judge(rows(0)[i]).key
        && forall q: nat :: q < |batch| && Get(batch[q], pk) == judge(rows(0)[i]).key ==> q == p
  {
    CrawlIsComplete(server, limit, maxPages, rows, total, i);
    var items := CrawlFrom(server, limit, maxPages, 0, 0).items;
    var vs := Verdicts(judge, items);
    var j: nat :| j < |items| && items[j] == rows(0)[i];
    assert vs[j] == judge(items[j]);
    BatchIsLastWriteWins(pk, vs, batch, kept, j);
    var p: nat :| p < |batch| && Get(batch[p], pk) == vs[j].key;
    forall q: nat | q < |batch| && Get(batch[q], pk) == vs[j].key ensures q == p {
      assert !Get(batch[p], pk).Null?;
    }
  }

  // ---------------------------------------------------------------------------------------------
  // When the hypotheses fail
  // ---------------------------------------------------------------------------------------------

  /** What a reported total makes of a full page that ends at an offset. */
  predicate Stops(total: Total, offset: nat) {
    total.Incomparable? || (total.Count? && offset >= total.n)
  }

  /** No page boundary before the end stops the crawl early: neither max_pages nor a reported total. */
  ghost predicate NoEarlyStop(size: nat, limit: nat, maxPages: nat, total: Total, n: nat) {
    forall j: nat :: n <= j && Boundary(j, limit) < size ==>
      j < maxPages && (j == n || !Stops(total, Boundary(j, limit)))
  }

  lemma {:induction false} BoundaryGrows(i: nat, j: nat, limit: nat)
    requires i <= j
    ensures Boundary(i, limit) <= Boundary(j, limit)
  {
    if i < j {
      BoundaryGrows(i, j - 1, limit);
    }
  }

  /** A server whose listing and reported total do not change. */
  ghost predicate Static<T(!new)>(server: Server<T>, limit: nat, all: seq<T>, total: Total) {
    forall n: nat, offset: nat :: Replies(server, n, offset, limit, all, total)
  }

  lemma {:induction false} StaticCrawlFrom<T(!new)>(
      server: Server<T>, limit: nat, maxPages: nat, all: seq<T>, total: Total, n: nat)
    requires limit > 0 && Static(server, limit, all, total)
    requires Boundary(n, limit) <= |all| && n <= maxPages
    ensures CrawlFrom(server, limit, maxPages, n, Boundary(n, limit)).items == all[Boundary(n, limit)..]
            <==> NoEarlyStop(|all|, limit, maxPages, total, n)
    decreases maxPages - n, 1
  {
    var offset := Boundary(n, limit);
    if n < maxPages && offset + limit <= |all| {
      StaticStep(server, limit, maxPages, all, total, n);
    } else if n < maxPages {
      assert Replies(server, n, offset, limit, all, total);
      OnlyBoundary(|all|, limit, n);
    } else if offset < |all| {
      assert !NoEarlyStop(|all|, limit, maxPages, total, n);
    } else {
      forall j: nat | n <= j ensures Boundary(j, limit) >= |all| {
        BoundaryGrows(n, j, limit);
      }
    }
  }

  lemma OnlyBoundary(size: nat, limit: nat, n: nat)
    requires Boundary(n, limit) + limit >= size
    ensures forall j: nat :: n <= j && Boundary(j, limit) < size ==> j == n
  {
    forall j: nat | n <= j && Boundary(j, limit) < size ensures j == n {
      if j > n { BoundaryGrows(n + 1, j, limit); }
    }
  }

  /** A full page: the crawl goes on exactly when the total reported does not stop it. */
  lemma FullPage<T(!new)>(server: Server<T>, limit: nat, maxPages: nat, all: seq<T>, total: Total, n: nat)
    requires limit > 0 && Static(server, limit, all, total)
    requires Boundary(n + 1, limit) <= |all| && n < maxPages
    ensures
      var offset, next := Boundary(n, limit), Boundary(n + 1, limit);
      CrawlFrom(server, limit, maxPages, n, offset).items ==
        all[offset..next]
        + if Stops(total, next) then [] else CrawlFrom(server, limit, maxPages, n + 1, next).items
  {
    var offset, next := Boundary(n, limit), Boundary(n + 1, limit);
    assert Slice(all, offset, limit) == all[offset..next];
    assert Replies(server, n, offset, limit, all, total);
  }

  lemma {:induction false} StaticStep<T(!new)>(
      server: Server<T>, limit: nat, maxPages: nat, all: seq<T>, total: Total, n: nat)
    requires limit > 0 && Static(server, limit, all, total)
    requires Boundary(n, limit) + limit <= |all| && n < maxPages
    ensures CrawlFrom(server, limit, maxPages, n, Boundary(n, limit)).items == all[Boundary(n, limit)..]
            <==> NoEarlyStop(|all|, limit, maxPages, total, n)
    decreases maxPages - n, 0
  {
    var offset, next := Boundary(n, limit), Boundary(n + 1, limit);
    FullPage(server, limit, maxPages, all, total, n);
    assert all[offset..] == all[offset..next] + all[next..];
    if next == |all| {
      OnlyBoundary(|all|, limit, n);
      if !Stops(total, next) {
        StaticCrawlFrom(server, limit, maxPages, all, total, n + 1);
        OnlyBoundary(|all|, limit, n + 1);
      }
    } else if Stops(total, next) {
      assert |CrawlFrom(server, limit, maxPages, n, offset).items| == limit;
      assert !NoEarlyStop(|all|, limit, maxPages, total, n) by { assert Boundary(n + 1, limit) < |all|; }
    } else {
      StaticCrawlFrom(server, limit, maxPages, all, total, n + 1);
      EarlyStopStep(|all|, limit, maxPages, total, n);
      var rest := CrawlFrom(server, limit, maxPages, n + 1, next).items;
      assert (all[offset..next] + rest)[limit..] == rest;
    }
  }

  lemma EarlyStopStep(size: nat, limit: nat, maxPages: nat, total: Total, n: nat)
    requires n < maxPages && Boundary(n + 1, limit) < size
    requires !Stops(total, Boundary(n + 1, limit))
    ensures NoEarlyStop(size, limit, maxPages, total, n) <==> NoEarlyStop(size, limit, maxPages, total, n + 1)
  {
  }

  /** Against a listing that does not change, the crawl yields all of it exactly when no page boundary
      inside the listing stops it: so an under-reported total loses rows as soon as it is reached on a
      full page. */
  lemma StaticCrawlIff<T(!new)>(server: Server<T>, limit: nat, maxPages: nat, all: seq<T>, total: Total)
    requires limit > 0 && Static(server, limit, all, total)
    ensures CrawlFrom(server, limit, maxPages, 0, 0).items == all <==> NoEarlyStop(|all|, limit, maxPages, total, 0)
  {
    StaticCrawlFrom(server, limit, maxPages, all, total, 0);
    assert all[0..] == all;
  }

  /** Three rows, the first of which is removed after the first request. */
  function Shrinking(n: nat): seq<int> {
    if n == 0 then [1, 2, 3] else [2, 3]
  }

  function ShrinkingTotal(n: nat): Total {
    Count(|Shrinking(n)|)
  }

  function PositionOfThree(n: nat): nat {
    if n == 0 then 2 else 1
  }

  /** A row removed while the listing is paged shifts the offsets: the crawl finishes, and row 3, there throughout,
      slips past it. */
  lemma RemovalLosesRow(server: Server<int>)
    requires Honours(server, 2, Shrinking, ShrinkingTotal)
    ensures CrawlFrom(server, 2, 10, 0, 0).ending == Finished && 3 !in CrawlFrom(server, 2, 10, 0, 0).items
  {
    assert Replies(server, 0, 0, 2, Shrinking(0), ShrinkingTotal(0));
    assert Replies(server, 1, 2, 2, Shrinking(1), ShrinkingTotal(1));
    assert CrawlFrom(server, 2, 10, 1, 2) == Crawl([], Finished);
    assert Boundary(1, 2) == 2;
    assert Slips(2, PositionOfThree, 0) && Unreached(2, PositionOfThree, 0, 0);
    ListedRowIsYieldedIff(server, 2, 10, Shrinking, ShrinkingTotal, 3, PositionOfThree);
  }
}
