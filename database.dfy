/**
 * `mod database`: the cursor-driven pager over one collection's `query`
 * endpoint. The remote side is a script: the outcome of the k-th request
 * issued is `script[k]`, whatever the request's body says; the bodies the
 * pager sends are returned so that what it asks for can be stated.
 */
module Database {
  import opened Wrappers
  import opened Http

  /** One entry of a page: the handle of a record. */
  datatype PropertyResult = PropertyResult(id: string)

  /** One decoded page. */
  datatype QueryResponse = QueryResponse(results: seq<PropertyResult>, has_more: bool, next_cursor: Option<string>)

  /** A JSON request body, as the string-to-string map the pager serialises. */
  type Body = map<string, string>

  /** The body of a query: `{}` without a cursor, `{"start_cursor": c}` with one. */
  function CursorBody(cursor: Option<string>): (body: Body)
    ensures "start_cursor" in body <==> cursor.Some?
    ensures cursor.Some? ==> body["start_cursor"] == cursor.value
    ensures body.Keys <= {"start_cursor"}
  {
    if cursor.Some? then map["start_cursor" := cursor.value] else map[]
  }

  /** The pager stops at this response: it is an error, or a page with `has_more` false. */
  predicate Stops(exchange: Exchange, parse: string -> Option<QueryResponse>) {
    match Fetch(exchange, parse)
    case Failure(_) => true
    case Success(page) => !page.has_more
  }

  /** Some response at index `k` or later stops the pager. */
  predicate EventuallyStops(script: seq<Exchange>, parse: string -> Option<QueryResponse>, k: nat) {
    exists j :: k <= j < |script| && Stops(script[j], parse)
  }

  /** The first response at index `k` or later that stops the pager. */
  function StopIndex(script: seq<Exchange>, parse: string -> Option<QueryResponse>, k: nat): (n: nat)
    requires EventuallyStops(script, parse, k)
    ensures k <= n < |script| && Stops(script[n], parse)
    ensures forall j :: k <= j < n ==> !Stops(script[j], parse)
    decreases |script| - k
  {
    if Stops(script[k], parse) then k else StopIndex(script, parse, k + 1)
  }

  /** The page the `j`-th response decodes to. */
  function PageAt(script: seq<Exchange>, parse: string -> Option<QueryResponse>, j: nat): QueryResponse
    requires j < |script| && Fetch(script[j], parse).Success?
  {
    Fetch(script[j], parse).value
  }

  /** The entries of the first `n` pages, page after page. */
  function Flatten(script: seq<Exchange>, parse: string -> Option<QueryResponse>, n: nat): seq<PropertyResult>
    requires n <= |script|
    requires forall j :: 0 <= j < n ==> Fetch(script[j], parse).Success?
  {
    if n == 0 then [] else Flatten(script, parse, n - 1) + PageAt(script, parse, n - 1).results
  }

  /**
   * What `query` returns: the error of the response it stopped at, or the
   * entries of every page up to and including that one.
   */
  function Paginate(script: seq<Exchange>, parse: string -> Option<QueryResponse>): Result<seq<PropertyResult>, AppError>
    requires EventuallyStops(script, parse, 0)
  {
    var n := StopIndex(script, parse, 0);
    match Fetch(script[n], parse)
    case Failure(e) => Failure(e)
    case Success(_) => Success(Flatten(script, parse, n + 1))
  }

  /**
   * The bodies `query` sends, one per response it consumes: the first
   * without a cursor, each later one carrying the previous page's cursor.
   */
  function RequestBodies(script: seq<Exchange>, parse: string -> Option<QueryResponse>): (bodies: seq<Body>)
    requires EventuallyStops(script, parse, 0)
    ensures |bodies| == StopIndex(script, parse, 0) + 1
    ensures bodies[0] == map[]
    ensures forall j :: 0 < j < |bodies| ==> bodies[j] == CursorBody(PageAt(script, parse, j - 1).next_cursor)
  {
    var n := StopIndex(script, parse, 0);
    seq(n + 1, j requires 0 <= j <= n =>
      if j == 0 then map[] else CursorBody(PageAt(script, parse, j - 1).next_cursor))
  }

  /** The `k`-th body the pager sends carries the cursor of the page before it, if any. */
  lemma BodyOfRequest(script: seq<Exchange>, parse: string -> Option<QueryResponse>, k: nat)
    requires EventuallyStops(script, parse, 0) && k <= StopIndex(script, parse, 0)
    ensures RequestBodies(script, parse)[k] == CursorBody(if k == 0 then None else PageAt(script, parse, k - 1).next_cursor)
  {
  }

  /**
   * `database::query`: POST to the collection's query endpoint while the
   * last page said `has_more`, threading the cursor and accumulating the
   * entries. Returns the result and the bodies it sent.
   */
  method Query(script: seq<Exchange>, parse: string -> Option<QueryResponse>)
    returns (r: Result<seq<PropertyResult>, AppError>, bodies: seq<Body>)
    requires EventuallyStops(script, parse, 0)
    ensures r == Paginate(script, parse)
    ensures bodies == RequestBodies(script, parse)
  {
    ghost var n := StopIndex(script, parse, 0);
    ghost var expected := RequestBodies(script, parse);
    var results: seq<PropertyResult> := [];
    var hasMore := true;
    var startCursor: Option<string> := None;
    var k := 0;
    bodies := [];
    while hasMore
      invariant 0 <= k <= n + 1
      invariant hasMore ==> k <= n
      invariant !hasMore ==> k == n + 1
      invariant forall j :: 0 <= j < k ==> Fetch(script[j], parse).Success?
      invariant results == Flatten(script, parse, k)
      invariant startCursor == if k == 0 then None else PageAt(script, parse, k - 1).next_cursor
      invariant bodies == expected[..k]
      decreases n + 1 - k
    {
      var body: Body := map[];
      if startCursor.Some? {
        body := body["start_cursor" := startCursor.value];
      }
      assert body == CursorBody(startCursor);
      BodyOfRequest(script, parse, k);
      assert expected[..k + 1] == expected[..k] + [expected[k]];
      bodies := bodies + [body];
      var response := Fetch(script[k], parse);
      if response.Failure? {
        assert bodies == expected;
        return Failure(response.error), bodies;
      }
      results := results + response.value.results;
      hasMore := response.value.has_more;
      startCursor := response.value.next_cursor;
      k := k + 1;
    }
    assert bodies == expected;
    r := Success(results);
  }

  /** The entries of a sequence of pages, in page order and, within a page, in server order. */
  function Concat(pages: seq<QueryResponse>): seq<PropertyResult> {
    if pages == [] then [] else pages[0].results + Concat(pages[1..])
  }

  lemma {:induction false} ConcatAppend(pages: seq<QueryResponse>, page: QueryResponse)
    ensures Concat(pages + [page]) == Concat(pages) + page.results
  {
    if pages == [] {
      assert pages + [page] == [page];
    } else {
      assert (pages + [page])[1..] == pages[1..] + [page];
      ConcatAppend(pages[1..], page);
    }
  }

  /** The script answers the first `|pages|` requests with exactly these pages. */
  predicate Serves(script: seq<Exchange>, parse: string -> Option<QueryResponse>, pages: seq<QueryResponse>) {
    && |pages| <= |script|
    && forall j :: 0 <= j < |pages| ==> Fetch(script[j], parse) == Success(pages[j])
  }

  lemma {:induction false} FlattenIsConcat(script: seq<Exchange>, parse: string -> Option<QueryResponse>, pages: seq<QueryResponse>)
    requires Serves(script, parse, pages)
    ensures Flatten(script, parse, |pages|) == Concat(pages)
  {
    if pages != [] {
      var m := |pages| - 1;
      assert Serves(script, parse, pages[..m]);
      FlattenIsConcat(script, parse, pages[..m]);
      ConcatAppend(pages[..m], pages[m]);
      assert pages[..m] + [pages[m]] == pages;
    }
  }

  /**
   * Pagination is complete: when the collection is served as pages whose
   * `has_more` is true on all but the last, the pager issues one request per
   * page and returns the concatenation of all their entries.
   */
  lemma PaginateConcatenatesPages(script: seq<Exchange>, parse: string -> Option<QueryResponse>, pages: seq<QueryResponse>)
    requires pages != [] && Serves(script, parse, pages)
    requires forall j :: 0 <= j < |pages| - 1 ==> pages[j].has_more
    requires !pages[|pages| - 1].has_more
    ensures EventuallyStops(script, parse, 0)
    ensures Paginate(script, parse) == Success(Concat(pages))
    ensures |RequestBodies(script, parse)| == |pages|
  {
    var m := |pages| - 1;
    assert Stops(script[m], parse);
    assert forall j :: 0 <= j < m ==> !Stops(script[j], parse);
    assert StopIndex(script, parse, 0) == m;
    FlattenIsConcat(script, parse, pages);
  }

  /** A first page with `has_more` false is the whole answer, after exactly one request with an empty body. */
  lemma SinglePage(script: seq<Exchange>, parse: string -> Option<QueryResponse>, page: QueryResponse)
    requires |script| > 0 && Fetch(script[0], parse) == Success(page) && !page.has_more
    ensures EventuallyStops(script, parse, 0)
    ensures Paginate(script, parse) == Success(page.results)
    ensures RequestBodies(script, parse) == [map[]]
  {
    assert Stops(script[0], parse);
    assert Flatten(script, parse, 1) == page.results;
  }

  /**
   * A failure aborts the pager: when the first `|pages|` responses are pages
   * with more to come and the next request fails, the result is exactly that
   * error, with no partial list, after `|pages| + 1` requests.
   */
  lemma FailureAborts(script: seq<Exchange>, parse: string -> Option<QueryResponse>, pages: seq<QueryResponse>, e: AppError)
    requires Serves(script, parse, pages) && |pages| < |script|
    requires forall j :: 0 <= j < |pages| ==> pages[j].has_more
    requires Fetch(script[|pages|], parse) == Failure(e)
    ensures EventuallyStops(script, parse, 0)
    ensures Paginate(script, parse) == Failure(e)
    ensures |RequestBodies(script, parse)| == |pages| + 1
  {
  }
}
