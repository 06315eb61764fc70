/**
 * `fetchAllWorks` of app/all-works/page.js: walks the API's cursor pagination,
 * appending each page's works in arrival order, until the total reaches the
 * cap (truncated to exactly the cap), the API reports no further page, or a
 * request fails (the works gathered so far are kept). The result is sorted by
 * `menuOrder`.
 *
 * The API is modelled by the finite sequence of its answers: the i-th request
 * is answered by `pages[i]`; a request beyond the sequence fails.
 */
module Aggregation {
  import opened Values
  import opened Works
  import opened Ordering

  const MaxWorksToFetch: nat := 1000
  const PageSize: nat := 100

  /** One page of the `works` connection: its nodes and its `pageInfo`
      (an empty cursor stands for a missing one). */
  datatype Page = Page(nodes: seq<Work>, hasNextPage: bool, endCursor: string)

  datatype Response = Answered(page: Page) | FetchFailed

  /** The variables of one page request. */
  datatype Request = Request(first: nat, after: Option<string>)

  datatype Aggregate = Aggregate(works: seq<Work>, requests: seq<Request>)

  function Respond(pages: seq<Response>, i: nat): Response {
    if i < |pages| then pages[i] else FetchFailed
  }

  /** A page links onward only when both `hasNextPage` and `endCursor` are truthy. */
  predicate Linked(p: Page) {
    p.hasNextPage && p.endCursor != ""
  }

  /**
   * One step of the recursion: request the page after `after`; `allWorks`
   * holds what earlier pages gave.
   */
  function FetchAllWorks(pages: seq<Response>, i: nat, after: Option<string>, allWorks: seq<Work>): (r: Aggregate)
    ensures |r.requests| >= 1 && r.requests[0] == Request(PageSize, after)
    decreases |pages| - i
  {
    var request := Request(PageSize, after);
    var response := Respond(pages, i);
    match response
    case FetchFailed => Aggregate(SortWorksByMenuOrder(Some(allWorks)), [request])
    case Answered(page) =>
      var newAllWorks := allWorks + page.nodes;
      if |newAllWorks| >= MaxWorksToFetch then
        Aggregate(SortWorksByMenuOrder(Some(newAllWorks[..MaxWorksToFetch])), [request])
      else if Linked(page) then
        var rest := FetchAllWorks(pages, i + 1, Some(page.endCursor), newAllWorks);
        Aggregate(rest.works, [request] + rest.requests)
      else Aggregate(SortWorksByMenuOrder(Some(newAllWorks)), [request])
  }

  /** The whole aggregation, starting without a cursor and with nothing gathered. */
  function FetchAll(pages: seq<Response>): (r: Aggregate)
    ensures |r.requests| >= 1 && r.requests[0] == Request(PageSize, None)
  {
    FetchAllWorks(pages, 0, None, [])
  }

  // ---------------------------------------------------------------------------
  // An independent description of what the aggregation computes.

  function ItemsOf(r: Response): seq<Work> {
    match r
    case Answered(p) => p.nodes
    case FetchFailed => []
  }

  /** The works of the first `n` answers, concatenated in arrival order. */
  function Gathered(pages: seq<Response>, n: nat): seq<Work> {
    if n == 0 then [] else Gathered(pages, n - 1) + ItemsOf(Respond(pages, n - 1))
  }

  /** After the answer to request `k`, another page is requested. */
  predicate Continues(pages: seq<Response>, k: nat) {
    Respond(pages, k).Answered? && Linked(Respond(pages, k).page)
    && |Gathered(pages, k + 1)| < MaxWorksToFetch
  }

  /** The first request at or after `i` whose answer does not continue. */
  function StopFrom(pages: seq<Response>, i: nat): (r: nat)
    ensures i <= r && !Continues(pages, r)
    decreases |pages| - i
  {
    if Continues(pages, i) then StopFrom(pages, i + 1) else i
  }

  /** The first `n` elements, or all of them when there are fewer. */
  function Take(s: seq<Work>, n: nat): (r: seq<Work>)
    ensures |r| <= n && |r| <= |s| && r == s[..|r|]
    ensures |r| == if |s| <= n then |s| else n
    ensures |s| <= n ==> r == s
  {
    if |s| <= n then s else s[..n]
  }

  /** The result when request `last` is the final one. */
  function Outcome(pages: seq<Response>, last: nat): seq<Work> {
    if Respond(pages, last).FetchFailed? then MenuOrderSorted(Gathered(pages, last))
    else MenuOrderSorted(Take(Gathered(pages, last + 1), MaxWorksToFetch))
  }

  /** The cursor sent with request `j`: none for the first, otherwise the end
      cursor of the page before it. */
  function CursorFor(pages: seq<Response>, j: nat): Option<string> {
    if j == 0 then None
    else match Respond(pages, j - 1)
      case Answered(p) => Some(p.endCursor)
      case FetchFailed => None
  }

  lemma {:induction false} StopFromContinues(pages: seq<Response>, i: nat, j: nat)
    requires i <= j < StopFrom(pages, i)
    ensures Continues(pages, j)
    decreases |pages| - i
  {
    if j > i {
      StopFromContinues(pages, i + 1, j);
    }
  }

  lemma {:induction false} FetchAllWorksFrom(pages: seq<Response>, i: nat)
    requires |Gathered(pages, i)| < MaxWorksToFetch
    ensures var r := FetchAllWorks(pages, i, CursorFor(pages, i), Gathered(pages, i));
            && |r.requests| == StopFrom(pages, i) - i + 1
            && r.works == Outcome(pages, StopFrom(pages, i))
    decreases |pages| - i
  {
    var allWorks := Gathered(pages, i);
    var r := FetchAllWorks(pages, i, CursorFor(pages, i), allWorks);
    match Respond(pages, i)
    case FetchFailed =>
      assert StopFrom(pages, i) == i;
      assert r.works == MenuOrderSorted(allWorks);
    case Answered(page) =>
      var newAllWorks := allWorks + page.nodes;
      assert newAllWorks == Gathered(pages, i + 1);
      if |newAllWorks| >= MaxWorksToFetch {
        assert StopFrom(pages, i) == i;
        assert r.works == MenuOrderSorted(newAllWorks[..MaxWorksToFetch]);
      } else if Linked(page) {
        assert Continues(pages, i);
        assert CursorFor(pages, i + 1) == Some(page.endCursor);
        FetchAllWorksFrom(pages, i + 1);
        var rest := FetchAllWorks(pages, i + 1, CursorFor(pages, i + 1), newAllWorks);
        assert r.requests == [Request(PageSize, CursorFor(pages, i))] + rest.requests;
        assert r.works == rest.works;
      } else {
        assert StopFrom(pages, i) == i;
        assert r.works == MenuOrderSorted(newAllWorks);
      }
  }

  /** One continuing step of the recursion: the request for page `i`, then
      whatever the recursion from page `i + 1` does. */
  lemma ContinuingStep(pages: seq<Response>, i: nat)
    requires Continues(pages, i)
    ensures Gathered(pages, i) + Respond(pages, i).page.nodes == Gathered(pages, i + 1)
    ensures CursorFor(pages, i + 1) == Some(Respond(pages, i).page.endCursor)
    ensures var r := FetchAllWorks(pages, i, CursorFor(pages, i), Gathered(pages, i));
            var rest := FetchAllWorks(pages, i + 1, CursorFor(pages, i + 1), Gathered(pages, i + 1));
            && r.requests == [Request(PageSize, CursorFor(pages, i))] + rest.requests
            && r.works == rest.works
  {
  }

  lemma {:induction false} RequestsFrom(pages: seq<Response>, i: nat, j: nat)
    requires |Gathered(pages, i)| < MaxWorksToFetch
    requires i <= j <= StopFrom(pages, i)
    ensures var r := FetchAllWorks(pages, i, CursorFor(pages, i), Gathered(pages, i));
            j - i < |r.requests| && r.requests[j - i] == Request(PageSize, CursorFor(pages, j))
    decreases |pages| - i
  {
    if j > i {
      assert Continues(pages, i);
      ContinuingStep(pages, i);
      RequestsFrom(pages, i + 1, j);
    }
  }

  /**
   * What the aggregation does, for every sequence of answers: it makes one
   * request of size 100 after another, each but the first carrying the
   * cursor of the page before, for as long as the previous answer links
   * onward and fewer than 1000 works are gathered; its result is the sort of
   * what the answered pages gave, truncated to 1000, or, when the last
   * request failed, the sort of what the earlier pages gave.
   */
  lemma FetchAllDescribed(pages: seq<Response>)
    ensures |FetchAll(pages).requests| == StopFrom(pages, 0) + 1
    ensures forall j :: 0 <= j < |FetchAll(pages).requests| ==>
              FetchAll(pages).requests[j] == Request(PageSize, CursorFor(pages, j))
    ensures forall j :: 0 <= j < |FetchAll(pages).requests| - 1 ==> Continues(pages, j)
    ensures FetchAll(pages).works == Outcome(pages, StopFrom(pages, 0))
  {
    var r := FetchAll(pages);
    assert Gathered(pages, 0) == [] && CursorFor(pages, 0) == None;
    assert r == FetchAllWorks(pages, 0, CursorFor(pages, 0), Gathered(pages, 0));
    FetchAllWorksFrom(pages, 0);
    forall j | 0 <= j < |r.requests|
      ensures r.requests[j] == Request(PageSize, CursorFor(pages, j))
    {
      RequestsFrom(pages, 0, j);
    }
    forall j | 0 <= j < |r.requests| - 1
      ensures Continues(pages, j)
    {
      StopFromContinues(pages, 0, j);
    }
  }

  /** The stop is the first answer that does not continue. */
  lemma {:induction false} StopIsFirst(pages: seq<Response>, i: nat, k: nat)
    requires i <= k
    requires forall j :: i <= j < k ==> Continues(pages, j)
    requires !Continues(pages, k)
    ensures StopFrom(pages, i) == k
    decreases |pages| - i
  {
    if i < k {
      assert Continues(pages, i);
      StopIsFirst(pages, i + 1, k);
    }
  }

  lemma {:induction false} GatheredPrefix(pages: seq<Response>, n: nat, m: nat)
    requires n <= m
    ensures |Gathered(pages, n)| <= |Gathered(pages, m)|
    ensures Gathered(pages, n) == Gathered(pages, m)[..|Gathered(pages, n)|]
    decreases m - n
  {
    if n < m {
      GatheredPrefix(pages, n, m - 1);
    }
  }

  /** The aggregation never returns more than 1000 works. */
  lemma FetchAllCapped(pages: seq<Response>)
    ensures |FetchAll(pages).works| <= MaxWorksToFetch
  {
    FetchAllDescribed(pages);
    var last := StopFrom(pages, 0);
    if Respond(pages, last).FetchFailed? {
      if last > 0 { StopFromContinues(pages, 0, last - 1); }
      SortSortsAndPermutes(Gathered(pages, last));
      assert |FetchAll(pages).works| == |multiset(Gathered(pages, last))|;
    } else {
      var t := Take(Gathered(pages, last + 1), MaxWorksToFetch);
      SortSortsAndPermutes(t);
      assert |FetchAll(pages).works| == |multiset(t)|;
    }
  }

  /** The answers form a well-formed chain: all answered, each but the last linking onward. */
  ghost predicate CursorChain(pages: seq<Response>) {
    && |pages| >= 1
    && (forall k :: 0 <= k < |pages| ==> pages[k].Answered?)
    && (forall k :: 0 <= k < |pages| - 1 ==> Linked(pages[k].page))
    && !Linked(pages[|pages| - 1].page)
  }

  /**
   * With every page answered, the result is the sort of the first
   * min(total, 1000) works of the pages concatenated in arrival order:
   * truncation comes before sorting.
   */
  lemma FetchAllOfChain(pages: seq<Response>)
    requires CursorChain(pages)
    ensures FetchAll(pages).works == MenuOrderSorted(Take(Gathered(pages, |pages|), MaxWorksToFetch))
  {
    FetchAllDescribed(pages);
    var last := StopFrom(pages, 0);
    if last >= |pages| {
      assert Continues(pages, |pages| - 1) by { StopFromContinues(pages, 0, |pages| - 1); }
      assert false;
    }
    assert Respond(pages, last).Answered?;
    if last < |pages| - 1 {
      assert |Gathered(pages, last + 1)| >= MaxWorksToFetch;
      GatheredPrefix(pages, last + 1, |pages|);
      assert Take(Gathered(pages, last + 1), MaxWorksToFetch)
          == Take(Gathered(pages, |pages|), MaxWorksToFetch);
    }
  }

  /**
   * When the request for page `k` fails after earlier pages that all linked
   * onward without reaching the cap, the result is the sort of everything the
   * earlier pages gave: nothing gathered is lost and no error escapes.
   */
  lemma FetchAllKeepsPartialResult(pages: seq<Response>, k: nat)
    requires forall j :: 0 <= j < k ==> Continues(pages, j)
    requires Respond(pages, k).FetchFailed?
    ensures |FetchAll(pages).requests| == k + 1
    ensures FetchAll(pages).works == MenuOrderSorted(Gathered(pages, k))
    ensures multiset(FetchAll(pages).works) == multiset(Gathered(pages, k))
  {
    FetchAllDescribed(pages);
    StopIsFirst(pages, 0, k);
    SortSortsAndPermutes(Gathered(pages, k));
  }

  /** Three full pages of 100, linked on the first two: exactly three
      requests, the last with the second page's cursor, and all 300 works
      come back, none truncated. */
  lemma ThreePagesOfHundred(a: seq<Work>, b: seq<Work>, c: seq<Work>)
    requires |a| == 100 && |b| == 100 && |c| == 100
    ensures var pages := [Answered(Page(a, true, "c1")), Answered(Page(b, true, "c2")),
                          Answered(Page(c, false, ""))];
            && |FetchAll(pages).requests| == 3
            && FetchAll(pages).requests[2] == Request(100, Some("c2"))
            && FetchAll(pages).works == MenuOrderSorted(a + b + c)
            && |FetchAll(pages).works| == 300
  {
    var pages := [Answered(Page(a, true, "c1")), Answered(Page(b, true, "c2")),
                  Answered(Page(c, false, ""))];
    ThreePagesGathered(pages, a, b, c);
    assert Continues(pages, 0) && Continues(pages, 1) && !Continues(pages, 2);
    StopIsFirst(pages, 0, 2);
    FetchAllDescribed(pages);
    assert CursorFor(pages, 2) == Some("c2");
    assert Take(a + b + c, MaxWorksToFetch) == a + b + c;
  }

  /** What the three pages of `ThreePagesOfHundred` gather, page by page. */
  lemma ThreePagesGathered(pages: seq<Response>, a: seq<Work>, b: seq<Work>, c: seq<Work>)
    requires pages == [Answered(Page(a, true, "c1")), Answered(Page(b, true, "c2")),
                       Answered(Page(c, false, ""))]
    ensures Gathered(pages, 1) == a
    ensures Gathered(pages, 2) == a + b
    ensures Gathered(pages, 3) == a + b + c
  {
    assert Gathered(pages, 0) == [];
    assert Respond(pages, 0) == pages[0];
    assert Respond(pages, 1) == pages[1];
    assert Respond(pages, 2) == pages[2];
  }
}
