/**
 * Page windows over the sorted catalog (`getAllWorksWithPagination` of
 * app/all-works/page.js) and the page-number bar that links them
 * (`Pagination` of app/all-works/WorksClient.js).
 */
module Pager {
  import opened Values
  import opened Works
  import opened Ordering
  import opened SkillShape
  import opened Aggregation

  const WorksPerPage: nat := 9
  /** The page-number bar shows this many consecutive pages. */
  const ShowPages: nat := 5

  function Min(a: int, b: int): int { if a <= b then a else b }
  function Max(a: int, b: int): int { if a >= b then a else b }

  /** The `pagination` record handed to the client; `startIndex` and
      `endIndex` are 1-based positions for the "n of total" caption. */
  datatype PageInfo = PageInfo(
    currentPage: int,
    totalWorks: nat,
    totalPages: nat,
    hasNextPage: bool,
    hasPreviousPage: bool,
    startIndex: int,
    endIndex: int)

  datatype PageSlice = PageSlice(works: seq<Work>, pagination: PageInfo)

  /**
   * The pagination arithmetic: `Math.ceil(total / 9)` pages (none when there
   * are no works), the requested page clamped into range, and the JavaScript
   * `slice` of the page's nine positions.
   */
  function Paginate(all: seq<Work>, requestedPage: int): (r: PageSlice)
    ensures var n, p := |all|, r.pagination;
      && p.totalWorks == n
      && p.totalPages * 9 >= n
      && (p.totalPages == 0 || (p.totalPages - 1) * 9 < n)
      && (n == 0 <==> p.totalPages == 0)
      && 1 <= p.currentPage <= Max(p.totalPages, 1)
      && (1 <= requestedPage <= p.totalPages ==> p.currentPage == requestedPage)
      && (requestedPage < 1 ==> p.currentPage == 1)
      && (requestedPage > p.totalPages ==> p.currentPage == Max(p.totalPages, 1))
      && (p.hasNextPage <==> p.currentPage < p.totalPages)
      && (p.hasPreviousPage <==> p.currentPage > 1)
  {
    var totalWorks := |all|;
    var totalPages := (totalWorks + 8) / 9;
    var currentPage := Max(1, Min(requestedPage, if totalPages == 0 then 1 else totalPages));
    var startIndex := (currentPage - 1) * 9;
    var endIndex := startIndex + 9;
    var works := all[Min(startIndex, totalWorks)..Min(endIndex, totalWorks)];
    PageSlice(works, PageInfo(
      currentPage, totalWorks, totalPages,
      currentPage < totalPages, currentPage > 1,
      if totalWorks > 0 then startIndex + 1 else 0,
      Min(endIndex, totalWorks)))
  }

  /**
   * The works of the current page are the positions (p-1)*9 .. p*9-1 of the
   * whole list that exist; every page but the last is full, the caption's
   * range counts exactly the works shown, and an empty catalog shows nothing
   * with the caption 0-0.
   */
  lemma PaginateWindow(all: seq<Work>, requestedPage: int)
    ensures var r := Paginate(all, requestedPage); var p := r.pagination;
      && |r.works| <= WorksPerPage
      && (forall k :: 0 <= k < |r.works| ==>
            (p.currentPage - 1) * 9 + k < |all|
            && r.works[k] == all[(p.currentPage - 1) * 9 + k])
      && (p.currentPage < p.totalPages ==> |r.works| == WorksPerPage)
      && (|all| == 0 ==> r.works == [] && p.startIndex == 0 && p.endIndex == 0)
      && (|all| > 0 ==>
            && |r.works| >= 1
            && p.startIndex == (p.currentPage - 1) * 9 + 1
            && p.endIndex - p.startIndex + 1 == |r.works|)
  {
  }

  /** The works of pages 1 .. k, one after the other. */
  function PagesUpTo(all: seq<Work>, k: nat): seq<Work> {
    if k == 0 then [] else PagesUpTo(all, k - 1) + Paginate(all, k).works
  }

  lemma {:induction false} PagesUpToPrefix(all: seq<Work>, k: nat)
    requires k <= Paginate(all, 1).pagination.totalPages
    ensures PagesUpTo(all, k) == all[..Min(k * 9, |all|)]
  {
    if k > 0 {
      PagesUpToPrefix(all, k - 1);
      PageKHolds(all, k);
      PrefixSplits(all, (k - 1) * 9, Min(k * 9, |all|));
    }
  }

  lemma PrefixSplits(all: seq<Work>, lo: int, hi: int)
    requires 0 <= lo <= hi <= |all|
    ensures all[..hi] == all[..lo] + all[lo..hi]
  {
  }

  lemma PageKHolds(all: seq<Work>, k: int)
    requires 1 <= k <= Paginate(all, 1).pagination.totalPages
    ensures (k - 1) * 9 <= Min(k * 9, |all|) <= |all|
    ensures Paginate(all, k).works == all[(k - 1) * 9..Min(k * 9, |all|)]
  {
    var r := Paginate(all, k);
    var t := r.pagination.totalPages;
    SameTotalPages(|all|, t, Paginate(all, 1).pagination.totalPages);
    assert r.pagination.currentPage == k;
    PageArith(|all|, t, k);
  }

  /** The characterisation of the page count has one solution. */
  lemma SameTotalPages(n: nat, t1: nat, t2: nat)
    requires t1 * 9 >= n && (t1 == 0 || (t1 - 1) * 9 < n)
    requires t2 * 9 >= n && (t2 == 0 || (t2 - 1) * 9 < n)
    ensures t1 == t2
  {
  }

  /** The bounds of page k of t, for n works. */
  lemma PageArith(n: nat, t: nat, k: int)
    requires t * 9 >= n && (t == 0 || (t - 1) * 9 < n) && 1 <= k <= t
    ensures 0 <= (k - 1) * 9 < n
    ensures Min((k - 1) * 9, n) == (k - 1) * 9
    ensures Min((k - 1) * 9 + 9, n) == Min(k * 9, n)
    ensures (k - 1) * 9 <= Min(k * 9, n) <= n
  {
  }

  /** Walking pages 1 .. totalPages shows every work exactly once, in order. */
  lemma PagesCoverCatalog(all: seq<Work>)
    ensures PagesUpTo(all, Paginate(all, 1).pagination.totalPages) == all
  {
    var t := Paginate(all, 1).pagination.totalPages;
    PagesUpToPrefix(all, t);
    AllPagesReachEnd(all, t);
  }

  lemma AllPagesReachEnd(all: seq<Work>, t: int)
    requires t * 9 >= |all|
    ensures all[..Min(t * 9, |all|)] == all
  {
  }

  /** 23 works, page 5 requested: page 3 is shown, holding works 18 .. 22
      (0-based), captioned 19-23, with no next page. */
  lemma TwentyThreeWorksPageFive(all: seq<Work>)
    requires |all| == 23
    ensures var r := Paginate(all, 5);
      && r.pagination.totalPages == 3
      && r.pagination.currentPage == 3
      && r.works == all[18..23]
      && r.pagination.startIndex == 19 && r.pagination.endIndex == 23
      && !r.pagination.hasNextPage && r.pagination.hasPreviousPage
  {
  }

  /** The result of `getAllWorksWithPagination` when no exception escapes. */
  datatype CatalogPage = CatalogPage(works: seq<Work>, skillStructure: Shape, pagination: PageInfo)

  /**
   * The server side of the catalog page: resolve the skill shape, aggregate
   * every page of works, and cut out the requested window. The works shown
   * are in `menuOrder` order, at most nine of them, out of at most 1000.
   */
  function GetAllWorksWithPagination(nested: ProbeOutcome, direct: ProbeOutcome, meta: ProbeOutcome,
                                     pages: seq<Response>, requestedPage: int): (r: CatalogPage)
    ensures r.skillStructure != Unknown
    ensures r.pagination.totalWorks <= MaxWorksToFetch
    ensures |r.works| <= WorksPerPage
    ensures SortedByMenuOrder(r.works)
  {
    var structure := DetermineSkillStructure(nested, direct, meta);
    var allWorks := FetchAll(pages).works;
    FetchAllCapped(pages);
    FetchAllSorted(pages);
    PageOfSortedIsSorted(allWorks, requestedPage);
    var slice := Paginate(allWorks, requestedPage);
    CatalogPage(slice.works, structure, slice.pagination)
  }

  /** A page cut from a sorted catalog is sorted, and holds at most nine works. */
  lemma PageOfSortedIsSorted(all: seq<Work>, requestedPage: int)
    requires SortedByMenuOrder(all)
    ensures |Paginate(all, requestedPage).works| <= WorksPerPage
    ensures SortedByMenuOrder(Paginate(all, requestedPage).works)
  {
    var r := Paginate(all, requestedPage);
    var startIndex := (r.pagination.currentPage - 1) * 9;
    var lo, hi := Min(startIndex, |all|), Min(startIndex + 9, |all|);
    assert r.works == all[lo..hi];
    SliceSorted(all, lo, hi);
  }

  lemma SliceSorted(s: seq<Work>, lo: nat, hi: nat)
    requires lo <= hi <= |s| && SortedByMenuOrder(s)
    ensures SortedByMenuOrder(s[lo..hi])
  {
    forall i, j | 0 <= i < j < hi - lo
      ensures MenuKey(s[lo..hi][i]) <= MenuKey(s[lo..hi][j])
    {
      assert s[lo..hi][i] == s[lo + i] && s[lo..hi][j] == s[lo + j];
    }
  }

  /** Whatever the answers, the aggregated catalog is in `menuOrder` order. */
  lemma FetchAllSorted(pages: seq<Response>)
    ensures SortedByMenuOrder(FetchAll(pages).works)
  {
    FetchAllDescribed(pages);
    var last := StopFrom(pages, 0);
    if Respond(pages, last).FetchFailed? {
      SortSortsAndPermutes(Gathered(pages, last));
    } else {
      SortSortsAndPermutes(Take(Gathered(pages, last + 1), MaxWorksToFetch));
    }
  }

  // ---------------------------------------------------------------------------
  // Page URLs.

  /** `getPageUrl`: page 1 is the base path itself, page n is `base/page/n`. */
  function PageUrl(basePath: string, n: int): (url: string)
    ensures |basePath| <= |url| && url[..|basePath|] == basePath
    ensures url == basePath <==> n == 1
  {
    if n == 1 then basePath else basePath + "/page/" + IntToString(n)
  }

  /** Reads a page number back from a URL under `basePath`. */
  function PageOfUrl(basePath: string, url: string): Option<int> {
    var prefix := basePath + "/page/";
    if url == basePath then Some(1)
    else if |url| > |prefix| && url[..|prefix|] == prefix then
      match ParseNat(url[|prefix|..])
      case Some(k) => Some(k)
      case None => None
    else None
  }

  /** Every page from 1 on has its own URL, and the page number can be read back from it. */
  lemma PageUrlRoundTrip(basePath: string, n: int)
    requires n >= 1
    ensures PageOfUrl(basePath, PageUrl(basePath, n)) == Some(n)
  {
    if n != 1 {
      var prefix := basePath + "/page/";
      var url := PageUrl(basePath, n);
      assert url == prefix + NatToString(n);
      assert url[..|prefix|] == prefix;
      assert url[|prefix|..] == NatToString(n);
      ParseNatToString(n);
    }
  }

  lemma PageUrlInjective(basePath: string, m: int, n: int)
    requires m >= 1 && n >= 1 && PageUrl(basePath, m) == PageUrl(basePath, n)
    ensures m == n
  {
    PageUrlRoundTrip(basePath, m);
    PageUrlRoundTrip(basePath, n);
  }

  // ---------------------------------------------------------------------------
  // The page-number bar.

  /**
   * The window of page numbers around the current page: five wide (or all
   * pages when there are fewer), centred on the current page where possible
   * and shifted to stay within 1 .. total.
   */
  function PageWindow(current: int, total: int): (w: (int, int))
    requires total >= 1
    ensures 1 <= w.0 <= w.1 <= total
    ensures w.1 - w.0 + 1 == Min(ShowPages, total)
    ensures 1 <= current <= total ==> w.0 <= current <= w.1
  {
    var start := Max(1, current - 2);
    var end := Min(total, start + 4);
    if end - start + 1 < 5 then (Max(1, end - 4), end) else (start, end)
  }

  datatype PageItem = PageLink(page: int, href: string, isCurrent: bool) | Dots

  /** Links to pages lo .. hi, the current one marked. */
  function WindowLinks(lo: int, hi: int, current: int, basePath: string): (r: seq<PageItem>)
    ensures |r| == Max(hi - lo + 1, 0)
    decreases hi - lo + 1
  {
    if hi < lo then []
    else WindowLinks(lo, hi - 1, current, basePath) + [PageLink(hi, PageUrl(basePath, hi), hi == current)]
  }

  lemma {:induction false} WindowLinksAt(lo: int, hi: int, current: int, basePath: string, k: int)
    requires 0 <= k <= hi - lo
    ensures WindowLinks(lo, hi, current, basePath)[k]
         == PageLink(lo + k, PageUrl(basePath, lo + k), lo + k == current)
    decreases hi - lo
  {
    if k < hi - lo {
      WindowLinksAt(lo, hi - 1, current, basePath, k);
    }
  }

  /** Page 1 and, when a gap follows it, the leading dots. */
  function Leading(start: int, basePath: string): seq<PageItem> {
    if start > 1 then [PageLink(1, PageUrl(basePath, 1), false)] + (if start > 2 then [Dots] else [])
    else []
  }

  /** The trailing dots, when a gap precedes the last page, and the last page. */
  function Trailing(end: int, total: int, basePath: string): seq<PageItem> {
    if end < total then (if end < total - 1 then [Dots] else []) + [PageLink(total, PageUrl(basePath, total), false)]
    else []
  }

  /** The whole bar: page 1, the window and the last page, with dots over the gaps. */
  function PageNumbers(current: int, total: int, basePath: string): (r: seq<PageItem>)
    requires total >= 1
    ensures Min(ShowPages, total) <= |r| <= Min(ShowPages, total) + 4
  {
    var w := PageWindow(current, total);
    Leading(w.0, basePath) + WindowLinks(w.0, w.1, current, basePath) + Trailing(w.1, total, basePath)
  }

  /**
   * `renderPageNumbers`: computes the window, then pushes page 1 and the
   * leading dots, each page of the window, and the trailing dots and the
   * last page.
   */
  method RenderPageNumbers(current: int, total: int, basePath: string) returns (pages: seq<PageItem>)
    requires total >= 1
    ensures pages == PageNumbers(current, total, basePath)
  {
    var startPage, endPage := WindowBounds(current, total);

    pages := [];
    if startPage > 1 {
      pages := pages + [PageLink(1, PageUrl(basePath, 1), false)];
      if startPage > 2 {
        pages := pages + [Dots];
      }
    }
    assert pages == Leading(startPage, basePath);

    pages := PushWindow(pages, startPage, endPage, current, basePath);
    ghost var middle := pages;

    if endPage < total {
      if endPage < total - 1 {
        pages := pages + [Dots];
      }
      pages := pages + [PageLink(total, PageUrl(basePath, total), false)];
    }
    assert pages == middle + Trailing(endPage, total, basePath);
  }

  /** The `for` loop of `renderPageNumbers`: one link per page of the window. */
  method PushWindow(pages0: seq<PageItem>, startPage: int, endPage: int, current: int, basePath: string)
    returns (pages: seq<PageItem>)
    requires startPage <= endPage
    ensures pages == pages0 + WindowLinks(startPage, endPage, current, basePath)
  {
    pages := pages0;
    var i := startPage;
    while i <= endPage
      invariant startPage <= i <= endPage + 1
      invariant pages == pages0 + WindowLinks(startPage, i - 1, current, basePath)
    {
      var link := PageLink(i, PageUrl(basePath, i), i == current);
      ghost var before := WindowLinks(startPage, i - 1, current, basePath);
      assert WindowLinks(startPage, i, current, basePath) == before + [link];
      pages := pages + [link];
      assert pages == pages0 + (before + [link]);
      i := i + 1;
    }
  }

  /** The first part of `renderPageNumbers`: the window, with its start
      pulled back when it would run past the last page. */
  method WindowBounds(current: int, total: int) returns (startPage: int, endPage: int)
    requires total >= 1
    ensures (startPage, endPage) == PageWindow(current, total)
  {
    startPage := Max(1, current - 2);
    endPage := Min(total, startPage + 4);
    if endPage - startPage + 1 < 5 {
      startPage := Max(1, endPage - 4);
    }
  }

  /** Where each entry of the bar sits: page 1 and the dots first, the window, then the rest. */
  lemma PageNumbersAt(current: int, total: int, basePath: string, k: int)
    requires total >= 2
    requires 0 <= k < |PageNumbers(current, total, basePath)|
    ensures var p := PageNumbers(current, total, basePath);
            var (s, e) := PageWindow(current, total);
            var lead := |Leading(s, basePath)|;
            var w := e - s + 1;
            && |p| == lead + w + |Trailing(e, total, basePath)|
            && (k < lead ==> (k == 0 ==> p[k] == PageLink(1, PageUrl(basePath, 1), false))
                             && (k == 1 ==> p[k] == Dots && s > 2))
            && (lead <= k < lead + w ==>
                  p[k] == PageLink(s + k - lead, PageUrl(basePath, s + k - lead), s + k - lead == current))
            && (lead + w <= k ==>
                  if k == |p| - 1 then p[k] == PageLink(total, PageUrl(basePath, total), false)
                  else p[k] == Dots && e < total - 1)
  {
    var (s, e) := PageWindow(current, total);
    var lead := |Leading(s, basePath)|;
    if lead <= k < lead + e - s + 1 {
      WindowLinksAt(s, e, current, basePath, k - lead);
    }
  }

  /**
   * The bar starts with page 1 and ends with the last page, and every link
   * goes to an existing page through that page's own URL.
   */
  lemma PageNumbersEnds(current: int, total: int, basePath: string)
    requires total >= 2
    ensures var p := PageNumbers(current, total, basePath);
      && |p| >= 2
      && p[0].PageLink? && p[0].page == 1
      && p[|p| - 1].PageLink? && p[|p| - 1].page == total
      && (forall k :: 0 <= k < |p| && p[k].PageLink? ==>
            p[k].href == PageUrl(basePath, p[k].page) && 1 <= p[k].page <= total)
  {
    var p := PageNumbers(current, total, basePath);
    forall k | 0 <= k < |p| && p[k].PageLink?
      ensures p[k].href == PageUrl(basePath, p[k].page) && 1 <= p[k].page <= total
    {
      PageNumbersAt(current, total, basePath, k);
    }
    PageNumbersAt(current, total, basePath, 0);
    PageNumbersAt(current, total, basePath, |p| - 1);
  }

  /** The page numbers of the bar are strictly increasing. */
  lemma PageNumbersIncreasing(current: int, total: int, basePath: string)
    requires total >= 2
    ensures var p := PageNumbers(current, total, basePath);
      forall i, j :: 0 <= i < j < |p| && p[i].PageLink? && p[j].PageLink? ==> p[i].page < p[j].page
  {
    var p := PageNumbers(current, total, basePath);
    forall i, j | 0 <= i < j < |p| && p[i].PageLink? && p[j].PageLink?
      ensures p[i].page < p[j].page
    {
      PageNumbersAt(current, total, basePath, i);
      PageNumbersAt(current, total, basePath, j);
    }
  }

  /** The leading dots appear exactly when the window starts after page 2, the
      trailing dots exactly when it ends before the second-to-last page, and
      dots appear nowhere else. */
  lemma PageNumbersDots(current: int, total: int, basePath: string)
    requires total >= 2
    ensures var p := PageNumbers(current, total, basePath);
      var (s, e) := PageWindow(current, total);
      && (|p| >= 3 ==> (p[1].Dots? <==> s > 2) && (p[|p| - 2].Dots? <==> e < total - 1))
      && forall k :: 0 <= k < |p| && p[k].Dots? ==> k == 1 || k == |p| - 2
  {
    var p := PageNumbers(current, total, basePath);
    forall k | 0 <= k < |p|
      ensures var (s, e) := PageWindow(current, total);
              && (k == 1 ==> (p[k].Dots? <==> s > 2))
              && (k == |p| - 2 && |p| >= 3 ==> (p[k].Dots? <==> e < total - 1))
              && (p[k].Dots? ==> k == 1 || k == |p| - 2)
    {
      PageNumbersAt(current, total, basePath, k);
    }
  }

  /** The pages linked are exactly page 1, the last page and the window. */
  lemma PageNumbersLinkSet(current: int, total: int, basePath: string, n: int)
    requires total >= 2
    ensures var p := PageNumbers(current, total, basePath);
      var (s, e) := PageWindow(current, total);
      (exists k :: 0 <= k < |p| && p[k].PageLink? && p[k].page == n)
        <==> (n == 1 || n == total || s <= n <= e)
  {
    var p := PageNumbers(current, total, basePath);
    var (s, e) := PageWindow(current, total);
    var lead := |Leading(s, basePath)|;
    forall k | 0 <= k < |p| && p[k].PageLink? && p[k].page == n
      ensures n == 1 || n == total || s <= n <= e
    {
      PageNumbersAt(current, total, basePath, k);
    }
    if n == 1 {
      PageNumbersAt(current, total, basePath, 0);
      if s == 1 { assert p[lead].page == 1; }
    } else if s <= n <= e {
      PageNumbersAt(current, total, basePath, lead + n - s);
    } else if n == total {
      PageNumbersAt(current, total, basePath, |p| - 1);
    }
  }

  /** With the current page in range, exactly one link is marked current:
      the link to the current page. */
  lemma PageNumbersMarkCurrent(current: int, total: int, basePath: string)
    requires total >= 2 && 1 <= current <= total
    ensures var p := PageNumbers(current, total, basePath);
      forall k :: 0 <= k < |p| && p[k].PageLink? ==> (p[k].isCurrent <==> p[k].page == current)
  {
    var p := PageNumbers(current, total, basePath);
    forall k | 0 <= k < |p| && p[k].PageLink?
      ensures p[k].isCurrent <==> p[k].page == current
    {
      PageNumbersAt(current, total, basePath, k);
    }
  }

  /** What `Pagination` renders when there is more than one page. */
  datatype Nav = Nav(previous: Option<string>, numbers: seq<PageItem>, next: Option<string>)

  /**
   * `Pagination`: nothing for a single page (or none); otherwise a link to
   * the previous page when there is one, the page-number bar, and a link to
   * the next page when there is one.
   */
  method Pagination(info: PageInfo, basePath: string) returns (nav: Option<Nav>)
    ensures nav.None? <==> info.totalPages <= 1
    ensures nav.Some? ==>
      && nav.value.numbers == PageNumbers(info.currentPage, info.totalPages, basePath)
      && (nav.value.previous.Some? <==> info.hasPreviousPage)
      && (info.hasPreviousPage ==> nav.value.previous == Some(PageUrl(basePath, info.currentPage - 1)))
      && (nav.value.next.Some? <==> info.hasNextPage)
      && (info.hasNextPage ==> nav.value.next == Some(PageUrl(basePath, info.currentPage + 1)))
  {
    if info.totalPages <= 1 {
      return None;
    }
    var previous := if info.hasPreviousPage then Some(PageUrl(basePath, info.currentPage - 1)) else None;
    var numbers := RenderPageNumbers(info.currentPage, info.totalPages, basePath);
    var next := if info.hasNextPage then Some(PageUrl(basePath, info.currentPage + 1)) else None;
    return Some(Nav(previous, numbers, next));
  }

  /** For a record produced by the pagination arithmetic, the previous and
      next links lead to existing pages, one either side of the current one. */
  lemma PrevNextStayInRange(all: seq<Work>, requestedPage: int)
    ensures var p := Paginate(all, requestedPage).pagination;
      && (p.hasPreviousPage ==> 1 <= p.currentPage - 1 < p.currentPage)
      && (p.hasNextPage ==> p.currentPage < p.currentPage + 1 <= p.totalPages)
      && (p.totalPages >= 2 ==> 1 <= p.currentPage <= p.totalPages)
  {
  }
}
