/**
 * The page-group arithmetic of `components/ui/Pagination.tsx`.  Pages are
 * shown in groups of five; the bar has a first-page, a previous-group, a
 * next-group and a last-page control around the page numbers of the current
 * group.  Page numbers are integers; every link keeps the current query and
 * sets `page`.
 */
module Pagination {
  import opened Common
  import opened Text
  import opened SearchParams

  const MaxVisiblePages := 5

  /** `Math.ceil(currentPage / 5)`, for an integral page. */
  function CurrentGroup(currentPage: int): (g: int)
    ensures (g - 1) * MaxVisiblePages < currentPage <= g * MaxVisiblePages
  {
    -((-currentPage) / MaxVisiblePages)
  }

  function StartPage(currentPage: int): int {
    (CurrentGroup(currentPage) - 1) * MaxVisiblePages + 1
  }

  function EndPage(currentPage: int, totalPages: int): int {
    Min(totalPages, StartPage(currentPage) + MaxVisiblePages - 1)
  }

  function Min(a: int, b: int): int { if a <= b then a else b }

  function Max(a: int, b: int): int { if a >= b then a else b }

  /** The group of a valid page starts at a multiple of five plus one, holds
    * the page, and shows at most five pages. */
  lemma GroupBounds(currentPage: int, totalPages: int)
    requires 1 <= currentPage <= totalPages
    ensures var start := StartPage(currentPage);
      var end := EndPage(currentPage, totalPages);
      1 <= start <= currentPage <= end <= totalPages
      && end - start + 1 <= MaxVisiblePages
      && (start - 1) % MaxVisiblePages == 0
  {
    var g := CurrentGroup(currentPage);
    assert (g - 1) * MaxVisiblePages < currentPage;
    assert g >= 1;
  }

  /** Every page of a group lies in the same group. */
  lemma SameGroup(currentPage: int, page: int)
    requires StartPage(currentPage) <= page < StartPage(currentPage) + MaxVisiblePages
    ensures StartPage(page) == StartPage(currentPage)
  {
    var g := CurrentGroup(currentPage);
    var h := CurrentGroup(page);
    assert (g - 1) * MaxVisiblePages < page <= g * MaxVisiblePages;
    assert (h - 1) * MaxVisiblePages < page <= h * MaxVisiblePages;
    assert g == h;
  }

  /** One rendered page number. */
  datatype PageLink = PageLink(page: int, active: bool)

  /** `renderPageNumbers()`: one link per page from the start to the end of
    * the group, ascending, the current page active. */
  method RenderPageNumbers(currentPage: int, totalPages: int) returns (pages: seq<PageLink>)
    ensures var start := StartPage(currentPage);
      |pages| == Max(0, EndPage(currentPage, totalPages) - start + 1)
      && forall k :: 0 <= k < |pages| ==> pages[k] == PageLink(start + k, start + k == currentPage)
  {
    var startPage := StartPage(currentPage);
    var endPage := EndPage(currentPage, totalPages);
    pages := [];
    var i := startPage;
    while i <= endPage
      invariant startPage <= i && (i <= endPage + 1 || (i == startPage && endPage < startPage))
      invariant |pages| == i - startPage
      invariant forall k :: 0 <= k < |pages| ==> pages[k] == PageLink(startPage + k, startPage + k == currentPage)
    {
      pages := pages + [PageLink(i, i == currentPage)];
      i := i + 1;
    }
  }

  /** The four controls around the page numbers: whether each is disabled
    * and the page it leads to. */
  datatype Controls = Controls(
    firstDisabled: bool, prevDisabled: bool, prevTarget: int,
    nextDisabled: bool, nextTarget: int, lastDisabled: bool, lastTarget: int)

  /** The controls of the bar at `currentPage` of `totalPages`. */
  function BarControls(currentPage: int, totalPages: int): (c: Controls)
    ensures c.firstDisabled <==> currentPage <= 1
    ensures c.lastDisabled <==> currentPage >= totalPages
    ensures c.prevDisabled <==> StartPage(currentPage) <= 1
    ensures c.nextDisabled <==> EndPage(currentPage, totalPages) >= totalPages
    ensures c.lastTarget == totalPages
  {
    var start := StartPage(currentPage);
    var end := EndPage(currentPage, totalPages);
    var hasPrevGroup := start > 1;
    var hasNextGroup := end < totalPages;
    Controls(currentPage <= 1, !hasPrevGroup, Max(1, start - 1),
      !hasNextGroup, Min(totalPages, end + 1), currentPage >= totalPages, totalPages)
  }

  /** The previous-group control leads to the last page of the group before,
    * and the next-group control to the first page of the group after. */
  lemma GroupTargets(currentPage: int, totalPages: int)
    requires 1 <= currentPage <= totalPages
    ensures var c := BarControls(currentPage, totalPages);
      var start := StartPage(currentPage);
      (!c.prevDisabled ==>
        c.prevTarget == start - 1 && StartPage(c.prevTarget) == start - MaxVisiblePages)
      && (!c.nextDisabled ==>
        c.nextTarget == EndPage(currentPage, totalPages) + 1 && StartPage(c.nextTarget) == c.nextTarget
        && c.nextTarget == start + MaxVisiblePages)
  {
    GroupBounds(currentPage, totalPages);
    var start := StartPage(currentPage);
    var g := CurrentGroup(currentPage);
    if start > 1 {
      var h := CurrentGroup(start - 1);
      assert (h - 1) * MaxVisiblePages < start - 1 <= h * MaxVisiblePages;
      assert h == g - 1;
    }
    var end := EndPage(currentPage, totalPages);
    if end < totalPages {
      assert end == start + MaxVisiblePages - 1;
      var h := CurrentGroup(end + 1);
      assert (h - 1) * MaxVisiblePages < end + 1 <= h * MaxVisiblePages;
      assert h == g + 1;
    }
  }

  /** `createPageUrl(page)`: the base URL with the current query, `page` set. */
  function CreatePageUrl(baseUrl: string, query: Params, page: int, encode: string -> string): string {
    baseUrl + "?" + Serialize(Set(query, "page", IntToString(page)), encode)
  }

  /** The link's query has exactly one `page`, the one asked for, and every
    * other parameter with its values. */
  lemma PageUrlKeepsQuery(query: Params, page: int, other: string)
    ensures Get(Set(query, "page", IntToString(page)), "page") == Some(IntToString(page))
    ensures Values(Set(query, "page", IntToString(page)), "page") == [IntToString(page)]
    ensures other != "page" ==> Values(Set(query, "page", IntToString(page)), other) == Values(query, other)
  {
    SetValues(query, "page", IntToString(page), other);
  }

  /** The whole bar: nothing for a single page, otherwise the controls and
    * the page numbers. */
  datatype Bar = Bar(controls: Controls, pages: seq<PageLink>)

  method RenderPagination(currentPage: int, totalPages: int) returns (bar: Option<Bar>)
    ensures bar.None? <==> totalPages <= 1
    ensures bar.Some? ==> bar.value.controls == BarControls(currentPage, totalPages)
    ensures bar.Some? && 1 <= currentPage <= totalPages ==>
      1 <= |bar.value.pages| <= MaxVisiblePages
      && (exists k :: 0 <= k < |bar.value.pages| && bar.value.pages[k] == PageLink(currentPage, true))
      && forall k :: 0 <= k < |bar.value.pages| ==> 1 <= bar.value.pages[k].page <= totalPages
  {
    if totalPages <= 1 {
      return None;
    }
    var pages := RenderPageNumbers(currentPage, totalPages);
    if 1 <= currentPage <= totalPages {
      GroupBounds(currentPage, totalPages);
      var k := currentPage - StartPage(currentPage);
      assert pages[k] == PageLink(currentPage, true);
    }
    return Some(Bar(BarControls(currentPage, totalPages), pages));
  }
}
