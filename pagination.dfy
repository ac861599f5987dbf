/**
 * The pagination bar of the employee list: the page count, the sliding window of
 * at most five page numbers around the current page, the first/last page buttons
 * with their ellipses, and the previous/next buttons. The bar is a sequence of
 * tokens instead of markup.
 */
module Pagination {
  import opened EmployeeStore

  const MaxVisiblePages: int := 5

  datatype Token =
    | Prev(disabled: bool)
    | PageButton(page: int, active: bool)
    | Ellipsis
    | Next(disabled: bool)

  function Max(a: int, b: int): int {
    if a >= b then a else b
  }

  /** `Math.ceil(total / size)`: the fewest pages of `size` records that hold `total` records. */
  function TotalPages(total: nat, size: nat): (r: nat)
    requires size > 0
    ensures r * size >= total
    ensures r == 0 || (r - 1) * size < total
  {
    var r := (total + size - 1) / size;
    CeilingBounds(total, size, r);
    r
  }

  lemma CeilingBounds(total: nat, size: nat, r: int)
    requires size > 0 && r == (total + size - 1) / size
    ensures r >= 0 && r * size >= total && (r == 0 || (r - 1) * size < total)
  {
    var m := (total + size - 1) % size;
    assert total + size - 1 == r * size + m;
    assert (r - 1) * size == r * size - size;
  }

  /** The first and last page numbers of the window, as the component computes them. */
  function Window(currentPage: int, totalPages: int): (int, int) {
    var start := Max(1, currentPage - MaxVisiblePages / 2);
    var end := Min(totalPages, start + MaxVisiblePages - 1);
    if end - start + 1 < MaxVisiblePages then (Max(1, end - MaxVisiblePages + 1), end) else (start, end)
  }

  /** For a current page within range, the window lies in range, holds the current page and spans min(5, totalPages) pages. */
  lemma WindowBounds(currentPage: int, totalPages: int)
    requires 1 <= currentPage <= totalPages
    ensures var (first, last) := Window(currentPage, totalPages);
      && 1 <= first <= currentPage <= last <= totalPages
      && last - first + 1 == Min(MaxVisiblePages, totalPages)
  {
  }

  /** The buttons for pages `first..last`, the current one marked active. */
  function PageRun(first: int, last: int, currentPage: int): (r: seq<Token>)
    decreases last - first
    ensures |r| == if first <= last then last - first + 1 else 0
    ensures forall k :: 0 <= k < |r| ==> r[k] == PageButton(first + k, first + k == currentPage)
  {
    if last < first then [] else PageRun(first, last - 1, currentPage) + [PageButton(last, last == currentPage)]
  }

  /** The page-1 button, and an ellipsis when pages are hidden after it. */
  function Leading(first: int): seq<Token> {
    if first > 1 then [PageButton(1, false)] + (if first > 2 then [Ellipsis] else []) else []
  }

  /** An ellipsis when pages are hidden before the last page, then the last-page button. */
  function Trailing(last: int, totalPages: int): seq<Token> {
    if last < totalPages then (if last < totalPages - 1 then [Ellipsis] else []) + [PageButton(totalPages, false)] else []
  }

  /** The whole bar, in the order `_renderPaginationNumbers` pushes it. */
  function PaginationTokens(currentPage: int, totalPages: int): seq<Token> {
    var (first, last) := Window(currentPage, totalPages);
    [Prev(currentPage == 1)] + Leading(first) + PageRun(first, last, currentPage) + Trailing(last, totalPages)
      + [Next(currentPage == totalPages)]
  }

  lemma PaginationTokensParts(currentPage: int, totalPages: int, first: int, last: int)
    requires (first, last) == Window(currentPage, totalPages)
    ensures PaginationTokens(currentPage, totalPages)
      == [Prev(currentPage == 1)] + Leading(first) + PageRun(first, last, currentPage) + Trailing(last, totalPages)
      + [Next(currentPage == totalPages)]
  {
  }

  /** `_renderPaginationNumbers` for the component's current page and page count. */
  method RenderPaginationNumbers(currentPage: int, totalPages: int) returns (pages: seq<Token>)
    ensures pages == PaginationTokens(currentPage, totalPages)
  {
    pages := [Prev(currentPage == 1)];

    var startPage := Max(1, currentPage - MaxVisiblePages / 2);
    var endPage := Min(totalPages, startPage + MaxVisiblePages - 1);
    if endPage - startPage + 1 < MaxVisiblePages {
      startPage := Max(1, endPage - MaxVisiblePages + 1);
    }
    assert (startPage, endPage) == Window(currentPage, totalPages);

    if startPage > 1 {
      pages := pages + [PageButton(1, false)];
      if startPage > 2 {
        pages := pages + [Ellipsis];
      }
    }
    assert pages == [Prev(currentPage == 1)] + Leading(startPage);

    pages := PushPageRange(pages, startPage, endPage, currentPage);
    ghost var middle := pages;

    if endPage < totalPages {
      if endPage < totalPages - 1 {
        pages := pages + [Ellipsis];
      }
      pages := pages + [PageButton(totalPages, false)];
    }
    assert pages == middle + Trailing(endPage, totalPages);

    pages := pages + [Next(currentPage == totalPages)];
    PaginationTokensParts(currentPage, totalPages, startPage, endPage);
  }

  /** The `for` loop of `_renderPaginationNumbers`: one button per page of the window. */
  method PushPageRange(pages: seq<Token>, startPage: int, endPage: int, currentPage: int) returns (out: seq<Token>)
    ensures out == pages + PageRun(startPage, endPage, currentPage)
  {
    out := pages;
    ghost var run := [];
    var i := startPage;
    while i <= endPage
      invariant startPage <= i && (i <= endPage + 1 || i == startPage)
      invariant out == pages + run
      invariant run == PageRun(startPage, i - 1, currentPage)
      decreases endPage - i
    {
      out := out + [PageButton(i, i == currentPage)];
      run := run + [PageButton(i, i == currentPage)];
      i := i + 1;
    }
  }

  /** The page numbers on the buttons of a bar, left to right. */
  function Shown(tokens: seq<Token>): seq<int> {
    if tokens == [] then []
    else (if tokens[0].PageButton? then [tokens[0].page] else []) + Shown(tokens[1..])
  }

  lemma {:induction false} ShownAppend(a: seq<Token>, b: seq<Token>)
    ensures Shown(a + b) == Shown(a) + Shown(b)
  {
    if a == [] {
      assert a + b == b;
    } else {
      var c, head := a + b, if a[0].PageButton? then [a[0].page] else [];
      assert c[0] == a[0] && c[1..] == a[1..] + b;
      assert Shown(c) == head + Shown(c[1..]);
      assert Shown(a) == head + Shown(a[1..]);
      ShownAppend(a[1..], b);
    }
  }

  /** The numbers `first..last`. */
  function Range(first: int, last: int): (r: seq<int>)
    ensures |r| == if first <= last then last - first + 1 else 0
    ensures forall k :: 0 <= k < |r| ==> r[k] == first + k
  {
    if last < first then [] else seq(last - first + 1, k => first + k)
  }

  lemma {:induction false} ShownPageRun(first: int, last: int, currentPage: int)
    decreases last - first
    ensures Shown(PageRun(first, last, currentPage)) == Range(first, last)
  {
    if first <= last {
      ShownPageRun(first, last - 1, currentPage);
      ShownAppend(PageRun(first, last - 1, currentPage), [PageButton(last, last == currentPage)]);
      assert Range(first, last - 1) + [last] == Range(first, last);
    }
  }

  predicate StrictlyIncreasing(s: seq<int>) {
    forall i, j :: 0 <= i < j < |s| ==> s[i] < s[j]
  }

  /** Page 1 when the window starts after it. */
  function LeadPages(first: int): seq<int> {
    if first > 1 then [1] else []
  }

  /** The last page when the window ends before it. */
  function TrailPages(last: int, totalPages: int): seq<int> {
    if last < totalPages then [totalPages] else []
  }

  /** A bar piece without page buttons shows no page. */
  lemma ShownNone(t: Token)
    requires !t.PageButton?
    ensures Shown([t]) == []
  {
    assert [t][1..] == [];
  }

  lemma ShownLeading(first: int)
    ensures Shown(Leading(first)) == LeadPages(first)
  {
    if first > 1 {
      var tail := if first > 2 then [Ellipsis] else [];
      ShownAppend([PageButton(1, false)], tail);
      assert [PageButton(1, false)][1..] == [];
      if first > 2 {
        ShownNone(Ellipsis);
      }
    }
  }

  lemma ShownTrailing(last: int, totalPages: int)
    ensures Shown(Trailing(last, totalPages)) == TrailPages(last, totalPages)
  {
    if last < totalPages {
      var gap := if last < totalPages - 1 then [Ellipsis] else [];
      ShownAppend(gap, [PageButton(totalPages, false)]);
      assert [PageButton(totalPages, false)][1..] == [];
      if last < totalPages - 1 {
        ShownNone(Ellipsis);
      }
    }
  }

  /** The pages on the bar's buttons are page 1, the window and the last page, as far as each is drawn. */
  lemma ShownBar(currentPage: int, totalPages: int)
    ensures var (first, last) := Window(currentPage, totalPages);
      Shown(PaginationTokens(currentPage, totalPages)) == LeadPages(first) + Range(first, last) + TrailPages(last, totalPages)
  {
    var (first, last) := Window(currentPage, totalPages);
    PaginationTokensParts(currentPage, totalPages, first, last);
    var lead, run, trail := Leading(first), PageRun(first, last, currentPage), Trailing(last, totalPages);
    var prev, next := [Prev(currentPage == 1)], [Next(currentPage == totalPages)];
    ShownAppend(prev + lead + run + trail, next);
    ShownAppend(prev + lead + run, trail);
    ShownAppend(prev + lead, run);
    ShownAppend(prev, lead);
    ShownNone(Prev(currentPage == 1));
    ShownNone(Next(currentPage == totalPages));
    ShownLeading(first);
    ShownPageRun(first, last, currentPage);
    ShownTrailing(last, totalPages);
    var lp, rp, tp := LeadPages(first), Range(first, last), TrailPages(last, totalPages);
    assert [] + lp + rp + tp + [] == lp + rp + tp;
  }

  /**
   * For a current page in range, the pages on the buttons are increasing, so none
   * is drawn twice; page 1 comes first, the last page last, and the current page
   * is among them.
   */
  lemma PaginationPages(currentPage: int, totalPages: int)
    requires 1 <= currentPage <= totalPages
    ensures var shown := Shown(PaginationTokens(currentPage, totalPages));
      && StrictlyIncreasing(shown)
      && |shown| > 0 && shown[0] == 1 && shown[|shown| - 1] == totalPages
      && currentPage in shown
  {
    var (first, last) := Window(currentPage, totalPages);
    WindowBounds(currentPage, totalPages);
    ShownBar(currentPage, totalPages);
    var lead, range, trail := LeadPages(first), Range(first, last), TrailPages(last, totalPages);
    var shown := lead + range + trail;
    var a, b := |lead|, |range|;
    assert forall i :: 0 <= i < |shown| ==>
      shown[i] == if i < a then 1 else if i < a + b then first + i - a else totalPages;
    assert currentPage == shown[a + currentPage - first];
  }

  /**
   * The bar opens with Prev (disabled exactly on page 1) and the page-1 button, and closes
   * with the last-page button and Next (disabled exactly on the last page); an ellipsis
   * follows page 1 exactly when the window starts after page 2, and one precedes the last
   * page exactly when the window ends before the second-to-last page.
   */
  lemma PaginationEdges(currentPage: int, totalPages: int)
    requires 1 <= currentPage <= totalPages
    ensures var (first, last) := Window(currentPage, totalPages);
      var t := PaginationTokens(currentPage, totalPages);
      && |t| >= 3
      && t[0] == Prev(currentPage == 1) && t[|t| - 1] == Next(currentPage == totalPages)
      && t[1] == PageButton(1, currentPage == 1)
      && t[|t| - 2] == PageButton(totalPages, currentPage == totalPages)
      && (t[2] == Ellipsis <==> first > 2)
      && (t[|t| - 3] == Ellipsis <==> last < totalPages - 1)
  {
    var (first, last) := Window(currentPage, totalPages);
    WindowBounds(currentPage, totalPages);
    PaginationTokensParts(currentPage, totalPages, first, last);
    var lead, run, trail := Leading(first), PageRun(first, last, currentPage), Trailing(last, totalPages);
    var middle := lead + run + trail;
    var t := PaginationTokens(currentPage, totalPages);
    assert t == [Prev(currentPage == 1)] + middle + [Next(currentPage == totalPages)];
    assert |run| == last - first + 1 >= 1;
    assert t[1] == middle[0] && t[|t| - 2] == middle[|middle| - 1];
    assert middle[0] == PageButton(1, currentPage == 1) by {
      if first == 1 {
        assert middle[0] == run[0];
      }
    }
    assert middle[|middle| - 1] == PageButton(totalPages, currentPage == totalPages) by {
      if last == totalPages {
        assert middle[|middle| - 1] == run[|run| - 1];
      }
    }
    assert t[2] == Ellipsis <==> first > 2 by {
      if first == 2 {
        assert t[2] == run[0];
      } else if first == 1 && |run| >= 2 {
        assert t[2] == run[1];
      } else if first == 1 {
        assert |t| == 3;
      }
    }
    assert t[|t| - 3] == Ellipsis <==> last < totalPages - 1 by {
      if last == totalPages - 1 {
        assert t[|t| - 3] == run[|run| - 1];
      } else if last == totalPages && |run| >= 2 {
        assert t[|t| - 3] == run[|run| - 2];
      } else if last == totalPages {
        assert |t| == 3;
      }
    }
  }

  /** Of all the page buttons, only the current page's is marked active. */
  lemma PaginationActive(currentPage: int, totalPages: int)
    requires 1 <= currentPage <= totalPages
    ensures var t := PaginationTokens(currentPage, totalPages);
      forall k :: 0 <= k < |t| && t[k].PageButton? ==> (t[k].active <==> t[k].page == currentPage)
  {
    var (first, last) := Window(currentPage, totalPages);
    WindowBounds(currentPage, totalPages);
    PaginationTokensParts(currentPage, totalPages, first, last);
    var lead, run, trail := Leading(first), PageRun(first, last, currentPage), Trailing(last, totalPages);
    var t := PaginationTokens(currentPage, totalPages);
    assert t == [Prev(currentPage == 1)] + lead + run + trail + [Next(currentPage == totalPages)];
    var n := |t|;
    assert n == |lead| + |run| + |trail| + 2;
    forall k | 0 <= k < n && t[k].PageButton?
      ensures t[k].active <==> t[k].page == currentPage
    {
      if 1 <= k < 1 + |lead| {
        assert t[k] == lead[k - 1];
      } else if 1 + |lead| <= k < 1 + |lead| + |run| {
        assert t[k] == run[k - 1 - |lead|];
      } else if 1 + |lead| + |run| <= k < n - 1 {
        assert t[k] == trail[k - 1 - |lead| - |run|];
      }
    }
  }

  /**
   * The bar is drawn only when the current page shows records; with a current page of
   * at least 1 that puts the page in range, as `PaginationPages` and `PaginationEdges` need.
   */
  lemma RenderedPageInRange(employees: seq<Employee>, query: string, page: int, size: nat)
    requires page >= 1 && size > 0
    requires FilteredPage(employees, query, page, size).items != []
    ensures var total := FilteredPage(employees, query, page, size).total;
      1 <= page <= TotalPages(total, size)
  {
    FilteredPageWindow(employees, query, page, size);
    var total := FilteredPage(employees, query, page, size).total;
    var r := TotalPages(total, size);
    if page > r {
      MulMonotone(r, page - 1, size);
    }
  }

  lemma MulMonotone(a: int, b: int, c: nat)
    requires a <= b
    ensures a * c <= b * c
  {
  }
}
