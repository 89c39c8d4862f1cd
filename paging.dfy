/**
 * The pagination every admin table repeats: the visible slice
 * `sorted.slice((p - 1) * r, (p - 1) * r + r)`, `totalPages = Math.ceil(n / r)`,
 * the "Showing X to Y of N" line and the Previous / numbered / Next buttons.
 * The pages do not clamp the current page.
 */
module Paging {

  /** How `Array.prototype.slice` turns an integer argument into an index. */
  function SliceIndex(i: int, len: nat): (r: nat)
    ensures r <= len
    ensures 0 <= i <= len ==> r == i
  {
    if i < 0 then (if len + i < 0 then 0 else len + i) else if i > len then len else i
  }

  /** `s.slice(start, end)` for integer arguments. */
  function JsSlice<T>(s: seq<T>, start: int, end: int): seq<T>
  {
    var from, to := SliceIndex(start, |s|), SliceIndex(end, |s|);
    if from < to then s[from..to] else []
  }

  /** `(currentPage - 1) * rowsPerPage` */
  function PageStart(page: int, rows: int): int
  {
    (page - 1) * rows
  }

  /** The visible rows of page `page`. */
  function PageSlice<T>(sorted: seq<T>, page: int, rows: int): seq<T>
  {
    JsSlice(sorted, PageStart(page, rows), PageStart(page, rows) + rows)
  }

  function Min(a: int, b: int): int
  {
    if a <= b then a else b
  }

  /** From page 1 on, the visible rows are sorted[(p-1)*r .. min((p-1)*r + r, n)), at most r of them. */
  lemma PageSliceIs<T>(sorted: seq<T>, page: int, rows: int)
    requires page >= 1 && rows >= 1
    ensures PageStart(page, rows) >= 0
    ensures PageStart(page, rows) < |sorted| ==>
      PageSlice(sorted, page, rows) == sorted[PageStart(page, rows)..Min(PageStart(page, rows) + rows, |sorted|)]
    ensures PageStart(page, rows) >= |sorted| ==> PageSlice(sorted, page, rows) == []
    ensures |PageSlice(sorted, page, rows)| <= rows
  {
    assert PageStart(page, rows) >= 0 by {
      MulNonNegative(page - 1, rows);
    }
  }

  lemma MulNonNegative(a: int, b: int)
    requires a >= 0 && b >= 0
    ensures a * b >= 0
  {
  }

  /** `Math.ceil(n / rows)` for a non-negative row count. */
  function TotalPages(n: nat, rows: int): (tp: nat)
    requires rows > 0
    ensures n == 0 ==> tp == 0
    ensures n > 0 ==> (tp - 1) * rows < n <= tp * rows
  {
    var q := n / rows;
    assert n == q * rows + n % rows;
    if n % rows == 0 then q else q + 1
  }

  /** The first row number in "Showing X to Y of N". */
  function RangeStart(page: int, rows: int): int
  {
    (page - 1) * rows + 1
  }

  /** The last row number in "Showing X to Y of N". */
  function RangeEnd(page: int, rows: int, n: nat): int
  {
    Min(page * rows, n)
  }

  /** Each page that has a button (1..totalPages) holds at least one row. */
  lemma EveryPageHasRows<T>(sorted: seq<T>, page: int, rows: int)
    requires rows > 0 && 1 <= page <= TotalPages(|sorted|, rows)
    ensures 1 <= |PageSlice(sorted, page, rows)| <= rows
  {
    PageSliceIs(sorted, page, rows);
    PageBeforeEnd(|sorted|, page, rows);
  }

  lemma PageBeforeEnd(n: nat, page: int, rows: int)
    requires rows > 0 && 1 <= page <= TotalPages(n, rows)
    ensures PageStart(page, rows) < n
  {
    var tp := TotalPages(n, rows);
    assert (page - 1) * rows <= (tp - 1) * rows by {
      MulMonotone(page - 1, tp - 1, rows);
    }
  }

  lemma MulMonotone(a: int, b: int, c: int)
    requires 0 <= a <= b && c >= 0
    ensures a * c <= b * c
  {
  }

  /** On a page that has a button, "Showing X to Y" counts exactly the visible rows. */
  lemma RangeCountsVisibleRows<T>(sorted: seq<T>, page: int, rows: int)
    requires rows > 0 && 1 <= page <= TotalPages(|sorted|, rows)
    ensures RangeEnd(page, rows, |sorted|) - RangeStart(page, rows) + 1 == |PageSlice(sorted, page, rows)|
  {
    PageSliceIs(sorted, page, rows);
    PageBeforeEnd(|sorted|, page, rows);
    assert page * rows == PageStart(page, rows) + rows;
  }

  /** A page past the data shows no rows. */
  lemma PastTheDataIsEmpty<T>(sorted: seq<T>, page: int, rows: int)
    requires rows > 0 && page > TotalPages(|sorted|, rows)
    ensures PageSlice(sorted, page, rows) == []
  {
    var tp := TotalPages(|sorted|, rows);
    if |sorted| > 0 {
      MulMonotone(tp, page - 1, rows);
    }
    PageSliceIs(sorted, page, rows);
  }

  /** The pages 1..tp, one after the other, are exactly the sorted rows. */
  function Pages<T>(sorted: seq<T>, rows: int, count: nat): seq<T>
  {
    if count == 0 then [] else Pages(sorted, rows, count - 1) + PageSlice(sorted, count, rows)
  }

  lemma {:induction false} PagesArePrefix<T>(sorted: seq<T>, rows: int, count: nat)
    requires rows > 0 && count * rows <= |sorted|
    ensures Pages(sorted, rows, count) == sorted[..count * rows]
  {
    if count > 0 {
      assert (count - 1) * rows == count * rows - rows;
      PagesArePrefix(sorted, rows, count - 1);
      PageSliceIs(sorted, count, rows);
    }
  }

  lemma PagesCoverRows<T>(sorted: seq<T>, rows: int)
    requires rows > 0
    ensures Pages(sorted, rows, TotalPages(|sorted|, rows)) == sorted
  {
    var tp := TotalPages(|sorted|, rows);
    if tp > 0 {
      var start := (tp - 1) * rows;
      assert start < |sorted| <= tp * rows;
      assert PageStart(tp, rows) == start && start + rows == tp * rows;
      PagesArePrefix(sorted, rows, tp - 1);
      PageSliceIs(sorted, tp, rows);
      assert PageSlice(sorted, tp, rows) == sorted[start..];
      assert sorted == sorted[..start] + sorted[start..];
    }
  }

  /**
   * What the pager controls do: Previous is disabled at page 1, Next is
   * disabled when the current page equals totalPages, and the numbered
   * buttons 1..totalPages set the page.
   */
  datatype PagerEvent = Previous | Next | GoTo(page: int)

  /** The event comes from a control the pager renders. */
  predicate Offered(e: PagerEvent, totalPages: int)
  {
    e.GoTo? ==> 1 <= e.page <= totalPages
  }

  function Step(current: int, e: PagerEvent, totalPages: int): int
  {
    match e
    case Previous => if current == 1 then current else current - 1
    case Next => if current == totalPages then current else current + 1
    case GoTo(p) => p
  }

  function Run(current: int, es: seq<PagerEvent>, totalPages: int): int
    decreases |es|
  {
    if es == [] then current else Run(Step(current, es[0], totalPages), es[1..], totalPages)
  }

  /** Starting from page 1, the current page never drops below 1. */
  lemma {:induction false} RunKeepsPageAtLeastOne(current: int, es: seq<PagerEvent>, totalPages: int)
    requires current >= 1
    requires forall i :: 0 <= i < |es| ==> Offered(es[i], totalPages)
    ensures Run(current, es, totalPages) >= 1
    decreases |es|
  {
    if es != [] {
      assert Offered(es[0], totalPages);
      RunKeepsPageAtLeastOne(Step(current, es[0], totalPages), es[1..], totalPages);
    }
  }

  /** With at least one page, the current page stays on a page that has a button. */
  lemma {:induction false} RunStaysOnAPage(current: int, es: seq<PagerEvent>, totalPages: int)
    requires 1 <= current <= totalPages
    requires forall i :: 0 <= i < |es| ==> Offered(es[i], totalPages)
    ensures 1 <= Run(current, es, totalPages) <= totalPages
    decreases |es|
  {
    if es != [] {
      assert Offered(es[0], totalPages);
      RunStaysOnAPage(Step(current, es[0], totalPages), es[1..], totalPages);
    }
  }

  /**
   * With no rows totalPages is 0, which page 1 never equals, so Next stays
   * enabled and moves past the data; the range then reads "1 to 0".
   */
  lemma EmptyTablePager(rows: int)
    requires rows > 0
    ensures TotalPages(0, rows) == 0
    ensures Run(1, [Next, Next], TotalPages(0, rows)) == 3
    ensures RangeStart(1, rows) == 1 && RangeEnd(1, rows, 0) == 0
  {
  }
}
