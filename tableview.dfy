/**
 * The table view model the admin pages share, written once: the sort state
 * changed by `handleSort`, and `sortedAndPaginatedData`, which sorts a fresh
 * copy of the rows by the chosen field and cuts out the current page.
 */
module TableView {
  import opened Ordering
  import opened Sorting
  import opened Paging

  /** `{sortField, sortDirection}` */
  datatype SortSpec<F> = SortSpec(field: F, direction: Direction)

  /**
   * `handleSort(f)`: the same field flips the direction; another field becomes
   * the sort field with the page's starting direction (`'asc'` on most pages,
   * `'desc'` on the orders page).
   */
  function ToggleSort<F(==)>(s: SortSpec<F>, f: F, start: Direction): (r: SortSpec<F>)
    ensures r.field == f
    ensures s.field == f ==> r.direction != s.direction
    ensures s.field != f ==> r.direction == start
  {
    if s.field == f then SortSpec(f, Flip(s.direction)) else SortSpec(f, start)
  }

  /** Clicking the same column twice restores the sort state. */
  lemma ToggleTwiceRestores<F>(s: SortSpec<F>, start: Direction)
    ensures ToggleSort(ToggleSort(s, s.field, start), s.field, start) == s
  {
  }

  /** After clicking a new column and then the same column again, the direction is the opposite of the start. */
  lemma NewFieldThenSame<F>(s: SortSpec<F>, f: F, start: Direction)
    requires s.field != f
    ensures ToggleSort(ToggleSort(s, f, start), f, start) == SortSpec(f, Flip(start))
  {
  }

  /** The rows a table shows: its page of the stably sorted rows. */
  ghost function Visible<R>(rows: seq<R>, key: R -> Key, dir: Direction, page: int, perPage: int): seq<R>
  {
    PageSlice(StableSort(key, dir, rows), page, perPage)
  }

  /** `sortedAndPaginatedData`: sort a copy, then slice out the current page. */
  method SortedAndPaginated<R>(rows: seq<R>, key: R -> Key, dir: Direction, page: int, perPage: int)
    returns (visible: seq<R>)
    ensures visible == Visible(rows, key, dir, page, perPage)
  {
    var sorted := SortCopy(rows, key, dir);
    var startIndex := (page - 1) * perPage;
    visible := JsSlice(sorted[..], startIndex, startIndex + perPage);
  }

  /**
   * What the visible rows are, from page 1 on: the slice of a stable, ordered
   * permutation of the rows that starts at (page - 1) * perPage, at most
   * perPage long.
   */
  lemma VisibleRows<R>(rows: seq<R>, key: R -> Key, dir: Direction, page: int, perPage: int)
    requires page >= 1 && perPage >= 1
    ensures var sorted := StableSort(key, dir, rows);
      && multiset(sorted) == multiset(rows)
      && Ordered(key, dir, sorted)
      && Stable(key, rows, sorted)
      && |sorted| == |rows|
      && |Visible(rows, key, dir, page, perPage)| <= perPage
      && PageStart(page, perPage) >= 0
      && (PageStart(page, perPage) < |sorted| ==>
            Visible(rows, key, dir, page, perPage)
            == sorted[PageStart(page, perPage)..Min(PageStart(page, perPage) + perPage, |sorted|)])
      && (PageStart(page, perPage) >= |sorted| ==> Visible(rows, key, dir, page, perPage) == [])
  {
    SortPermutation(key, dir, rows);
    SortOrdered(key, dir, rows);
    SortStable(key, dir, rows);
    PageSliceIs(StableSort(key, dir, rows), page, perPage);
  }

  /** The values the rows-per-page select offers. */
  predicate RowsPerPageOption(v: int)
  {
    v == 10 || v == 20 || v == 50 || v == 100
  }

  /**
   * The state every table page keeps: `sortField`, `sortDirection`,
   * `currentPage` (starting at 1) and `rowsPerPage` (starting at 10).
   */
  class TableState<F(==)> {
    var sortField: F
    var sortDirection: Direction
    var currentPage: int
    var rowsPerPage: int

    /** The page is on a real page number and the row count is one the select offers. */
    predicate Valid()
      reads this
    {
      currentPage >= 1 && RowsPerPageOption(rowsPerPage)
    }

    function Sort(): SortSpec<F>
      reads this
    {
      SortSpec(sortField, sortDirection)
    }

    constructor (field: F, direction: Direction)
      ensures sortField == field && sortDirection == direction
      ensures currentPage == 1 && rowsPerPage == 10
      ensures Valid()
    {
      sortField := field;
      sortDirection := direction;
      currentPage := 1;
      rowsPerPage := 10;
    }

    /** `handleSort(f)`, with the direction a newly chosen field starts at. */
    method HandleSort(f: F, start: Direction)
      modifies this
      ensures Sort() == ToggleSort(old(Sort()), f, start)
      ensures currentPage == old(currentPage) && rowsPerPage == old(rowsPerPage)
    {
      if sortField == f {
        sortDirection := if sortDirection == Asc then Desc else Asc;
      } else {
        sortField := f;
        sortDirection := start;
      }
    }

    /** `handlePageChange(page)` / `setCurrentPage(page)`: no clamping. */
    method HandlePageChange(page: int)
      modifies this
      ensures currentPage == page
      ensures Sort() == old(Sort()) && rowsPerPage == old(rowsPerPage)
    {
      currentPage := page;
    }

    /** `handleRowsPerPageChange(value)`: the new row count, back to page 1. */
    method HandleRowsPerPageChange(v: int)
      requires RowsPerPageOption(v)
      modifies this
      ensures rowsPerPage == v && currentPage == 1
      ensures Sort() == old(Sort())
      ensures Valid()
    {
      rowsPerPage := v;
      currentPage := 1;
    }

    /**
     * A click on a pager control of a table with `rowCount` rows: Previous
     * and Next call the page change with one less or one more unless the
     * button is disabled, a numbered button with its number.
     */
    method OnPager(e: PagerEvent, rowCount: nat)
      requires Valid() && Offered(e, TotalPages(rowCount, rowsPerPage))
      modifies this
      ensures Sort() == old(Sort()) && rowsPerPage == old(rowsPerPage)
      ensures currentPage == Step(old(currentPage), e, TotalPages(rowCount, rowsPerPage))
      ensures Valid()
    {
      var tp := TotalPages(rowCount, rowsPerPage);
      match e
      case Previous =>
        if currentPage != 1 {
          HandlePageChange(currentPage - 1);
        }
      case Next =>
        if currentPage != tp {
          HandlePageChange(currentPage + 1);
        }
      case GoTo(p) =>
        HandlePageChange(p);
    }
  }
}
