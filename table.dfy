/**
 * The sort and pagination logic of the country table
 * (src/components/CovidTable/CovidTable.tsx): the component's four pieces of
 * state and the handlers that update them, and what a render derives from
 * them and the rows it is given: a sorted copy of the rows, the page count,
 * the page actually shown and the rows on it.
 */
module Table {
  import opened Wrappers
  import opened Strings
  import opened Sorting
  import opened Aggregate

  // ---------------------------------------------------------------------------
  // Sorting

  /**
   * `keyof CountryRow`: the column the rows are sorted by. Every field has a
   * column header that selects it except `Population`, which the type admits
   * but no header offers.
   */
  datatype SortField =
    | Country
    | CasesInPeriod | DeathsInPeriod
    | CasesTotalAllTime | DeathsTotalAllTime
    | Population
    | CasesPer1000 | DeathsPer1000
    | AvgCasesPerDay | AvgDeathsPerDay
    | MaxCasesPerDay | MaxDeathsPerDay

  datatype SortDirection = Asc | Desc

  /** The other direction. */
  function Flip(d: SortDirection): SortDirection {
    if d == Asc then Desc else Asc
  }

  /** A numeric column's value; the country name is the one string column. */
  function NumericValue(row: CountryRow, field: SortField): real
    requires field != Country
  {
    match field
    case CasesInPeriod => row.casesInPeriod as real
    case DeathsInPeriod => row.deathsInPeriod as real
    case CasesTotalAllTime => row.casesTotalAllTime as real
    case DeathsTotalAllTime => row.deathsTotalAllTime as real
    case Population => row.population as real
    case CasesPer1000 => row.casesPer1000
    case DeathsPer1000 => row.deathsPer1000
    case AvgCasesPerDay => row.avgCasesPerDay
    case AvgDeathsPerDay => row.avgDeathsPerDay
    case MaxCasesPerDay => row.maxCasesPerDay as real
    case MaxDeathsPerDay => row.maxDeathsPerDay as real
  }

  /**
   * Ascending order on one column: `a.localeCompare(b) <= 0` on the country
   * name, `a - b <= 0` on a number.
   */
  predicate FieldLe(field: SortField, a: CountryRow, b: CountryRow) {
    if field == Country then LexLe(a.country, b.country)
    else NumericValue(a, field) <= NumericValue(b, field)
  }

  /**
   * The comparator of the sort, as `cmp(a, b) <= 0`: the column's result, and
   * its negation when descending, so descending is ascending read backwards.
   */
  function Comparator(field: SortField, direction: SortDirection): (CountryRow, CountryRow) -> bool {
    (a: CountryRow, b: CountryRow) =>
      if direction == Asc then FieldLe(field, a, b) else FieldLe(field, b, a)
  }

  lemma ComparatorIsTotalPreorder(field: SortField, direction: SortDirection)
    ensures IsTotalPreorder(Comparator(field, direction))
  {
    var le := Comparator(field, direction);
    forall a, b
      ensures le(a, b) || le(b, a)
    {
      LexLeTotal(a.country, b.country);
    }
    forall a, b, c | le(a, b) && le(b, c)
      ensures le(a, c)
    {
      if direction == Asc {
        if field == Country {
          LexLeTransitive(a.country, b.country, c.country);
        }
      } else {
        if field == Country {
          LexLeTransitive(c.country, b.country, a.country);
        }
      }
    }
  }

  /**
   * `[...rows].sort(...)`: a sorted copy. It holds exactly the rows given,
   * ascending by the column, or descending when the direction is `Desc`;
   * the rows given are a value and stay as they were.
   */
  function SortedData(rows: seq<CountryRow>, field: SortField, direction: SortDirection): (r: seq<CountryRow>)
    ensures multiset(r) == multiset(rows)
    ensures forall i, j :: 0 <= i < j < |r| ==>
      if direction == Asc then FieldLe(field, r[i], r[j]) else FieldLe(field, r[j], r[i])
  {
    ComparatorIsTotalPreorder(field, direction);
    var r := InsertionSort(rows, Comparator(field, direction));
    assert forall i, j :: 0 <= i < j < |r| ==> Comparator(field, direction)(r[i], r[j]);
    r
  }

  // ---------------------------------------------------------------------------
  // Pagination

  /** `PageSize`: the sizes the page-size selector offers. */
  type PageSize = n: int | n == 10 || n == 20 || n == 50 witness 20

  /** `Math.max(1, Math.ceil(rowCount / pageSize))`: enough pages for every row, and at least one. */
  function TotalPages(rowCount: nat, pageSize: PageSize): (r: int)
    ensures r >= 1
    ensures rowCount == 0 ==> r == 1
    ensures rowCount > 0 ==> (r - 1) * pageSize < rowCount <= r * pageSize
  {
    var pages := (rowCount + pageSize - 1) / pageSize;
    if pages > 1 then pages else 1
  }

  /** `Math.min(currentPage, totalPages - 1)`: the page shown, the last one when the state points past it. */
  function SafePage(currentPage: nat, totalPages: int): (r: int)
    requires totalPages >= 1
    ensures 0 <= r <= totalPages - 1 && r <= currentPage
    ensures r == currentPage || r == totalPages - 1
  {
    if currentPage < totalPages - 1 then currentPage else totalPages - 1
  }

  /**
   * `s.slice(start, end)` for `0 <= start <= end`: the elements from `start`
   * up to `end`, cut off at the end of `s`, empty when `start` is past it.
   */
  function Slice<T>(s: seq<T>, start: nat, end: nat): (r: seq<T>)
    requires start <= end
    ensures |r| <= end - start
    ensures |r| == if start >= |s| then 0 else if end <= |s| then end - start else |s| - start
    ensures forall k :: 0 <= k < |r| ==> r[k] == s[start + k]
  {
    if start >= |s| then [] else if end <= |s| then s[start..end] else s[start..]
  }

  /** `sortedData.slice(startIndex, startIndex + pageSize)` for the page shown. */
  function VisibleRows(sortedData: seq<CountryRow>, safePage: nat, pageSize: PageSize): (r: seq<CountryRow>)
    ensures |r| <= pageSize
  {
    var startIndex := safePage * pageSize;
    Slice(sortedData, startIndex, startIndex + pageSize)
  }

  /**
   * The pages split the sorted rows: row `k` is the `k % pageSize`-th row of
   * page `k / pageSize`, a page that exists; and on rows, the page shown is
   * never empty.
   */
  lemma PagesCoverRows(sortedData: seq<CountryRow>, pageSize: PageSize, currentPage: nat)
    ensures forall k :: 0 <= k < |sortedData| ==>
      && k / pageSize < TotalPages(|sortedData|, pageSize)
      && k % pageSize < |VisibleRows(sortedData, k / pageSize, pageSize)|
      && VisibleRows(sortedData, k / pageSize, pageSize)[k % pageSize] == sortedData[k]
    ensures |sortedData| > 0 ==>
      var totalPages := TotalPages(|sortedData|, pageSize);
      VisibleRows(sortedData, SafePage(currentPage, totalPages), pageSize) != []
  {
    var n := |sortedData|;
    var totalPages := TotalPages(n, pageSize);
    forall k | 0 <= k < n
      ensures k / pageSize < totalPages
      ensures k % pageSize < |VisibleRows(sortedData, k / pageSize, pageSize)|
      ensures VisibleRows(sortedData, k / pageSize, pageSize)[k % pageSize] == sortedData[k]
    {
      var p := k / pageSize;
      assert k == p * pageSize + k % pageSize;
      assert p * pageSize <= k < (p + 1) * pageSize;
      assert p * pageSize < totalPages * pageSize;
    }
    if n > 0 {
      var safePage := SafePage(currentPage, totalPages);
      assert safePage * pageSize <= (totalPages - 1) * pageSize;
    }
  }

  // ---------------------------------------------------------------------------
  // Paging handlers, as values

  /** `Math.max(0, prev - 1)`, the update of the Previous button. */
  function PrevPage(currentPage: nat): (r: nat)
    ensures currentPage > 0 ==> r == currentPage - 1
    ensures currentPage == 0 ==> r == 0
  {
    if currentPage - 1 > 0 then currentPage - 1 else 0
  }

  /** `Math.min(totalPages - 1, prev + 1)`, the update of the Next button. */
  function NextPage(currentPage: nat, totalPages: int): (r: nat)
    requires totalPages >= 1
    ensures r <= totalPages - 1 && r <= currentPage + 1
    ensures currentPage < totalPages - 1 ==> r == currentPage + 1
    ensures r == currentPage + 1 || r == totalPages - 1
  {
    if totalPages - 1 < currentPage + 1 then totalPages - 1 else currentPage + 1
  }

  /**
   * Previous measured from the page shown rather than from the stored page:
   * `Math.max(0, safePage - 1)`.
   */
  function PrevPageFromShown(currentPage: nat, totalPages: int): (r: nat)
    requires totalPages >= 1
    ensures r <= totalPages - 1
  {
    var safePage := SafePage(currentPage, totalPages);
    if safePage - 1 > 0 then safePage - 1 else 0
  }

  /** The Previous button is disabled on the first page, Next on the last. */
  predicate PrevDisabled(safePage: int) {
    safePage == 0
  }

  predicate NextDisabled(safePage: int, totalPages: int) {
    safePage >= totalPages - 1
  }

  /**
   * While the stored page is a real page, an enabled Next moves the shown
   * page forward by one, an enabled Previous back by one, and neither button
   * leads outside the pages.
   */
  lemma NavigationSteps(currentPage: nat, totalPages: int)
    requires totalPages >= 1 && currentPage <= totalPages - 1
    ensures !NextDisabled(SafePage(currentPage, totalPages), totalPages) ==>
      SafePage(NextPage(currentPage, totalPages), totalPages) == SafePage(currentPage, totalPages) + 1
    ensures !PrevDisabled(SafePage(currentPage, totalPages)) ==>
      SafePage(PrevPage(currentPage), totalPages) == SafePage(currentPage, totalPages) - 1
    ensures NextPage(currentPage, totalPages) <= totalPages - 1 && PrevPage(currentPage) <= totalPages - 1
  {
  }

  /**
   * As written, Previous steps back from the stored page. When the rows
   * shrink under a stored page past the last one, the button is enabled but
   * a click leaves the shown page where it is.
   */
  lemma PrevStaysOnStalePage(currentPage: nat, totalPages: int)
    requires totalPages >= 2 && currentPage >= totalPages
    ensures !PrevDisabled(SafePage(currentPage, totalPages))
    ensures SafePage(PrevPage(currentPage), totalPages) == SafePage(currentPage, totalPages)
  {
  }

  /**
   * The smallest such case: 15 rows at 10 per page after the user was on
   * page 5 of a longer list; "Page 2 of 2" is shown, Previous is enabled,
   * and clicking it still shows page 2.
   */
  lemma ExampleStalePreviousClick()
    ensures TotalPages(15, 10) == 2 && SafePage(4, 2) == 1
    ensures !PrevDisabled(SafePage(4, 2)) && SafePage(PrevPage(4), 2) == 1
  {
  }

  /** Measured from the page shown, an enabled Previous always moves one page back. */
  lemma PrevFromShownMovesBack(currentPage: nat, totalPages: int)
    requires totalPages >= 1
    ensures !PrevDisabled(SafePage(currentPage, totalPages)) ==>
      SafePage(PrevPageFromShown(currentPage, totalPages), totalPages) == SafePage(currentPage, totalPages) - 1
    ensures PrevDisabled(SafePage(currentPage, totalPages)) ==>
      PrevPageFromShown(currentPage, totalPages) == 0
  {
  }

  // ---------------------------------------------------------------------------
  // What a render shows

  /** The empty-state alert, or the rows of the page shown and the pager's state. */
  datatype TableView =
    | NoDataAvailable
    | Page(visibleRows: seq<CountryRow>, pageNumber: int, totalPages: int, prevDisabled: bool, nextDisabled: bool)

  // ---------------------------------------------------------------------------
  // The component's state

  /** The state `CovidTable` keeps between renders, and its handlers. */
  class CovidTableState {
    var sortField: SortField
    var sortDirection: SortDirection
    var currentPage: nat
    var pageSize: PageSize

    /** The initial state: by country, ascending, first page, 20 rows a page. */
    constructor ()
      ensures sortField == Country && sortDirection == Asc
      ensures currentPage == 0 && pageSize == 20
    {
      sortField := Country;
      sortDirection := Asc;
      currentPage := 0;
      pageSize := 20;
    }

    /** `handleHeaderClick`: the active column flips direction; another column becomes active, ascending. */
    method HandleHeaderClick(field: SortField)
      modifies this
      ensures sortField == field
      ensures sortDirection == if field == old(sortField) then Flip(old(sortDirection)) else Asc
      ensures currentPage == old(currentPage) && pageSize == old(pageSize)
    {
      if field == sortField {
        sortDirection := if sortDirection == Asc then Desc else Asc;
      } else {
        sortField := field;
        sortDirection := Asc;
      }
    }

    /** `handlePageSizeChange`: the new size, back on the first page. */
    method HandlePageSizeChange(nextSize: PageSize)
      modifies this
      ensures pageSize == nextSize && currentPage == 0
      ensures sortField == old(sortField) && sortDirection == old(sortDirection)
    {
      pageSize := nextSize;
      currentPage := 0;
    }

    /** `handlePrevPage`: one page back from the stored page, never below the first. */
    method HandlePrevPage()
      modifies this
      ensures currentPage == PrevPage(old(currentPage))
      ensures sortField == old(sortField) && sortDirection == old(sortDirection) && pageSize == old(pageSize)
    {
      currentPage := if currentPage - 1 > 0 then currentPage - 1 else 0;
    }

    /**
     * Previous as evidently intended, for a render of `rowCount` rows: one page
     * back from the page shown, so an enabled Previous always moves the view.
     */
    method HandlePrevPageFromShown(rowCount: nat)
      modifies this
      ensures currentPage == PrevPageFromShown(old(currentPage), TotalPages(rowCount, pageSize))
      ensures !PrevDisabled(SafePage(old(currentPage), TotalPages(rowCount, pageSize))) ==>
        SafePage(currentPage, TotalPages(rowCount, pageSize)) ==
        SafePage(old(currentPage), TotalPages(rowCount, pageSize)) - 1
      ensures sortField == old(sortField) && sortDirection == old(sortDirection) && pageSize == old(pageSize)
    {
      var totalPages := TotalPages(rowCount, pageSize);
      PrevFromShownMovesBack(currentPage, totalPages);
      var safePage := SafePage(currentPage, totalPages);
      currentPage := if safePage - 1 > 0 then safePage - 1 else 0;
    }

    /**
     * `handleNextPage` for a render of `rowCount` rows: one page forward,
     * never past the last page of that render.
     */
    method HandleNextPage(rowCount: nat)
      modifies this
      ensures currentPage == NextPage(old(currentPage), TotalPages(rowCount, pageSize))
      ensures currentPage <= TotalPages(rowCount, pageSize) - 1
      ensures sortField == old(sortField) && sortDirection == old(sortDirection) && pageSize == old(pageSize)
    {
      var totalPages := TotalPages(rowCount, pageSize);
      currentPage := if totalPages - 1 < currentPage + 1 then totalPages - 1 else currentPage + 1;
    }

    /**
     * A render for `data`: the empty-state alert when there are no rows;
     * otherwise the slice of the rows sorted by the current field and
     * direction that the clamped current page selects, which is never empty
     * and holds at most `pageSize` rows, with Previous disabled exactly on the
     * first page and Next exactly on the last.
     */
    function Render(data: Option<seq<CountryRow>>): (v: TableView)
      reads this
      ensures v.NoDataAvailable? <==> data.GetOr([]) == []
      ensures v.Page? ==>
        && 1 <= |v.visibleRows| <= pageSize
        && multiset(v.visibleRows) <= multiset(data.GetOr([]))
        && 1 <= v.pageNumber <= v.totalPages
        && v.totalPages == TotalPages(|data.GetOr([])|, pageSize)
        && v.prevDisabled == (v.pageNumber == 1)
        && v.nextDisabled == (v.pageNumber == v.totalPages)
        && v.pageNumber == SafePage(currentPage, v.totalPages) + 1
        && v.visibleRows == VisibleRows(SortedData(data.GetOr([]), sortField, sortDirection), v.pageNumber - 1, pageSize)
    {
      var rows := data.GetOr([]);
      if |rows| == 0 then NoDataAvailable
      else
        var sortedData := SortedData(rows, sortField, sortDirection);
        var totalPages := TotalPages(|sortedData|, pageSize);
        var safePage := SafePage(currentPage, totalPages);
        var visibleRows := VisibleRows(sortedData, safePage, pageSize);
        PagesCoverRows(sortedData, pageSize, currentPage);
        VisibleRowsAreRows(sortedData, safePage, pageSize);
        Page(visibleRows, safePage + 1, totalPages, PrevDisabled(safePage), NextDisabled(safePage, totalPages))
    }
  }

  /** The rows on a page are rows of the list, none repeated beyond the list's own count. */
  lemma VisibleRowsAreRows(sortedData: seq<CountryRow>, safePage: nat, pageSize: PageSize)
    ensures multiset(VisibleRows(sortedData, safePage, pageSize)) <= multiset(sortedData)
  {
    var startIndex := safePage * pageSize;
    SliceIsPart(sortedData, startIndex, startIndex + pageSize);
  }

  /** A slice takes its elements from the sequence, each at most as often. */
  lemma SliceIsPart<T>(s: seq<T>, start: nat, end: nat)
    requires start <= end
    ensures multiset(Slice(s, start, end)) <= multiset(s)
  {
    if start < |s| {
      var stop := if end <= |s| then end else |s|;
      var part := s[start..stop];
      assert Slice(s, start, end) == part;
      assert s == s[..start] + part + s[stop..];
    }
  }

}
