/**
 * What the generic data-table wrapper computes around the table library:
 * which page index and size it shows, the strip of at most five page
 * numbers, when the navigation buttons are disabled and where a click goes,
 * the routing of page-size and search changes, and the text encoding of the
 * sort drop-down.
 *
 * The library's own filtering, sorting and paging are not modelled: its page
 * count is an input, and its mutators appear only as requests the wrapper
 * issues (`TableSetPageIndex`, `TableNextPage`, ...).
 */
module DataTable {
  import opened JsText
  import opened Optional

  // ---------------------------------------------------------------------------
  // Page index, page size, page count
  // ---------------------------------------------------------------------------

  /**
   * The page index shown: the caller's index (0 when absent) in
   * external mode; in internal mode the shown index is pinned to 0, whatever
   * page the table is on.
   */
  function CurrentPageIndex(hasExternalPageChange: bool, externalPageIndex: Option<int>): (r: int)
    ensures hasExternalPageChange && externalPageIndex.Some? ==> r == externalPageIndex.value
    ensures !hasExternalPageChange || externalPageIndex.None? ==> r == 0
  {
    if hasExternalPageChange then externalPageIndex.OrElse(0) else 0
  }

  /**
   * The page size shown: the caller's size, or the `pageSize` prop when absent, in external mode, else the internal one:
   * in external mode the caller's size (the configured one when absent), in
   * internal mode the size kept in the component's state.
   */
  function CurrentPageSize(hasExternalPageSizeChange: bool, externalPageSize: Option<int>,
                           pageSize: int, internalPageSize: int): (r: int)
    ensures hasExternalPageSizeChange ==> r == (if externalPageSize.Some? then externalPageSize.value else pageSize)
    ensures !hasExternalPageSizeChange ==> r == internalPageSize
  {
    if hasExternalPageSizeChange then externalPageSize.OrElse(pageSize) else internalPageSize
  }

  /** The page count shown: an absent or zero `totalPages` falls back to the table's count. */
  function TotalPageCount(totalPages: Option<int>, pageCount: nat): (r: int)
    ensures totalPages.Some? && totalPages.value != 0 ==> r == totalPages.value
    ensures totalPages.None? || totalPages.value == 0 ==> r == pageCount
  {
    if totalPages.Some? && totalPages.value != 0 then totalPages.value else pageCount
  }

  // ---------------------------------------------------------------------------
  // The page-number strip
  // ---------------------------------------------------------------------------

  function Max(a: int, b: int): int { if a < b then b else a }
  function Min(a: int, b: int): int { if a < b then a else b }

  /** How many number buttons there are: at most five, and none for a negative count. */
  function StripSlots(total: int): (n: nat)
    ensures n <= 5 && (total >= 0 ==> n <= total)
  {
    Max(0, Min(5, total))
  }

  /** The last page of the window: four past its first page, but not past the last page. */
  function StripEnd(current: int, total: int): int {
    Min(total - 1, Max(0, current - 2) + 4)
  }

  /** `startPage`, moved left once when the window would run past the end. */
  function StripStart(current: int, total: int): (s: int)
    ensures s >= 0
  {
    var start := Max(0, current - 2);
    var end := StripEnd(current, total);
    if end - start < 4 then Max(0, end - 4) else start
  }

  /**
   * The buttons the callback renders for slots i .. n-1: slot i shows page
   * `start + i` when that is at most `end`, and nothing (`null`) otherwise.
   */
  function StripButtons(start: int, end: int, i: nat, n: nat): (r: seq<int>)
    requires i <= n
    ensures |r| == Max(0, Min(n, end - start + 1) - i)
    ensures forall k :: 0 <= k < |r| ==> r[k] == start + i + k
    decreases n - i
  {
    if i == n then []
    else (if start + i <= end then [start + i] else []) + StripButtons(start, end, i + 1, n)
  }

  /** The window [start, end] lies inside the pages, holds the current one, and spans five pages when there are five. */
  lemma StripRange(current: int, total: int)
    ensures var start, end := StripStart(current, total), StripEnd(current, total);
      0 <= start && end <= total - 1 &&
      (total >= 5 ==> end - start >= 4) &&
      (0 <= total <= 5 ==> start == 0 && end == total - 1) &&
      (0 <= current <= total - 1 ==> start <= current <= end && current - start < StripSlots(total))
  {
  }

  /** The page numbers shown for the current index and page count. */
  function PageStrip(current: int, total: int): (r: seq<int>)
    ensures |r| <= 5 && (total >= 0 ==> |r| <= total)
    ensures forall k :: 0 <= k < |r| ==> r[k] == r[0] + k
    ensures forall k :: 0 <= k < |r| ==> 0 <= r[k] <= total - 1
    ensures 0 <= current <= total - 1 ==> current in r
    ensures total >= 5 ==> |r| == 5
    ensures 0 <= total <= 5 ==> |r| == total && forall k :: 0 <= k < |r| ==> r[k] == k
  {
    var start := StripStart(current, total);
    var end := StripEnd(current, total);
    var r := StripButtons(start, end, 0, StripSlots(total));
    StripRange(current, total);
    assert 0 <= current <= total - 1 ==>
      (start <= current <= end && current - start < |r| && r[current - start] == current);
    r
  }

  /**
   * Where the five-wide strip starts once there are at least five pages: at
   * page 0 near the beginning, two pages before the current one in the
   * middle, and five pages before the end near the end.
   */
  lemma StripWindow(current: int, total: int)
    requires 5 <= total && 0 <= current <= total - 1
    ensures var r := PageStrip(current, total);
      |r| == 5 &&
      r[0] == (if current <= 2 then 0 else if current >= total - 3 then total - 5 else current - 2)
  {
    var start := StripStart(current, total);
    var end := StripEnd(current, total);
    var r := StripButtons(start, end, 0, StripSlots(total));
    assert r[0] == start;
  }

  // ---------------------------------------------------------------------------
  // Navigation buttons
  // ---------------------------------------------------------------------------

  datatype NavButton = First | Previous | Next | Last | PageNumber(page: int)

  /** What a click asks for: the caller's callback, or one of the library's own page mutators. */
  datatype PageRequest =
    | ExternalPageChange(index: int)
    | TableSetPageIndex(index: int)
    | TablePreviousPage
    | TableNextPage

  /** First and previous are disabled on page 0; next and last from the last page on. */
  predicate ButtonDisabled(button: NavButton, current: int, total: int) {
    match button
    case First => current == 0
    case Previous => current == 0
    case Next => current >= total - 1
    case Last => current >= total - 1
    case PageNumber(_) => false
  }

  /**
   * The effect of clicking a button: nothing when it is disabled; in external
   * mode the index handed to `onExternalPageChange`, unclamped; in internal
   * mode the library call (the last-page button asks for the library's own
   * count minus one, not the `totalPages` prop).
   */
  function Click(button: NavButton, external: bool, current: int, total: int, pageCount: nat): (r: Option<PageRequest>)
    ensures r.None? <==> ButtonDisabled(button, current, total)
    ensures r.Some? && external ==> r.value.ExternalPageChange?
    ensures r.Some? && !external ==> !r.value.ExternalPageChange?
  {
    if ButtonDisabled(button, current, total) then None
    else if external then
      Some(ExternalPageChange(
        match button
        case First => 0
        case Previous => current - 1
        case Next => current + 1
        case Last => total - 1
        case PageNumber(p) => p))
    else
      Some(match button
        case First => TableSetPageIndex(0)
        case Previous => TablePreviousPage
        case Next => TableNextPage
        case Last => TableSetPageIndex(pageCount - 1)
        case PageNumber(p) => TableSetPageIndex(p))
  }

  /**
   * With no pages (or one), next and last are disabled at any index from 0 on;
   * first and previous are disabled exactly at index 0.
   */
  lemma DisabledAtEdges(current: int, total: int)
    ensures ButtonDisabled(First, current, total) <==> current == 0
    ensures ButtonDisabled(Previous, current, total) <==> current == 0
    ensures ButtonDisabled(Next, current, total) <==> ButtonDisabled(Last, current, total)
    ensures current >= 0 && total <= 1 ==> ButtonDisabled(Next, current, total) && ButtonDisabled(Last, current, total)
  {
  }

  /**
   * In internal mode the shown index is 0, so first and previous can never be
   * clicked, whichever page the table is on.
   */
  lemma InternalModeCannotGoBack(externalPageIndex: Option<int>, total: int, pageCount: nat)
    ensures var current := CurrentPageIndex(false, externalPageIndex);
      Click(First, false, current, total, pageCount).None? && Click(Previous, false, current, total, pageCount).None?
  {
  }

  /**
   * In external mode, from an index inside [0, total - 1], every enabled
   * button forwards an index that is again inside [0, total - 1] (page
   * buttons as shown by the strip), and next / previous move by exactly one.
   */
  lemma ExternalNavigationStaysInRange(button: NavButton, current: int, total: int, pageCount: nat)
    requires 0 <= current <= total - 1
    requires button.PageNumber? ==> button.page in PageStrip(current, total)
    requires !ButtonDisabled(button, current, total)
    ensures var r := Click(button, true, current, total, pageCount);
      r.Some? && 0 <= r.value.index <= total - 1 &&
      (button == Next ==> r.value.index == current + 1) &&
      (button == Previous ==> r.value.index == current - 1)
  {
  }

  /**
   * Every enabled button's request, in both modes: external mode forwards
   * 0, current - 1, current + 1, total - 1 and the page itself, unclamped;
   * internal mode's last-page button asks for the library's own count minus
   * one, which differs from the external one whenever `totalPages` differs
   * from that count.
   */
  lemma ForwardedRequests(current: int, total: int, pageCount: nat, page: int)
    ensures current != 0 ==>
      Click(First, true, current, total, pageCount) == Some(ExternalPageChange(0)) &&
      Click(Previous, true, current, total, pageCount) == Some(ExternalPageChange(current - 1)) &&
      Click(First, false, current, total, pageCount) == Some(TableSetPageIndex(0)) &&
      Click(Previous, false, current, total, pageCount) == Some(TablePreviousPage)
    ensures current < total - 1 ==>
      Click(Next, true, current, total, pageCount) == Some(ExternalPageChange(current + 1)) &&
      Click(Last, true, current, total, pageCount) == Some(ExternalPageChange(total - 1)) &&
      Click(Next, false, current, total, pageCount) == Some(TableNextPage) &&
      Click(Last, false, current, total, pageCount) == Some(TableSetPageIndex(pageCount - 1))
    ensures Click(PageNumber(page), true, current, total, pageCount) == Some(ExternalPageChange(page))
    ensures Click(PageNumber(page), false, current, total, pageCount) == Some(TableSetPageIndex(page))
  {
  }

  /** The label between the buttons: "Page ", the index plus one, " of " and the page count shown. */
  function PageCountLabel(current: int, totalPages: Option<int>, pageCount: nat): (r: string)
    ensures |r| > 5 && r[..5] == "Page "
  {
    "Page " + IntToString(current + 1) + " of " + IntToString(TotalPageCount(totalPages, pageCount))
  }

  /** What follows "Page " in the label: the page counted from 1, then " of " and the page count. */
  lemma PageCountLabelTail(current: nat, totalPages: Option<int>, pageCount: nat)
    ensures PageCountLabel(current, totalPages, pageCount)[5..] ==
      NatToString(current + 1) + (" of " + IntToString(TotalPageCount(totalPages, pageCount)))
  {
    var n := NatToString(current + 1);
    var rest := " of " + IntToString(TotalPageCount(totalPages, pageCount));
    assert PageCountLabel(current, totalPages, pageCount) == "Page " + (n + rest);
  }

  /** For an index from 0 on, the number read after "Page " is the index plus one. */
  lemma PageCountLabelShowsNextCount(current: nat, totalPages: Option<int>, pageCount: nat)
    ensures ParseInt(PageCountLabel(current, totalPages, pageCount)[5..]) == Finite(current + 1)
  {
    var rest := " of " + IntToString(TotalPageCount(totalPages, pageCount));
    PageCountLabelTail(current, totalPages, pageCount);
    assert rest[0] == ' ';
    ParseIntOfNatThen(current + 1, rest);
  }

  /** In internal mode the index shown is pinned to 0, so the label always reads "Page 1 of ...". */
  lemma InternalLabelSaysPageOne(externalPageIndex: Option<int>, totalPages: Option<int>, pageCount: nat)
    ensures PageCountLabel(CurrentPageIndex(false, externalPageIndex), totalPages, pageCount) ==
      "Page 1 of " + IntToString(TotalPageCount(totalPages, pageCount))
  {
    assert IntToString(1) == "1" by {
      assert NatToString(1) == [DigitChar(1)];
    }
  }

  // ---------------------------------------------------------------------------
  // Search box
  // ---------------------------------------------------------------------------

  /** The search box is shown when asked for, with a non-empty key, and with filtering on or a caller's handler. */
  predicate SearchBoxShown(showSearch: bool, searchKey: Option<string>, enableFiltering: bool, hasExternalSearchChange: bool) {
    showSearch && searchKey.Some? && searchKey.value != "" && (enableFiltering || hasExternalSearchChange)
  }

  /**
   * The box needs a non-empty search key and something to send the text to:
   * a caller's handler shows it even with filtering off, and with neither
   * filtering nor a handler it stays hidden.
   */
  lemma SearchBoxNeedsKeyAndTarget(showSearch: bool, searchKey: Option<string>, enableFiltering: bool,
                                   hasExternalSearchChange: bool)
    ensures SearchBoxShown(showSearch, searchKey, enableFiltering, hasExternalSearchChange) ==>
      showSearch && searchKey.Some? && searchKey.value != ""
    ensures !enableFiltering && !hasExternalSearchChange ==>
      !SearchBoxShown(showSearch, searchKey, enableFiltering, hasExternalSearchChange)
    ensures showSearch && searchKey.Some? && searchKey.value != "" && hasExternalSearchChange ==>
      SearchBoxShown(showSearch, searchKey, enableFiltering, hasExternalSearchChange)
    ensures SearchBoxShown(showSearch, None, enableFiltering, hasExternalSearchChange) == false
  {
  }

  /** The box's text: the caller's value in external mode, else the column's filter value; "" when absent. */
  function SearchBoxValue(hasExternalSearchChange: bool, externalSearchValue: Option<string>,
                          columnFilterValue: Option<string>): (r: string)
    ensures hasExternalSearchChange ==> r == externalSearchValue.OrElse("")
    ensures !hasExternalSearchChange ==> r == columnFilterValue.OrElse("")
  {
    if hasExternalSearchChange then externalSearchValue.OrElse("") else columnFilterValue.OrElse("")
  }

  // ---------------------------------------------------------------------------
  // Sort drop-down
  // ---------------------------------------------------------------------------

  datatype SortEntry = SortEntry(id: string, desc: bool)

  /** The sort selector's value: the first sorted column (or nothing), a hyphen, then "desc" or "asc". */
  function SortSelectorValue(sorting: seq<SortEntry>): (r: string)
    ensures |sorting| == 0 ==> r == "-asc"
  {
    (if |sorting| > 0 then sorting[0].id else "") + "-" + (if |sorting| > 0 && sorting[0].desc then "desc" else "asc")
  }

  /**
   * A picked sort value is cut at its hyphens: the first part names the column
   * and the second says descending when it is exactly "desc". The result is
   * the new single-column sorting, or `None` when the column part is empty
   * and nothing changes.
   */
  function DecodeSortValue(value: string): (r: Option<seq<SortEntry>>)
    ensures r.Some? ==> |r.value| == 1 && r.value[0].id != "" && '-' !in r.value[0].id
    ensures r.None? <==> |value| == 0 || value[0] == '-'
  {
    var parts := Split(value, '-');
    var column := parts[0];
    var direction := if |parts| > 1 then Some(parts[1]) else None;
    if |value| > 0 && value[0] != '-' then
      assert column != "";
      Some([SortEntry(column, direction == Some("desc"))])
    else
      assert column == "";
      None
  }

  /**
   * Decoding what the drop-down shows gives back its first sort key, for
   * column ids that are not empty and contain no "-".
   */
  lemma SortValueRoundTrip(sorting: seq<SortEntry>)
    requires |sorting| > 0 && sorting[0].id != "" && '-' !in sorting[0].id
    ensures DecodeSortValue(SortSelectorValue(sorting)) == Some([sorting[0]])
  {
    var dir := if sorting[0].desc then "desc" else "asc";
    SplitAtFirst(sorting[0].id, '-', dir);
    SplitNoSeparator(dir, '-');
  }

  /** With no sorting the drop-down shows "-asc", which decodes to no change. */
  lemma EmptySortingChangesNothing()
    ensures DecodeSortValue(SortSelectorValue([])) == None
  {
  }

  /**
   * A column id with one "-" in it comes back cut at the "-": the part after
   * it is read as the direction, so the sort is descending only when that
   * part is "desc", whatever the original direction was.
   */
  lemma HyphenatedColumnIsCut(column: string, suffix: string, desc: bool)
    requires column != "" && '-' !in column && '-' !in suffix
    ensures DecodeSortValue(SortSelectorValue([SortEntry(column + "-" + suffix, desc)])) ==
      Some([SortEntry(column, suffix == "desc")])
  {
    var dir := if desc then "desc" else "asc";
    var v := SortSelectorValue([SortEntry(column + "-" + suffix, desc)]);
    assert v == column + ['-'] + (suffix + ['-'] + dir);
    SplitAtFirst(column, '-', suffix + ['-'] + dir);
    SplitAtFirst(suffix, '-', dir);
  }

  /**
   * A value with no "-", such as the menu's "newest" and "oldest" items,
   * sorts ascending on the column of that name.
   */
  lemma PlainValueSortsAscending(value: string)
    requires value != "" && '-' !in value
    ensures DecodeSortValue(value) == Some([SortEntry(value, false)])
  {
    SplitNoSeparator(value, '-');
  }

  // ---------------------------------------------------------------------------
  // The wrapper's own state and its handlers
  // ---------------------------------------------------------------------------

  /** Where a new page size goes. */
  datatype PageSizeRequest = ExternalPageSize(size: nat) | TablePageSize(size: nat)

  /** Where typed search text goes. */
  datatype SearchRequest = ExternalSearch(text: string) | ColumnFilter(text: string)

  /**
   * The state the wrapper keeps: the internal page size, and the sorting and
   * the search column's filter value that the library reports back to it.
   */
  class TableState {
    var internalPageSize: int
    var sorting: seq<SortEntry>
    var searchFilter: Option<string>

    /** Mounted with the configured page size, no sorting and no filter. */
    constructor (pageSize: int)
      ensures internalPageSize == pageSize && sorting == [] && searchFilter == None
    {
      internalPageSize := pageSize;
      sorting := [];
      searchFilter := None;
    }

    /** The page size on display. */
    function ShownPageSize(hasExternalPageSizeChange: bool, externalPageSize: Option<int>, pageSize: int): (r: int)
      reads this
      ensures !hasExternalPageSizeChange ==> r == internalPageSize
      ensures hasExternalPageSizeChange ==> r == externalPageSize.OrElse(pageSize)
    {
      CurrentPageSize(hasExternalPageSizeChange, externalPageSize, pageSize, internalPageSize)
    }

    /**
     * A page size picked in the rows-per-page drop-down, whose values are the
     * options written out with `${size}` and read back with `Number`. It goes
     * only to `onExternalPageSizeChange` when that is given; otherwise it
     * becomes the internal page size and is passed to the library.
     */
    method ChangePageSize(option: nat, hasExternalPageSizeChange: bool) returns (request: PageSizeRequest)
      modifies this`internalPageSize
      ensures hasExternalPageSizeChange ==> request == ExternalPageSize(option) && internalPageSize == old(internalPageSize)
      ensures !hasExternalPageSizeChange ==> request == TablePageSize(option) && internalPageSize == option
      ensures !hasExternalPageSizeChange ==>
        forall externalPageSize, pageSize :: ShownPageSize(false, externalPageSize, pageSize) == option
    {
      var value := NatToString(option);
      var parsed := ToNumber(value);
      NumberOfString(option);
      var newPageSize: nat := parsed.value;
      if hasExternalPageSizeChange {
        request := ExternalPageSize(newPageSize);
      } else {
        internalPageSize := newPageSize;
        request := TablePageSize(newPageSize);
      }
    }

    /**
     * Typed search text: verbatim to `onExternalSearchChange` when given,
     * otherwise the search column's filter value (when the column exists).
     */
    method ChangeSearch(text: string, hasExternalSearchChange: bool, columnExists: bool) returns (request: Option<SearchRequest>)
      modifies this`searchFilter
      ensures hasExternalSearchChange ==> request == Some(ExternalSearch(text)) && searchFilter == old(searchFilter)
      ensures !hasExternalSearchChange && columnExists ==> request == Some(ColumnFilter(text)) && searchFilter == Some(text)
      ensures !hasExternalSearchChange && !columnExists ==> request == None && searchFilter == old(searchFilter)
    {
      if hasExternalSearchChange {
        request := Some(ExternalSearch(text));
      } else if columnExists {
        searchFilter := Some(text);
        request := Some(ColumnFilter(text));
      } else {
        request := None;
      }
    }

    /** A value picked in the sort drop-down replaces the sorting when its column part is not empty. */
    method SelectSort(value: string)
      modifies this`sorting
      ensures DecodeSortValue(value).Some? ==> sorting == DecodeSortValue(value).value
      ensures DecodeSortValue(value).None? ==> sorting == old(sorting)
    {
      var decoded := DecodeSortValue(value);
      if decoded.Some? {
        sorting := decoded.value;
      }
    }
  }
}
