/**
 * The simple pager: a Previous and a Next button around a "Page x of y"
 * label. The page lives in the parent; the buttons hand it updater
 * functions of the previous page, and each can be disabled.
 */
module Pagination {
  import opened JsText

  /** The updater behind Previous: one page back, but not below page 0. */
  function PreviousPage(prev: int): (r: int)
    ensures r >= 0
    ensures prev >= 1 ==> r == prev - 1
    ensures prev <= 1 ==> r == 0
  {
    if prev - 1 > 0 then prev - 1 else 0
  }

  /** The updater behind Next: one page on, but not past the last page. */
  function NextPage(prev: int, totalPages: int): (r: int)
    ensures r <= totalPages - 1
    ensures prev <= totalPages - 2 ==> r == prev + 1
    ensures prev >= totalPages - 2 ==> r == totalPages - 1
  {
    if totalPages - 1 < prev + 1 then totalPages - 1 else prev + 1
  }

  /** Previous is greyed out while loading and on the first page. */
  predicate PreviousDisabled(loading: bool, currentPage: int) {
    loading || currentPage == 0
  }

  /** Next is greyed out while loading and on exactly the last page. */
  predicate NextDisabled(loading: bool, currentPage: int, totalPages: int) {
    loading || currentPage == totalPages - 1
  }

  /**
   * Loading greys out both buttons. Otherwise, on a page inside the range, a
   * button is greyed out exactly where its updater would leave the page
   * where it is.
   */
  lemma DisabledWhereUpdaterStays(loading: bool, p: int, totalPages: int)
    ensures loading ==> PreviousDisabled(loading, p) && NextDisabled(loading, p, totalPages)
    ensures !loading && 0 <= p <= totalPages - 1 ==>
      (PreviousDisabled(loading, p) <==> PreviousPage(p) == p) &&
      (NextDisabled(loading, p, totalPages) <==> NextPage(p, totalPages) == p)
  {
  }

  /** The first and the last page are where the updaters stop. */
  lemma FixedPoints(totalPages: int)
    ensures PreviousPage(0) == 0
    ensures NextPage(totalPages - 1, totalPages) == totalPages - 1
  {
  }

  /**
   * From a page inside [0, totalPages - 1] both updaters stay inside it and
   * move by at most one page.
   */
  lemma StepsStayInRange(p: int, totalPages: int)
    requires 0 <= p <= totalPages - 1
    ensures 0 <= PreviousPage(p) <= totalPages - 1 && p - 1 <= PreviousPage(p) <= p
    ensures 0 <= NextPage(p, totalPages) <= totalPages - 1 && p <= NextPage(p, totalPages) <= p + 1
  {
  }

  /** Away from the ends, Next undoes Previous and Previous undoes Next. */
  lemma StepsUndoEachOther(p: int, totalPages: int)
    ensures 1 <= p <= totalPages - 1 ==> NextPage(PreviousPage(p), totalPages) == p
    ensures 0 <= p <= totalPages - 2 ==> PreviousPage(NextPage(p, totalPages)) == p
  {
  }

  /**
   * A button that can be clicked, on a page inside the range, moves by
   * exactly one page.
   */
  lemma EnabledButtonsMove(p: int, totalPages: int)
    requires 0 <= p <= totalPages - 1
    ensures !PreviousDisabled(false, p) ==> PreviousPage(p) == p - 1
    ensures !NextDisabled(false, p, totalPages) ==> NextPage(p, totalPages) == p + 1
  {
  }

  /**
   * With no pages Next stays enabled, because it is disabled only on exactly
   * the last page, and a click on it sets the page to -1.
   */
  lemma NoPagesNextGoesNegative()
    ensures !NextDisabled(false, 0, 0)
    ensures NextPage(0, 0) == -1
  {
  }

  /** A page beyond the end (the total shrank) leaves Next enabled, and a click moves back to the last page. */
  lemma NextFromBeyondTheEnd(p: int, totalPages: int)
    requires p > totalPages - 1
    ensures !NextDisabled(false, p, totalPages)
    ensures NextPage(p, totalPages) == totalPages - 1 < p
  {
  }

  /** The label between the buttons: the page counted from 1, and the total. */
  function PageLabel(currentPage: int, totalPages: int): (r: string)
    ensures |r| > 5 && r[..5] == "Page "
  {
    "Page " + IntToString(currentPage + 1) + " of " + IntToString(totalPages)
  }

  /** What follows "Page " in the label: the page counted from 1, then " of " and the total. */
  lemma PageLabelTail(currentPage: nat, totalPages: int)
    ensures PageLabel(currentPage, totalPages)[5..] == NatToString(currentPage + 1) + (" of " + IntToString(totalPages))
  {
    var n := NatToString(currentPage + 1);
    var rest := " of " + IntToString(totalPages);
    assert PageLabel(currentPage, totalPages) == "Page " + (n + rest);
  }

  /** For a page counted from 0, the number read after "Page " is that page plus one. */
  lemma PageLabelShowsNextCount(currentPage: nat, totalPages: int)
    ensures ParseInt(PageLabel(currentPage, totalPages)[5..]) == Finite(currentPage + 1)
  {
    var rest := " of " + IntToString(totalPages);
    PageLabelTail(currentPage, totalPages);
    assert rest[0] == ' ';
    ParseIntOfNatThen(currentPage + 1, rest);
  }
}
