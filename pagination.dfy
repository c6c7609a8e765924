/** The candidates table's pager: the page count, the window of page buttons with
    ellipses, and the Previous/Next guards. */
module Pagination {
  import opened Values

  datatype PageItem = Num(n: int) | Ellipsis

  /** `Math.ceil(total / limit)`: the fewest pages of `limit` rows that hold `total` rows. */
  function TotalPages(total: nat, limit: nat): (r: nat)
    requires limit > 0
    ensures r * limit >= total
    ensures r > 0 ==> (r - 1) * limit < total
    ensures r == 0 <==> total == 0
  {
    (total + limit - 1) / limit
  }

  /** The buttons `getPageNumbers` lists: every page when there are at most five,
      otherwise the first four, the last four or the neighbours of `page`,
      with ellipses over the gaps. */
  function PageNumbers(page: int, totalPages: nat): seq<PageItem> {
    if totalPages <= 5 then seq(totalPages, i => Num(i + 1))
    else if page <= 3 then [Num(1), Num(2), Num(3), Num(4), Ellipsis, Num(totalPages)]
    else if page >= totalPages - 2 then
      [Num(1), Ellipsis, Num(totalPages - 3), Num(totalPages - 2), Num(totalPages - 1), Num(totalPages)]
    else [Num(1), Ellipsis, Num(page - 1), Num(page), Num(page + 1), Ellipsis, Num(totalPages)]
  }

  /** `getPageNumbers`, which pushes the buttons one by one. */
  method GetPageNumbers(page: int, totalPages: nat) returns (pages: seq<PageItem>)
    ensures pages == PageNumbers(page, totalPages)
  {
    pages := [];
    if totalPages <= 5 {
      var i := 1;
      while i <= totalPages
        invariant 1 <= i <= totalPages + 1
        invariant pages == seq(i - 1, k => Num(k + 1))
      {
        pages := pages + [Num(i)];
        i := i + 1;
      }
    } else {
      if page <= 3 {
        pages := pages + [Num(1), Num(2), Num(3), Num(4), Ellipsis, Num(totalPages)];
      } else if page >= totalPages - 2 {
        pages := pages + [Num(1), Ellipsis, Num(totalPages - 3), Num(totalPages - 2), Num(totalPages - 1), Num(totalPages)];
      } else {
        pages := pages + [Num(1), Ellipsis, Num(page - 1), Num(page), Num(page + 1), Ellipsis, Num(totalPages)];
      }
    }
  }

  /** The page numbers listed rise strictly from left to right. */
  predicate Increasing(pages: seq<PageItem>) {
    forall i, j | 0 <= i < j < |pages| && pages[i].Num? && pages[j].Num? :: pages[i].n < pages[j].n
  }

  predicate Lists(pages: seq<PageItem>, n: int) {
    Num(n) in pages
  }

  /** For a current page within range, the buttons are numbered in rising order,
      within `1..totalPages`, and always offer the first page, the current page
      and the last page. */
  lemma PageNumbersWellFormed(page: int, totalPages: nat)
    requires 1 <= page <= totalPages
    ensures var pages := PageNumbers(page, totalPages);
      && Increasing(pages)
      && (forall i | 0 <= i < |pages| && pages[i].Num? :: 1 <= pages[i].n <= totalPages)
      && Lists(pages, 1) && Lists(pages, page) && Lists(pages, totalPages)
  {
    var pages := PageNumbers(page, totalPages);
    if totalPages <= 5 {
      assert pages[0] == Num(1);
      assert pages[page - 1] == Num(page);
      assert pages[totalPages - 1] == Num(totalPages);
    } else if page <= 3 {
      assert pages[page - 1] == Num(page);
    }
  }

  /** With no rows there are no page buttons at all. */
  lemma NoRowsNoButtons(page: int, limit: nat)
    requires limit > 0
    ensures PageNumbers(page, TotalPages(0, limit)) == []
  {
  }

  /** At most seven buttons are ever shown. */
  lemma AtMostSevenButtons(page: int, totalPages: nat)
    ensures |PageNumbers(page, totalPages)| <= 7
  {
  }

  /** Previous: the page it moves to, if any. */
  function PreviousTarget(page: int): Option<int> {
    if page > 1 then Some(page - 1) else None
  }

  /** Next: the page it moves to, if any. */
  function NextTarget(page: int, totalPages: nat): Option<int> {
    if page < totalPages then Some(page + 1) else None
  }

  /** Previous and Next never leave `1..totalPages` once inside it, move only
      when there is a page to move to, and undo each other. */
  lemma StepsStayInRange(page: int, totalPages: nat)
    requires 1 <= page <= totalPages
    ensures PreviousTarget(page).Some? <==> page != 1
    ensures NextTarget(page, totalPages).Some? <==> page != totalPages
    ensures PreviousTarget(page).Some? ==> 1 <= PreviousTarget(page).value <= totalPages
    ensures NextTarget(page, totalPages).Some? ==> 1 <= NextTarget(page, totalPages).value <= totalPages
    ensures NextTarget(page, totalPages).Some? ==> PreviousTarget(NextTarget(page, totalPages).value) == Some(page)
    ensures PreviousTarget(page).Some? ==> NextTarget(PreviousTarget(page).value, totalPages) == Some(page)
  {
  }
}
