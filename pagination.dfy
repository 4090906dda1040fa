/**
 * The client-side pagination every list page repeats: `ITEMS_PER_PAGE = 5`,
 * `totalPages = Math.ceil(n / 5)`, the page shown is
 * `list.slice((page - 1) * 5, (page - 1) * 5 + 5)`, and the Previous/Next handlers
 * step the page counter.
 */
module Pagination {

  const ItemsPerPage: nat := 5

  /** `Math.ceil(n / ItemsPerPage)`: the fewest pages holding `n` items. */
  function TotalPages(n: nat): (t: nat)
    ensures n <= t * ItemsPerPage
    ensures t > 0 ==> (t - 1) * ItemsPerPage < n
  {
    (n + ItemsPerPage - 1) / ItemsPerPage
  }

  lemma TotalPagesMonotone(m: nat, n: nat)
    requires m <= n
    ensures TotalPages(m) <= TotalPages(n)
  {
  }

  /** An index as `Array#slice` normalises it: negative counts from the end, then clamped. */
  function SliceIndex(i: int, n: nat): (k: nat)
    ensures k <= n
    ensures i < 0 ==> k == (if n + i < 0 then 0 else n + i)
    ensures 0 <= i ==> k == (if i < n then i else n)
  {
    if i < 0 then (if n + i < 0 then 0 else n + i) else if i < n then i else n
  }

  /** `s.slice(start, end)`. */
  function JsSlice<T>(s: seq<T>, start: int, end: int): seq<T>
  {
    var from := SliceIndex(start, |s|);
    var to := SliceIndex(end, |s|);
    if from < to then s[from..to] else []
  }

  /** The items shown on page `page`. */
  function PageSlice<T>(s: seq<T>, page: int): seq<T>
  {
    JsSlice(s, (page - 1) * ItemsPerPage, (page - 1) * ItemsPerPage + ItemsPerPage)
  }

  /** Page `page` (from 1) holds positions `[(page-1)*5, page*5)` of the list, in order. */
  lemma PageSliceAt<T>(s: seq<T>, page: int)
    requires 1 <= page
    ensures var start := (page - 1) * ItemsPerPage;
      var r := PageSlice(s, page);
      |r| <= ItemsPerPage &&
      |r| == (if start < |s| then (if |s| - start < ItemsPerPage then |s| - start else ItemsPerPage) else 0) &&
      forall k :: 0 <= k < |r| ==> r[k] == s[start + k]
  {
  }

  /** Whatever the page counter holds, at most five items are shown. */
  lemma PageSliceBounded<T>(s: seq<T>, page: int)
    ensures |PageSlice(s, page)| <= ItemsPerPage
  {
  }

  /** Every item appears on one page between 1 and `TotalPages`, at its position within it. */
  lemma {:induction false} EveryItemOnSomePage<T>(s: seq<T>, i: nat)
    requires i < |s|
    ensures var page := i / ItemsPerPage + 1;
      1 <= page <= TotalPages(|s|) && i % ItemsPerPage < |PageSlice(s, page)| &&
      PageSlice(s, page)[i % ItemsPerPage] == s[i]
  {
    var page := i / ItemsPerPage + 1;
    PageSliceAt(s, page);
    assert (page - 1) * ItemsPerPage + i % ItemsPerPage == i;
  }

  /** `Math.max(prev - 1, 1)`. */
  function Previous(page: int): (p: int)
    ensures 1 <= p
    ensures page > 1 ==> p == page - 1
    ensures page <= 1 ==> p == 1
  {
    if page - 1 > 1 then page - 1 else 1
  }

  /** `Math.min(prev + 1, totalPages)`, the handler as the pages write it. */
  function NextAsWritten(page: int, n: nat): int
  {
    var t := TotalPages(n);
    if page + 1 < t then page + 1 else t
  }

  /**
   * On an empty list the Next button stays enabled (the page, 1, differs from the page
   * count, 0), and its handler moves the counter to page 0; once an item is added,
   * page 0 is `slice(-5, 0)`, which shows nothing although the list is not empty.
   */
  lemma NextAsWrittenLeavesFirstPage<T>(x: T)
    ensures NextAsWritten(1, 0) == 0
    ensures PageSlice([x], NextAsWritten(1, 0)) == []
  {
  }

  /** Next, clamped to the last page, and to page 1 when there is no item. */
  function Next(page: int, n: nat): (p: int)
    ensures p <= page + 1
    ensures 1 <= page ==> 1 <= p
    ensures p <= TotalPages(n) || p == 1
    ensures page < TotalPages(n) ==> p == page + 1
    ensures 1 <= TotalPages(n) <= page ==> p == TotalPages(n)
    ensures TotalPages(n) == 0 && 0 <= page ==> p == 1
  {
    var t := if TotalPages(n) < 1 then 1 else TotalPages(n);
    if page + 1 < t then page + 1 else t
  }

  /** Whenever there is at least one item, the corrected Next agrees with the original. */
  lemma NextAgreesWhenNonEmpty(page: int, n: nat)
    requires 1 <= n
    ensures Next(page, n) == NextAsWritten(page, n)
  {
  }

  /** The range a page counter stays in: from 1 up to the last page (1 for an empty list). */
  predicate InRange(page: int, n: nat)
  {
    1 <= page && (page <= TotalPages(n) || page == 1)
  }

  lemma {:induction false} StepsStayInRange(page: int, n: nat)
    requires InRange(page, n)
    ensures InRange(Previous(page), n) && InRange(Next(page, n), n)
  {
  }

  lemma {:induction false} GrowingKeepsInRange(page: int, m: nat, n: nat)
    requires InRange(page, m) && m <= n
    ensures InRange(page, n)
  {
    TotalPagesMonotone(m, n);
  }
}
