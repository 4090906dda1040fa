/**
 * `[...list].sort(compare)`: a sorted copy of a list, the list itself left as it is.
 * The comparator is given as "may come first" (`le(a, b)` when `compare(a, b) <= 0`).
 * The copy is built by insertion, which keeps equal elements in their original order,
 * like JavaScript's stable sort.
 */
module Sorting {
  import Pagination

  ghost predicate TotalPreorder<T(!new)>(le: (T, T) -> bool)
  {
    (forall a, b :: le(a, b) || le(b, a)) &&
    (forall a, b, c :: le(a, b) && le(b, c) ==> le(a, c))
  }

  predicate SortedBy<T>(s: seq<T>, le: (T, T) -> bool)
  {
    forall i, j :: 0 <= i < j < |s| ==> le(s[i], s[j])
  }

  function Insert<T(!new)>(x: T, s: seq<T>, le: (T, T) -> bool): (r: seq<T>)
    requires TotalPreorder(le) && SortedBy(s, le)
    ensures SortedBy(r, le)
    ensures multiset(r) == multiset(s) + multiset{x}
  {
    if s == [] then [x]
    else if le(x, s[0]) then
      assert forall j :: 0 < j < |s| ==> le(s[0], s[j]);
      [x] + s
    else
      assert le(s[0], x);
      var rest := Insert(x, s[1..], le);
      assert s == [s[0]] + s[1..];
      assert forall j :: 0 <= j < |rest| ==> le(s[0], rest[j]) by {
        forall j | 0 <= j < |rest| ensures le(s[0], rest[j]) {
          assert rest[j] in multiset(rest);
          if rest[j] != x {
            assert rest[j] in multiset(s[1..]);
            var k :| 0 <= k < |s[1..]| && s[1..][k] == rest[j];
            assert s[k + 1] == rest[j];
          }
        }
      }
      [s[0]] + rest
  }

  /** The sorted copy: ordered by `le` and a permutation of `s`. */
  function SortBy<T(!new)>(s: seq<T>, le: (T, T) -> bool): (r: seq<T>)
    requires TotalPreorder(le)
    ensures SortedBy(r, le)
    ensures multiset(r) == multiset(s)
    ensures |r| == |s|
  {
    if s == [] then []
    else
      assert s == [s[0]] + s[1..];
      Insert(s[0], SortBy(s[1..], le), le)
  }

  /** A slice of a sorted list is sorted. */
  lemma SortedSlice<T>(s: seq<T>, le: (T, T) -> bool, from: nat, to: nat)
    requires SortedBy(s, le) && from <= to <= |s|
    ensures SortedBy(s[from..to], le)
  {
  }

  /** A page of a sorted list is sorted, and holds only elements of the list. */
  lemma SortedPage<T>(sorted: seq<T>, le: (T, T) -> bool, page: int)
    requires SortedBy(sorted, le)
    ensures var r := Pagination.PageSlice(sorted, page);
      |r| <= Pagination.ItemsPerPage && SortedBy(r, le) && forall x :: x in r ==> x in sorted
  {
    Pagination.PageSliceBounded(sorted, page);
    var from := Pagination.SliceIndex((page - 1) * Pagination.ItemsPerPage, |sorted|);
    var to := Pagination.SliceIndex((page - 1) * Pagination.ItemsPerPage + Pagination.ItemsPerPage, |sorted|);
    if from < to {
      SortedSlice(sorted, le, from, to);
    }
  }

  /**
   * A page of a sorted copy of `list`: sorted, drawn from `list`, and exactly positions
   * `[(page-1)*5, page*5)` of the copy.
   */
  lemma SortedCopyPage<T>(list: seq<T>, sorted: seq<T>, le: (T, T) -> bool, page: int)
    requires multiset(sorted) == multiset(list) && |sorted| == |list| && SortedBy(sorted, le)
    ensures var r := Pagination.PageSlice(sorted, page);
      && |r| <= Pagination.ItemsPerPage && SortedBy(r, le)
      && (forall k :: 0 <= k < |r| ==> r[k] in list)
      && (1 <= page ==> var start := (page - 1) * Pagination.ItemsPerPage;
        && |r| == (if start >= |list| then 0 else if |list| - start < Pagination.ItemsPerPage then |list| - start else Pagination.ItemsPerPage)
        && forall k :: 0 <= k < |r| ==> start + k < |list| && r[k] == sorted[start + k])
  {
    SortedPage(sorted, le, page);
    var r := Pagination.PageSlice(sorted, page);
    forall k | 0 <= k < |r| ensures r[k] in list {
      assert r[k] in sorted;
      assert r[k] in multiset(sorted);
    }
    if 1 <= page {
      Pagination.PageSliceAt(sorted, page);
    }
  }
}
