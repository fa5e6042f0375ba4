/**
 * The pagination arithmetic of the search handler (main.py): the window
 * `results[(page-1)*page_size : (page-1)*page_size + page_size]` taken with
 * Python's slice clamping, and `total_pages = (n + page_size - 1) // page_size`.
 */
module Pagination {

  function Min(a: int, b: int): int
  {
    if a <= b then a else b
  }

  /** `start_index = (page - 1) * page_size` */
  function Offset(page: int, pageSize: int): nat
    requires page >= 1 && pageSize >= 1
  {
    (page - 1) * pageSize
  }

  /** How Python normalises one bound of `s[start:stop]` for a sequence of length `n`. */
  function ClampIndex(i: int, n: nat): (k: nat)
    ensures k <= n
    ensures 0 <= i ==> k == Min(i, n)
    ensures i < 0 && 0 <= i + n ==> k == i + n
    ensures i + n < 0 ==> k == 0
  {
    if i < 0 then (if i + n < 0 then 0 else i + n)
    else if i > n then n
    else i
  }

  /** Python's `s[start:stop]`: never fails; out-of-range bounds are clamped, an inverted range is empty. */
  function PySlice<T>(s: seq<T>, start: int, stop: int): (r: seq<T>)
    ensures |r| <= |s|
    ensures 0 <= start <= stop ==> r == s[Min(start, |s|)..Min(stop, |s|)]
    ensures 0 <= stop <= start ==> r == []
  {
    var lo := ClampIndex(start, |s|);
    var hi := ClampIndex(stop, |s|);
    if lo <= hi then s[lo..hi] else []
  }

  /**
   * `results[start_index:end_index]`: the contiguous, order-preserving run of
   * at most `page_size` results that starts at the page's offset; empty once
   * the offset is past the end.
   */
  function Paginate<T>(results: seq<T>, page: int, pageSize: int): (r: seq<T>)
    requires page >= 1 && 1 <= pageSize <= 50
    ensures |r| <= pageSize
    ensures Offset(page, pageSize) >= |results| ==> r == []
    ensures Offset(page, pageSize) < |results| ==>
      |r| == Min(pageSize, |results| - Offset(page, pageSize))
    ensures forall k | 0 <= k < |r| ::
      Offset(page, pageSize) + k < |results| && r[k] == results[Offset(page, pageSize) + k]
  {
    var startIndex := Offset(page, pageSize);
    var endIndex := startIndex + pageSize;
    PySlice(results, startIndex, endIndex)
  }

  /**
   * `(len(results) + page_size - 1) // page_size`, the ceiling of
   * `n / page_size` (Python's floor division and Dafny's agree on the
   * non-negative numerator): the least number of pages of `page_size` that
   * hold `n` results.
   */
  function TotalPages(n: nat, pageSize: int): (t: nat)
    requires pageSize >= 1
    ensures (t - 1) * pageSize < n <= t * pageSize
    ensures n == 0 ==> t == 0
  {
    var m := n + pageSize - 1;
    var t := m / pageSize;
    assert m == t * pageSize + m % pageSize;
    assert (t - 1) * pageSize == t * pageSize - pageSize;
    t
  }

  lemma MulMonotone(a: int, b: int, c: int)
    requires a <= b && c >= 0
    ensures a * c <= b * c
  {
    assert b * c - a * c == (b - a) * c;
  }

  /** The page count is exactly the ceiling of `n / page_size`: no other count satisfies the bounds. */
  lemma TotalPagesIsCeiling(n: nat, pageSize: int, t: int)
    requires pageSize >= 1
    ensures (t - 1) * pageSize < n <= t * pageSize <==> t == TotalPages(n, pageSize)
  {
    var c := TotalPages(n, pageSize);
    if (t - 1) * pageSize < n <= t * pageSize {
      if t > c {
        MulMonotone(c, t - 1, pageSize);
      } else if t < c {
        MulMonotone(t, c - 1, pageSize);
      }
    }
  }

  /** A page holds results exactly when its number is at most `total_pages`; later pages are empty. */
  lemma PageNonEmptyIff<T>(results: seq<T>, page: int, pageSize: int)
    requires page >= 1 && 1 <= pageSize <= 50
    ensures Paginate(results, page, pageSize) != [] <==> page <= TotalPages(|results|, pageSize)
  {
    var t := TotalPages(|results|, pageSize);
    if page <= t {
      MulMonotone(page - 1, t - 1, pageSize);
    } else {
      MulMonotone(t, page - 1, pageSize);
    }
  }

  /** Pages 1 to k, one after the other. */
  function Pages<T>(results: seq<T>, pageSize: int, k: nat): seq<T>
    requires 1 <= pageSize <= 50
  {
    if k == 0 then [] else Pages(results, pageSize, k - 1) + Paginate(results, k, pageSize)
  }

  /** Page `k` is the slice between the ends of pages `k - 1` and `k`. */
  lemma PageIsSlice<T>(results: seq<T>, k: int, pageSize: int)
    requires k >= 1 && 1 <= pageSize <= 50
    ensures (k - 1) * pageSize <= k * pageSize
    ensures Paginate(results, k, pageSize) ==
      results[Min((k - 1) * pageSize, |results|)..Min(k * pageSize, |results|)]
  {
    assert (k - 1) * pageSize + pageSize == k * pageSize;
  }

  lemma {:induction false} PagesArePrefix<T>(results: seq<T>, pageSize: int, k: nat)
    requires 1 <= pageSize <= 50
    ensures Pages(results, pageSize, k) == results[..Min(k * pageSize, |results|)]
  {
    if k > 0 {
      PagesArePrefix(results, pageSize, k - 1);
      PageIsSlice(results, k, pageSize);
      var lo := Min((k - 1) * pageSize, |results|);
      var hi := Min(k * pageSize, |results|);
      assert lo <= hi;
      assert Pages(results, pageSize, k) == results[..lo] + results[lo..hi];
      assert results[..lo] + results[lo..hi] == results[..hi];
    }
  }

  /** Pages 1 to `total_pages` together are the whole result list, in order, without gaps or repeats. */
  lemma PagesCoverResults<T>(results: seq<T>, pageSize: int)
    requires 1 <= pageSize <= 50
    ensures Pages(results, pageSize, TotalPages(|results|, pageSize)) == results
  {
    PagesArePrefix(results, pageSize, TotalPages(|results|, pageSize));
    assert results[..|results|] == results;
  }
}
