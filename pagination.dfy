/** The list paging of the live-bids tab: `paginate_dataframe` cuts page `page_num` out of the
    filtered rows with a Python slice, and `total_pages` is the ceiling of the row count over
    the page size of 10. */
module Pagination {
  import opened Seqs

  /** `PAGE_SIZE`. */
  const PageSize: nat := 10

  function Min(a: int, b: int): int
  {
    if a <= b then a else b
  }

  /** How Python turns a slice bound into an index of a list of length `n`: a negative bound
      counts from the end, and the result is clipped to `[0, n]`. */
  function SliceBound(i: int, n: nat): (b: nat)
    ensures b <= n
    ensures 0 <= i ==> b == Min(i, n)
  {
    if i < 0 then (if i + n < 0 then 0 else i + n) else if i > n then n else i
  }

  /** Python's `s[start:stop]` (`DataFrame.iloc[start:stop]`). */
  function PySlice<T>(s: seq<T>, start: int, stop: int): seq<T>
  {
    var lo, hi := SliceBound(start, |s|), SliceBound(stop, |s|);
    if lo < hi then s[lo..hi] else []
  }

  /** `paginate_dataframe(df, page_num, page_size)`. */
  function Paginate<T>(rows: seq<T>, pageNum: int, pageSize: int): seq<T>
  {
    PySlice(rows, pageNum * pageSize, (pageNum + 1) * pageSize)
  }

  /** `total_pages = (len(filtered) + PAGE_SIZE - 1) // PAGE_SIZE`. */
  function TotalPages(n: nat): nat
  {
    (n + PageSize - 1) / PageSize
  }

  /** A page number from zero up takes the rows at `[p * s, min((p + 1) * s, n))`, in order:
      at most `s` rows, and none once `p * s` reaches the row count. */
  lemma PageWindow<T>(rows: seq<T>, p: nat, s: nat)
    ensures p * s <= (p + 1) * s
    ensures Paginate(rows, p, s) == rows[Min(p * s, |rows|)..Min((p + 1) * s, |rows|)]
    ensures |Paginate(rows, p, s)| <= s
    ensures p * s >= |rows| ==> Paginate(rows, p, s) == []
  {
    assert (p + 1) * s == p * s + s;
  }

  /** Page `-1` is empty: its slice is `[-s:0]`. */
  lemma PageMinusOneEmpty<T>(rows: seq<T>, s: nat)
    ensures Paginate(rows, -1, s) == []
  {
    assert (-1 + 1) * s == 0;
  }

  /** A page number `-(k + 2)` does not give an empty page: Python reads its negative slice
      bounds from the end of the list, so it shows the rows `[n - (k + 2) * s, n - (k + 1) * s)`. */
  lemma NegativePageCountsFromEnd<T>(rows: seq<T>, k: nat, s: nat)
    requires (k + 2) * s <= |rows|
    ensures Paginate(rows, -(k + 2), s) == rows[|rows| - (k + 2) * s..|rows| - (k + 1) * s]
  {
    var p := -(k + 2);
    assert p * s == -((k + 2) * s);
    assert (p + 1) * s == -((k + 1) * s);
    assert (k + 2) * s == (k + 1) * s + s;
  }

  /** `total_pages` is the ceiling of `n / 10`. */
  lemma TotalPagesIsCeiling(n: nat)
    ensures TotalPages(n) * PageSize >= n
    ensures n > 0 ==> (TotalPages(n) - 1) * PageSize < n
    ensures n == 0 <==> TotalPages(n) == 0
  {
  }

  /** Row index `i` lies in the window of page `p`. */
  predicate OnPage(i: nat, p: nat)
  {
    p * PageSize <= i < (p + 1) * PageSize
  }

  /** Every row lies on exactly one page, `i / 10`, which is below `total_pages`, and shows
      there at position `i % 10`. */
  lemma RowOnExactlyOnePage<T>(rows: seq<T>, i: nat)
    requires i < |rows|
    ensures i / PageSize < TotalPages(|rows|)
    ensures forall p: nat {:trigger OnPage(i, p)} :: OnPage(i, p) <==> p == i / PageSize
    ensures |Paginate(rows, i / PageSize, PageSize)| > i % PageSize
    ensures Paginate(rows, i / PageSize, PageSize)[i % PageSize] == rows[i]
  {
    var p := i / PageSize;
    PageWindow(rows, p, PageSize);
    forall q: nat ensures OnPage(i, q) <==> q == p {
    }
  }

  /** A page from zero up has rows exactly when it is below `total_pages`. */
  lemma NonEmptyPages<T>(rows: seq<T>, p: nat)
    ensures Paginate(rows, p, PageSize) != [] <==> p < TotalPages(|rows|)
  {
    PageWindow(rows, p, PageSize);
    TotalPagesIsCeiling(|rows|);
  }

  /** The first `k` pages. */
  function Pages<T>(rows: seq<T>, k: nat): seq<seq<T>>
  {
    seq(k, p requires 0 <= p < k => Paginate(rows, p, PageSize))
  }

  lemma {:induction false} PagesPrefix<T>(rows: seq<T>, k: nat)
    ensures Flatten(Pages(rows, k)) == rows[..Min(k * PageSize, |rows|)]
  {
    if k > 0 {
      var last := Paginate(rows, k - 1, PageSize);
      PagesPrefix(rows, k - 1);
      assert Pages(rows, k) == Pages(rows, k - 1) + [last];
      FlattenSnoc(Pages(rows, k - 1), last);
      PageWindow(rows, k - 1, PageSize);
      assert k * PageSize == (k - 1) * PageSize + PageSize;
      var a, b := Min((k - 1) * PageSize, |rows|), Min(k * PageSize, |rows|);
      assert last == rows[a..b];
      assert rows[..a] + rows[a..b] == rows[..b];
    }
  }

  /** The pages `0 .. total_pages - 1`, read in order, give back every row exactly once. */
  lemma PagesPartitionRows<T>(rows: seq<T>)
    ensures Flatten(Pages(rows, TotalPages(|rows|))) == rows
  {
    PagesPrefix(rows, TotalPages(|rows|));
    TotalPagesIsCeiling(|rows|);
  }
}
