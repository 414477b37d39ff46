/** Fixed-size client-side pagination shared by the admin order, product and
    user lists: ten rows a page, pages numbered from 1. */
module Pagination {
  import Seqs

  /** `ordersPerPage` / `itemsPerPage`. */
  const PageSize: nat := 10

  /** `Math.ceil(n / PageSize)`. */
  function TotalPages(n: nat): nat {
    (n + PageSize - 1) / PageSize
  }

  /** `TotalPages` is the least page count whose pages can hold `n` rows. */
  lemma TotalPagesIsCeiling(n: nat)
    ensures TotalPages(n) * PageSize >= n
    ensures TotalPages(n) > 0 ==> (TotalPages(n) - 1) * PageSize < n
    ensures TotalPages(n) == 0 <==> n == 0
  {
  }

  /** Page `page` of `s`: `s.slice((page - 1) * 10, (page - 1) * 10 + 10)`. */
  function PageOf<T>(s: seq<T>, page: int): seq<T> {
    Seqs.Slice(s, (page - 1) * PageSize, (page - 1) * PageSize + PageSize)
  }

  /** The other index formula, `indexOfLastItem = page * 10` and
      `indexOfFirstItem = indexOfLastItem - 10`, picks the same rows. */
  lemma LastItemFormulaAgrees<T>(s: seq<T>, page: int)
    ensures Seqs.Slice(s, page * PageSize - PageSize, page * PageSize) == PageOf(s, page)
  {
  }

  /** Every page holds at most ten rows; a page in `[1, TotalPages]` is the
      contiguous run starting at `(page - 1) * 10` and is never empty. */
  lemma PageShape<T>(s: seq<T>, page: int)
    ensures |PageOf(s, page)| <= PageSize
    ensures 1 <= page <= TotalPages(|s|) ==>
      var lo := (page - 1) * PageSize;
      var hi := if page * PageSize <= |s| then page * PageSize else |s|;
      lo < hi && PageOf(s, page) == s[lo..hi]
  {
    if 1 <= page <= TotalPages(|s|) {
      TotalPagesIsCeiling(|s|);
      var lo := (page - 1) * PageSize;
      Seqs.SliceInRange(s, lo, lo + PageSize);
    }
  }

  /** Pages `1..k` laid end to end. */
  function PagesUpTo<T>(s: seq<T>, k: nat): seq<T> {
    if k == 0 then [] else PagesUpTo(s, k - 1) + PageOf(s, k)
  }

  /** The first `k` pages are exactly the first `k * 10` rows (or all rows). */
  lemma {:induction false} PagesUpToIsPrefix<T>(s: seq<T>, k: nat)
    ensures PagesUpTo(s, k) == s[..if k * PageSize <= |s| then k * PageSize else |s|]
  {
    if k > 0 {
      PagesUpToIsPrefix(s, k - 1);
      var lo := (k - 1) * PageSize;
      Seqs.SliceInRange(s, lo, lo + PageSize);
      if lo <= |s| {
        var hi := if k * PageSize <= |s| then k * PageSize else |s|;
        assert s[..lo] + s[lo..hi] == s[..hi];
      }
    }
  }

  /** The pages partition the list: read in order, pages `1..TotalPages` give
      back every row exactly once, in order. */
  lemma PagesPartition<T>(s: seq<T>)
    ensures PagesUpTo(s, TotalPages(|s|)) == s
  {
    PagesUpToIsPrefix(s, TotalPages(|s|));
    TotalPagesIsCeiling(|s|);
  }

  /** Row `i` is shown on page `i / 10 + 1`, at position `i % 10`. */
  lemma RowPage<T>(s: seq<T>, i: int)
    requires 0 <= i < |s|
    ensures i / PageSize + 1 <= TotalPages(|s|)
    ensures i % PageSize < |PageOf(s, i / PageSize + 1)|
    ensures PageOf(s, i / PageSize + 1)[i % PageSize] == s[i]
  {
    var p := i / PageSize + 1;
    TotalPagesIsCeiling(|s|);
    PageShape(s, p);
  }

  /** The "previous" button: `Math.max(page - 1, 1)`. */
  function PrevPage(page: int): int {
    if page - 1 > 1 then page - 1 else 1
  }

  /** The "next" button: `Math.min(page + 1, totalPages)`. */
  function NextPage(page: int, totalPages: int): int {
    if page + 1 < totalPages then page + 1 else totalPages
  }

  /** From a page in `[1, totalPages]` both buttons stay in `[1, totalPages]`. */
  lemma PageButtonsClamp(page: int, totalPages: int)
    requires 1 <= page <= totalPages
    ensures 1 <= PrevPage(page) <= totalPages
    ensures 1 <= NextPage(page, totalPages) <= totalPages
    ensures page > 1 ==> PrevPage(page) == page - 1
    ensures page < totalPages ==> NextPage(page, totalPages) == page + 1
  {
  }

  /** `totalPages > 1`: the page buttons are rendered. */
  predicate ControlsShown(n: nat) {
    TotalPages(n) > 1
  }

  /** The page buttons appear exactly when there are more than ten rows. */
  lemma ControlsShownIff(n: nat)
    ensures ControlsShown(n) <==> n > PageSize
  {
  }
}
