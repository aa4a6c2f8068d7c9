/** Fixed-size pages over the sorted results (frontend/src/pages/SearchPage.tsx). */
module Pagination {

  /** Two rows of three cards. */
  const ItemsPerPage: nat := 6

  function Min(a: int, b: int): int {
    if a <= b then a else b
  }

  /** `Math.ceil(n / ITEMS_PER_PAGE)`: the fewest pages that hold `n` items. */
  function TotalPages(n: nat): (t: nat)
    ensures n <= t * ItemsPerPage
    ensures t > 0 ==> (t - 1) * ItemsPerPage < n
    ensures t == 0 <==> n == 0
  {
    (n + ItemsPerPage - 1) / ItemsPerPage
  }

  /** How `Array.prototype.slice` reads an index: negative counts from the end,
      and the result is clamped into `[0, len]`. */
  function SliceIndex(i: int, len: nat): (k: nat)
    ensures k <= len
    ensures 0 <= i ==> k == Min(i, len)
    ensures i < 0 ==> k as int == (if len + i < 0 then 0 else len + i)
  {
    if i < 0 then (if len + i < 0 then 0 else len + i)
    else if i > len then len
    else i
  }

  /** `xs.slice(start, end)`. */
  function JsSlice<T>(xs: seq<T>, start: int, end: int): (r: seq<T>)
    ensures 0 <= start <= end ==> r == xs[Min(start, |xs|)..Min(end, |xs|)]
    ensures start <= end ==> |r| <= end - start
  {
    var s := SliceIndex(start, |xs|);
    var e := SliceIndex(end, |xs|);
    if s < e then xs[s..e] else []
  }

  /** `paginatedResults`: the items shown on page `page` (1-based). The page number
      is used as given; pages past the end are empty. */
  function PageItems<T>(sorted: seq<T>, page: int): (r: seq<T>)
    ensures |r| <= ItemsPerPage
    ensures page >= 1 ==>
              r == sorted[Min(|sorted|, (page - 1) * ItemsPerPage)..Min(|sorted|, page * ItemsPerPage)]
    ensures 1 <= page <= TotalPages(|sorted|) ==> |r| > 0
    ensures page > TotalPages(|sorted|) ==> r == []
    ensures page == 0 ==> r == []
    ensures page < 0 ==>
              var n := |sorted|;
              r == sorted[(if n + (page - 1) * ItemsPerPage < 0 then 0 else n + (page - 1) * ItemsPerPage)
                          ..(if n + page * ItemsPerPage < 0 then 0 else n + page * ItemsPerPage)]
  {
    var start := (page - 1) * ItemsPerPage;
    JsSlice(sorted, start, start + ItemsPerPage)
  }

  /** A page number below 1 counts back from the end of the list, as `slice`
      reads negative indices: with ten results, page -1 is the first four. */
  lemma NegativePageCountsFromEnd<T>(sorted: seq<T>)
    requires |sorted| == 10
    ensures PageItems(sorted, 0) == []
    ensures PageItems(sorted, -1) == sorted[..4]
    ensures PageItems(sorted, -2) == []
  {
  }

  /** Pages `page`, `page + 1`, ..., `TotalPages` laid end to end. */
  function PagesFrom<T>(sorted: seq<T>, page: nat): seq<T>
    requires page >= 1
    decreases TotalPages(|sorted|) + 1 - page
  {
    if page > TotalPages(|sorted|) then []
    else PageItems(sorted, page) + PagesFrom(sorted, page + 1)
  }

  lemma {:induction false} PagesFromSuffix<T>(sorted: seq<T>, page: nat)
    requires 1 <= page
    ensures PagesFrom(sorted, page) == sorted[Min(|sorted|, (page - 1) * ItemsPerPage)..]
    decreases TotalPages(|sorted|) + 1 - page
  {
    if page <= TotalPages(|sorted|) {
      PagesFromSuffix(sorted, page + 1);
      var a := Min(|sorted|, (page - 1) * ItemsPerPage);
      var b := Min(|sorted|, page * ItemsPerPage);
      assert sorted[a..] == sorted[a..b] + sorted[b..];
    }
  }

  /** The pages, read in order, are exactly the sorted results: nothing is lost,
      repeated or reordered by pagination. */
  lemma PagesCoverResults<T>(sorted: seq<T>)
    ensures PagesFrom(sorted, 1) == sorted
  {
    PagesFromSuffix(sorted, 1);
  }
}
