/** The infinite query's page arithmetic: which rows page `p` asks for, whether a
    further page exists, when fetching is enabled at all, and which of the
    fetched listings are rendered. */
module Paging {
  import opened Options
  import opened Listings

  /** Rows per page; every range request asks for this many rows. */
  const PageSize: nat := 9

  /** An inclusive range of row offsets, as passed to the range request. */
  datatype RowRange = RowRange(first: nat, last: nat)
  {
    predicate Contains(offset: nat) {
      first <= offset <= last
    }
  }

  /** The rows page `p` asks the backend for: the `PageSize` slots starting at
      `p * PageSize`, both ends inclusive. The contract pins the start through
      `r.first / PageSize == p` together with `r.first % PageSize == 0`;
      `PageRangesPartition` states the same fact as "offset `o` lies in page
      `o / PageSize` and no other". */
  function PageRange(p: nat): (r: RowRange)
    ensures r.last + 1 - r.first == PageSize
    ensures p == 0 ==> r.first == 0
    ensures r.first % PageSize == 0
    ensures r.first / PageSize == p
  {
    RowRange(p * PageSize, (p + 1) * PageSize - 1)
  }

  /** The page whose range holds a given row offset. */
  function PageOf(offset: nat): nat
  {
    offset / PageSize
  }

  /** Every row offset lies in the range of exactly one page, `PageOf(offset)`:
      together the page ranges tile the offsets with no gap and no overlap. */
  lemma PageRangesPartition(offset: nat, p: nat)
    ensures PageRange(PageOf(offset)).Contains(offset)
    ensures PageRange(p).Contains(offset) <==> p == PageOf(offset)
  {
    var q := PageOf(offset);
    assert q * PageSize <= offset < (q + 1) * PageSize;
    if p < q {
      assert (p + 1) * PageSize <= q * PageSize;
    } else if p > q {
      assert p * PageSize >= (q + 1) * PageSize;
    }
  }

  /** Consecutive pages are contiguous: page `p + 1` starts right after page `p`
      ends, and a later page starts after every row of an earlier one. */
  lemma PageRangesContiguous(p: nat, q: nat)
    requires p < q
    ensures PageRange(p + 1).first == PageRange(p).last + 1
    ensures PageRange(p).last < PageRange(q).first
  {
    assert (p + 1) * PageSize <= q * PageSize;
  }

  /** The next page parameter: absent once the last page came back short,
      otherwise the number of pages already fetched. */
  function NextPageParam(pages: seq<Page>): (r: Option<nat>)
    ensures r.None? <==> |pages| > 0 && |pages[|pages| - 1]| < PageSize
    ensures r.Some? ==> r.value == |pages|
  {
    if |pages| > 0 && |pages[|pages| - 1]| < PageSize then None
    else Some(|pages|)
  }

  /** Whether the infinite query reports a next page: there is data, and the
      next page parameter is present. */
  predicate HasNextPage(pages: seq<Page>)
  {
    |pages| > 0 && NextPageParam(pages).Some?
  }

  /** There is a next page exactly when some page was fetched and the last one
      came back full; it is then the page after the fetched ones. */
  lemma HasNextPageIff(pages: seq<Page>)
    ensures HasNextPage(pages) <==> |pages| > 0 && |pages[|pages| - 1]| >= PageSize
    ensures HasNextPage(pages) ==> NextPageParam(pages) == Some(|pages|)
  {
  }

  /** Whether the query may fetch: the selected category is set and not empty. */
  function Enabled(key: FilterKey): (enabled: bool)
    ensures enabled <==> key.category.Some? && |key.category.value| > 0
  {
    key.category.Some? && key.category.value != ""
  }

  function Min(a: int, b: int): int
  {
    if a <= b then a else b
  }

  /** The number of listings rendered: at most one full page per fetched page
      (counting an absent result as one page), falling back to at most one page. */
  function VisibleCount(pages: seq<Page>): (n: nat)
    ensures n <= |Flatten(pages)|
    ensures |pages| <= 1 ==> n <= PageSize
    ensures n <= |pages| * PageSize || n <= PageSize
  {
    var total := |Flatten(pages)|;
    var pageCount := if |pages| == 0 then 1 else |pages|;
    var first := Min(total, pageCount * PageSize);
    if first != 0 then first else Min(total, PageSize)
  }

  /** The listings that are rendered: a prefix of the flattened pages. */
  function ItemsToRender(pages: seq<Page>): (items: seq<Listing>)
    ensures items <= Flatten(pages)
  {
    Flatten(pages)[..VisibleCount(pages)]
  }

  /** No page is larger than a range request can return. */
  predicate PagesBounded(pages: seq<Page>)
  {
    forall i :: 0 <= i < |pages| ==> |pages[i]| <= PageSize
  }

  /** Pages of at most `PageSize` listings flatten to at most `PageSize` listings
      per page. */
  lemma {:induction false} FlattenBounded(pages: seq<Page>)
    requires PagesBounded(pages)
    ensures |Flatten(pages)| <= |pages| * PageSize
  {
    if |pages| > 0 {
      var init := pages[..|pages| - 1];
      assert PagesBounded(init) by {
        forall i | 0 <= i < |init| ensures |init[i]| <= PageSize {
          assert init[i] == pages[i];
        }
      }
      FlattenBounded(init);
      assert |pages| * PageSize == |init| * PageSize + PageSize;
    }
  }

  /** While no page exceeds `PageSize` listings, the visible-count truncation
      cuts nothing: every fetched listing is rendered, in fetch order. */
  lemma RenderIsFlatten(pages: seq<Page>)
    requires PagesBounded(pages)
    ensures VisibleCount(pages) == |Flatten(pages)|
    ensures ItemsToRender(pages) == Flatten(pages)
  {
    FlattenBounded(pages);
  }

  /** The truncation does bite on oversize pages: a single page of ten listings
      renders only nine of them. */
  lemma OversizePageIsTruncated(p: Page)
    requires |p| == PageSize + 1
    ensures |ItemsToRender([p])| == PageSize
  {
    assert [p][..0] == [];
  }
}
