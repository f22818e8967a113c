/** A model of the remote listing source behind the range request: the rows that
    match one filter key form a fixed sequence, and a range request returns the
    rows at the requested offsets that exist. With it, the page arithmetic can be
    checked end to end: fetching pages 0, 1, 2, ... reads the result sequence
    front to back with no gap and no repeat. */
module Backend {
  import opened Listings
  import opened Paging

  /** The answer to a range request: the rows of `source` whose offsets lie in
      the inclusive range, in order. */
  function Respond(source: seq<Listing>, r: RowRange): (rows: Page)
    ensures r.first <= r.last + 1 ==> |rows| <= r.last + 1 - r.first
    ensures r.first <= |source| && r.first <= r.last + 1 ==>
              |rows| == Min(r.last + 1, |source|) - r.first
    ensures forall k :: 0 <= k < |rows| ==> r.first + k < |source| && rows[k] == source[r.first + k]
  {
    var lo := Min(r.first, |source|);
    var hi := Min(r.last + 1, |source|);
    if lo <= hi then source[lo..hi] else []
  }

  /** The first `k` pages, each the answer to its page's range request. */
  function PagesFrom(source: seq<Listing>, k: nat): (pages: seq<Page>)
    ensures |pages| == k
    ensures PagesBounded(pages)
  {
    if k == 0 then []
    else PagesFrom(source, k - 1) + [Respond(source, PageRange(k - 1))]
  }

  /** Pages that are each their own range request's answer. */
  predicate Served(source: seq<Listing>, pages: seq<Page>)
  {
    forall i :: 0 <= i < |pages| ==> pages[i] == Respond(source, PageRange(i))
  }

  /** Served pages are exactly the first pages of the source. */
  lemma ServedIsPagesFrom(source: seq<Listing>, pages: seq<Page>)
    ensures Served(source, pages) <==> pages == PagesFrom(source, |pages|)
  {
    if Served(source, pages) {
      ServedArePagesFrom(source, pages);
    }
    if pages == PagesFrom(source, |pages|) {
      PagesFromServed(source, |pages|);
    }
  }

  lemma {:induction false} ServedArePagesFrom(source: seq<Listing>, pages: seq<Page>)
    requires Served(source, pages)
    ensures pages == PagesFrom(source, |pages|)
  {
    if |pages| > 0 {
      var n := |pages| - 1;
      ServedInit(source, pages);
      ServedArePagesFrom(source, pages[..n]);
      assert PagesFrom(source, |pages|) == PagesFrom(source, n) + [Respond(source, PageRange(n))];
      assert pages == pages[..n] + [pages[n]];
    }
  }

  /** Dropping the last page keeps pages served. */
  lemma ServedInit(source: seq<Listing>, pages: seq<Page>)
    requires Served(source, pages) && |pages| > 0
    ensures Served(source, pages[..|pages| - 1])
  {
    var init := pages[..|pages| - 1];
    forall i | 0 <= i < |init| ensures init[i] == Respond(source, PageRange(i)) {
      assert init[i] == pages[i];
    }
  }

  lemma {:induction false} PagesFromServed(source: seq<Listing>, k: nat)
    ensures Served(source, PagesFrom(source, k))
  {
    if k > 0 {
      PagesFromServed(source, k - 1);
      var prev := PagesFrom(source, k - 1);
      var pages := PagesFrom(source, k);
      forall i | 0 <= i < k ensures pages[i] == Respond(source, PageRange(i)) {
        if i < k - 1 {
          assert pages[i] == prev[i];
        }
      }
    }
  }

  /** The answer for page `p` is the slice of the source from `p * PageSize` to
      `(p + 1) * PageSize`, cut at the end of the source. */
  lemma RespondPage(source: seq<Listing>, p: nat)
    ensures Min(p * PageSize, |source|) <= Min((p + 1) * PageSize, |source|)
    ensures Respond(source, PageRange(p))
         == source[Min(p * PageSize, |source|)..Min((p + 1) * PageSize, |source|)]
  {
  }

  /** After `k` pages, the fetched listings are exactly the first `k * PageSize`
      rows of the source (or all of them, if it is shorter): in order, with no
      gap and no repeat. */
  lemma {:induction false} FetchedPrefix(source: seq<Listing>, k: nat)
    ensures Flatten(PagesFrom(source, k)) == source[..Min(k * PageSize, |source|)]
  {
    if k > 0 {
      var lo := Min((k - 1) * PageSize, |source|);
      var hi := Min(k * PageSize, |source|);
      var prev := Flatten(PagesFrom(source, k - 1));
      var page := Respond(source, PageRange(k - 1));
      assert prev == source[..lo] by {
        FetchedPrefix(source, k - 1);
      }
      assert lo <= hi <= |source| && page == source[lo..hi] by {
        RespondPage(source, k - 1);
      }
      FlattenPagesFromStep(source, k);
      SliceConcat(source, lo, hi);
    }
  }

  lemma SliceConcat(s: seq<Listing>, lo: nat, hi: nat)
    requires lo <= hi <= |s|
    ensures s[..lo] + s[lo..hi] == s[..hi]
  {
  }

  /** Fetching one more page appends its answer to the flattened pages. */
  lemma FlattenPagesFromStep(source: seq<Listing>, k: nat)
    requires k > 0
    ensures Flatten(PagesFrom(source, k))
         == Flatten(PagesFrom(source, k - 1)) + Respond(source, PageRange(k - 1))
  {
    FlattenAppend(PagesFrom(source, k - 1), Respond(source, PageRange(k - 1)));
  }

  /** After `k > 0` pages, a next page is reported exactly while the source
      still had a full page at page `k - 1`. */
  lemma HasNextAfter(source: seq<Listing>, k: nat)
    requires k > 0
    ensures HasNextPage(PagesFrom(source, k)) <==> k * PageSize <= |source|
  {
    var pages := PagesFrom(source, k);
    assert pages[k - 1] == Respond(source, PageRange(k - 1));
  }

  /** A source of 23 matching listings is read as pages of 9, 9 and 5 listings;
      a next page is reported after the first and second page but not after the
      third, and all 23 listings are rendered. */
  lemma TwentyThreeListings(source: seq<Listing>)
    requires |source| == 23
    ensures |PagesFrom(source, 1)[0]| == 9
    ensures |PagesFrom(source, 2)[1]| == 9
    ensures |PagesFrom(source, 3)[2]| == 5
    ensures HasNextPage(PagesFrom(source, 1)) && HasNextPage(PagesFrom(source, 2))
    ensures !HasNextPage(PagesFrom(source, 3))
    ensures ItemsToRender(PagesFrom(source, 3)) == source
  {
    HasNextAfter(source, 1);
    HasNextAfter(source, 2);
    HasNextAfter(source, 3);
    FetchedPrefix(source, 3);
    RenderIsFlatten(PagesFrom(source, 3));
    assert source[..23] == source;
  }
}
