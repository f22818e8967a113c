/** The optional-value wrapper used for values the listing grid may not have yet
    (no category selected, no container mounted, no signed-in user). */
module Options {

  datatype Option<+T> = None | Some(value: T)
}

/** The records the listing grid works on: listings, pages of listings, and the
    filter key that identifies one paginated result set. */
module Listings {
  import opened Options

  /** Listing identifiers are compared by value; they key the carousel maps. */
  type Id = int

  /** A listing as the grid sees it: a stable id plus display fields the grid
      never inspects. */
  datatype Listing = Listing(id: Id, details: string)

  /** One batch of listings returned by one range request. */
  type Page = seq<Listing>

  /** The query key of the infinite query: search ids, category (the selected
      icon), country and city. Two keys are the same result set iff they are equal. */
  datatype FilterKey = FilterKey(
    ids: seq<Id>,
    category: Option<string>,
    country: Option<string>,
    city: Option<string>)

  /** Total number of listings over all pages. */
  function TotalLength(pages: seq<Page>): nat
  {
    if |pages| == 0 then 0
    else TotalLength(pages[..|pages| - 1]) + |pages[|pages| - 1]|
  }

  /** All pages laid end to end, in fetch order. Nothing is dropped and nothing
      is added, and the last page forms the tail. */
  function Flatten(pages: seq<Page>): (items: seq<Listing>)
    ensures |items| == TotalLength(pages)
    ensures |pages| > 0 ==> items[TotalLength(pages[..|pages| - 1])..] == pages[|pages| - 1]
  {
    if |pages| == 0 then []
    else Flatten(pages[..|pages| - 1]) + pages[|pages| - 1]
  }

  /** Appending a page appends exactly its listings to the flattened sequence. */
  lemma FlattenAppend(pages: seq<Page>, p: Page)
    ensures Flatten(pages + [p]) == Flatten(pages) + p
  {
    assert (pages + [p])[..|pages|] == pages;
  }

  /** Every listing of every page appears in the flattened sequence, at the
      offset of its page plus its position in the page. */
  lemma {:induction false} FlattenIndex(pages: seq<Page>, i: nat, j: nat)
    requires i < |pages| && j < |pages[i]|
    ensures TotalLength(pages[..i]) + j < |Flatten(pages)|
    ensures Flatten(pages)[TotalLength(pages[..i]) + j] == pages[i][j]
  {
    var n := |pages| - 1;
    var init := pages[..n];
    assert Flatten(pages) == Flatten(init) + pages[n];
    if i < n {
      assert init[..i] == pages[..i];
      FlattenIndex(init, i, j);
    } else {
      assert pages[..i] == init;
    }
  }

  /** The ids of a sequence of listings. */
  function IdsOf(items: seq<Listing>): (ids: set<Id>)
    ensures forall k :: 0 <= k < |items| ==> items[k].id in ids
    ensures forall x :: x in ids ==> exists k :: 0 <= k < |items| && items[k].id == x
  {
    set k | 0 <= k < |items| :: items[k].id
  }
}
