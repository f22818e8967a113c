# Listing grid pagination and scroll-mode controller, in Dafny

This project models the listing grid of a property-rental client (`House.jsx`).
The grid shows a growing set of listings for one filter key, which is made of the
search ids, the category (the selected icon), the country and the city. Listings
arrive in pages of 9. Page `p` asks for the inclusive row range `[9p, 9p+8]`, and a
page shorter than 9 means the set is exhausted. Fetching is disabled while no
category is selected.

More pages come in two ways. In manual mode, a "Show More" button fetches them. Once
that button is clicked, the grid switches to automatic mode: a window scroll that
brings the container's bottom within 500 units of the viewport's bottom fetches the
next page by itself. A change of category sets the grid back to manual mode.

Each listing has an image carousel. The grid caches whether each carousel is at its
start or at its end. Favorite toggles become save or delete calls.

Modules, one per concern:

- `Options`, `Listings`: the `Option` wrapper, listings, pages, filter keys, and flattening.
- `Paging`: the range arithmetic, the next-page parameter, the enabled flag, and the visible-count slice.
- `Backend`: a model of the remote source. The rows matching one key form a fixed
  sequence, and a range request returns the rows at those offsets. This is an
  assumption about a collaborator that is not part of this model. It lets the page
  arithmetic be checked end to end.
- `Carousel`: the scroll handler's boundary update, the arrow buttons' scroll amount,
  and the all-unscrolled initial map.
- `ScrollTrigger`: one window-scroll tick: the store writes and the automatic-fetch decision.
- `Favorites`: the favorite effect's decision, and the calls it emits over a sequence of renders.
- `Controller`: all of the above as one state machine. Filter changes, clicks, scroll
  ticks, page arrivals and carousel scrolls are its events. Each transition returns the
  page request it issues, if any.

Three behaviours of the code are easy to miss; the model follows the code:

- The mode reset effect depends only on the category (`House.jsx:144-146`). A new
  key that differs only in ids, country or city discards the pages but keeps the
  mode (`Controller.FilterChange`).
- The carousel map the cards are rendered with (`House.jsx:297`) is written only by
  the scroll handler. The map that gives every listing the default `{true, false}`
  (`House.jsx:84-103`) is a separate one, and nothing renders it. The model keeps the
  two maps apart (`Controller.CarouselMapsSeparate`).
- Favorite calls carry no sequence number, and their failures are not handled
  (`House.jsx:69-81`). The model therefore promises only the order in which calls are
  emitted, and nothing about the order in which they complete.

## Model

| member | source | states |
|---|---|---|
| `Listings.Flatten` | src/components/Main/House.jsx:349 | flattening keeps every listing of every page: its length is the sum of the page lengths, and the last page forms its tail |
| `Listings.FlattenIndex` | src/components/Main/House.jsx:349 | listing `j` of page `i` sits in the flattened sequence at the offset of page `i` plus `j`: fetch order is preserved |
| `Paging.PageRange` | src/components/Main/House.jsx:277-278 | page `p` asks for exactly 9 inclusive row slots, starting at a multiple of 9, and page 0 starts at row 0 |
| `Paging.PageRangesPartition` | src/components/Main/House.jsx:277-278 | every row offset lies in the range of exactly one page, `offset / 9`, so no row is asked for twice or skipped |
| `Paging.PageRangesContiguous` | src/components/Main/House.jsx:277-278 | page `p+1` starts right after page `p` ends, and a later page starts after every row of an earlier page |
| `Paging.NextPageParam` | src/components/Main/House.jsx:280-283 | there is no next page iff the last fetched page is shorter than 9; otherwise the next page index is the number of pages fetched |
| `Paging.HasNextPageIff` | src/components/Main/House.jsx:280-283 | a next page is reported iff some page was fetched and the last one is full, and it is then page number `|pages|` |
| `Paging.Enabled` | src/components/Main/House.jsx:284 | fetching is enabled iff a category is selected and it is not the empty string |
| `Paging.VisibleCount` | src/components/Main/House.jsx:351-354 | the visible count never exceeds the number of fetched listings, nor 9 per fetched page (an absent result counts as one page) |
| `Paging.ItemsToRender` | src/components/Main/House.jsx:357 | the rendered listings are a prefix of the flattened pages |
| `Paging.FlattenBounded` | src/components/Main/House.jsx:349-357 | pages of at most 9 listings flatten to at most 9 listings per page |
| `Paging.RenderIsFlatten` | src/components/Main/House.jsx:349-357 | while no page holds more than 9 listings, the visible count equals the total, and the rendered listings are exactly all pages concatenated in fetch order |
| `Paging.OversizePageIsTruncated` | src/components/Main/House.jsx:352-357 | the slice is not a no-op in general: one page of 10 listings renders only 9 |
| `Backend.Respond` | src/components/Main/House.jsx:271-279 | a range request's answer has at most as many rows as the range has slots, and each row is the source row at the requested offset |
| `Backend.ServedIsPagesFrom` | src/components/Main/House.jsx:271-279 | pages that each answer their own page's range request are exactly the first pages of the source |
| `Backend.FetchedPrefix` | src/components/Main/House.jsx:271-283 | fetching pages 0..k-1 yields exactly the first `min(9k, n)` source rows, in order, with no gap or repeat |
| `Backend.HasNextAfter` | src/components/Main/House.jsx:280-283 | after `k > 0` pages, a next page is reported iff the source held at least `9k` rows |
| `Backend.TwentyThreeListings` | src/components/Main/House.jsx:271-283 | 23 matching rows are read as pages of 9, 9 and 5; a next page is reported after pages 1 and 2 and not after page 3; all 23 rows are rendered |
| `Carousel.Observe` | src/components/Main/House.jsx:156-171 | with a container, the entry for the item is at-start iff `scrollLeft == 0` and at-end iff the remaining scroll is within 1 unit of the edge; every other entry is unchanged; without a container the map is unchanged |
| `Carousel.ObserveCommutes` | src/components/Main/House.jsx:161-167 | observations of different listings commute |
| `Carousel.ObserveAllLastWins` | src/components/Main/House.jsx:161-167 | after any interleaving of scroll events, a listing's entry reflects its latest event that found a container; a listing with no such event keeps its earlier entry |
| `Carousel.ScrollAmount` | src/components/Main/House.jsx:173-185 | an arrow click requests a scroll of exactly one image width, positive iff the direction is "right", and only when the container exists |
| `Carousel.InitialPositions` | src/components/Main/House.jsx:90-99 | the initial map has exactly the fetched listings' ids as keys, each mapped to at-start and not at-end |
| `Carousel.ScrollPositionsEffect` | src/components/Main/House.jsx:87-100 | with no result the map is kept; otherwise it is replaced by the initial map of every fetched listing |
| `ScrollTrigger.StartScrollUpdate` | src/components/Main/House.jsx:205-209 | every tick writes "started scrolling": false iff the offset is positive, because the `< 22` test can never fail |
| `ScrollTrigger.WindowTick` | src/components/Main/House.jsx:199-221 | a tick un-minimises the header and sets the active-input field to the empty value, and fetches iff the mode is automatic, the container bottom is within 500 units of the viewport bottom, a next page exists and none is loading; it never fetches in manual mode |
| `Favorites.FavoriteDecision` | src/components/Main/House.jsx:70-77 | no call iff the item id is unset (absent or 0) or there is no user; otherwise exactly one call for that item, which is a save iff the favorite flag is set |
| `Favorites.Runs` | src/components/Main/House.jsx:81 | the effect runs iff it is the first render or the item, the user object or the flag differs from the previous render's; a render on which it does not run would have made the same decision as the render before it |
| `Favorites.EffectActions` | src/components/Main/House.jsx:69-81 | the effect never emits more calls than there are renders |
| `Favorites.EffectActionsMonotone` | src/components/Main/House.jsx:69-81 | at most one call per render: the calls of the first `j` renders are a prefix of those of the first `k`, with at most `k - j` more |
| `Favorites.ActionsComeFromRenders` | src/components/Main/House.jsx:69-81 | every emitted call is the decision of some render |
| `Favorites.RepeatedRenderIsSilent` | src/components/Main/House.jsx:69-81 | a re-render with unchanged dependencies (same item, same user object, same flag) emits no call |
| `Favorites.OneCallPerChange` | src/components/Main/House.jsx:69-81 | renders that each change the dependencies, with an item and a user, emit one call each, in render order, each equal to that render's decision |
| `Favorites.ToggleEmitsInOrder` | src/components/Main/House.jsx:69-81 | favorite, unfavorite, favorite on one item emits save, delete, save, in that order |
| `Controller.FirstRequest` | src/components/Main/House.jsx:269-285 | the first request exists iff the category is set and not empty, and it asks for page 0, rows 0 to 8 |
| `Controller.Mount` | src/components/Main/House.jsx:296-320 | mounting starts in manual mode with no pages, and requests page 0 iff fetching is enabled |
| `Controller.ShowMoreDisabled` | src/components/Main/House.jsx:38 | the button is disabled iff nothing was fetched, the last page is shorter than 9, or a next page is loading |
| `Controller.Step` | src/components/Main/House.jsx:199-221 | only a new key changes the key, and it drops the pages; only an arrival with a request in flight appends its rows and clears the request, and an arrival with nothing in flight changes nothing; every other event keeps the pages; an issued request becomes the in-flight one, for the current key and for the page after those fetched. Besides the scroll handler cited here, the transition models the click at lines 34-37, the mode reset at 144-146, the carousel scroll at 161-167 and the page list at 349 |
| `Controller.StepPreservesInv` | src/components/Main/House.jsx:269-285 | every transition keeps the invariant: pages of at most 9, data only for an enabled key, and the in-flight request is for the current key and for page number `|pages|` |
| `Controller.AtMostOneInFlight` | src/components/Main/House.jsx:211-221 | a request is issued only when none is loading, or when a new key supersedes the old one, and it becomes the in-flight request |
| `Controller.NoFetchWhileDisabled` | src/components/Main/House.jsx:284 | no request is ever issued for a key whose category is unset or empty |
| `Controller.FilterChange` | src/components/Main/House.jsx:144-146 | a new key discards the pages and requests page 0 iff enabled; the mode becomes manual iff the category changed, and is otherwise kept; re-selecting the same key does nothing |
| `Controller.ModeTransitions` | src/components/Main/House.jsx:34-37 | the mode becomes automatic only by a click that issues a request, and becomes manual only by a change of category |
| `Controller.ShowMoreAffordance` | src/components/Main/House.jsx:387 | the "Show More" affordance is shown iff the mode is manual, some page was fetched and the last page is full |
| `Controller.ShowMoreClick` | src/components/Main/House.jsx:32-39 | a click on the shown, enabled button issues exactly the next page's request and switches to automatic mode; a click on a hidden or disabled button changes nothing |
| `Controller.ScrollTick` | src/components/Main/House.jsx:199-221 | a scroll tick issues the next page's request iff the mode is automatic, the container is near the bottom, a next page exists and none is loading; it never changes the mode or the pages |
| `Controller.ArrivalAppends` | src/components/Main/House.jsx:349-357 | an arriving page is appended, so the rendered listings grow by exactly its rows; an arrival with nothing in flight is ignored |
| `Controller.CarouselMapsSeparate` | src/components/Main/House.jsx:297 | only carousel scrolls write the rendered map; only page arrivals write the initialised map, which then covers exactly the fetched listings, all unscrolled |
| `Controller.ServedAppend` | src/components/Main/House.jsx:271-279 | appending the answer to page number `|pages|` keeps every page the answer to its own request |
| `Controller.ServedRendered` | src/components/Main/House.jsx:349-357 | served pages render exactly the first `min(9k, n)` source rows |
| `Controller.StepServed` | src/components/Main/House.jsx:271-283 | when the remote source answers each request with its range, every transition keeps the pages equal to the source's first pages, and the grid renders a prefix of the source |
| `Controller.StepRequest` | src/components/Main/House.jsx:280-283 | any transition other than a filter change keeps the key and the invariant, and a request it issues asks for exactly the page after those fetched or loading |
| `Controller.RequestsConsecutive` | src/components/Main/House.jsx:280-283 | within one key, the i-th request of any run of events asks for page `Requested(s) + i`, so pages are requested 0, 1, 2, ... with none skipped or repeated |
| `Controller.ManualThenAuto` | src/components/Main/House.jsx:34-38 | in manual mode a near-bottom scroll fetches nothing; a click issues one request and switches to automatic mode; after a full page arrives, the same scroll fetches the following page by itself |

## Left out

- Network transport: `fetchRowsWithOptions` and the favorite calls `saveFavorite`/`deleteFavorite` are not part of this model. Requests and favorite calls are emitted values. The remote source is modelled as a fixed sequence answered by slices (`Backend`), which is an assumption.
- Completion of favorite calls: their failures, retries and completion order are left out. The code fires them and forgets them, so no ordering guarantee exists to model.
- React and Redux plumbing: the render/effect scheduling, refs, the scroll-listener subscription, scroll restoration (`window.scrollTo`), the skeleton loaders and the "Continue exploring" text are left out. These are environment or presentation effects. DOM geometry enters as plain parameters.
- The scroll handler's stale closure: a real handler sees `hasNextPage` and `isFetchingNextPage` as of the last render. The model uses the current state, because render timing is not modelled.
- The query library's internals: its cache of previously visited keys, stale-result discarding, the error status and retries are left out. A new key starts with no pages, and an arrival answers the current in-flight request.
- `isFetchingNextPage` is modelled as "a request for a page after page 0 is in flight". The initial fetch of page 0 is not a next-page fetch.
- `IMAGE_WIDTH`: only its sign and magnitude matter to the model. Nothing computes further with it.
- Listing ids are modelled as integers. An item id of 0 counts as unset, as it is falsy in the source language.
- `Wishlist.jsx`, `WishListPage.jsx`, `app.py` and `new-listing-layout.jsx` are not part of this model. They hold a one-shot fetch, markup, a file-serving route and layout.
