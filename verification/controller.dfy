/** The listing grid as one state machine: the infinite query's pages and
    in-flight request, the manual/automatic "show more" mode, the "started
    scrolling" store field and the two carousel maps, driven by filter changes,
    "Show More" clicks, window scroll ticks, page arrivals and carousel scrolls.
    Every transition reports the page request it issues, if any. */
module Controller {
  import opened Options
  import opened Listings
  import opened Paging
  import opened Backend
  import opened Carousel
  import opened ScrollTrigger

  /** A request for one page of one result set. */
  datatype PageRequest = PageRequest(key: FilterKey, page: nat)
  {
    function Range(): RowRange
    {
      PageRange(page)
    }
  }

  datatype State = State(
    key: FilterKey,
    pages: seq<Page>,
    inFlight: Option<PageRequest>,
    /** `true` in manual mode (the "Show More" button), `false` in automatic mode. */
    showMore: bool,
    startScroll: bool,
    /** The carousel map the cards are rendered with; only carousel scrolls write it. */
    positions: Positions,
    /** The map the result-set effect initialises; nothing renders it. */
    initialPositions: Positions)

  datatype Event =
    | SelectFilter(key: FilterKey)
    | ShowMoreClicked
    | WindowScrolled(scrollY: real, containerBottom: Option<real>, innerHeight: real)
    | PageArrived(rows: Page)
    | ItemScrolled(itemId: Id, container: Option<Geometry>)

  /** A transition's result: the new state and the request it issued. */
  datatype Outcome = Outcome(state: State, request: Option<PageRequest>)

  /** The first page request of a result set, issued only while it is enabled. */
  function FirstRequest(key: FilterKey): (r: Option<PageRequest>)
    ensures r.Some? <==> Enabled(key)
    ensures r.Some? ==> r.value == PageRequest(key, 0) && r.value.Range() == RowRange(0, PageSize - 1)
  {
    if Enabled(key) then Some(PageRequest(key, 0)) else None
  }

  /** Mounting the grid: manual mode, no pages, empty carousel maps, and the
      first page requested when the category is set. */
  function Mount(key: FilterKey, startScroll: bool): (o: Outcome)
    ensures o.state.showMore && o.state.pages == []
    ensures o.request.Some? <==> Enabled(key)
    ensures o.request.Some? ==> o.request.value.page == 0
    ensures o.state.inFlight == o.request
  {
    var req := FirstRequest(key);
    Outcome(State(key, [], req, true, startScroll, map[], map[]), req)
  }

  predicate HasNext(s: State)
  {
    HasNextPage(s.pages)
  }

  /** A request for a page after the first is loading. */
  predicate IsFetchingNextPage(s: State)
  {
    s.inFlight.Some? && s.inFlight.value.page > 0
  }

  /** The "Show More" affordance is rendered: there is data, the mode is manual
      and a next page exists. */
  predicate ShowMoreShown(s: State)
  {
    |s.pages| > 0 && s.showMore && HasNext(s)
  }

  /** The "Show More" button is disabled: nothing was fetched yet, the last
      page came back short, or a next page is already loading. */
  function ShowMoreDisabled(s: State): (disabled: bool)
    ensures disabled <==>
              |s.pages| == 0 || |s.pages[|s.pages| - 1]| < PageSize || IsFetchingNextPage(s)
  {
    HasNextPageIff(s.pages);
    !HasNext(s) || IsFetchingNextPage(s)
  }

  /** Asking for the next page: the page after the fetched ones. */
  function NextRequest(s: State): PageRequest
  {
    PageRequest(s.key, |s.pages|)
  }

  /** The listings the grid renders. */
  function Rendered(s: State): seq<Listing>
  {
    ItemsToRender(s.pages)
  }

  /** One event. Only a new filter key changes the key, and it drops the pages;
      only an arrival with a request in flight adds a page, appending its rows;
      an issued request becomes the in-flight one, for the current key, and
      asks for the page after the fetched ones or, on a new key, for page 0. */
  function Step(s: State, e: Event): (o: Outcome)
    ensures !e.SelectFilter? ==> o.state.key == s.key
    ensures e.SelectFilter? && e.key != s.key ==> o.state.key == e.key && o.state.pages == []
    ensures e.PageArrived? && s.inFlight.Some? ==>
              o.state.pages == s.pages + [e.rows] && o.state.inFlight.None?
    ensures e.PageArrived? && s.inFlight.None? ==> o == Outcome(s, None)
    ensures !e.PageArrived? && !(e.SelectFilter? && e.key != s.key) ==> o.state.pages == s.pages
    ensures o.request.Some? ==>
              o.state.inFlight == o.request && o.request.value.key == o.state.key
              && o.request.value.page == |o.state.pages|
  {
    match e
    case SelectFilter(key) =>
      if key == s.key then Outcome(s, None)
      else
        var req := FirstRequest(key);
        var mode := if key.category != s.key.category then true else s.showMore;
        Outcome(s.(key := key, pages := [], inFlight := req, showMore := mode), req)
    case ShowMoreClicked =>
      if ShowMoreShown(s) && !ShowMoreDisabled(s) then
        var req := NextRequest(s);
        Outcome(s.(inFlight := Some(req), showMore := false), Some(req))
      else Outcome(s, None)
    case WindowScrolled(scrollY, bottom, innerHeight) =>
      var t := WindowTick(scrollY, bottom, innerHeight, s.showMore, HasNext(s), IsFetchingNextPage(s));
      var s1 := s.(startScroll := if t.startScroll.Some? then t.startScroll.value else s.startScroll);
      if t.fetchNext then
        var req := NextRequest(s);
        Outcome(s1.(inFlight := Some(req)), Some(req))
      else Outcome(s1, None)
    case PageArrived(rows) =>
      if s.inFlight.None? then Outcome(s, None)
      else
        var pages := s.pages + [rows];
        Outcome(s.(pages := pages, inFlight := None,
                   initialPositions := ScrollPositionsEffect(Some(pages), s.initialPositions)), None)
    case ItemScrolled(itemId, container) =>
      Outcome(s.(positions := Observe(s.positions, itemId, container)), None)
  }

  /** The state invariant: no page exceeds a range request; pages exist or load
      only for an enabled result set; an in-flight request is for the current
      result set and for the page after the fetched ones. */
  predicate Inv(s: State)
  {
    && PagesBounded(s.pages)
    && (|s.pages| > 0 || s.inFlight.Some? ==> Enabled(s.key))
    && (s.inFlight.Some? ==> s.inFlight.value.key == s.key && s.inFlight.value.page == |s.pages|)
  }

  /** Range requests never return more rows than they ask for. */
  predicate WellFormed(e: Event)
  {
    e.PageArrived? ==> |e.rows| <= PageSize
  }

  lemma MountInv(key: FilterKey, startScroll: bool)
    ensures Inv(Mount(key, startScroll).state)
  {
  }

  /** Every transition keeps the invariant, given that responses respect their
      range. */
  lemma StepPreservesInv(s: State, e: Event)
    requires Inv(s) && WellFormed(e)
    ensures Inv(Step(s, e).state)
  {
    if e.PageArrived? && s.inFlight.Some? {
      var pages := s.pages + [e.rows];
      assert forall i :: 0 <= i < |s.pages| ==> pages[i] == s.pages[i];
    }
  }

  /** At most one request is in flight: a transition issues a request only when
      none is loading, or when a new result set supersedes the old one; the
      request it issues becomes the in-flight one, for the current result set,
      asking for the page after the fetched ones. */
  lemma AtMostOneInFlight(s: State, e: Event)
    requires Inv(s)
    ensures Step(s, e).request.Some? ==> s.inFlight.None? || (e.SelectFilter? && e.key != s.key)
    ensures Step(s, e).request.Some? ==>
              var s' := Step(s, e).state;
              s'.inFlight == Step(s, e).request
              && s'.inFlight.value.key == s'.key && s'.inFlight.value.page == |s'.pages|
  {
  }

  /** No request is ever issued for a result set whose category is unset. */
  lemma NoFetchWhileDisabled(s: State, e: Event)
    requires Inv(s)
    ensures Step(s, e).request.Some? ==> Enabled(Step(s, e).request.value.key)
  {
  }

  /** A new filter key discards the pages and asks for page 0 when enabled; the
      mode returns to manual when the category changed and is kept when only
      the ids, country or city changed. Re-selecting the current key does
      nothing. */
  lemma FilterChange(s: State, key: FilterKey)
    ensures key == s.key ==> Step(s, SelectFilter(key)) == Outcome(s, None)
    ensures key != s.key ==>
              var o := Step(s, SelectFilter(key));
              && o.state.pages == [] && o.state.key == key
              && (o.request.Some? <==> Enabled(key))
              && (o.request.Some? ==> o.request.value.page == 0)
              && (key.category != s.key.category ==> o.state.showMore)
              && (key.category == s.key.category ==> o.state.showMore == s.showMore)
  {
  }

  /** The mode changes in only two ways: to automatic by a "Show More" click
      that issues a request, and to manual by a change of category. */
  lemma ModeTransitions(s: State, e: Event)
    ensures var o := Step(s, e);
            s.showMore && !o.state.showMore ==> e.ShowMoreClicked? && o.request.Some?
    ensures var o := Step(s, e);
            !s.showMore && o.state.showMore ==> e.SelectFilter? && e.key.category != s.key.category
  {
  }

  /** The "Show More" affordance is shown exactly in manual mode once some page
      was fetched and the last one came back full. */
  lemma ShowMoreAffordance(s: State)
    ensures ShowMoreShown(s) <==>
              s.showMore && |s.pages| > 0 && |s.pages[|s.pages| - 1]| >= PageSize
  {
    HasNextPageIff(s.pages);
  }

  /** A click on the shown, enabled button issues exactly the next page's
      request and switches to automatic mode; any other click changes nothing. */
  lemma ShowMoreClick(s: State)
    ensures ShowMoreShown(s) && !ShowMoreDisabled(s) ==>
              var o := Step(s, ShowMoreClicked);
              o.request == Some(PageRequest(s.key, |s.pages|)) && !o.state.showMore
              && o.state.pages == s.pages
    ensures !(ShowMoreShown(s) && !ShowMoreDisabled(s)) ==>
              Step(s, ShowMoreClicked) == Outcome(s, None)
  {
  }

  /** A scroll tick fetches exactly when the mode is automatic, the container is
      near the bottom, a next page exists and no next page is loading; in manual
      mode it never fetches. It always records whether the page is at the top. */
  lemma ScrollTick(s: State, scrollY: real, bottom: Option<real>, innerHeight: real)
    ensures var o := Step(s, WindowScrolled(scrollY, bottom, innerHeight));
            (o.request.Some? <==>
               !s.showMore && NearBottom(bottom, innerHeight) && HasNext(s) && !IsFetchingNextPage(s))
            && (o.request.Some? ==> o.request.value == NextRequest(s))
            && o.state.startScroll == (scrollY <= 0.0)
            && o.state.showMore == s.showMore && o.state.pages == s.pages
  {
  }

  /** An arriving page is appended after the fetched ones, so the rendered
      listings grow by exactly its rows, in arrival order; an arrival with
      nothing in flight is ignored. */
  lemma ArrivalAppends(s: State, rows: Page)
    requires Inv(s) && |rows| <= PageSize
    ensures s.inFlight.None? ==> Step(s, PageArrived(rows)) == Outcome(s, None)
    ensures s.inFlight.Some? ==>
              var s' := Step(s, PageArrived(rows)).state;
              s'.pages == s.pages + [rows] && Rendered(s') == Rendered(s) + rows
              && s'.inFlight.None?
  {
    if s.inFlight.Some? {
      var s' := Step(s, PageArrived(rows)).state;
      StepPreservesInv(s, PageArrived(rows));
      RenderIsFlatten(s.pages);
      RenderIsFlatten(s'.pages);
      FlattenAppend(s.pages, rows);
    }
  }

  /** The rendered carousel map is written only by carousel scrolls, and the
      initialised map only by page arrivals, where it becomes the unscrolled
      state of every fetched listing. */
  lemma CarouselMapsSeparate(s: State, e: Event)
    ensures !e.ItemScrolled? ==> Step(s, e).state.positions == s.positions
    ensures !e.PageArrived? ==> Step(s, e).state.initialPositions == s.initialPositions
    ensures e.PageArrived? && s.inFlight.Some? ==>
              var s' := Step(s, e).state;
              s'.initialPositions.Keys == IdsOf(Flatten(s'.pages))
              && forall k :: k in s'.initialPositions ==> s'.initialPositions[k] == Unscrolled
  {
    var s' := Step(s, e).state;
    match e
    case SelectFilter(_) =>
    case ShowMoreClicked =>
    case WindowScrolled(_, _, _) =>
    case PageArrived(rows) =>
      if s.inFlight.Some? {
        assert s'.initialPositions == ScrollPositionsEffect(Some(s.pages + [rows]), s.initialPositions);
      }
    case ItemScrolled(_, _) =>
  }

  /** Appending the answer to the next page's request keeps pages served. */
  lemma ServedAppend(src: seq<Listing>, pages: seq<Page>, rows: Page)
    requires Served(src, pages) && rows == Respond(src, PageRange(|pages|))
    ensures Served(src, pages + [rows])
  {
    var pages' := pages + [rows];
    forall i | 0 <= i < |pages'| ensures pages'[i] == Respond(src, PageRange(i)) {
      if i < |pages| {
        assert pages'[i] == pages[i];
      } else {
        assert pages'[i] == rows;
      }
    }
  }

  /** Served pages render a prefix of the source, one page's worth per page. */
  lemma ServedRendered(src: seq<Listing>, pages: seq<Page>)
    requires Served(src, pages)
    ensures ItemsToRender(pages) == src[..Min(|pages| * PageSize, |src|)]
  {
    ServedIsPagesFrom(src, pages);
    FetchedPrefix(src, |pages|);
    RenderIsFlatten(pages);
  }

  /** With the remote source answering each request with its range of a fixed
      result sequence, the fetched pages stay exactly the first pages of that
      sequence, so the grid renders a prefix of it with no gap and no repeat. */
  lemma StepServed(src: seq<Listing>, s: State, e: Event)
    requires Inv(s) && Served(src, s.pages)
    requires e.PageArrived? && s.inFlight.Some? ==> e.rows == Respond(src, s.inFlight.value.Range())
    ensures Served(src, Step(s, e).state.pages)
    ensures Rendered(Step(s, e).state) == src[..Min(|Step(s, e).state.pages| * PageSize, |src|)]
  {
    var s' := Step(s, e).state;
    if e.PageArrived? && s.inFlight.Some? {
      ServedAppend(src, s.pages, e.rows);
    } else {
      assert s'.pages == s.pages || s'.pages == [];
    }
    ServedRendered(src, s'.pages);
  }

  /** The result of a run of events: the final state and the requests issued,
      in order. */
  datatype Trace = Trace(state: State, requests: seq<PageRequest>)

  function Run(s: State, events: seq<Event>): Trace
  {
    if |events| == 0 then Trace(s, [])
    else
      var t := Run(s, events[..|events| - 1]);
      var o := Step(t.state, events[|events| - 1]);
      Trace(o.state, t.requests + (if o.request.Some? then [o.request.value] else []))
  }

  /** Pages fetched plus the one loading, if any. */
  function Requested(s: State): nat
  {
    |s.pages| + (if s.inFlight.Some? then 1 else 0)
  }

  /** One transition other than a filter change keeps the key and the
      invariant, and a request it issues asks for page `Requested(s)`, after
      which one more page counts as requested. */
  lemma StepRequest(s: State, e: Event)
    requires Inv(s) && WellFormed(e) && !e.SelectFilter?
    ensures Inv(Step(s, e).state) && Step(s, e).state.key == s.key
    ensures Step(s, e).request.None? ==> Requested(Step(s, e).state) == Requested(s)
    ensures Step(s, e).request.Some? ==>
              Step(s, e).request.value == PageRequest(s.key, Requested(s))
              && Requested(Step(s, e).state) == Requested(s) + 1
  {
    StepPreservesInv(s, e);
  }

  /** Within one result set, pages are requested in order with none skipped or
      repeated: whatever mix of clicks, scroll ticks, arrivals and carousel
      scrolls occurs, the i-th request of a run asks for page `Requested(s) + i`
      of the current key. Starting from a mount, the pages requested are
      0, 1, 2, ... */
  lemma {:induction false} RequestsConsecutive(s: State, events: seq<Event>)
    requires Inv(s)
    requires forall i :: 0 <= i < |events| ==> WellFormed(events[i]) && !events[i].SelectFilter?
    ensures Inv(Run(s, events).state)
    ensures Run(s, events).state.key == s.key
    ensures Requested(Run(s, events).state) == Requested(s) + |Run(s, events).requests|
    ensures forall i :: 0 <= i < |Run(s, events).requests| ==>
              Run(s, events).requests[i] == PageRequest(s.key, Requested(s) + i)
  {
    if |events| > 0 {
      var init := events[..|events| - 1];
      var e := events[|events| - 1];
      assert forall i :: 0 <= i < |init| ==> init[i] == events[i];
      RequestsConsecutive(s, init);
      var t := Run(s, init);
      var o := Step(t.state, e);
      StepRequest(t.state, e);
      var added := if o.request.Some? then [o.request.value] else [];
      assert Run(s, events) == Trace(o.state, t.requests + added);
    }
  }

  /** The manual-then-automatic scenario: in manual mode a scroll near the
      bottom fetches nothing; a click then issues exactly one request and
      switches to automatic mode; once that page arrives full, the same scroll
      fetches the following page by itself. */
  lemma ManualThenAuto(s: State, scrollY: real, bottom: real, innerHeight: real, rows: Page)
    requires Inv(s) && s.showMore && HasNext(s) && s.inFlight.None?
    requires bottom <= innerHeight + FetchMargin
    requires |rows| == PageSize
    ensures var o1 := Step(s, WindowScrolled(scrollY, Some(bottom), innerHeight));
            o1.request.None? && o1.state.showMore
    ensures var o2 := Step(s, ShowMoreClicked);
            o2.request == Some(PageRequest(s.key, |s.pages|)) && !o2.state.showMore
    ensures var s3 := Step(Step(s, ShowMoreClicked).state, PageArrived(rows)).state;
            var o4 := Step(s3, WindowScrolled(scrollY, Some(bottom), innerHeight));
            o4.request == Some(PageRequest(s.key, |s.pages| + 1))
  {
    ScrollTick(s, scrollY, Some(bottom), innerHeight);
    ShowMoreClick(s);
    var s2 := Step(s, ShowMoreClicked).state;
    assert s2 == s.(inFlight := Some(NextRequest(s)), showMore := false);
    var s3 := Step(s2, PageArrived(rows)).state;
    assert s3.pages == s.pages + [rows] && s3.inFlight.None? && !s3.showMore && s3.key == s.key;
    assert HasNext(s3) by {
      HasNextPageIff(s3.pages);
    }
    ScrollTick(s3, scrollY, Some(bottom), innerHeight);
  }
}
