/** The window-scroll handler: on every scroll tick it writes the presentational
    store fields and decides whether to fetch the next page automatically. */
module ScrollTrigger {
  import opened Options

  /** How close (in layout units) the bottom of the listing container must come
      to the bottom of the viewport for an automatic fetch. */
  const FetchMargin: real := 500.0

  /** The scroll offset below which a non-positive offset still counts as the
      top of the page. */
  const TopThreshold: real := 22.0

  /** The "started scrolling" store write of one tick: `false` once the page is
      scrolled at all, `true` otherwise. The second branch's `< 22` test can
      never fail, because it is reached only for offsets that are not positive,
      so every tick writes the field. */
  function StartScrollUpdate(scrollY: real): (r: Option<bool>)
    ensures r == Some(scrollY <= 0.0)
  {
    if scrollY > 0.0 then Some(false)
    else if scrollY < TopThreshold then Some(true)
    else None
  }

  /** Whether the listing container's bottom edge (absent while the container
      is not mounted) is within the fetch margin of the viewport's bottom. */
  predicate NearBottom(containerBottom: Option<real>, innerHeight: real)
  {
    containerBottom.Some? && containerBottom.value <= innerHeight + FetchMargin
  }

  /** Everything one scroll tick does: it un-minimises the header, sets the
      active-input field to the empty value, writes the "started scrolling"
      field, and may ask for the next page. */
  datatype TickEffects = TickEffects(
    minimize: bool,
    activeInput: string,
    startScroll: Option<bool>,
    fetchNext: bool)

  /** One window-scroll tick. `showMore` is the manual-mode flag; the automatic
      fetch is considered only in automatic mode, only with the container near
      the bottom, and fires only when a next page exists and none is loading. */
  function WindowTick(
    scrollY: real, containerBottom: Option<real>, innerHeight: real,
    showMore: bool, hasNextPage: bool, isFetchingNextPage: bool): (t: TickEffects)
    ensures !t.minimize && t.activeInput == ""
    ensures t.startScroll == Some(scrollY <= 0.0)
    ensures t.fetchNext <==>
              !showMore && NearBottom(containerBottom, innerHeight)
              && hasNextPage && !isFetchingNextPage
    ensures showMore ==> !t.fetchNext
  {
    var fetch :=
      if !showMore then
        if NearBottom(containerBottom, innerHeight) then
          hasNextPage && !isFetchingNextPage
        else false
      else false;
    TickEffects(false, "", StartScrollUpdate(scrollY), fetch)
  }
}
