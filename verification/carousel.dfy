/** Per-listing image carousels: the boundary cache that says whether a
    listing's image strip is scrolled to its start or its end, the arrow buttons'
    scroll request, and the initial all-at-start map built when the result set
    changes. */
module Carousel {
  import opened Options
  import opened Listings

  /** Whether a listing's image strip is at its left and at its right edge. */
  datatype CarouselState = CarouselState(isAtStart: bool, isAtEnd: bool)

  /** The state a listing starts in before its strip is first scrolled. */
  const Unscrolled := CarouselState(true, false)

  /** The scroll geometry read from a listing's image container. */
  datatype Geometry = Geometry(scrollLeft: real, scrollWidth: real, clientWidth: real)

  /** Boundary states keyed by listing id. */
  type Positions = map<Id, CarouselState>

  function Abs(x: real): (r: real)
    ensures r >= 0.0 && (r == x || r == -x)
  {
    if x < 0.0 then -x else x
  }

  /** The distance still scrollable to the right. */
  function RemainingRight(g: Geometry): real
  {
    g.scrollWidth - g.clientWidth - g.scrollLeft
  }

  /** The boundary state a geometry yields. */
  function Boundary(g: Geometry): CarouselState
  {
    CarouselState(g.scrollLeft == 0.0, Abs(RemainingRight(g)) < 1.0)
  }

  /** The scroll handler for one listing: with a mounted container, the entry
      for `itemId` is recomputed from its geometry (at the start iff nothing is
      scrolled, at the end iff less than one unit remains on either side of the
      right edge) and every other entry is kept; without one, nothing changes. */
  function Observe(m: Positions, itemId: Id, container: Option<Geometry>): (m': Positions)
    ensures container.None? ==> m' == m
    ensures container.Some? ==> m'.Keys == m.Keys + {itemId}
    ensures container.Some? ==>
              (m'[itemId].isAtStart <==> container.value.scrollLeft == 0.0)
    ensures container.Some? ==>
              (m'[itemId].isAtEnd <==> -1.0 < RemainingRight(container.value) < 1.0)
    ensures forall k :: k in m && k != itemId ==> k in m' && m'[k] == m[k]
  {
    match container
    case None => m
    case Some(g) =>
      m[itemId := Boundary(g)]
  }

  /** Observations of different listings do not interfere: their order does not
      matter. */
  lemma ObserveCommutes(m: Positions, a: Id, ca: Option<Geometry>, b: Id, cb: Option<Geometry>)
    requires a != b
    ensures Observe(Observe(m, a, ca), b, cb) == Observe(Observe(m, b, cb), a, ca)
  {
  }

  /** One scroll event on the listing grid: a listing id and the container found
      for it, if any. */
  datatype ScrollEvent = ScrollEvent(itemId: Id, container: Option<Geometry>)

  /** The cache after a sequence of scroll events, applied in arrival order. */
  function ObserveAll(m: Positions, events: seq<ScrollEvent>): Positions
  {
    if |events| == 0 then m
    else
      var e := events[|events| - 1];
      Observe(ObserveAll(m, events[..|events| - 1]), e.itemId, e.container)
  }

  /** Last observation wins, whatever other listings do in between: after any
      interleaving of scroll events, a listing's entry is the boundary state of
      its latest event that found a container, and a listing no such event
      concerns keeps its earlier entry. */
  lemma {:induction false} ObserveAllLastWins(m: Positions, events: seq<ScrollEvent>, id: Id)
    ensures (exists i :: 0 <= i < |events| && events[i].itemId == id && events[i].container.Some?)
            ==> id in ObserveAll(m, events)
                && ObserveAll(m, events)[id] == Boundary(LastGeometry(events, id))
    ensures (forall i :: 0 <= i < |events| ==> events[i].itemId != id || events[i].container.None?)
            ==> (id in ObserveAll(m, events) <==> id in m)
                && (id in m ==> ObserveAll(m, events)[id] == m[id])
  {
    if |events| > 0 {
      var init := events[..|events| - 1];
      var e := events[|events| - 1];
      ObserveAllLastWins(m, init, id);
      assert ObserveAll(m, events) == Observe(ObserveAll(m, init), e.itemId, e.container);
      if e.itemId != id || e.container.None? {
        if exists i :: 0 <= i < |events| && events[i].itemId == id && events[i].container.Some? {
          var i :| 0 <= i < |events| && events[i].itemId == id && events[i].container.Some?;
          assert i < |init| && init[i] == events[i];
          LastGeometrySkip(events, id);
        }
        forall i | 0 <= i < |init| && init[i].itemId == id && init[i].container.Some?
          ensures exists j :: 0 <= j < |events| && events[j].itemId == id && events[j].container.Some?
        {
          assert events[i] == init[i];
        }
      }
    }
  }

  /** The geometry of the latest event for `id` that found a container (an
      arbitrary geometry when there is none). */
  function LastGeometry(events: seq<ScrollEvent>, id: Id): Geometry
  {
    if |events| == 0 then Geometry(0.0, 0.0, 0.0)
    else
      var e := events[|events| - 1];
      if e.itemId == id && e.container.Some? then e.container.value
      else LastGeometry(events[..|events| - 1], id)
  }

  lemma LastGeometrySkip(events: seq<ScrollEvent>, id: Id)
    requires |events| > 0
    requires events[|events| - 1].itemId != id || events[|events| - 1].container.None?
    ensures LastGeometry(events, id) == LastGeometry(events[..|events| - 1], id)
  {
  }

  /** Width of one image cell, the distance one arrow click scrolls. */
  const ImageWidth: real := 301.91

  /** The arrow-button handler: with a mounted container it requests a smooth
      scroll by exactly one image width, to the right for the direction "right"
      and to the left for any other direction; without one it requests nothing.
      It never updates the boundary cache itself. */
  function ScrollAmount(direction: string, container: Option<Geometry>): (amount: Option<real>)
    ensures amount.Some? <==> container.Some?
    ensures amount.Some? ==> Abs(amount.value) == ImageWidth
    ensures amount.Some? ==> (amount.value > 0.0 <==> direction == "right")
  {
    if container.None? then None
    else if direction == "right" then Some(ImageWidth)
    else Some(-ImageWidth)
  }

  /** The initial map built from the fetched listings: every listing id maps to
      the unscrolled state, and no other id is present. */
  function InitialPositions(items: seq<Listing>): (m: Positions)
    ensures m.Keys == IdsOf(items)
    ensures forall k :: k in m ==> m[k] == Unscrolled
  {
    if |items| == 0 then map[]
    else
      var init := items[..|items| - 1];
      var prev := InitialPositions(init);
      assert IdsOf(items) == IdsOf(init) + {items[|items| - 1].id} by {
        forall x | x in IdsOf(items) ensures x in IdsOf(init) + {items[|items| - 1].id} {
          var k :| 0 <= k < |items| && items[k].id == x;
          if k < |init| {
            assert init[k] == items[k];
          }
        }
        forall x | x in IdsOf(init) ensures x in IdsOf(items) {
          var k :| 0 <= k < |init| && init[k].id == x;
          assert items[k] == init[k];
        }
      }
      prev[items[|items| - 1].id := Unscrolled]
  }

  /** The effect run when the result set changes: while there is no result the
      map is left as it is; otherwise it is replaced by the initial map of every
      fetched listing. */
  function ScrollPositionsEffect(data: Option<seq<Page>>, current: Positions): (m: Positions)
    ensures data.None? ==> m == current
    ensures data.Some? ==> m.Keys == IdsOf(Flatten(data.value))
    ensures data.Some? ==> forall k :: k in m ==> m[k] == Unscrolled
  {
    match data
    case None => current
    case Some(pages) => InitialPositions(Flatten(pages))
  }
}
