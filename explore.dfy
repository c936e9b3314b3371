/** The explore page: a map whose viewport filters the catalog into the list
    beside it, with a shared selection between map markers and list cards. */
module ExplorePage {
  import opened Wrappers
  import opened Seqs
  import opened Listing
  import Debounce

  /** Map viewport, southwest corner (south, west) to northeast corner (north, east).
      Containment of a point is inclusive on every side. */
  datatype Bounds = Bounds(south: real, west: real, north: real, east: real) {
    predicate Contains(lat: real, lng: real) {
      south <= lat <= north && west <= lng <= east
    }
  }

  /** Where the map is told to go: `map.setView([lat, lng], zoom)`. */
  datatype MapView = MapView(lat: Option<real>, lng: Option<real>, zoom: int)

  const SelectedZoom: int := 15

  /** The coordinate check shared by the list filter and the markers:
      `coordinates`, its `lat` and its `lng` are all truthy (0 is not). */
  predicate HasUsableCoordinates(p: Property) {
    p.coordinates.Some? && TruthyNum(p.coordinates.value.lat) && TruthyNum(p.coordinates.value.lng)
  }

  /** The test inside the filter: usable coordinates inside the bounds. */
  predicate InView(b: Bounds, p: Property) {
    HasUsableCoordinates(p) &&
    b.Contains(p.coordinates.value.lat.value, p.coordinates.value.lng.value)
  }

  function InViewOf(b: Bounds): Property -> bool {
    p => InView(b, p)
  }

  /** The list filtered to the viewport. */
  function VisibleIn(all: seq<Property>, b: Bounds): (r: seq<Property>)
    ensures |r| <= |all|
    ensures forall i :: 0 <= i < |r| ==> InView(b, r[i])
  {
    Filter(all, InViewOf(b))
  }

  /** The catalog entries that get a map marker. */
  function Markers(all: seq<Property>): (r: seq<Property>)
    ensures |r| <= |all|
    ensures forall i :: 0 <= i < |r| ==> HasUsableCoordinates(r[i])
  {
    Filter(all, HasUsableCoordinates)
  }

  /** `filterVisibleProperties`: with no bounds yet it leaves the visible list alone. */
  function FilterVisibleProperties(bounds: Option<Bounds>, all: seq<Property>, visible: seq<Property>): (r: seq<Property>)
    ensures bounds.None? ==> r == visible
    ensures bounds.Some? ==> |r| <= |all| && forall i :: 0 <= i < |r| ==> InView(bounds.value, r[i])
  {
    if bounds.None? then visible else VisibleIn(all, bounds.value)
  }

  /** The list the page shows for a non-empty catalog: everything while the bounds
      are unknown, the viewport's entries once they are known. */
  function Displayed(bounds: Option<Bounds>, all: seq<Property>): seq<Property> {
    if bounds.Some? then VisibleIn(all, bounds.value) else all
  }

  /** The bounds/catalog effect: the visible list after `mapBounds` or the catalog changes. */
  function VisibleAfterEffect(bounds: Option<Bounds>, all: seq<Property>, visible: seq<Property>): (r: seq<Property>)
    ensures |all| > 0 ==> r == Displayed(bounds, all)
    ensures |all| == 0 ==> r == visible
  {
    if bounds.Some? && |all| > 0 then FilterVisibleProperties(bounds, all, visible)
    else if bounds.None? && |all| > 0 then all
    else visible
  }

  /** `_id || id`: the key of a list card and of its DOM element. */
  function ListKey(p: Property): (k: Option<string>)
    ensures TruthyText(k) <==> TruthyText(p.objectId) || TruthyText(p.id)
    ensures TruthyText(p.objectId) ==> k == p.objectId
    ensures !TruthyText(p.objectId) ==> k == p.id
  {
    OrText(p.objectId, p.id)
  }

  /** A card is highlighted when its key equals `highlightedPropertyId`. The outer
      `None` is React's initial `null`, which equals no key, not even a missing one. */
  predicate IsHighlighted(highlighted: Option<Option<string>>, p: Property)
    ensures highlighted.None? ==> !IsHighlighted(highlighted, p)
    ensures IsHighlighted(highlighted, p) ==> highlighted.value == ListKey(p)
  {
    highlighted == Some(ListKey(p))
  }

  /** The keys of the visible cards that are drawn highlighted. */
  function HighlightedKeys(highlighted: Option<Option<string>>, visible: seq<Property>): set<Option<string>> {
    set p | p in visible && IsHighlighted(highlighted, p) :: ListKey(p)
  }

  /** `document.getElementById(`property-${key}`)` finds a card: some visible card
      has the clicked property's key. Then that key is scrolled into view. */
  function ScrollTarget(visible: seq<Property>, p: Property): (r: Option<Option<string>>)
    ensures r.Some? <==> exists i :: 0 <= i < |visible| && ListKey(visible[i]) == ListKey(p)
    ensures r.Some? ==> r.value == ListKey(p)
  {
    if exists i :: 0 <= i < |visible| && ListKey(visible[i]) == ListKey(p) then Some(ListKey(p)) else None
  }

  /** `MapController`'s effect body: recenter only when a property is selected and has
      `coordinates`. React runs it only when `selectedProperty` changes. */
  function Recenter(selected: Option<Property>): (v: Option<MapView>)
    ensures v.Some? <==> selected.Some? && selected.value.coordinates.Some?
    ensures v.Some? ==> v.value.zoom == 15
    ensures v.Some? ==> v.value.lat == selected.value.coordinates.value.lat
    ensures v.Some? ==> v.value.lng == selected.value.coordinates.value.lng
  {
    if selected.Some? && selected.value.coordinates.Some? then
      Some(MapView(selected.value.coordinates.value.lat, selected.value.coordinates.value.lng, SelectedZoom))
    else None
  }

  /** The selection state is one unit: either nothing is selected, or the
      highlighted id is the selected property's key. */
  predicate SelectionCoherent(selected: Option<Property>, highlighted: Option<Option<string>>) {
    if selected.None? then highlighted.None? else highlighted == Some(ListKey(selected.value))
  }

  // ---------------------------------------------------------------- lemmas

  /** The viewport filter yields the catalog's in-view entries in catalog order:
      a subsequence, with exactly the in-view members, each as often as in the catalog. */
  lemma VisibleInIsViewportSubsequence(all: seq<Property>, b: Bounds)
    ensures IsSubsequence(VisibleIn(all, b), all)
    ensures forall p :: p in VisibleIn(all, b) <==> p in all && InView(b, p)
    ensures forall p :: multiset(VisibleIn(all, b))[p] == if InView(b, p) then multiset(all)[p] else 0
  {
    FilterIsSubsequence(all, InViewOf(b));
    forall p ensures p in VisibleIn(all, b) <==> p in all && InView(b, p) {
      FilterMembership(all, InViewOf(b), p);
    }
    forall p ensures multiset(VisibleIn(all, b))[p] == if InView(b, p) then multiset(all)[p] else 0 {
      FilterCount(all, InViewOf(b), p);
    }
  }

  /** A latitude or longitude of 0 is falsy, so such an entry is never in view. */
  lemma ZeroCoordinateNeverVisible(all: seq<Property>, b: Bounds, p: Property)
    requires p.coordinates.Some?
    requires p.coordinates.value.lat == Some(0.0) || p.coordinates.value.lng == Some(0.0)
    ensures p !in VisibleIn(all, b)
    ensures p !in Markers(all)
  {
    FilterMembership(all, InViewOf(b), p);
    FilterMembership(all, HasUsableCoordinates, p);
  }

  /** The viewport list is the marker list narrowed to the bounds: every listed
      entry has a marker, and the two use the same coordinate test. */
  lemma VisibleInThroughMarkers(all: seq<Property>, b: Bounds)
    ensures VisibleIn(all, b) == Filter(Markers(all), InViewOf(b))
    ensures forall p :: p in VisibleIn(all, b) ==> p in Markers(all)
  {
    FilterThrough(all, HasUsableCoordinates, InViewOf(b));
    forall p | p in VisibleIn(all, b) ensures p in Markers(all) {
      FilterMembership(all, InViewOf(b), p);
      FilterMembership(all, HasUsableCoordinates, p);
    }
  }

  /** Markers are exactly the entries with usable coordinates, in catalog order. */
  lemma MarkersAreUsableEntries(all: seq<Property>)
    ensures IsSubsequence(Markers(all), all)
    ensures forall p :: p in Markers(all) <==> p in all && HasUsableCoordinates(p)
  {
    FilterIsSubsequence(all, HasUsableCoordinates);
    forall p ensures p in Markers(all) <==> p in all && HasUsableCoordinates(p) {
      FilterMembership(all, HasUsableCoordinates, p);
    }
  }

  /** With bounds known the displayed list lies inside the catalog and contains only
      entries with usable coordinates; without bounds it is the whole catalog. */
  lemma DisplayedWithinCatalog(bounds: Option<Bounds>, all: seq<Property>)
    ensures bounds.None? ==> Displayed(bounds, all) == all
    ensures forall p :: p in Displayed(bounds, all) ==> p in all
    ensures bounds.Some? ==> forall p :: p in Displayed(bounds, all) ==> HasUsableCoordinates(p)
  {
    if bounds.Some? {
      var v := VisibleIn(all, bounds.value);
      FilterIsSubsequence(all, InViewOf(bounds.value));
      SubsequenceMembers(v, all);
      forall p | p in v ensures HasUsableCoordinates(p) {
        var i :| 0 <= i < |v| && v[i] == p;
        assert InView(bounds.value, v[i]);
      }
    }
  }

  /** When the catalog empties, the effect leaves the previous list on screen:
      any entry shown before is still shown, though the catalog holds nothing. */
  lemma StaleListWhenCatalogEmpties(bounds: Option<Bounds>, visible: seq<Property>)
    ensures visible != [] ==>
      exists q :: q in VisibleAfterEffect(bounds, [], visible) && q !in []
  {
    if visible != [] {
      assert visible[0] in VisibleAfterEffect(bounds, [], visible);
    }
  }

  /** At most one key is highlighted at any time, whatever the list holds. */
  lemma AtMostOneHighlightedKey(highlighted: Option<Option<string>>, visible: seq<Property>)
    ensures |HighlightedKeys(highlighted, visible)| <= 1
    ensures highlighted.None? ==> HighlightedKeys(highlighted, visible) == {}
  {
    var keys := HighlightedKeys(highlighted, visible);
    if highlighted.Some? {
      assert keys <= {highlighted.value};
      assert |{highlighted.value}| == 1;
      SubsetCardinality(keys, {highlighted.value});
    } else {
      assert keys == {};
    }
  }

  lemma SubsetCardinality<T>(a: set<T>, b: set<T>)
    requires a <= b
    ensures |a| <= |b|
  {
    assert b == a + (b - a);
  }

  /** After a click on a listed property, its card is highlighted, and so is every
      card sharing its key and no other. */
  lemma ClickHighlightsClickedCard(p: Property, visible: seq<Property>)
    requires p in visible
    ensures IsHighlighted(Some(ListKey(p)), p)
    ensures HighlightedKeys(Some(ListKey(p)), visible) == {ListKey(p)}
  {
  }

  // ---------------------------------------------------------------- session

  /** The page's state. `boundsTimer` is the 200 ms debounce slot of the viewport. */
  class ExploreSession {
    var allProperties: seq<Property>
    var visibleProperties: seq<Property>
    var mapBounds: Option<Bounds>
    var selectedProperty: Option<Property>
    var highlightedPropertyId: Option<Option<string>>
    var boundsTimer: Debounce.Slot<Bounds>

    /** The visible list is always what the effect derives from a non-empty
        catalog, and the selection is coherent. */
    ghost predicate Valid()
      reads this
    {
      (|allProperties| > 0 ==> visibleProperties == Displayed(mapBounds, allProperties)) &&
      SelectionCoherent(selectedProperty, highlightedPropertyId)
    }

    constructor ()
      ensures Valid()
      ensures allProperties == [] && visibleProperties == [] && mapBounds == None
      ensures selectedProperty == None && highlightedPropertyId == None
      ensures boundsTimer == Debounce.Idle
    {
      allProperties := [];
      visibleProperties := [];
      mapBounds := None;
      selectedProperty := None;
      highlightedPropertyId := None;
      boundsTimer := Debounce.Idle;
    }

    /** The bounds/catalog effect, run after either dependency changes. */
    method RunVisibleEffect()
      modifies this`visibleProperties
      ensures visibleProperties == VisibleAfterEffect(mapBounds, allProperties, old(visibleProperties))
    {
      if mapBounds.Some? && |allProperties| > 0 {
        visibleProperties := FilterVisibleProperties(mapBounds, allProperties, visibleProperties);
      } else if mapBounds.None? && |allProperties| > 0 {
        visibleProperties := allProperties;
      }
    }

    /** The catalog fetch resolved: `Some(list)` on success; on failure nothing changes. */
    method ReceiveCatalog(response: Option<seq<Property>>)
      requires Valid()
      modifies this
      ensures Valid()
      ensures allProperties == if response.Some? then response.value else old(allProperties)
      ensures response.Some? ==> visibleProperties == VisibleAfterEffect(mapBounds, allProperties, old(visibleProperties))
      ensures response.None? ==> visibleProperties == old(visibleProperties)
      ensures mapBounds == old(mapBounds) && boundsTimer == old(boundsTimer)
      ensures selectedProperty == old(selectedProperty) && highlightedPropertyId == old(highlightedPropertyId)
    {
      if response.Some? {
        allProperties := response.value;
        RunVisibleEffect();
      }
    }

    /** `handleBoundsChange`: cancel the pending timer and schedule one for `b`. */
    method BoundsChanged(b: Bounds)
      requires Valid()
      modifies this`boundsTimer
      ensures Valid()
      ensures boundsTimer == Debounce.Step(old(boundsTimer), Debounce.Scheduled(b)).0
      ensures boundsTimer == Debounce.Pending(b)
    {
      boundsTimer := Debounce.Step(boundsTimer, Debounce.Scheduled(b)).0;
    }

    /** The 200 ms delay of the pending timer ran out: commit its bounds, if any. */
    method BoundsTimerElapsed()
      requires Valid()
      modifies this
      ensures Valid()
      ensures boundsTimer == Debounce.Idle
      ensures old(boundsTimer).Pending? ==> mapBounds == Some(old(boundsTimer).value)
      ensures old(boundsTimer).Pending? ==>
        visibleProperties == VisibleAfterEffect(mapBounds, allProperties, old(visibleProperties))
      ensures old(boundsTimer).Idle? ==> mapBounds == old(mapBounds) && visibleProperties == old(visibleProperties)
      ensures allProperties == old(allProperties)
      ensures selectedProperty == old(selectedProperty) && highlightedPropertyId == old(highlightedPropertyId)
    {
      var step := Debounce.Step(boundsTimer, Debounce.Elapsed);
      boundsTimer := step.0;
      if step.1.Some? {
        mapBounds := step.1;
        RunVisibleEffect();
      }
    }

    /** Unmount: clear the pending timer. */
    method Dispose()
      requires Valid()
      modifies this`boundsTimer
      ensures Valid()
      ensures boundsTimer == Debounce.Idle
    {
      boundsTimer := Debounce.Step(boundsTimer, Debounce.Cancelled).0;
    }

    /** The shared selection write of both click handlers. */
    method Select(p: Property)
      requires Valid()
      modifies this`selectedProperty, this`highlightedPropertyId
      ensures Valid()
      ensures selectedProperty == Some(p) && highlightedPropertyId == Some(ListKey(p))
      ensures old(selectedProperty) == Some(p) ==> highlightedPropertyId == old(highlightedPropertyId)
    {
      selectedProperty := Some(p);
      highlightedPropertyId := Some(ListKey(p));
    }

    /** `handleMarkerClick`: select, and scroll the card with the returned key (if
        such a card is listed) into view. `MapController`'s effect reruns, and the map
        recenters, only when the selection changes: re-clicking the selected property
        sets the same state and React skips the effect. */
    method MarkerClick(p: Property) returns (scrollTo: Option<Option<string>>, recenter: Option<MapView>)
      requires Valid()
      modifies this`selectedProperty, this`highlightedPropertyId
      ensures Valid()
      ensures selectedProperty == Some(p) && highlightedPropertyId == Some(ListKey(p))
      ensures old(selectedProperty) == Some(p) ==> highlightedPropertyId == old(highlightedPropertyId)
      ensures scrollTo == ScrollTarget(visibleProperties, p)
      ensures recenter == if old(selectedProperty) == Some(p) then None else Recenter(Some(p))
    {
      recenter := if selectedProperty == Some(p) then None else Recenter(Some(p));
      Select(p);
      scrollTo := ScrollTarget(visibleProperties, p);
    }

    /** `handlePropertyCardClick`: the same selection write; the scroll to the returned
        key happens after a delay (the lookup is made on the list as it is now), and
        the map recenters as for a marker click. */
    method CardClick(p: Property) returns (scrollTo: Option<Option<string>>, recenter: Option<MapView>)
      requires Valid()
      modifies this`selectedProperty, this`highlightedPropertyId
      ensures Valid()
      ensures selectedProperty == Some(p) && highlightedPropertyId == Some(ListKey(p))
      ensures old(selectedProperty) == Some(p) ==> highlightedPropertyId == old(highlightedPropertyId)
      ensures scrollTo == ScrollTarget(visibleProperties, p)
      ensures recenter == if old(selectedProperty) == Some(p) then None else Recenter(Some(p))
    {
      recenter := if selectedProperty == Some(p) then None else Recenter(Some(p));
      Select(p);
      scrollTo := ScrollTarget(visibleProperties, p);
    }
  }
}
