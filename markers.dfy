/**
  Which markers the map shows. At zoom levels up to and including 5 it shows one
  aggregate marker per province, in the iteration order of the province map; above
  5 it shows one marker per museum, in list order. Only individual markers relay a
  click to the selection callback; an aggregate marker only opens its popup.
 */
module MarkerPresenter {
  import opened Museums
  import opened RegionGrouper
  import opened Centroid
  import opened MarkerKeys

  /** Zoom levels at or below this show aggregate markers. */
  const AggregationThreshold: real := 5.0

  /** The zoom level the component starts at. */
  const InitialZoom: real := 4.0

  /** `shouldShowAggregates`: the display mode as a function of the zoom level. */
  predicate ShowAggregates(zoom: real)
  {
    zoom <= AggregationThreshold
  }

  /** A marker the map renders, with the key React uses to track it. */
  datatype Marker =
    | Aggregate(key: string, province: string, position: Position, count: nat, members: seq<Museum>)
    | Individual(key: string, museum: Museum, position: Position)

  /** The `AggregateMarker` element for one province. */
  function AggregateMarker(province: string, members: seq<Museum>): Marker
    requires |members| > 0
  {
    Aggregate(ProvinceKey(province), province, CentroidOf(members), |members|, members)
  }

  /** The `MuseumMarker` element for one museum, placed at its own coordinates. */
  function MuseumMarker(m: Museum): Marker
  {
    Individual(MuseumKey(m), m, Position(m.lat, m.lng))
  }

  /** A province map that can be drawn: a well-formed `Map` whose buckets are all
      non-empty, so every centroid is defined. */
  ghost predicate Displayable(g: Groups)
  {
    g.Valid() && forall p :: g.Has(p) ==> |g.Get(p)| > 0
  }

  /** One aggregate marker per entry of the province map, in iteration order. */
  function AggregateMarkers(g: Groups): seq<Marker>
    requires Displayable(g)
  {
    seq(|g.keys|, k requires 0 <= k < |g.keys| && Displayable(g) => AggregateMarker(g.keys[k], g.Get(g.keys[k])))
  }

  /** One individual marker per museum, in list order. */
  function MuseumMarkers(ms: seq<Museum>): seq<Marker>
  {
    seq(|ms|, k requires 0 <= k < |ms| => MuseumMarker(ms[k]))
  }

  /** The markers inside the map container: exactly one of the two sets, never
      both and never a mix. */
  function VisibleMarkers(zoom: real, g: Groups, ms: seq<Museum>): (r: seq<Marker>)
    requires Displayable(g)
    ensures ShowAggregates(zoom) ==> |r| == |g.keys| && forall k :: 0 <= k < |r| ==> r[k].Aggregate?
    ensures !ShowAggregates(zoom) ==> |r| == |ms| && forall k :: 0 <= k < |r| ==> r[k].Individual?
  {
    if ShowAggregates(zoom) then AggregateMarkers(g) else MuseumMarkers(ms)
  }

  /** The calls made to `onMuseumSelect` when a marker is clicked: the marker's own
      museum for an individual marker when a callback was supplied, otherwise none. */
  function SelectionCalls(hasCallback: bool, mk: Marker): seq<Museum>
  {
    if hasCallback && mk.Individual? then [mk.museum] else []
  }

  /** The threshold is inclusive: zoom 5 aggregates, anything above shows museums. */
  lemma ThresholdInclusive(zoom: real)
    ensures ShowAggregates(zoom) <==> zoom <= 5.0
    ensures ShowAggregates(5.0) && !ShowAggregates(5.5) && !ShowAggregates(6.0)
    ensures ShowAggregates(InitialZoom)
  {
  }

  /** Zooming out never leaves aggregated mode, zooming in never enters it. */
  lemma ModeMonotone(lower: real, higher: real)
    requires lower <= higher
    ensures ShowAggregates(higher) ==> ShowAggregates(lower)
    ensures !ShowAggregates(lower) ==> !ShowAggregates(higher)
  {
  }

  /** The grouping of any list can be drawn. */
  lemma GroupDisplayable(ms: seq<Museum>)
    ensures Displayable(Group(ms))
  {
    GroupValid(ms);
    GroupCounts(ms);
  }

  /** In aggregated mode there is one marker per province of the list, in order of
      first appearance, keyed `province-<name>`, counting the museums of that province,
      listing them in input order and placed at their centroid; keys are pairwise
      distinct and every museum's province has its marker. */
  lemma AggregatedMarkersDescribeProvinces(zoom: real, ms: seq<Museum>)
    requires ShowAggregates(zoom)
    ensures Displayable(Group(ms))
    ensures var r := VisibleMarkers(zoom, Group(ms), ms);
      && |r| == |Provinces(ms)|
      && (forall k :: 0 <= k < |r| ==>
            var p := Provinces(ms)[k];
            && r[k].Aggregate?
            && r[k].key == ProvinceKey(p)
            && r[k].province == p
            && r[k].members == Members(ms, p)
            && r[k].count == |IndicesIn(ms, p)| > 0
            && r[k].position == CentroidOf(Members(ms, p)))
      && (forall k, l :: 0 <= k < l < |r| ==> r[k].key != r[l].key)
      && (forall i :: 0 <= i < |ms| ==> exists k :: 0 <= k < |r| && r[k].province == ms[i].province)
  {
    GroupDisplayable(ms);
    GroupCounts(ms);
    ProvincesDistinct(ms);
    ProvincesExact(ms);
    var g := Group(ms);
    var r := VisibleMarkers(zoom, g, ms);
    forall k, l | 0 <= k < l < |r|
      ensures r[k].key != r[l].key
    {
      ProvinceKeyInjective(g.keys[k], g.keys[l]);
    }
    forall i | 0 <= i < |ms|
      ensures exists k :: 0 <= k < |r| && r[k].province == ms[i].province
    {
      assert ms[i].province in ProvinceSet(ms);
      var k :| 0 <= k < |g.keys| && g.keys[k] == ms[i].province;
      assert r[k].province == ms[i].province;
    }
  }

  /** In detailed mode there is one marker per museum, in list order, keyed
      `museum-<id>` and placed at the museum's own coordinates. */
  lemma DetailedMarkersDescribeMuseums(zoom: real, g: Groups, ms: seq<Museum>)
    requires Displayable(g) && !ShowAggregates(zoom)
    ensures var r := VisibleMarkers(zoom, g, ms);
      && |r| == |ms|
      && forall k :: 0 <= k < |r| ==>
           && r[k].Individual?
           && r[k].museum == ms[k]
           && r[k].key == MuseumKey(ms[k])
           && r[k].position == Position(ms[k].lat, ms[k].lng)
  {
  }

  /** In detailed mode the marker keys are pairwise distinct exactly when the
      museum ids are; ids are not checked anywhere, so duplicates give duplicate keys. */
  lemma DetailedKeysDistinctIffIdsDistinct(zoom: real, g: Groups, ms: seq<Museum>)
    requires Displayable(g) && !ShowAggregates(zoom)
    ensures var r := VisibleMarkers(zoom, g, ms);
      (forall k, l :: 0 <= k < l < |r| ==> r[k].key != r[l].key)
      <==> (forall k, l :: 0 <= k < l < |ms| ==> ms[k].id != ms[l].id)
  {
    var r := VisibleMarkers(zoom, g, ms);
    forall k, l | 0 <= k < l < |ms|
      ensures r[k].key != r[l].key <==> ms[k].id != ms[l].id
    {
      MuseumKeyIdentity(ms[k], ms[l]);
    }
  }

  /** With no museums loaded the map shows no markers at any zoom. */
  lemma EmptyStoreShowsNothing(zoom: real)
    ensures VisibleMarkers(zoom, Group([]), []) == []
  {
    GroupDisplayable([]);
  }

  /** Clicking the individual marker of a museum hands exactly that museum to the
      callback when one was supplied, and does nothing otherwise. */
  lemma ClickSelectsThatMuseum(zoom: real, g: Groups, ms: seq<Museum>, k: nat, hasCallback: bool)
    requires Displayable(g) && !ShowAggregates(zoom) && k < |ms|
    ensures SelectionCalls(hasCallback, VisibleMarkers(zoom, g, ms)[k]) == if hasCallback then [ms[k]] else []
  {
  }

  /** Clicking an aggregate marker never reaches the selection callback. */
  lemma AggregateClickSelectsNothing(zoom: real, g: Groups, ms: seq<Museum>, k: nat, hasCallback: bool)
    requires Displayable(g) && ShowAggregates(zoom) && k < |g.keys|
    ensures SelectionCalls(hasCallback, VisibleMarkers(zoom, g, ms)[k]) == []
  {
  }
}
