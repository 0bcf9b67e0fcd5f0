/**
  The `MuseumMap` component's state: the loaded museum list, its province grouping
  and the current zoom level, together with the calls it has made to the optional
  `onMuseumSelect` callback. Loading sets the list and its grouping together; a
  zoom notification overwrites the zoom level and nothing else; the visible markers
  are derived from the state on every render.
 */
module MuseumMapComponent {
  import opened Museums
  import opened OrderedMaps
  import opened RegionGrouper
  import opened MarkerPresenter
  import opened Centroid

  class MuseumMap {
    /** `museums` state */
    var museums: seq<Museum>
    /** `provinces` state */
    var provinces: Groups
    /** `zoomLevel` state */
    var zoomLevel: real
    /** Whether the parent supplied `onMuseumSelect`. */
    const hasSelectCallback: bool
    /** The museums passed to `onMuseumSelect` so far, in call order. */
    var selections: seq<Museum>

    /** The province map is always the grouping of the current list. */
    ghost predicate Valid()
      reads this
    {
      provinces == Group(museums)
    }

    /** Mounting: empty list, empty map, zoom 4, so aggregated mode. */
    constructor (hasSelectCallback: bool)
      ensures Valid()
      ensures museums == [] && provinces.keys == [] && provinces.values == map[]
      ensures zoomLevel == InitialZoom && ShowAggregates(zoomLevel)
      ensures this.hasSelectCallback == hasSelectCallback && selections == []
    {
      museums := [];
      provinces := Empty();
      zoomLevel := InitialZoom;
      this.hasSelectCallback := hasSelectCallback;
      selections := [];
    }

    /** The body of `loadMuseums` once the response is in: `Some(list)` when the
        fetch and parse succeeded, `None` when they threw and the error was logged. */
    method Load(response: Option<seq<Museum>>)
      requires Valid()
      modifies this
      ensures Valid()
      ensures response.Some? ==> museums == response.value && provinces == Group(response.value)
      ensures response.None? ==> museums == old(museums) && provinces == old(provinces)
      ensures zoomLevel == old(zoomLevel) && selections == old(selections)
    {
      if response.Some? {
        museums := response.value;
        var grouped := GroupByProvince(response.value);
        provinces := grouped;
      }
    }

    /** `MapController`'s zoom handler: `setZoomLevel(map.getZoom())`. */
    method OnZoom(zoom: real)
      requires Valid()
      modifies this`zoomLevel
      ensures Valid()
      ensures zoomLevel == zoom
    {
      zoomLevel := zoom;
    }

    /** The markers rendered for the current state. */
    function Markers(): seq<Marker>
      reads this
      requires Valid()
    {
      GroupDisplayable(museums);
      VisibleMarkers(zoomLevel, provinces, museums)
    }

    /** `handleMarkerClick`: `onMuseumSelect?.(museum)`. */
    method HandleMarkerClick(museum: Museum)
      requires Valid()
      modifies this`selections
      ensures Valid()
      ensures selections == old(selections) + (if hasSelectCallback then [museum] else [])
    {
      if hasSelectCallback {
        selections := selections + [museum];
      }
    }

    /** A click on the `k`-th rendered marker: an individual marker calls
        `handleMarkerClick` with its museum; an aggregate marker has no click handler. */
    method ClickMarker(k: nat)
      requires Valid() && k < |Markers()|
      modifies this`selections
      ensures Valid()
      ensures selections == old(selections) + SelectionCalls(hasSelectCallback, old(Markers())[k])
    {
      var marker := Markers()[k];
      if marker.Individual? {
        HandleMarkerClick(marker.museum);
      }
    }
  }

  /** The example of three museums in two provinces: zoomed out, province A is
      drawn once with count 2 at (31, 111) and B once with count 1 at (40, 120);
      zoomed in, each museum is drawn at its own position; clicking the second
      individual marker selects museum 2 and nothing else. */
  method ThreeMuseums()
  {
    var m1 := Museum(1, "M1", "A", "C1", 30.0, 110.0, "", "");
    var m2 := Museum(2, "M2", "A", "C2", 32.0, 112.0, "", "");
    var m3 := Museum(3, "M3", "B", "C3", 40.0, 120.0, "", "");
    var view := new MuseumMap(true);
    view.Load(Some([m1, m2, m3]));
    ExampleGrouping(m1, m2, m3);
    ExampleCentroid(m1, m2);
    CentroidOfOne(m3);
    var shown := view.Markers();
    assert |shown| == 2;
    assert shown[0].province == "A" && shown[0].count == 2;
    assert shown[0].position.lat == 31.0 && shown[0].position.lng == 111.0;
    assert shown[1].province == "B" && shown[1].count == 1;
    assert shown[1].position.lat == 40.0 && shown[1].position.lng == 120.0;
    view.OnZoom(6.0);
    shown := view.Markers();
    assert |shown| == 3 && shown[1].museum == m2;
    assert shown[2] == MuseumMarker(m3);
    view.ClickMarker(1);
    assert view.selections == [m2];
  }

  /** Two museums at (30, 110) and (32, 112) average to (31, 111). */
  lemma ExampleCentroid(m1: Museum, m2: Museum)
    requires m1.lat == 30.0 && m1.lng == 110.0 && m2.lat == 32.0 && m2.lng == 112.0
    ensures CentroidOf([m1, m2]) == Position(31.0, 111.0)
  {
    assert Lats([m1, m2]) == [30.0, 32.0] && [30.0, 32.0][..1] == [30.0] && [30.0][..0] == [];
    assert Lngs([m1, m2]) == [110.0, 112.0] && [110.0, 112.0][..1] == [110.0] && [110.0][..0] == [];
    assert Sum([30.0, 32.0]) == 62.0;
    assert Sum([110.0, 112.0]) == 222.0;
  }

  /** The grouping of the three-museum example. */
  lemma ExampleGrouping(m1: Museum, m2: Museum, m3: Museum)
    requires m1.province == "A" && m2.province == "A" && m3.province == "B"
    ensures Provinces([m1, m2, m3]) == ["A", "B"]
    ensures Members([m1, m2, m3], "A") == [m1, m2] && Members([m1, m2, m3], "B") == [m3]
  {
    var ms := [m1, m2, m3];
    assert ms[..2] == [m1, m2] && [m1, m2][..1] == [m1] && [m1][..0] == [];
    assert Provinces([m1]) == ["A"];
    assert Provinces([m1, m2]) == ["A"];
    assert ms[1..] == [m2, m3] && ms[1..][1..] == [m3] && ms[1..][1..][1..] == [];
    assert [m3][1..] == [] && "A" != "B";
    assert Members([], "A") == [] && Members([], "B") == [];
    assert Members([m3], "A") == [] + Members([m3][1..], "A");
    assert Members([m3], "B") == [m3] + Members([m3][1..], "B");
    assert Members([m2, m3], "A") == [m2] && Members([m2, m3], "B") == [m3];
  }
}
