# Aviation museum map: viewport-adaptive aggregation

A Dafny model of the marker logic of the `MuseumMap` React component
(`client/src/components/MuseumMap.tsx`). The component loads a list of aviation
museums and groups them by province in one pass. At zoom levels up to and including 5
it draws one aggregate marker per province. The marker sits at the mean
position of the province's museums and shows how many there are. Above zoom 5 it
draws one marker per museum at the museum's own coordinates. A click on a
museum marker is passed to an optional `onMuseumSelect` callback.

Modules, one per part of the component:

- `Museums` (`museum.dfy`): the `Museum` record and an `Option` type.
- `OrderedMaps` (`ordered_map.dfy`): an ECMAScript `Map` as a value. It keeps its keys in
  first-insertion order, because `Array.from(provinces.entries())` draws the
  aggregate markers in that order.
- `RegionGrouper` (`grouping.dfy`): the grouping loop `GroupByProvince`, proved equal
  to the declarative grouping `Group`. `Group` maps the distinct provinces, in
  order of first appearance, to the museums of each province in input order. The
  file also proves partition, key, count and order properties.
- `Centroid` (`centroid.dfy`): the mean position of a member list, which lies
  within the members' bounds.
- `MarkerKeys` (`marker_keys.dfy`): the `province-<name>` and `museum-<id>` keys,
  with the decimal rendering of ids and its round trip.
- `MarkerPresenter` (`markers.dfy`): the mode decision `zoomLevel <= 5` and the
  marker set drawn in each mode. It also gives the calls a marker click makes.
- `MuseumMapComponent` (`museum_map.dfy`): the component state as a class with
  `museums`, `provinces` and `zoomLevel`, plus a log of the calls made to
  `onMuseumSelect`. It also holds the three-museum example worked through the class.

Coordinates and zoom levels are exact `real`s. The fetch of `/museums.json` is a
parameter: `Load` receives either the parsed list or a failure.

## Model

| member | source | states |
|---|---|---|
| `OrderedMaps.Empty` | client/src/components/MuseumMap.tsx:168 | `new Map()` has no keys and no entries and is a well-formed map |
| `OrderedMaps.OrderedMap.Set` | client/src/components/MuseumMap.tsx:170-173 | after `set(k, v)`, `get(k)` is `v` and every other key keeps its presence and value; a new key goes last in iteration order, an existing key keeps its place; well-formedness is kept |
| `RegionGrouper.GroupByProvince` | client/src/components/MuseumMap.tsx:168-175 | the `forEach`/`has`/`set`/`get().push` loop returns exactly the declarative grouping `Group(museums)` |
| `RegionGrouper.ProvincesAppend` | client/src/components/MuseumMap.tsx:170-171 | appending a museum adds its province at the end of the key order unless it is already a key |
| `RegionGrouper.MembersConcat` | client/src/components/MuseumMap.tsx:169-173 | a province's members of a concatenated list are its members of the first part followed by those of the second |
| `RegionGrouper.MembersMultiplicity` | client/src/components/MuseumMap.tsx:169-173 | a museum occurs in the bucket of its own province as often as in the input, and in no other bucket |
| `RegionGrouper.ProvincesDistinct` | client/src/components/MuseumMap.tsx:170-171 | each province is listed once |
| `RegionGrouper.ProvincesExact` | client/src/components/MuseumMap.tsx:168-175 | a province is listed iff some input museum has it |
| `RegionGrouper.GroupValid` | client/src/components/MuseumMap.tsx:168-175 | the grouping is a well-formed `Map`: keys listed once, the listed keys are the keys with entries |
| `RegionGrouper.GroupEmpty` | client/src/components/MuseumMap.tsx:168-175 | an empty list gives a map with no keys and no entries |
| `RegionGrouper.GroupKeys` | client/src/components/MuseumMap.tsx:168-175 | the map has an entry for a province iff the province occurs in the input, and its keys are pairwise distinct |
| `RegionGrouper.MembersMembership` | client/src/components/MuseumMap.tsx:169-173 | a museum is in a province's bucket iff it is in the input and lies in that province |
| `RegionGrouper.GroupIsPartition` | client/src/components/MuseumMap.tsx:168-174 | every input museum is in its province's bucket, every bucket holds only museums of its province, and each museum occurs there as many times as in the input |
| `RegionGrouper.FlattenMultiplicity` | client/src/components/MuseumMap.tsx:168-174 | concatenating the buckets of distinct keys counts a museum once per input occurrence when its province is among the keys, else not at all |
| `RegionGrouper.GroupCoversInput` | client/src/components/MuseumMap.tsx:168-174 | all buckets together hold exactly the input museums, with multiplicity: nothing dropped, nothing doubled |
| `RegionGrouper.MembersCount` | client/src/components/MuseumMap.tsx:173 | a province's bucket is as long as the number of input positions holding that province |
| `RegionGrouper.GroupCounts` | client/src/components/MuseumMap.tsx:170-173 | every bucket is non-empty and its length, the aggregate `count`, is the number of input museums of that province |
| `RegionGrouper.MembersKeepOrder` | client/src/components/MuseumMap.tsx:169-173 | a bucket is taken from strictly increasing input positions, which are all the positions of its province, so members keep their input order |
| `RegionGrouper.ProvincesInFirstSeenOrder` | client/src/components/MuseumMap.tsx:170-171 | the keys are in order of each province's first appearance, which is the `Map` iteration order used for the aggregate markers |
| `Centroid.Min` | client/src/components/MuseumMap.tsx:88-89 | the smallest coordinate is one of the values and at most every value |
| `Centroid.Max` | client/src/components/MuseumMap.tsx:88-89 | the largest coordinate is one of the values and at least every value |
| `Centroid.SumAtLeast` | client/src/components/MuseumMap.tsx:88-89 | the `reduce` sum is at least count times any lower bound of the values |
| `Centroid.SumAtMost` | client/src/components/MuseumMap.tsx:88-89 | the `reduce` sum is at most count times any upper bound of the values |
| `Centroid.Mean` | client/src/components/MuseumMap.tsx:88-89 | sum divided by count lies between the smallest and the largest value |
| `Centroid.MeanWithin` | client/src/components/MuseumMap.tsx:88-89 | the sum divided by the count lies within any lower and upper bound of the values |
| `Centroid.CentroidOf` | client/src/components/MuseumMap.tsx:88-89 | the aggregate position lies between the members' minimum and maximum latitude, and likewise for longitude |
| `Centroid.CentroidWithinMembers` | client/src/components/MuseumMap.tsx:88-89 | on each axis some member is at or below the centroid and some member at or above it |
| `Centroid.CentroidOfOne` | client/src/components/MuseumMap.tsx:88-89 | a one-member province is drawn at that museum's position |
| `Centroid.CentroidOfCoincident` | client/src/components/MuseumMap.tsx:88-89 | members that all share one position put the centroid at that position |
| `MarkerKeys.DigitChar` | client/src/components/MuseumMap.tsx:230 | a digit value below 10 renders as a decimal digit character |
| `MarkerKeys.DigitValue` | client/src/components/MuseumMap.tsx:230 | a digit character's value is below 10 and renders back to that character |
| `MarkerKeys.NatToString` | client/src/components/MuseumMap.tsx:230 | a natural number renders as a non-empty string of decimal digits without a leading zero |
| `MarkerKeys.NatRoundTrip` | client/src/components/MuseumMap.tsx:230 | parsing the digits of `n` gives back `n` |
| `MarkerKeys.IntRoundTrip` | client/src/components/MuseumMap.tsx:230 | the rendering of an id is a numeral, and parsing it gives back the id |
| `MarkerKeys.IntToStringInjective` | client/src/components/MuseumMap.tsx:230 | two ids render alike iff they are equal |
| `MarkerKeys.ProvinceKeyInjective` | client/src/components/MuseumMap.tsx:220 | two `province-<name>` keys are equal iff the provinces are |
| `MarkerKeys.MuseumKeyIdentity` | client/src/components/MuseumMap.tsx:230 | two `museum-<id>` keys are equal iff the ids are, so a key is stable for a record and separates different ids |
| `MarkerPresenter.VisibleMarkers` | client/src/components/MuseumMap.tsx:217-234 | exactly one marker set is drawn: all aggregate markers, one per map entry, when `zoom <= 5`, else all individual markers, one per museum |
| `MarkerPresenter.ThresholdInclusive` | client/src/components/MuseumMap.tsx:188 | aggregated iff zoom is at most 5: zoom 5 aggregates, 5.5 and 6 do not, and the initial zoom 4 aggregates |
| `MarkerPresenter.ModeMonotone` | client/src/components/MuseumMap.tsx:188 | zooming out never leaves aggregated mode and zooming in never enters it |
| `MarkerPresenter.GroupDisplayable` | client/src/components/MuseumMap.tsx:168-175 | every grouping is a well-formed map with non-empty buckets, so every centroid is defined |
| `MarkerPresenter.AggregatedMarkersDescribeProvinces` | client/src/components/MuseumMap.tsx:217-225 | aggregated mode draws one marker per province in first-appearance order, keyed `province-<name>`, with the province's count and members, at their centroid; keys are pairwise distinct and every museum's province is drawn |
| `MarkerPresenter.DetailedMarkersDescribeMuseums` | client/src/components/MuseumMap.tsx:227-234 | detailed mode draws one marker per museum in list order, keyed `museum-<id>`, at the museum's own coordinates |
| `MarkerPresenter.DetailedKeysDistinctIffIdsDistinct` | client/src/components/MuseumMap.tsx:228-230 | detailed-mode keys are pairwise distinct iff the museum ids are |
| `MarkerPresenter.EmptyStoreShowsNothing` | client/src/components/MuseumMap.tsx:156-157 | with no museums loaded no marker is drawn at any zoom |
| `MarkerPresenter.ClickSelectsThatMuseum` | client/src/components/MuseumMap.tsx:132 | clicking the `k`-th individual marker passes exactly museum `k` to the callback when there is one, and makes no call otherwise |
| `MarkerPresenter.AggregateClickSelectsNothing` | client/src/components/MuseumMap.tsx:98 | an aggregate marker has no click handler, so clicking it never calls the selection callback |
| `MuseumMapComponent.MuseumMap.constructor` | client/src/components/MuseumMap.tsx:156-158 | the component starts with no museums, an empty province map and zoom 4, which is aggregated mode |
| `MuseumMapComponent.MuseumMap.Load` | client/src/components/MuseumMap.tsx:162-178 | a successful load sets the list and its grouping together; a failed one leaves both unchanged; zoom and selections are untouched |
| `MuseumMapComponent.MuseumMap.OnZoom` | client/src/components/MuseumMap.tsx:73-74 | a zoom notification sets `zoomLevel` to the reported zoom, changes nothing else and keeps the grouping consistent with the list |
| `MuseumMapComponent.MuseumMap.HandleMarkerClick` | client/src/components/MuseumMap.tsx:184-186 | the museum is passed to the callback when one was supplied; otherwise nothing happens; the grouping stays consistent with the list |
| `MuseumMapComponent.MuseumMap.ClickMarker` | client/src/components/MuseumMap.tsx:131-132 | clicking a rendered marker makes exactly the calls `SelectionCalls` gives for it and changes nothing else |
| `MuseumMapComponent.ExampleCentroid` | client/src/components/MuseumMap.tsx:88-89 | museums at (30, 110) and (32, 112) average to (31, 111) |
| `MuseumMapComponent.ExampleGrouping` | client/src/components/MuseumMap.tsx:168-175 | museums 1 and 2 in province A and 3 in B group as A: [1, 2], B: [3], with A first |

## Left out

- The fetch of `/museums.json`, `response.json()` and the `console.error` log (MuseumMap.tsx:162-181) are I/O. `Load` takes their result as a parameter: the parsed list, or `None` for a failure.
- MuseumMap.Load: takes only a well-typed museum list or a failure, and keeps `provinces == Group(museums)` (`MuseumMap.Valid`). The source calls `setMuseums(data.museums)` (MuseumMap.tsx:166) before the grouping loop. So when `museums` is missing or not an array, or an entry is `null` and reading its `.province` (line 170) throws, the catch (lines 176-178) is reached with `museums` replaced and `provinces` left stale. A detailed-mode render of such a list then throws in `museums.map` (lines 228-230). This unreadable-data path is not modelled.
- Icon HTML and CSS (`createAggregateIcon`, `createMuseumIcon`), the pulse keyframes, popup markup and the overlay divs are presentation only.
- The `useEffect` calls to `setIcon` and the `map.on`/`map.off` subscription depend on React and Leaflet scheduling. The model keeps their inputs: the count, and the key that gives a marker its identity.
- The zoom bounds 3 and 10 are enforced by Leaflet, not by this code. `OnZoom` accepts any zoom.
- Floating-point rounding of the centroid sum and division is left out: coordinates are exact reals.
- Centroid.CentroidOf: an empty member list, which would give NaN in JavaScript, is excluded by its precondition. No bucket the grouping builds is empty (`GroupCounts`).
- MarkerKeys.IntToString: renders exact integer ids in full decimal. JavaScript's `${museum.id}` differs for ids whose magnitude exceeds 2^53, or reaches 1e21. Above 2^53 it writes the shortest digits that read back to the same double, padded with zeros: 2^60 renders as "1152921504606847000", not "1152921504606846976". Integers such as 2^53+1 are not JavaScript numbers at all. At 1e21 and above, or -1e21 and below, it uses exponent notation. Fractional ids are not modelled either. Key distinctness (`MuseumKeyIdentity`) still holds for every id JavaScript can represent.
- MarkerPresenter.VisibleMarkers: requires a well-formed province map with non-empty buckets. The component's state always has one (`MuseumMap.Valid`, `GroupDisplayable`).
- `client/src/pages/Home.tsx` is UI around the callback. Its `selectedMuseum` state, close button and detail panel are not part of this model. The class records the calls it would receive in `selections`.
