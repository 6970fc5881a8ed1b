/** `connectGeoSearch`: the connector behind the GeoSearch widget. It keeps
    the map refinement under the `boundingBox` key of the search state,
    sends it to the engine as the `insideBoundingBox` parameter, and tells the
    widget whether the search is currently refined by the map. */
module ConnectGeoSearch {
  import opened GeoTypes
  import opened NumberText
  import opened IndexUtils
  import CreateConnector

  /** The widget's own props. */
  datatype WidgetProps = WidgetProps(enableRefineOnMapMove: Option<bool>)

  /** `defaultProps`: a missing `enableRefineOnMapMove` reads as true. */
  function WithDefaultProps(p: WidgetProps): (r: WidgetProps)
    ensures r.enableRefineOnMapMove.Some?
    ensures p.enableRefineOnMapMove.Some? ==> r == p
    ensures p.enableRefineOnMapMove.None? ==> r.enableRefineOnMapMove == Some(true)
  {
    if p.enableRefineOnMapMove.Some? then p else WidgetProps(Some(true))
  }

  const IsRefineOnMapMoveKey: string := "isRefineOnMapMove"
  const HasMapMoveSinceLastRefineKey: string := "hasMapMoveSinceLastRefine"

  /** `getInitialUiState`, applied to the props after the defaults: map
      moves refine unless the widget is told otherwise, and the map has not
      moved yet. */
  function GetInitialUiState(p: WidgetProps): (r: map<string, bool>)
    ensures r.Keys == {IsRefineOnMapMoveKey, HasMapMoveSinceLastRefineKey}
    ensures r[IsRefineOnMapMoveKey] <==> p.enableRefineOnMapMove != Some(false)
    ensures !r[HasMapMoveSinceLastRefineKey]
  {
    map[IsRefineOnMapMoveKey := WithDefaultProps(p).enableRefineOnMapMove.value,
        HasMapMoveSinceLastRefineKey := false]
  }

  /** What the connector hands to the widget. */
  datatype ProvidedProps = ProvidedProps(
    hits: seq<Hit>,
    position: Option<LatLng>,
    currentRefinement: Option<BoundingBox>,
    isRefinedWithMap: bool)

  /** `hits.filter(_ => Boolean(_._geoloc))`. */
  function GeoHits(hits: seq<Hit>): (r: seq<Hit>)
    ensures |r| <= |hits|
    ensures forall i :: 0 <= i < |r| ==> r[i].geoloc.Some?
    ensures forall h :: h in r ==> h in hits
    ensures forall h :: h in hits && h.geoloc.Some? ==> h in r
    decreases |hits|
  {
    if |hits| == 0 then []
    else (if hits[0].geoloc.Some? then [hits[0]] else []) + GeoHits(hits[1..])
  }

  /** The filter keeps the original order: filtering a concatenation is
      concatenating the filtered parts. */
  lemma {:induction false} GeoHitsDistributes(a: seq<Hit>, b: seq<Hit>)
    ensures GeoHits(a + b) == GeoHits(a) + GeoHits(b)
    decreases |a|
  {
    if |a| == 0 {
      assert a + b == b;
    } else {
      var head := if a[0].geoloc.Some? then [a[0]] else [];
      assert (a + b)[0] == a[0] && (a + b)[1..] == a[1..] + b;
      GeoHitsDistributes(a[1..], b);
      calc {
        GeoHits(a + b);
        head + GeoHits(a[1..] + b);
        head + (GeoHits(a[1..]) + GeoHits(b));
        (head + GeoHits(a[1..])) + GeoHits(b);
        GeoHits(a) + GeoHits(b);
      }
    }
  }

  /** Hits that all carry `_geoloc` are passed through untouched. */
  lemma {:induction false} GeoHitsKeepsGeolocated(hits: seq<Hit>)
    requires forall i :: 0 <= i < |hits| ==> hits[i].geoloc.Some?
    ensures GeoHits(hits) == hits
    decreases |hits|
  {
    if |hits| > 0 {
      GeoHitsKeepsGeolocated(hits[1..]);
      assert [hits[0]] + hits[1..] == hits;
    }
  }

  lemma GeoHitsIdempotent(hits: seq<Hit>)
    ensures GeoHits(GeoHits(hits)) == GeoHits(hits)
  {
    GeoHitsKeepsGeolocated(GeoHits(hits));
  }

  /** The engine answered with a non-empty `insideBoundingBox` parameter. */
  predicate RefinedInResults(results: Option<SearchResults>)
  {
    results.Some? && InsideBoundingBoxParam in results.value.state &&
    results.value.state[InsideBoundingBoxParam] != ""
  }

  /** `getProvidedProps`; `results` is None before the first response. */
  function GetProvidedProps(s: SearchState, results: Option<SearchResults>): (r: ProvidedProps)
    ensures results.None? ==> r.hits == []
    ensures results.Some? ==> r.hits == GeoHits(results.value.hits)
    ensures r.position == CurrentPosition(s)
    ensures r.currentRefinement == CurrentBoundingBox(s)
    ensures r.isRefinedWithMap <==> CurrentBoundingBox(s).Some? || RefinedInResults(results)
  {
    ProvidedProps(
      if results.None? then [] else GeoHits(results.value.hits),
      CurrentPosition(s),
      CurrentBoundingBox(s),
      CurrentBoundingBox(s).Some? || RefinedInResults(results))
  }

  function BoxOrUndefined(next: Option<BoundingBox>): Value
  {
    if next.Some? then BoxValue(next.value) else Undefined
  }

  /** `refine(searchState, nextValue)`: commits `nextValue` under
      `boundingBox` (None is `undefined`, which clears it) and goes back to
      the first page; nothing else changes. */
  function Refine(s: SearchState, next: Option<BoundingBox>): (r: SearchState)
    ensures CurrentBoundingBox(r) == next
    ensures BoundingBoxKey in r
    ensures PageKey in r && r[PageKey] == PageValue(1)
    ensures forall k :: k != BoundingBoxKey && k != PageKey ==> (k in r <==> k in s)
    ensures forall k :: k in s && k != BoundingBoxKey && k != PageKey ==> r[k] == s[k]
  {
    RefineValue(s, BoundingBoxKey, BoxOrUndefined(next), true)
  }

  lemma RefineIdempotent(s: SearchState, next: Option<BoundingBox>)
    ensures Refine(Refine(s, next), next) == Refine(s, next)
  {
    var once := Refine(s, next);
    var twice := Refine(once, next);
    assert twice.Keys == once.Keys;
  }

  /** `currentRefinementToString`: the four corner coordinates joined by
      commas; the engine's reading of the text gives the box back. */
  function CurrentRefinementToString(b: BoundingBox): (t: string)
    ensures Split(t, ',') == BoxFields(b)
    ensures ParseBoundingBox(t) == Some(b)
  {
    CurrentRefinementFields(b);
    BoundingBoxTextRoundTrip(b);
    Join(BoxFields(b), ',')
  }

  function BoxFields(b: BoundingBox): seq<string>
  {
    [IntToString(b.northEast.lat), IntToString(b.northEast.lng),
     IntToString(b.southWest.lat), IntToString(b.southWest.lng)]
  }

  /** The text holds exactly four comma-separated fields: north-east
      latitude, north-east longitude, south-west latitude, south-west longitude. */
  lemma CurrentRefinementFields(b: BoundingBox)
    ensures Split(Join(BoxFields(b), ','), ',') ==
      [IntToString(b.northEast.lat), IntToString(b.northEast.lng),
       IntToString(b.southWest.lat), IntToString(b.southWest.lng)]
  {
    var fields := BoxFields(b);
    forall i | 0 <= i < |fields| ensures ',' !in fields[i] {
      IntToStringHasNo([b.northEast.lat, b.northEast.lng, b.southWest.lat, b.southWest.lng][i], ',');
    }
    SplitJoin(fields, ',');
  }

  /** How the engine reads an `insideBoundingBox` value back. */
  function ParseBoundingBox(t: string): Option<BoundingBox>
  {
    var f := Split(t, ',');
    if |f| != 4 then None
    else
      match (ParseInt(f[0]), ParseInt(f[1]), ParseInt(f[2]), ParseInt(f[3]))
      case (Some(neLat), Some(neLng), Some(swLat), Some(swLng)) =>
        Some(BoundingBox(LatLng(neLat, neLng), LatLng(swLat, swLng)))
      case _ => None
  }

  /** The serialised box carries the box itself and nothing else. */
  lemma BoundingBoxTextRoundTrip(b: BoundingBox)
    ensures ParseBoundingBox(Join(BoxFields(b), ',')) == Some(b)
  {
    CurrentRefinementFields(b);
    IntToStringRoundTrip(b.northEast.lat);
    IntToStringRoundTrip(b.northEast.lng);
    IntToStringRoundTrip(b.southWest.lat);
    IntToStringRoundTrip(b.southWest.lng);
  }

  /** `getSearchParameters`: without a refinement the parameters are returned
      as they are; with one, `insideBoundingBox` is set to the serialised box
      and every other parameter is kept. */
  function GetSearchParameters(q: SearchParameters, s: SearchState): (r: SearchParameters)
    ensures CurrentBoundingBox(s).None? ==> r == q
    ensures CurrentBoundingBox(s).Some? ==>
      InsideBoundingBoxParam in r &&
      r[InsideBoundingBoxParam] == CurrentRefinementToString(CurrentBoundingBox(s).value) &&
      ParseBoundingBox(r[InsideBoundingBoxParam]) == CurrentBoundingBox(s)
    ensures forall k :: k != InsideBoundingBoxParam ==> (k in r <==> k in q)
    ensures forall k :: k in q && k != InsideBoundingBoxParam ==> r[k] == q[k]
  {
    match CurrentBoundingBox(s)
    case None => q
    case Some(b) =>
      BoundingBoxTextRoundTrip(b);
      SetQueryParameter(q, InsideBoundingBoxParam, Some(CurrentRefinementToString(b)))
  }

  /** `cleanUp`: the widget leaves no `boundingBox` key behind. */
  function CleanUp(s: SearchState): (r: SearchState)
    ensures BoundingBoxKey !in r
    ensures CurrentBoundingBox(r).None?
    ensures forall k :: k != BoundingBoxKey ==> (k in r <==> k in s)
    ensures forall k :: k in r ==> r[k] == s[k]
  {
    CleanUpValue(s, BoundingBoxKey)
  }

  /** One entry of the current-refinements list; `value` rewrites a state. */
  datatype MetadataItem = MetadataItem(labelText: string, value: SearchState -> SearchState, currentRefinement: BoundingBox)

  datatype Metadata = Metadata(id: string, index: string, items: seq<MetadataItem>)

  /** `getMetadata`: id `boundingBox`; one item while a box is committed,
      whose value clears it. `index` is what `getIndex` reads from the context. */
  function GetMetadata(index: string, s: SearchState): (r: Metadata)
    ensures r.id == BoundingBoxKey && r.index == index
    ensures CurrentBoundingBox(s).None? <==> r.items == []
    ensures CurrentBoundingBox(s).Some? ==>
      |r.items| == 1 &&
      r.items[0].labelText == BoundingBoxKey + ": " + CurrentRefinementToString(CurrentBoundingBox(s).value) &&
      r.items[0].currentRefinement == CurrentBoundingBox(s).value
    ensures forall i, next :: 0 <= i < |r.items| ==> r.items[i].value(next) == Refine(next, None)
  {
    match CurrentBoundingBox(s)
    case None => Metadata(BoundingBoxKey, index, [])
    case Some(b) =>
      var item := MetadataItem(
        BoundingBoxKey + ": " + CurrentRefinementToString(b),
        next => Refine(next, None),
        b);
      Metadata(BoundingBoxKey, index, [item])
  }

  /** Applying the item's value removes the refinement it lists. */
  lemma MetadataItemClears(index: string, s: SearchState, next: SearchState)
    requires CurrentBoundingBox(s).Some?
    ensures |GetMetadata(index, s).items| == 1
    ensures GetMetadata(index, GetMetadata(index, s).items[0].value(next)).items == []
    ensures GetSearchParameters(map[], GetMetadata(index, s).items[0].value(next)) == map[]
  {
  }

  /** Committing a box makes the widget refined with the map at once, before
      the engine answers, and the box reaches the engine's parameters. */
  lemma RefineIsVisibleImmediately(s: SearchState, b: BoundingBox, stale: Option<SearchResults>, q: SearchParameters)
    ensures GetProvidedProps(Refine(s, Some(b)), stale).isRefinedWithMap
    ensures GetProvidedProps(Refine(s, Some(b)), stale).currentRefinement == Some(b)
    ensures ParseBoundingBox(GetSearchParameters(q, Refine(s, Some(b)))[InsideBoundingBoxParam]) == Some(b)
  {
  }

  /** Clearing the box: the state forgets it at once, but results computed
      with the box still report it until fresh results arrive; the OR of the
      two sources then turns false. */
  lemma ClearWaitsForFreshResults(s: SearchState, hits: seq<Hit>, q: SearchParameters, box: string)
    requires box != ""
    ensures GetSearchParameters(q, Refine(s, None)) == q
    ensures GetProvidedProps(Refine(s, None), Some(SearchResults(hits, map[InsideBoundingBoxParam := box]))).isRefinedWithMap
    ensures !GetProvidedProps(Refine(s, None), Some(SearchResults(hits, map[]))).isRefinedWithMap
  {
  }

  /** The connector description passed to `createConnector`. */
  function Description(index: string): CreateConnector.Description<WidgetProps, SearchState, SearchParameters, Metadata, bool>
  {
    CreateConnector.Description(
      Some("AlgoliaGeoSearch"),
      true,
      false,
      true,
      Some((q: SearchParameters, p: WidgetProps, s: SearchState) => GetSearchParameters(q, s)),
      Some((p: WidgetProps, s: SearchState) => GetMetadata(index, s)),
      None,
      Some((p: WidgetProps) => GetInitialUiState(p)))
  }

  /** The geo connector is created, is a widget, and its wrapper starts from
      the connector's initial uiState. */
  lemma ConnectorIsWidget(index: string, p: WidgetProps)
    ensures CreateConnector.Create(Description(index)).Success?
    ensures CreateConnector.Create(Description(index)).value.isWidget
    ensures CreateConnector.InitialUiState(Description(index), p) == GetInitialUiState(p)
  {
  }
}
