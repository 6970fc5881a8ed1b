/** `connectPlaces`: a connector for an external position source (a places
    autocomplete). Its refine trades the map's `boundingBox` refinement for an
    `aroundLatLng` position, which it sends to the engine as text. */
module ConnectPlaces {
  import opened GeoTypes
  import opened NumberText
  import opened IndexUtils
  import ConnectGeoSearch

  /** `getProvidedProps`: always the empty object. */
  function GetProvidedProps(): (r: map<string, Value>)
    ensures |r| == 0
  {
    map[]
  }

  function PositionOrUndefined(next: Option<LatLng>): Value
  {
    if next.Some? then PositionValue(next.value) else Undefined
  }

  /** `refine(props, searchState, nextValue)`: drops `boundingBox`, sets
      `aroundLatLng`, keeps every other key as it was. The page is not reset. */
  function Refine(s: SearchState, next: Option<LatLng>): (r: SearchState)
    ensures BoundingBoxKey !in r
    ensures AroundLatLngKey in r && r[AroundLatLngKey] == PositionOrUndefined(next)
    ensures CurrentPosition(r) == next
    ensures forall k :: k != BoundingBoxKey && k != AroundLatLngKey ==> (k in r <==> k in s)
    ensures forall k :: k in s && k != BoundingBoxKey && k != AroundLatLngKey ==> r[k] == s[k]
  {
    (s - {BoundingBoxKey})[AroundLatLngKey := PositionOrUndefined(next)]
  }

  /** Refining twice with the same value is refining once. */
  lemma RefineIdempotent(s: SearchState, next: Option<LatLng>)
    ensures Refine(Refine(s, next), next) == Refine(s, next)
  {
    var once := Refine(s, next);
    var twice := Refine(once, next);
    assert twice.Keys == once.Keys;
  }

  /** Once a position is committed, the geo connector sees no map refinement:
      it reports none and adds no `insideBoundingBox` parameter. */
  lemma RefineReplacesMapRefinement(s: SearchState, p: LatLng, q: SearchParameters, results: Option<SearchResults>)
    ensures ConnectGeoSearch.GetSearchParameters(q, Refine(s, Some(p))) == q
    ensures ConnectGeoSearch.GetProvidedProps(Refine(s, Some(p)), results).currentRefinement.None?
    ensures ConnectGeoSearch.GetProvidedProps(Refine(s, Some(p)), results).position == Some(p)
  {
  }

  /** The `aroundLatLng` parameter text: `${lat}, ${lng}`. The engine's
      reading of it gives the position back. */
  function AroundLatLngText(p: LatLng): (t: string)
    ensures Split(t, ',') == [IntToString(p.lat), " " + IntToString(p.lng)]
    ensures ParseAroundLatLng(t) == Some(p)
  {
    AroundLatLngTextRoundTrip(p);
    IntToString(p.lat) + ", " + IntToString(p.lng)
  }

  /** How the engine reads an `aroundLatLng` parameter back. */
  function ParseAroundLatLng(t: string): Option<LatLng>
  {
    var f := Split(t, ',');
    if |f| != 2 || |f[1]| == 0 || f[1][0] != ' ' then None
    else
      match (ParseInt(f[0]), ParseInt(f[1][1..]))
      case (Some(lat), Some(lng)) => Some(LatLng(lat, lng))
      case _ => None
  }

  /** The text is the latitude, a comma and a space, then the longitude, and
      it reads back as the same position. */
  lemma AroundLatLngTextRoundTrip(p: LatLng)
    ensures Split(IntToString(p.lat) + ", " + IntToString(p.lng), ',') == [IntToString(p.lat), " " + IntToString(p.lng)]
    ensures ParseAroundLatLng(IntToString(p.lat) + ", " + IntToString(p.lng)) == Some(p)
  {
    var lat, lng := IntToString(p.lat), IntToString(p.lng);
    IntToStringHasNo(p.lat, ',');
    IntToStringHasNo(p.lng, ',');
    assert ',' !in " " + lng;
    assert lat + ", " + lng == lat + [','] + (" " + lng);
    SplitAtFirstSeparator(lat, " " + lng, ',');
    SplitWithoutSeparator(" " + lng, ',');
    assert (" " + lng)[1..] == lng;
    IntToStringRoundTrip(p.lat);
    IntToStringRoundTrip(p.lng);
  }

  /** `getSearchParameters`: clears `insideBoundingBox` and sets
      `aroundLatLng` from the committed position. Without a position the
      property read on `undefined` throws. */
  function GetSearchParameters(q: SearchParameters, s: SearchState): (r: Result<SearchParameters>)
    ensures r.Failure? <==> CurrentPosition(s).None?
    ensures r.Failure? ==> r.error == TypeError
    ensures r.Success? ==>
      InsideBoundingBoxParam !in r.value &&
      AroundLatLngParam in r.value &&
      r.value[AroundLatLngParam] == AroundLatLngText(CurrentPosition(s).value) &&
      ParseAroundLatLng(r.value[AroundLatLngParam]) == CurrentPosition(s)
    ensures r.Success? ==> forall k :: k != InsideBoundingBoxParam && k != AroundLatLngParam ==>
      (k in r.value <==> k in q) && (k in q ==> r.value[k] == q[k])
  {
    match CurrentPosition(s)
    case None => Failure(TypeError)
    case Some(p) =>
      AroundLatLngTextRoundTrip(p);
      var cleared := SetQueryParameter(q, InsideBoundingBoxParam, None);
      Success(SetQueryParameter(cleared, AroundLatLngParam, Some(AroundLatLngText(p))))
  }

  /** After a places refine the query is well defined and searches around
      the chosen point instead of inside a box. */
  lemma RefineThenParameters(s: SearchState, p: LatLng, q: SearchParameters)
    ensures GetSearchParameters(q, Refine(s, Some(p))).Success?
    ensures ParseAroundLatLng(GetSearchParameters(q, Refine(s, Some(p))).value[AroundLatLngParam]) == Some(p)
    ensures InsideBoundingBoxParam !in GetSearchParameters(q, Refine(s, Some(p))).value
  {
  }
}
