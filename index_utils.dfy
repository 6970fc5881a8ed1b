/** The single-index search-state helpers the connectors call
    (`getCurrentRefinementValue`, `refineValue`, `cleanUpValue`, `getResults`)
    and the helper's `setQueryParameter`, reduced to operations on a
    key -> value dictionary that carries a `page` entry. */
module IndexUtils {
  import opened GeoTypes

  /** The committed bounding box, if the `boundingBox` key holds one. */
  function CurrentBoundingBox(s: SearchState): Option<BoundingBox>
  {
    if BoundingBoxKey in s && s[BoundingBoxKey].BoxValue? then Some(s[BoundingBoxKey].box) else None
  }

  /** The committed position, if the `aroundLatLng` key holds one. */
  function CurrentPosition(s: SearchState): Option<LatLng>
  {
    if AroundLatLngKey in s && s[AroundLatLngKey].PositionValue? then Some(s[AroundLatLngKey].position) else None
  }

  /** `refineValue`: overlay one key on the state and, when asked, reset the
      page to the first one. */
  function RefineValue(s: SearchState, key: string, v: Value, resetPage: bool): (r: SearchState)
    ensures key in r && (key != PageKey || !resetPage ==> r[key] == v)
    ensures resetPage ==> PageKey in r && r[PageKey] == PageValue(1)
    ensures forall k :: k != key && (k != PageKey || !resetPage) ==> (k in r <==> k in s)
    ensures forall k :: k in s && k != key && (k != PageKey || !resetPage) ==> k in r && r[k] == s[k]
  {
    if resetPage then s[key := v][PageKey := PageValue(1)] else s[key := v]
  }

  /** `cleanUpValue`: remove one key from the state. */
  function CleanUpValue(s: SearchState, key: string): (r: SearchState)
    ensures key !in r
    ensures forall k :: k != key ==> (k in r <==> k in s)
    ensures forall k :: k in r ==> r[k] == s[k]
  {
    s - {key}
  }

  /** `searchParameters.setQueryParameter(name, value)`; an `undefined`
      value (None) unsets the parameter. */
  function SetQueryParameter(q: SearchParameters, name: string, value: Option<string>): (r: SearchParameters)
    ensures value.Some? ==> name in r && r[name] == value.value
    ensures value.None? ==> name !in r
    ensures forall k :: k != name ==> (k in r <==> k in q)
    ensures forall k :: k in q && k != name ==> k in r && r[k] == q[k]
  {
    match value
    case Some(v) => q[name := v]
    case None => q - {name}
  }
}
