/** Values shared by the geo-search connectors and the GeoSearch component:
    coordinates, bounding boxes, search hits, and the search-state dictionary. */
module GeoTypes {

  datatype Option<+T> = None | Some(value: T)

  datatype Result<+T> = Success(value: T) | Failure(error: Error)

  /** The exceptions the modelled code can raise. */
  datatype Error =
    | MissingDisplayName   // `createConnector` throws when `displayName` is falsy
    | TypeError            // a property read on `undefined`

  /** A geographic point. Coordinates are integers here (see README). */
  datatype LatLng = LatLng(lat: int, lng: int)

  /** A rectangle given by its north-east and south-west corners. */
  datatype BoundingBox = BoundingBox(northEast: LatLng, southWest: LatLng)

  /** A search hit; `geoloc` is the optional `_geoloc` attribute. */
  datatype Hit = Hit(objectID: string, geoloc: Option<LatLng>)

  /** What a search-state key can hold. `Undefined` is a key present with the
      value `undefined`, as an object spread of `{ key: undefined }` leaves it. */
  datatype Value =
    | BoxValue(box: BoundingBox)
    | PositionValue(position: LatLng)
    | PageValue(page: int)
    | TextValue(text: string)
    | Undefined

  /** The search state: one dictionary shared by all widgets. */
  type SearchState = map<string, Value>

  /** Query parameters sent to the engine; a missing key is an unset parameter. */
  type SearchParameters = map<string, string>

  /** The part of a search response the connectors read: the hits and the
      parameters (`_state`) the response was computed with. */
  datatype SearchResults = SearchResults(hits: seq<Hit>, state: SearchParameters)

  const BoundingBoxKey: string := "boundingBox"
  const AroundLatLngKey: string := "aroundLatLng"
  const PageKey: string := "page"
  const InsideBoundingBoxParam: string := "insideBoundingBox"
  const AroundLatLngParam: string := "aroundLatLng"

  /** `p` lies inside `box` (boundaries included). */
  predicate Encloses(box: BoundingBox, p: LatLng)
  {
    box.southWest.lat <= p.lat <= box.northEast.lat &&
    box.southWest.lng <= p.lng <= box.northEast.lng
  }
}
