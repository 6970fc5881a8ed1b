# Geo search: map and refinement kept in step

This project is a Dafny model of the geo-search widget of react-instantsearch. The widget shows search hits on a map. Moving the map can refine the search to the visible bounding box. When new results arrive, the map fits itself to the hits. The model covers the logic that keeps these two directions from feeding each other:

- **GeoSearch component** (`geo_search.dfy`, module `GeoSearchComponent`). Three instance flags drive it: `isMapAlreadyLoaded`, `isPendingRefine` and `isUserInteraction`. Three viewport callbacks change them: `onChange`, `onIdle`, and the programmatic fit `fitViewToBounds`.
  - The callbacks are step functions over a `MapState` value. The class `GeoSearch` runs the same steps on its fields, and each of its methods is proved to agree with its step function.
  - Event-sequence lemmas over `Replay` say exactly which idle events refine.
  - The fit's bounds are a left fold of `LatLngBounds.extend` over the hits. Lemmas prove the box encloses every hit and that each side of the box is some hit's coordinate.
- **Moved-flag Provider** (`map_move_provider.dfy`). It stores `hasMapMoveSinceLastRefine`, which the component reads and sets. Setting the flag to its current value does not re-render.
- **connectGeoSearch** (`connect_geo_search.dfy`). Its hooks are pure functions over the search-state dictionary:
  - the provided props, where `isRefinedWithMap` is the OR of the search state and the engine's echoed parameters;
  - `refine`, `cleanUp` and `getSearchParameters`;
  - the `insideBoundingBox` text, with a parse-back round trip;
  - the current-refinement metadata;
  - the initial `uiState`.
- **connectPlaces** (`connect_places.dfy`). Its `refine` swaps the `boundingBox` refinement for an `aroundLatLng` position. Its `getSearchParameters` writes `"<lat>, <lng>"` and throws when there is no position.
- **createConnector** (`create_connector.dfy`). It models:
  - the `displayName` check and the `isWidget` computation;
  - the fallbacks for hooks a description omits;
  - the initial `uiState` and the `setUiState` merge, where a falsy updater result means no change;
  - the `shouldComponentUpdate` truth table;
  - the null case of `render`.
- Shared values are in `geo_types.dfy`. Decimal text and `join`/`split` are in `number_text.dfy`. `index_utils.dfy` reduces the search-state helpers to operations on a key → value map that has a `page` entry.

Notes on behaviour, as the code has it:

- Clearing the map refinement goes through `refine(searchState, undefined)`. That leaves the key `boundingBox` present with the value `undefined`, and resets the page. Only `cleanUp` removes the key.
- A move event before the first idle event is ignored outright. It is not queued for later.
- `refineWithMap` does not call `refine` in this version of the component. It logs and then clears the moved flag, so the model records a `RefineWithBounds` effect without bounds.
- A new position from the places connector does not touch the moved flag.
- connectGeoSearch.js defines no `getInitialUiState` hook, so as written `createConnector.js:69-71` would start its wrapper from `{}`. The model's geo description takes the hook from the connector's test, `connectGeoSearch.test.js:10-40`, which expects `isRefineOnMapMove` and `hasMapMoveSinceLastRefine`.

## Model

| member | source | states |
|---|---|---|
| GeoSearchComponent.GeoSearch.constructor | packages/react-instantsearch/src/components/GeoSearch.js:24-26 | a new component starts not loaded, with no pending refine, with user interaction on, and with no effects issued |
| GeoSearchComponent.GeoSearch.OnChange | packages/react-instantsearch/src/components/GeoSearch.js:38-48 | the new flags are the `onChange` step of the old ones; the Provider re-renders only if its flag changed |
| GeoSearchComponent.GeoSearch.OnIdle | packages/react-instantsearch/src/components/GeoSearch.js:50-58 | the new flags and the appended effects are the `onIdle` step of the old flags |
| GeoSearchComponent.GeoSearch.FitViewToBounds | packages/react-instantsearch/src/components/GeoSearch.js:60-76 | flags and effects follow the fit step; this includes a move event the map delivers to `onChange` during `fitBounds` |
| GeoSearchComponent.GeoSearch.ReceiveProps | packages/react-instantsearch/src/components/GeoSearch.js:32-34 | after new props the component runs the fit step with those props |
| GeoSearchComponent.GeoSearch.RefineWithMap | packages/react-instantsearch/src/components/GeoSearch.js:78-92 | appends one refine effect and clears the moved flag |
| GeoSearchComponent.GeoSearch.ClearMapRefinement | packages/react-instantsearch/src/components/GeoSearch.js:94-102 | appends one clear effect and clears the moved flag |
| GeoSearchComponent.GeoSearch.Controls | packages/react-instantsearch/src/components/GeoSearch.js:138-155 | redo is shown iff the map moved and refine-on-move is off; the toggle is shown otherwise; clear is shown iff refined with the map |
| GeoSearchComponent.AfterChange | packages/react-instantsearch/src/components/GeoSearch.js:38-48 | a move keeps the loaded and interaction flags; it raises the moved flag iff it is a user move after load, and makes a refine pending iff it also has refine-on-move on; no flag is ever lowered (lemmas ChangeBeforeLoadIsIgnored, UserChangeAfterLoad) |
| GeoSearchComponent.AfterIdle | packages/react-instantsearch/src/components/GeoSearch.js:50-58 | idle leaves the map loaded; it issues one refine iff user interaction is on and a refine is pending, and otherwise changes nothing but the loaded flag; with user interaction on nothing is pending afterwards (lemmas IdleRefinesIffPending, IdleRefinesAfter) |
| GeoSearchComponent.AfterRefineWithMap | packages/react-instantsearch/src/components/GeoSearch.js:78-92 | issues exactly one refine and lowers the moved flag; no other flag changes |
| GeoSearchComponent.AfterClearMapRefinement | packages/react-instantsearch/src/components/GeoSearch.js:94-102 | issues exactly one clear and lowers the moved flag; no other flag changes |
| GeoSearchComponent.IsFitBoundsEnabled | packages/react-instantsearch/src/components/GeoSearch.js:61-65 | the fit condition: hits present, no move since the last refine, not refined with the map; its meaning is carried by AfterFitViewToBounds and FitBoundsIffEnabled |
| GeoSearchComponent.AfterFitViewToBounds | packages/react-instantsearch/src/components/GeoSearch.js:60-76 | at most one effect, present iff the fit condition holds; it is a `fitBounds` whose box encloses every hit; with user interaction on the flags come back unchanged (lemmas FitBoundsIffEnabled, FitLeavesFlagsAlone, FitBoundsBox) |
| GeoSearchComponent.RenderControls | packages/react-instantsearch/src/components/GeoSearch.js:138-155 | exactly one of toggle and redo is shown; redo iff moved and not refine-on-move; clear iff refined with the map (lemma RedoButtonRoundTrip) |
| GeoSearchComponent.ChangeBeforeLoadIsIgnored | packages/react-instantsearch/src/components/GeoSearch.js:38-48 | before the first idle event `onChange` changes no flag |
| GeoSearchComponent.UserChangeAfterLoad | packages/react-instantsearch/src/components/GeoSearch.js:38-48 | a user move after load raises the moved flag; a refine becomes pending iff refine-on-move is on or one already was |
| GeoSearchComponent.IdleRefinesIffPending | packages/react-instantsearch/src/components/GeoSearch.js:50-58 | idle always loads the map; it issues exactly one refine iff user interaction is on and a refine is pending; with user interaction on nothing is pending afterwards; a refine has cleared the moved flag |
| GeoSearchComponent.FitBoundsIffEnabled | packages/react-instantsearch/src/components/GeoSearch.js:60-65 | `fitBounds` is called iff there are hits, the map has not moved and the search is not refined with the map; it is called once, with the hits' bounds |
| GeoSearchComponent.FitLeavesFlagsAlone | packages/react-instantsearch/src/components/GeoSearch.js:60-76 | a fit never raises the moved or pending flag, even when the map fires a move during it, and user interaction is on again afterwards |
| GeoSearchComponent.ReduceBounds | packages/react-instantsearch/src/components/GeoSearch.js:67-72 | folding at least one point yields a box |
| GeoSearchComponent.ReduceBoundsEncloses | packages/react-instantsearch/src/components/GeoSearch.js:67-72 | the folded box encloses every point and covers the starting bounds |
| GeoSearchComponent.ReduceBoundsTight | packages/react-instantsearch/src/components/GeoSearch.js:67-72 | every side of the folded box is a coordinate of a point or of the starting bounds |
| GeoSearchComponent.FitBoundsBox | packages/react-instantsearch/src/components/GeoSearch.js:67-72 | the box passed to `fitBounds` encloses every hit and each of its sides is some hit's coordinate |
| GeoSearchComponent.FitBoundsExample | packages/react-instantsearch/src/components/GeoSearch.js:67-72 | hits at (10, 12) and (12, 14) give south-west (10, 12) and north-east (12, 14) |
| GeoSearchComponent.UserInteractionRestored | packages/react-instantsearch/src/components/GeoSearch.js:66-74 | after any sequence of events, user interaction is on |
| GeoSearchComponent.LoadedIffIdleSeen | packages/react-instantsearch/src/components/GeoSearch.js:50-51 | the map counts as loaded iff an idle event has occurred |
| GeoSearchComponent.PendingIffSpec | packages/react-instantsearch/src/components/GeoSearch.js:38-58 | a refine is pending iff some user move with refine-on-move came after an idle event and no idle event came after it |
| GeoSearchComponent.IdleRefinesAfter | packages/react-instantsearch/src/components/GeoSearch.js:50-58 | the next idle event adds one refine effect iff that condition holds, and no effect otherwise |
| GeoSearchComponent.FirstIdleNeverRefines | packages/react-instantsearch/src/components/GeoSearch.js:24-58 | the first idle event adds no effect |
| GeoSearchComponent.MovedRaisedOnlyByUserMove | packages/react-instantsearch/src/components/GeoSearch.js:38-48 | only a user move after load raises the moved flag |
| GeoSearchComponent.MovedClearedIffCommitted | packages/react-instantsearch/src/components/GeoSearch.js:78-102 | a raised moved flag drops iff the same event issues a refine or a clear |
| GeoSearchComponent.RedoButtonRoundTrip | packages/react-instantsearch/src/components/GeoSearch.js:138-149 | with refine-on-move off, a user move brings up the redo button and pressing it brings the toggle back |
| MapMoveProvider.Provider.constructor | packages/react-instantsearch-dom-geo/src/__tests__/Provider.js:19-37 | the flag starts false and the children have been rendered once |
| MapMoveProvider.Provider.SetMapMoveSinceLastRefine | packages/react-instantsearch-dom-geo/src/__tests__/Provider.js:40-88 | the flag takes the given value; it re-renders once if the value changed and not at all otherwise |
| MapMoveProvider.RepeatedValueRendersOnce | packages/react-instantsearch-dom-geo/src/__tests__/Provider.js:55-88 | setting one value any number of times re-renders at most once, and only if it differs from the start |
| MapMoveProvider.RerendersAtMostCalls | packages/react-instantsearch-dom-geo/src/__tests__/Provider.js:55-88 | there are never more re-renders than setter calls |
| MapMoveProvider.RerendersAppend | packages/react-instantsearch-dom-geo/src/__tests__/Provider.js:55-88 | re-render counts of consecutive call sequences add up |
| ConnectGeoSearch.WithDefaultProps | packages/react-instantsearch/src/connectors/connectGeoSearch.js:46-48 | a missing `enableRefineOnMapMove` becomes true and a given one is kept |
| ConnectGeoSearch.GetInitialUiState | packages/react-instantsearch/src/connectors/connectGeoSearch.test.js:10-40 | the initial uiState has exactly the two keys; `isRefineOnMapMove` is on unless set to false, and `hasMapMoveSinceLastRefine` is false |
| ConnectGeoSearch.GeoHits | packages/react-instantsearch/src/connectors/connectGeoSearch.js:74 | the kept hits all have `_geoloc`; every hit with `_geoloc` is kept, and nothing else is |
| ConnectGeoSearch.GeoHitsDistributes | packages/react-instantsearch/src/connectors/connectGeoSearch.js:74 | filtering keeps the original order: the filter of a concatenation is the concatenation of the filters |
| ConnectGeoSearch.GeoHitsKeepsGeolocated | packages/react-instantsearch/src/connectors/connectGeoSearch.js:74 | hits that all have `_geoloc` pass through unchanged |
| ConnectGeoSearch.GeoHitsIdempotent | packages/react-instantsearch/src/connectors/connectGeoSearch.js:74 | filtering twice is filtering once |
| ConnectGeoSearch.GetProvidedProps | packages/react-instantsearch/src/connectors/connectGeoSearch.js:50-79 | hits are the geolocated result hits, or empty without results; `isRefinedWithMap` iff the state holds a box or the results carry `insideBoundingBox` |
| ConnectGeoSearch.Refine | packages/react-instantsearch/src/connectors/connectGeoSearch.js:22-29 | the committed box becomes the given one (none clears it) and the page becomes 1; every other key is unchanged |
| ConnectGeoSearch.RefineIdempotent | packages/react-instantsearch/src/connectors/connectGeoSearch.js:22-29 | refining twice with one value is refining once |
| ConnectGeoSearch.CurrentRefinementToString | packages/react-instantsearch/src/connectors/connectGeoSearch.js:31-37 | the text splits on commas into the four corner coordinates, and parses back to the same box (lemmas CurrentRefinementFields, BoundingBoxTextRoundTrip) |
| ConnectGeoSearch.CurrentRefinementFields | packages/react-instantsearch/src/connectors/connectGeoSearch.js:31-37 | the text splits on commas into exactly ne.lat, ne.lng, sw.lat, sw.lng |
| ConnectGeoSearch.BoundingBoxTextRoundTrip | packages/react-instantsearch/src/connectors/connectGeoSearch.js:31-37 | the text parses back to the same box |
| ConnectGeoSearch.GetSearchParameters | packages/react-instantsearch/src/connectors/connectGeoSearch.js:85-100 | without a box the parameters are returned unchanged; with one, `insideBoundingBox` holds its text, which parses back to the box; no other parameter changes |
| ConnectGeoSearch.CleanUp | packages/react-instantsearch/src/connectors/connectGeoSearch.js:102-104 | the `boundingBox` key is removed and every other key is kept |
| ConnectGeoSearch.GetMetadata | packages/react-instantsearch/src/connectors/connectGeoSearch.js:106-129 | id `boundingBox`; no items iff no box; otherwise one item labelled `boundingBox: <text>` whose value is refine-with-nothing |
| ConnectGeoSearch.MetadataItemClears | packages/react-instantsearch/src/connectors/connectGeoSearch.js:116-122 | applying the item's value leaves no metadata items and no `insideBoundingBox` parameter |
| ConnectGeoSearch.RefineIsVisibleImmediately | packages/react-instantsearch/src/connectors/connectGeoSearch.js:58-71 | after committing a box the widget is refined with the map even with stale results, and the box reaches the engine |
| ConnectGeoSearch.ClearWaitsForFreshResults | packages/react-instantsearch/src/connectors/connectGeoSearch.js:58-71 | after clearing, stale results that carry the box keep `isRefinedWithMap` true, and fresh results turn it false |
| ConnectGeoSearch.ConnectorIsWidget | packages/react-instantsearch/src/connectors/connectGeoSearch.test.js:10-40 | the geo description (connectGeoSearch.js:39-130, with the `getInitialUiState` hook its test expects) is accepted, is a widget, and its wrapper starts from that initial uiState |
| ConnectPlaces.GetProvidedProps | packages/react-instantsearch/src/connectors/connectPlaces.js:9-11 | the provided props are empty |
| ConnectPlaces.Refine | packages/react-instantsearch/src/connectors/connectPlaces.js:13-20 | `boundingBox` is removed, `aroundLatLng` is set to the value, and every other key is unchanged |
| ConnectPlaces.RefineIdempotent | packages/react-instantsearch/src/connectors/connectPlaces.js:13-20 | refining twice with one value is refining once |
| ConnectPlaces.RefineReplacesMapRefinement | packages/react-instantsearch/src/connectors/connectPlaces.js:13-20 | after a places refine the geo connector sees no box, adds no `insideBoundingBox` and reports the new position |
| ConnectPlaces.AroundLatLngText | packages/react-instantsearch/src/connectors/connectPlaces.js:34 | the text splits on its comma into the latitude and a space followed by the longitude, and parses back to the position (lemma AroundLatLngTextRoundTrip) |
| ConnectPlaces.AroundLatLngTextRoundTrip | packages/react-instantsearch/src/connectors/connectPlaces.js:30-35 | the text is the latitude, a comma, a space and the longitude, and it parses back to the position |
| ConnectPlaces.GetSearchParameters | packages/react-instantsearch/src/connectors/connectPlaces.js:22-36 | fails with a TypeError iff there is no position; otherwise `insideBoundingBox` is unset, `aroundLatLng` holds the position's text, and other parameters are kept |
| ConnectPlaces.RefineThenParameters | packages/react-instantsearch/src/connectors/connectPlaces.js:13-36 | after a refine with a position the parameters succeed, search around that point, and have no box |
| CreateConnector.Create | packages/react-instantsearch/src/core/createConnector.js:31-44 | fails iff `displayName` is missing or empty; otherwise it is a widget iff it defines `getSearchParameters`, `getMetadata` or `transitionState` |
| CreateConnector.GetMetadata | packages/react-instantsearch/src/core/createConnector.js:135-144 | the hook's metadata when defined, `{}` otherwise |
| CreateConnector.GetSearchParameters | packages/react-instantsearch/src/core/createConnector.js:146-156 | the hook's parameters when defined, `null` otherwise |
| CreateConnector.TransitionState | packages/react-instantsearch/src/core/createConnector.js:158-168 | the hook's state when defined, the next state unchanged otherwise |
| CreateConnector.NonWidgetIsInert | packages/react-instantsearch/src/core/createConnector.js:135-168 | a connector that is not a widget gives no metadata and no parameters, and passes every transition through |
| CreateConnector.InitialUiState | packages/react-instantsearch/src/core/createConnector.js:69-71 | `getInitialUiState(props)` when the hook exists, `{}` otherwise |
| CreateConnector.MergeUiState | packages/react-instantsearch/src/core/createConnector.js:328-331 | keys of the slice take its values; every other key keeps its old value; no other key appears |
| CreateConnector.NextUiState | packages/react-instantsearch/src/core/createConnector.js:320-331 | no change iff the updater returns nothing; otherwise the old uiState merged with the slice |
| CreateConnector.MergeUiStateIdempotent | packages/react-instantsearch/src/core/createConnector.js:328-331 | merging a slice twice is merging it once |
| CreateConnector.MergeUiStateNoOp | packages/react-instantsearch/src/core/createConnector.js:328-331 | a slice that repeats current values leaves the uiState unchanged |
| CreateConnector.ShouldComponentUpdate | packages/react-instantsearch/src/core/createConnector.js:236-253 | re-renders whenever the props differ or the provided props switch between null and an object, and only when one of those or a change of provided props occurs (lemmas ShouldComponentUpdateIffChanged, ShouldComponentUpdateCases) |
| CreateConnector.ShouldComponentUpdateCases | packages/react-instantsearch/src/core/createConnector.js:236-253 | both provided props null: update iff props differ; exactly one null: update; neither null: update iff props or provided props differ |
| CreateConnector.ShouldComponentUpdateIffChanged | packages/react-instantsearch/src/core/createConnector.js:236-253 | with shallow equality read as equality, update iff props or provided props changed, null counting as a value |
| CreateConnector.Render | packages/react-instantsearch/src/core/createConnector.js:342-365 | nothing iff the provided props are null; `refine`/`createURL` are exposed iff the description has `refine` |
| CreateConnector.ConnectorComponent.constructor | packages/react-instantsearch/src/core/createConnector.js:61-83 | the uiState starts as the initial uiState and the provided props are computed from the props and it |
| CreateConnector.ConnectorComponent.SetUiState | packages/react-instantsearch/src/core/createConnector.js:320-340 | a falsy slice leaves the state alone; otherwise the slice is merged in and the props are recomputed from the previous provided props |

## Left out

- Google Maps rendering, markers, the default zoom and centre, and map options are not modelled. The map itself is abstract: `fitBounds` is an effect, and its move and idle notifications are the events `ViewportChange` and `ViewportIdle`.
- GeoSearchComponent.GeoSearch.FitViewToBounds: models at most one move event delivered synchronously during `fitBounds`. A later event is an ordinary `ViewportChange`, and the code treats it as a user move too.
- GeoSearchComponent.GeoSearch.OnIdle, GeoSearchComponent.GeoSearch.RefineWithMap, GeoSearchComponent.GeoSearch.ClearMapRefinement and GeoSearchComponent.GeoSearch.ReceiveProps: `componentDidMount` and `componentDidUpdate` enter only as `Rendered` events or explicit `ReceiveProps` calls. The re-render that the Provider's moved-flag setter causes (GeoSearch.js:91, 101) is neither forced nor recorded, and neither is the fit that re-render can trigger. With hits on screen and no map refinement, that fit can move the map back to the hits. The effects of these methods and of `IdleRefinesAfter` describe the callback alone.
- GeoSearchComponent.GeoSearch.FitViewToBounds, GeoSearchComponent.GeoSearch.ReceiveProps: the hits are taken to be the connector's filtered hits, which all carry `_geoloc` (the ensures of `ConnectGeoSearch.GeoHits`). The TypeError that GeoSearch.js:70 throws when a fit runs over a hit without `_geoloc` is not modelled.
- GeoSearchComponent.GeoSearch.RefineWithMap: the refine with the viewport's bounds is commented out in this version of the component, so the model records an effect without bounds. Viewport bounds are not modelled.
- The Provider's source is not part of this model. Its moved-flag setter is modelled from the behaviour its test records.
- `toggleRefineOnMapMove` is not defined in the modelled files. `isRefineOnMapMove` enters the model as a prop or an event parameter.
- React lifecycle and context wiring are left out: `store.subscribe`, widget registration, `componentWillMount`, `componentWillReceiveProps`, `componentWillUnmount`, `canRender` and the development-mode warning. `setState` is applied at once, with no batching.
- `indexUtils` is not part of this model. The connectors use a single-index key → value map. `refineValue` overlays a key and sets `page` to 1. `cleanUpValue` removes a key. The current refinement is the value stored under its key; `defaultRefinement` and multi-index contexts are not modelled.
- `shallowEqual` and `isEqual` enter as booleans. The truth-table lemma reads them as equality.
- Coordinates are integers and are written as decimal text. Floating-point degrees and JavaScript's formatting of fractions are not modelled, and neither is antimeridian handling in `LatLngBounds.extend`.
- ConnectGeoSearch.GetProvidedProps: a `boundingBox` key holding something other than a box or `undefined` counts as no refinement. The code would take a truthy value of the wrong kind as a refinement and fail when serialising it.
- ConnectPlaces.GetSearchParameters: an `aroundLatLng` key holding something other than a position counts as missing and gives the TypeError. The code would write `"undefined, undefined"` for a truthy value of the wrong kind.
- The places connector is not instantiated through `CreateConnector.Description`, because its `getSearchParameters` can throw. Its hooks are modelled directly.
- The `index` of the geo metadata is an input; `getIndex` reads it from the context.
- `searchForFacetValues`, `createURL`, `cleanUp` wiring and store updates on unmount are out of scope. For `searchForFacetValues` and `createURL`, only whether `render` exposes them is modelled.
