/** `createConnector`: turns a connector description into a wrapper component.
    Modelled here: the `displayName` check, which hooks make the wrapper a
    widget, the fallbacks used for hooks the description leaves out, the
    initial `uiState`, `setUiState`, `shouldComponentUpdate` and the null case
    of `render`. Type parameters: P props objects, S search states,
    Q search parameters, M metadata, U uiState values. */
module CreateConnector {
  import opened GeoTypes

  /** A connector description; each optional hook is Some when the
      description defines it. `refine`, `searchForFacetValues` and `cleanUp`
      only matter here through their presence. */
  datatype Description<!P, !S, !Q, M, U> = Description(
    displayName: Option<string>,
    hasRefine: bool,
    hasSearchForFacetValues: bool,
    hasCleanUp: bool,
    getSearchParameters: Option<(Q, P, S) -> Q>,
    getMetadata: Option<(P, S) -> M>,
    transitionState: Option<(P, S, S) -> S>,
    getInitialUiState: Option<P -> map<string, U>>)

  /** What `createConnector` computes once, before any component exists. */
  datatype Connector<!P, !S, !Q, M, U> = Connector(description: Description<P, S, Q, M, U>, isWidget: bool)

  /** A falsy `displayName`: missing or the empty string. */
  predicate MissingDisplayName<P, S, Q, M, U>(d: Description<P, S, Q, M, U>)
  {
    d.displayName.None? || d.displayName.value == ""
  }

  /** `createConnector(connectorDesc)`. */
  function Create<P, S, Q, M, U>(d: Description<P, S, Q, M, U>): (r: Result<Connector<P, S, Q, M, U>>)
    ensures r.Failure? <==> MissingDisplayName(d)
    ensures r.Failure? ==> r.error == GeoTypes.MissingDisplayName
    ensures r.Success? ==> r.value.description == d
    ensures r.Success? ==> (r.value.isWidget <==>
      d.getSearchParameters.Some? || d.getMetadata.Some? || d.transitionState.Some?)
  {
    if MissingDisplayName(d) then Failure(GeoTypes.MissingDisplayName)
    else
      var isWidget := d.getSearchParameters.Some? || d.getMetadata.Some? || d.transitionState.Some?;
      Success(Connector(d, isWidget))
  }

  /** The wrapper's `getMetadata`; None stands for the empty object `{}`. */
  function GetMetadata<P, S, Q, M, U>(c: Connector<P, S, Q, M, U>, props: P, nextWidgetsState: S): (r: Option<M>)
    ensures r.Some? <==> c.description.getMetadata.Some?
    ensures r.Some? ==> r.value == c.description.getMetadata.value(props, nextWidgetsState)
  {
    match c.description.getMetadata
    case Some(hook) => Some(hook(props, nextWidgetsState))
    case None => None
  }

  /** The wrapper's `getSearchParameters`; None stands for `null`. */
  function GetSearchParameters<P, S, Q, M, U>(c: Connector<P, S, Q, M, U>, q: Q, props: P, widgets: S): (r: Option<Q>)
    ensures r.Some? <==> c.description.getSearchParameters.Some?
    ensures r.Some? ==> r.value == c.description.getSearchParameters.value(q, props, widgets)
  {
    match c.description.getSearchParameters
    case Some(hook) => Some(hook(q, props, widgets))
    case None => None
  }

  /** The wrapper's `transitionState`: without the hook, the next state is kept. */
  function TransitionState<P, S, Q, M, U>(c: Connector<P, S, Q, M, U>, props: P, prev: S, next: S): (r: S)
    ensures c.description.transitionState.None? ==> r == next
    ensures c.description.transitionState.Some? ==> r == c.description.transitionState.value(props, prev, next)
  {
    match c.description.transitionState
    case Some(hook) => hook(props, prev, next)
    case None => next
  }

  /** A connector that is not a widget contributes nothing to a search: no
      metadata, no parameters, and it lets every state transition through. */
  lemma NonWidgetIsInert<P, S, Q, M, U>(d: Description<P, S, Q, M, U>, props: P, q: Q, prev: S, next: S)
    requires !MissingDisplayName(d)
    ensures Create(d).Success?
    ensures !Create(d).value.isWidget ==>
      GetMetadata(Create(d).value, props, next).None? &&
      GetSearchParameters(Create(d).value, q, props, next).None? &&
      TransitionState(Create(d).value, props, prev, next) == next
  {
  }

  /** The uiState a new wrapper starts with. */
  function InitialUiState<P, S, Q, M, U>(d: Description<P, S, Q, M, U>, props: P): (r: map<string, U>)
    ensures d.getInitialUiState.None? ==> r == map[]
    ensures d.getInitialUiState.Some? ==> r == d.getInitialUiState.value(props)
  {
    match d.getInitialUiState
    case Some(hook) => hook(props)
    case None => map[]
  }

  /** `{ ...uiState, ...slice }`: keys of the slice take its values, every
      other key keeps its old value. */
  function MergeUiState<U>(ui: map<string, U>, slice: map<string, U>): (r: map<string, U>)
    ensures r.Keys == ui.Keys + slice.Keys
    ensures forall k :: k in slice ==> r[k] == slice[k]
    ensures forall k :: k in ui && k !in slice ==> r[k] == ui[k]
  {
    ui + slice
  }

  /** The uiState that `setUiState(updater)` commits; None when the updater
      returns a falsy value and the state update is dropped. */
  function NextUiState<U>(ui: map<string, U>, updater: map<string, U> -> Option<map<string, U>>): (r: Option<map<string, U>>)
    ensures updater(ui).None? <==> r.None?
    ensures r.Some? ==> r.value == MergeUiState(ui, updater(ui).value)
  {
    match updater(ui)
    case None => None
    case Some(slice) => Some(MergeUiState(ui, slice))
  }

  /** Setting a slice twice is the same as setting it once. */
  lemma {:induction false} MergeUiStateIdempotent<U>(ui: map<string, U>, slice: map<string, U>)
    ensures MergeUiState(MergeUiState(ui, slice), slice) == MergeUiState(ui, slice)
  {
    var once := MergeUiState(ui, slice);
    var twice := MergeUiState(once, slice);
    assert twice.Keys == once.Keys;
    forall k | k in twice ensures twice[k] == once[k] {
    }
  }

  /** A slice that repeats values the uiState already has changes nothing. */
  lemma {:induction false} MergeUiStateNoOp<U>(ui: map<string, U>, slice: map<string, U>)
    requires forall k :: k in slice ==> k in ui && ui[k] == slice[k]
    ensures MergeUiState(ui, slice) == ui
  {
    var r := MergeUiState(ui, slice);
    assert r.Keys == ui.Keys;
    forall k | k in r ensures r[k] == ui[k] {
    }
  }

  /** `shouldComponentUpdate`: `propsEqual` and `statePropsEqual` stand for
      the shallow comparisons; None is a `null` provided-props object. The
      wrapper re-renders when anything differs and only then: different
      props, a switch between null and an object, or different provided props. */
  function ShouldComponentUpdate<T>(propsEqual: bool, stateProps: Option<T>, nextStateProps: Option<T>, statePropsEqual: bool): (r: bool)
    ensures !propsEqual ==> r
    ensures stateProps.None? != nextStateProps.None? ==> r
    ensures r ==> !propsEqual || stateProps.None? != nextStateProps.None? || (stateProps.Some? && !statePropsEqual)
  {
    if stateProps.None? || nextStateProps.None? then
      if stateProps.None? && nextStateProps.None? then !propsEqual else true
    else
      !propsEqual || !statePropsEqual
  }

  /** The truth table: with shallow equality read as equality, the wrapper
      re-renders exactly when its props or its provided props changed, a
      switch between null and an object counting as a change. */
  lemma ShouldComponentUpdateIffChanged<P, T>(props: P, nextProps: P, stateProps: Option<T>, nextStateProps: Option<T>)
    ensures ShouldComponentUpdate(props == nextProps, stateProps, nextStateProps,
      stateProps.Some? && nextStateProps.Some? && stateProps.value == nextStateProps.value)
      <==> (props != nextProps || stateProps != nextStateProps)
  {
  }

  /** The case table: the three branches of `shouldComponentUpdate`, one
      per ensures. ShouldComponentUpdateIffChanged is the characterisation. */
  lemma ShouldComponentUpdateCases<T>(propsEqual: bool, stateProps: Option<T>, nextStateProps: Option<T>, statePropsEqual: bool)
    ensures stateProps.None? && nextStateProps.None? ==>
      ShouldComponentUpdate(propsEqual, stateProps, nextStateProps, statePropsEqual) == !propsEqual
    ensures stateProps.None? != nextStateProps.None? ==>
      ShouldComponentUpdate(propsEqual, stateProps, nextStateProps, statePropsEqual)
    ensures stateProps.Some? && nextStateProps.Some? ==>
      ShouldComponentUpdate(propsEqual, stateProps, nextStateProps, statePropsEqual) == (!propsEqual || !statePropsEqual)
  {
  }

  /** What `render` hands to the wrapped component. */
  datatype Rendered<T> = Rendered(stateProps: T, exposesRefine: bool, exposesSearchForItems: bool)

  /** `render`: nothing while the provided props are null; `refine` and
      `createURL` are passed down only when the description has `refine`. */
  function Render<P, S, Q, M, U, T>(c: Connector<P, S, Q, M, U>, stateProps: Option<T>): (r: Option<Rendered<T>>)
    ensures r.None? <==> stateProps.None?
    ensures r.Some? ==> r.value.stateProps == stateProps.value
    ensures r.Some? ==> (r.value.exposesRefine <==> c.description.hasRefine)
    ensures r.Some? ==> (r.value.exposesSearchForItems <==> c.description.hasSearchForFacetValues)
  {
    match stateProps
    case None => None
    case Some(p) => Some(Rendered(p, c.description.hasRefine, c.description.hasSearchForFacetValues))
  }

  /** The wrapper component's React state: its uiState and the props it
      last computed with the description's `getProvidedProps` (None: null). */
  class ConnectorComponent<P, S, Q, M, U> {
    const connector: Connector<P, S, Q, M, U>
    const getProvidedProps: (Option<P>, map<string, U>) -> Option<P>
    var uiState: map<string, U>
    var stateProps: Option<P>

    constructor (connector: Connector<P, S, Q, M, U>, getProvidedProps: (Option<P>, map<string, U>) -> Option<P>, props: P)
      ensures this.connector == connector && this.getProvidedProps == getProvidedProps
      ensures uiState == InitialUiState(connector.description, props)
      ensures stateProps == getProvidedProps(Some(props), uiState)
    {
      this.connector := connector;
      this.getProvidedProps := getProvidedProps;
      var initialUiState := InitialUiState(connector.description, props);
      uiState := initialUiState;
      stateProps := getProvidedProps(Some(props), initialUiState);
    }

    /** `setUiState(updater)`: a falsy slice leaves the state alone;
        otherwise the slice is merged in and the props are recomputed from
        the previous provided props and the new uiState. */
    method SetUiState(updater: map<string, U> -> Option<map<string, U>>)
      modifies this
      ensures updater(old(uiState)).None? ==> uiState == old(uiState) && stateProps == old(stateProps)
      ensures updater(old(uiState)).Some? ==>
        uiState == MergeUiState(old(uiState), updater(old(uiState)).value) &&
        stateProps == getProvidedProps(old(stateProps), uiState)
    {
      var nextSlice := updater(uiState);
      if nextSlice.None? {
        return;
      }
      var nextUiState := uiState + nextSlice.value;
      uiState := nextUiState;
      stateProps := getProvidedProps(stateProps, nextUiState);
    }
  }
}
