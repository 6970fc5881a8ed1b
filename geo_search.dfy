/** The GeoSearch component: the map widget that keeps the viewport and the
    `boundingBox` refinement in step without a feedback loop.

    Three instance flags drive it. `isMapAlreadyLoaded` turns on at the first
    idle event; `isPendingRefine` remembers a user move that should refine at
    the next idle event; `isUserInteraction` is false only while the component
    itself fits the map to the hits, so that the move events the map fires
    for that fit are not taken for the user's. The fourth flag,
    `hasMapMoveSinceLastRefine`, lives in the Provider and is read and set
    through it.

    The step functions below are the specification; the class GeoSearch runs
    the same steps on its fields and is proved to agree with them. */
module GeoSearchComponent {
  import opened GeoTypes
  import MapMoveProvider

  datatype MapState = MapState(
    isMapAlreadyLoaded: bool,
    isPendingRefine: bool,
    isUserInteraction: bool,
    hasMapMoveSinceLastRefine: bool)

  /** The flags of a freshly mounted component next to a fresh Provider. */
  const Mounted: MapState := MapState(false, false, true, false)

  /** What the component asks of the outside world. */
  datatype Effect =
    | FitBounds(bounds: BoundingBox)  // `this.element.fitBounds(bounds)`
    | RefineWithBounds                // refine with the viewport's bounds at that moment
    | ClearRefinement                 // refine with no bounds

  datatype Reaction = Reaction(state: MapState, effects: seq<Effect>)

  /** `onChange`: drag start, centre change or zoom change on the map. A
      move only ever raises flags, and only a user move after load does. */
  function AfterChange(m: MapState, isRefineOnMapMove: bool): (n: MapState)
    ensures n.isMapAlreadyLoaded == m.isMapAlreadyLoaded && n.isUserInteraction == m.isUserInteraction
    ensures n.hasMapMoveSinceLastRefine <==>
      m.hasMapMoveSinceLastRefine || (m.isMapAlreadyLoaded && m.isUserInteraction)
    ensures n.isPendingRefine <==>
      m.isPendingRefine || (m.isMapAlreadyLoaded && m.isUserInteraction && isRefineOnMapMove)
  {
    if m.isMapAlreadyLoaded && m.isUserInteraction then
      m.(hasMapMoveSinceLastRefine := true,
         isPendingRefine := if isRefineOnMapMove then true else m.isPendingRefine)
    else m
  }

  /** `refineWithMap`: refine, then clear the moved flag. */
  function AfterRefineWithMap(m: MapState): (r: Reaction)
    ensures r.effects == [RefineWithBounds] && !r.state.hasMapMoveSinceLastRefine
    ensures r.state.(hasMapMoveSinceLastRefine := m.hasMapMoveSinceLastRefine) == m
  {
    Reaction(m.(hasMapMoveSinceLastRefine := false), [RefineWithBounds])
  }

  /** `clearMapRefinement`: clear the refinement, then the moved flag. */
  function AfterClearMapRefinement(m: MapState): (r: Reaction)
    ensures r.effects == [ClearRefinement] && !r.state.hasMapMoveSinceLastRefine
    ensures r.state.(hasMapMoveSinceLastRefine := m.hasMapMoveSinceLastRefine) == m
  {
    Reaction(m.(hasMapMoveSinceLastRefine := false), [ClearRefinement])
  }

  /** `onIdle`: the map is loaded from now on; a pending refine fires, and
      otherwise nothing but the loaded flag changes. */
  function AfterIdle(m: MapState): (r: Reaction)
    ensures r.state.isMapAlreadyLoaded && r.state.isUserInteraction == m.isUserInteraction
    ensures r.effects == [] || r.effects == [RefineWithBounds]
    ensures r.effects != [] <==> m.isUserInteraction && m.isPendingRefine
    ensures m.isUserInteraction ==> !r.state.isPendingRefine
    ensures r.effects == [] ==> r.state == m.(isMapAlreadyLoaded := true)
  {
    var loaded := m.(isMapAlreadyLoaded := true);
    if loaded.isUserInteraction && loaded.isPendingRefine then
      var refined := AfterRefineWithMap(loaded);
      Reaction(refined.state.(isPendingRefine := false), refined.effects)
    else
      Reaction(loaded, [])
  }

  function Max(a: int, b: int): int { if a < b then b else a }

  function Min(a: int, b: int): int { if a < b then a else b }

  /** `LatLngBounds.extend(point)`; an empty bounds (None) becomes the point. */
  function Extend(acc: Option<BoundingBox>, p: LatLng): BoundingBox
  {
    match acc
    case None => BoundingBox(p, p)
    case Some(b) =>
      BoundingBox(
        LatLng(Max(b.northEast.lat, p.lat), Max(b.northEast.lng, p.lng)),
        LatLng(Min(b.southWest.lat, p.lat), Min(b.southWest.lng, p.lng)))
  }

  /** `points.reduce((acc, p) => acc.extend(p), acc)`. */
  function ReduceBounds(acc: Option<BoundingBox>, points: seq<LatLng>): (r: Option<BoundingBox>)
    ensures acc.Some? || |points| > 0 ==> r.Some?
    decreases |points|
  {
    if |points| == 0 then acc else ReduceBounds(Some(Extend(acc, points[0])), points[1..])
  }

  /** The bounds handed to `fitBounds`: all points folded into an empty bounds. */
  function HitsBounds(points: seq<LatLng>): BoundingBox
    requires |points| > 0
  {
    ReduceBounds(None, points).value
  }

  function Lats(points: seq<LatLng>): set<int>
  {
    set p | p in points :: p.lat
  }

  function Lngs(points: seq<LatLng>): set<int>
  {
    set p | p in points :: p.lng
  }

  function Corners(acc: Option<BoundingBox>): seq<LatLng>
  {
    if acc.Some? then [acc.value.northEast, acc.value.southWest] else []
  }

  /** `b` reaches at least as far as `a` on every side. */
  predicate Covers(b: BoundingBox, a: BoundingBox)
  {
    b.northEast.lat >= a.northEast.lat && b.northEast.lng >= a.northEast.lng &&
    b.southWest.lat <= a.southWest.lat && b.southWest.lng <= a.southWest.lng
  }

  lemma {:induction false} ReduceBoundsEncloses(acc: Option<BoundingBox>, points: seq<LatLng>)
    requires acc.Some? || |points| > 0
    ensures forall i :: 0 <= i < |points| ==> Encloses(ReduceBounds(acc, points).value, points[i])
    ensures acc.Some? ==> Covers(ReduceBounds(acc, points).value, acc.value)
    decreases |points|
  {
    if |points| > 0 {
      var e := Extend(acc, points[0]);
      ReduceBoundsEncloses(Some(e), points[1..]);
      var b := ReduceBounds(acc, points).value;
      assert b == ReduceBounds(Some(e), points[1..]).value;
      assert Encloses(e, points[0]);
      forall i | 0 <= i < |points| ensures Encloses(b, points[i]) {
        if i > 0 {
          assert points[i] == points[1..][i - 1];
        }
      }
    }
  }

  lemma {:induction false} ReduceBoundsTight(acc: Option<BoundingBox>, points: seq<LatLng>)
    requires acc.Some? || |points| > 0
    ensures ReduceBounds(acc, points).value.northEast.lat in Lats(Corners(acc) + points)
    ensures ReduceBounds(acc, points).value.southWest.lat in Lats(Corners(acc) + points)
    ensures ReduceBounds(acc, points).value.northEast.lng in Lngs(Corners(acc) + points)
    ensures ReduceBounds(acc, points).value.southWest.lng in Lngs(Corners(acc) + points)
    decreases |points|
  {
    if |points| > 0 {
      var e := Extend(acc, points[0]);
      var rest := points[1..];
      ReduceBoundsTight(Some(e), rest);
      var before := Corners(acc) + points;
      var after := Corners(Some(e)) + rest;
      assert points == [points[0]] + rest;
      assert e.northEast.lat in Lats(before) && e.southWest.lat in Lats(before) by {
        assert points[0] in before;
        if acc.Some? {
          assert acc.value.northEast in before && acc.value.southWest in before;
        }
      }
      assert e.northEast.lng in Lngs(before) && e.southWest.lng in Lngs(before) by {
        assert points[0] in before;
        if acc.Some? {
          assert acc.value.northEast in before && acc.value.southWest in before;
        }
      }
      forall p | p in after ensures p.lat in Lats(before) && p.lng in Lngs(before) {
        if p in rest {
          assert p in before;
        }
      }
    }
  }

  /** The box handed to `fitBounds` encloses every hit and is built from the
      hits' coordinates only: each of its sides is some hit's coordinate. */
  lemma FitBoundsBox(points: seq<LatLng>)
    requires |points| > 0
    ensures forall i :: 0 <= i < |points| ==> Encloses(HitsBounds(points), points[i])
    ensures HitsBounds(points).northEast.lat in Lats(points)
    ensures HitsBounds(points).southWest.lat in Lats(points)
    ensures HitsBounds(points).northEast.lng in Lngs(points)
    ensures HitsBounds(points).southWest.lng in Lngs(points)
  {
    ReduceBoundsEncloses(None, points);
    ReduceBoundsTight(None, points);
    assert Corners(None) + points == points;
  }

  /** Two hits at (10, 12) and (12, 14) give the box from (10, 12) to (12, 14). */
  lemma FitBoundsExample()
    ensures HitsBounds([LatLng(10, 12), LatLng(12, 14)]) == BoundingBox(LatLng(12, 14), LatLng(10, 12))
  {
  }

  /** `isFitBoundsEnable`. */
  predicate IsFitBoundsEnabled(hitCount: nat, hasMapMoveSinceLastRefine: bool, isRefinedWithMap: bool)
  {
    hitCount > 0 && !hasMapMoveSinceLastRefine && !isRefinedWithMap
  }

  /** `fitViewToBounds`, run after every render. `points` are the hits'
      coordinates. `firesMove` says whether the map delivers a move event to
      `onChange` while `fitBounds` runs. */
  function AfterFitViewToBounds(m: MapState, points: seq<LatLng>, isRefinedWithMap: bool, isRefineOnMapMove: bool, firesMove: bool): (r: Reaction)
    ensures r.effects != [] <==> IsFitBoundsEnabled(|points|, m.hasMapMoveSinceLastRefine, isRefinedWithMap)
    ensures |r.effects| <= 1
    ensures forall e :: e in r.effects ==> e.FitBounds? && forall i :: 0 <= i < |points| ==> Encloses(e.bounds, points[i])
    ensures m.isUserInteraction ==> r.state == m
  {
    if IsFitBoundsEnabled(|points|, m.hasMapMoveSinceLastRefine, isRefinedWithMap) then
      FitBoundsBox(points);
      var programmatic := m.(isUserInteraction := false);
      var moved := if firesMove then AfterChange(programmatic, isRefineOnMapMove) else programmatic;
      Reaction(moved.(isUserInteraction := true), [FitBounds(HitsBounds(points))])
    else
      Reaction(m, [])
  }

  /** Before the first idle event a map move changes nothing. */
  lemma ChangeBeforeLoadIsIgnored(m: MapState, isRefineOnMapMove: bool)
    requires !m.isMapAlreadyLoaded
    ensures AfterChange(m, isRefineOnMapMove) == m
  {
  }

  /** A user move after load raises the moved flag, and makes a refine
      pending exactly when refine-on-move is on (or one already was). */
  lemma UserChangeAfterLoad(m: MapState, isRefineOnMapMove: bool)
    requires m.isMapAlreadyLoaded && m.isUserInteraction
    ensures AfterChange(m, isRefineOnMapMove).hasMapMoveSinceLastRefine
    ensures AfterChange(m, isRefineOnMapMove).isPendingRefine <==> m.isPendingRefine || isRefineOnMapMove
    ensures AfterChange(m, isRefineOnMapMove).isMapAlreadyLoaded && AfterChange(m, isRefineOnMapMove).isUserInteraction
  {
  }

  /** An idle event leaves the map loaded; with user interaction on it issues
      exactly one refine when one is pending and none otherwise, and after it
      nothing is pending and a refine has cleared the moved flag. */
  lemma IdleRefinesIffPending(m: MapState)
    ensures AfterIdle(m).state.isMapAlreadyLoaded
    ensures AfterIdle(m).effects == if m.isUserInteraction && m.isPendingRefine then [RefineWithBounds] else []
    ensures m.isUserInteraction ==> !AfterIdle(m).state.isPendingRefine
    ensures AfterIdle(m).effects != [] ==> !AfterIdle(m).state.hasMapMoveSinceLastRefine
  {
  }

  /** `fitBounds` is called exactly when there are hits, the map has not
      moved since the last refine and the search is not refined with the map. */
  lemma FitBoundsIffEnabled(m: MapState, points: seq<LatLng>, isRefinedWithMap: bool, isRefineOnMapMove: bool, firesMove: bool)
    ensures AfterFitViewToBounds(m, points, isRefinedWithMap, isRefineOnMapMove, firesMove).effects != [] <==>
      |points| > 0 && !m.hasMapMoveSinceLastRefine && !isRefinedWithMap
    ensures AfterFitViewToBounds(m, points, isRefinedWithMap, isRefineOnMapMove, firesMove).effects != [] ==>
      AfterFitViewToBounds(m, points, isRefinedWithMap, isRefineOnMapMove, firesMove).effects == [FitBounds(HitsBounds(points))]
  {
  }

  /** The feedback-loop guard: a fit, including any move event the map fires
      during it, leaves every flag as it was, and user interaction is on
      again when it returns. */
  lemma FitLeavesFlagsAlone(m: MapState, points: seq<LatLng>, isRefinedWithMap: bool, isRefineOnMapMove: bool, firesMove: bool)
    requires m.isUserInteraction
    ensures AfterFitViewToBounds(m, points, isRefinedWithMap, isRefineOnMapMove, firesMove).state == m
  {
  }

  /** What the user and the map can do to the component. */
  datatype Event =
    | ViewportChange(isRefineOnMapMove: bool)   // a move event outside a fit
    | ViewportIdle
    | Rendered(points: seq<LatLng>, isRefinedWithMap: bool, isRefineOnMapMove: bool, firesMove: bool)
    | RedoClick
    | ClearClick

  function Step(m: MapState, e: Event): Reaction
  {
    match e
    case ViewportChange(isRefineOnMapMove) => Reaction(AfterChange(m, isRefineOnMapMove), [])
    case ViewportIdle => AfterIdle(m)
    case Rendered(points, isRefinedWithMap, isRefineOnMapMove, firesMove) =>
      AfterFitViewToBounds(m, points, isRefinedWithMap, isRefineOnMapMove, firesMove)
    case RedoClick => AfterRefineWithMap(m)
    case ClearClick => AfterClearMapRefinement(m)
  }

  /** The flags and the effects after a sequence of events from mounting. */
  function Replay(events: seq<Event>): Reaction
    decreases |events|
  {
    if |events| == 0 then Reaction(Mounted, [])
    else
      var before := Replay(events[..|events| - 1]);
      var last := Step(before.state, events[|events| - 1]);
      Reaction(last.state, before.effects + last.effects)
  }

  lemma ReplaySnoc(events: seq<Event>, e: Event)
    ensures Replay(events + [e]).state == Step(Replay(events).state, e).state
    ensures Replay(events + [e]).effects == Replay(events).effects + Step(Replay(events).state, e).effects
  {
    assert (events + [e])[..|events|] == events;
  }

  /** Between events, user interaction is always on. */
  lemma {:induction false} UserInteractionRestored(events: seq<Event>)
    ensures Replay(events).state.isUserInteraction
    decreases |events|
  {
    if |events| > 0 {
      var pre := events[..|events| - 1];
      UserInteractionRestored(pre);
      assert events == pre + [events[|events| - 1]];
      ReplaySnoc(pre, events[|events| - 1]);
    }
  }

  /** The map counts as loaded exactly once an idle event has been seen. */
  lemma {:induction false} LoadedIffIdleSeen(events: seq<Event>)
    ensures Replay(events).state.isMapAlreadyLoaded <==> ViewportIdle in events
    decreases |events|
  {
    if |events| > 0 {
      var pre := events[..|events| - 1];
      var e := events[|events| - 1];
      LoadedIffIdleSeen(pre);
      UserInteractionRestored(pre);
      assert events == pre + [e];
      ReplaySnoc(pre, e);
      assert ViewportIdle in events <==> ViewportIdle in pre || e == ViewportIdle;
    }
  }

  /** A refine is pending after `events` exactly when some user move with
      refine-on-move on came after an idle event and no idle event came
      after it. */
  ghost predicate PendingSpec(events: seq<Event>)
  {
    exists j :: 0 <= j < |events| && events[j] == ViewportChange(true) &&
      ViewportIdle in events[..j] && ViewportIdle !in events[j + 1..]
  }

  lemma PendingSpecSnoc(pre: seq<Event>, e: Event)
    ensures e == ViewportIdle ==> !PendingSpec(pre + [e])
    ensures e != ViewportIdle ==>
      (PendingSpec(pre + [e]) <==> PendingSpec(pre) || (e == ViewportChange(true) && ViewportIdle in pre))
  {
    var events := pre + [e];
    if e == ViewportIdle {
      forall j | 0 <= j < |events| && events[j] == ViewportChange(true)
        ensures ViewportIdle in events[j + 1..]
      {
        assert events[j + 1..][|pre| - j - 1] == ViewportIdle;
      }
    } else {
      if PendingSpec(events) {
        var j :| 0 <= j < |events| && events[j] == ViewportChange(true) &&
          ViewportIdle in events[..j] && ViewportIdle !in events[j + 1..];
        if j == |pre| {
          assert events[..j] == pre;
        } else {
          assert events[..j] == pre[..j];
          assert events[j + 1..] == pre[j + 1..] + [e];
          assert pre[j] == ViewportChange(true);
        }
      }
      if PendingSpec(pre) {
        var j :| 0 <= j < |pre| && pre[j] == ViewportChange(true) &&
          ViewportIdle in pre[..j] && ViewportIdle !in pre[j + 1..];
        assert events[..j] == pre[..j];
        assert events[j + 1..] == pre[j + 1..] + [e];
        assert events[j] == ViewportChange(true);
      }
      if e == ViewportChange(true) && ViewportIdle in pre {
        var j := |pre|;
        assert events[..j] == pre;
        assert events[j + 1..] == [];
        assert events[j] == ViewportChange(true);
      }
    }
  }

  lemma {:induction false} PendingIffSpec(events: seq<Event>)
    ensures Replay(events).state.isPendingRefine <==> PendingSpec(events)
    decreases |events|
  {
    if |events| == 0 {
      assert !PendingSpec(events);
    } else {
      var pre := events[..|events| - 1];
      var e := events[|events| - 1];
      PendingIffSpec(pre);
      LoadedIffIdleSeen(pre);
      UserInteractionRestored(pre);
      assert events == pre + [e];
      ReplaySnoc(pre, e);
      PendingSpecSnoc(pre, e);
    }
  }

  /** Which idle events refine: the idle event that follows `events` issues
      one refine when `PendingSpec(events)` holds and none otherwise. */
  lemma IdleRefinesAfter(events: seq<Event>)
    ensures Replay(events + [ViewportIdle]).effects ==
      Replay(events).effects + (if PendingSpec(events) then [RefineWithBounds] else [])
  {
    ReplaySnoc(events, ViewportIdle);
    UserInteractionRestored(events);
    PendingIffSpec(events);
  }

  /** The first idle event never refines. */
  lemma FirstIdleNeverRefines(events: seq<Event>)
    requires ViewportIdle !in events
    ensures Replay(events + [ViewportIdle]).effects == Replay(events).effects
  {
    IdleRefinesAfter(events);
  }

  /** Only a user move after load raises the moved flag. */
  lemma MovedRaisedOnlyByUserMove(m: MapState, e: Event)
    requires m.isUserInteraction && !m.hasMapMoveSinceLastRefine
    requires Step(m, e).state.hasMapMoveSinceLastRefine
    ensures e.ViewportChange? && m.isMapAlreadyLoaded
  {
  }

  /** Once raised, the moved flag drops exactly when a refine or a clear is
      issued. */
  lemma MovedClearedIffCommitted(m: MapState, e: Event)
    requires m.isUserInteraction && m.hasMapMoveSinceLastRefine
    ensures !Step(m, e).state.hasMapMoveSinceLastRefine <==>
      RefineWithBounds in Step(m, e).effects || ClearRefinement in Step(m, e).effects
  {
  }

  /** Which controls `render` shows. */
  datatype Controls = Controls(toggle: bool, redo: bool, clear: bool)

  /** The toggle and the redo button take turns: redo is shown exactly when
      the map has moved and moves do not refine by themselves. The clear
      button is shown exactly when the search is refined with the map. */
  function RenderControls(isRefineOnMapMove: bool, hasMapMoveSinceLastRefine: bool, isRefinedWithMap: bool): (c: Controls)
    ensures c.toggle != c.redo
    ensures c.redo <==> hasMapMoveSinceLastRefine && !isRefineOnMapMove
    ensures c.clear <==> isRefinedWithMap
  {
    var toggle := isRefineOnMapMove || !hasMapMoveSinceLastRefine;
    Controls(toggle, !toggle, isRefinedWithMap)
  }

  /** With refine-on-move off, a user move brings up the redo button, and
      pressing it brings the toggle back. */
  lemma RedoButtonRoundTrip(m: MapState, isRefinedWithMap: bool)
    requires m.isMapAlreadyLoaded && m.isUserInteraction
    ensures RenderControls(false, AfterChange(m, false).hasMapMoveSinceLastRefine, isRefinedWithMap).redo
    ensures RenderControls(false, AfterRefineWithMap(AfterChange(m, false)).state.hasMapMoveSinceLastRefine, isRefinedWithMap).toggle
  {
  }

  /** The coordinates of hits that all carry `_geoloc`. */
  function Geolocs(hits: seq<Hit>): (points: seq<LatLng>)
    requires forall i :: 0 <= i < |hits| ==> hits[i].geoloc.Some?
    ensures |points| == |hits|
    ensures forall i :: 0 <= i < |hits| ==> points[i] == hits[i].geoloc.value
  {
    seq(|hits|, i requires 0 <= i < |hits| => hits[i].geoloc.value)
  }

  class GeoSearch {
    var isMapAlreadyLoaded: bool
    var isPendingRefine: bool
    var isUserInteraction: bool

    // props
    var hits: seq<Hit>
    var isRefinedWithMap: bool
    var isRefineOnMapMove: bool
    const provider: MapMoveProvider.Provider

    /** Every effect issued so far, in order. */
    ghost var effects: seq<Effect>

    ghost function Snapshot(): MapState
      reads this, provider
    {
      MapState(isMapAlreadyLoaded, isPendingRefine, isUserInteraction, provider.hasMapMoveSinceLastRefine)
    }

    /** The Provider re-rendered once if its flag changed, never otherwise. */
    twostate predicate RerenderedOnChange()
      reads provider
    {
      provider.renderCount == old(provider.renderCount) +
        MapMoveProvider.Rerenders(old(provider.hasMapMoveSinceLastRefine), [provider.hasMapMoveSinceLastRefine])
    }

    constructor (provider: MapMoveProvider.Provider, hits: seq<Hit>, isRefinedWithMap: bool, isRefineOnMapMove: bool)
      ensures this.provider == provider && this.hits == hits
      ensures this.isRefinedWithMap == isRefinedWithMap && this.isRefineOnMapMove == isRefineOnMapMove
      ensures !isMapAlreadyLoaded && !isPendingRefine && isUserInteraction
      ensures effects == []
    {
      this.provider := provider;
      this.hits := hits;
      this.isRefinedWithMap := isRefinedWithMap;
      this.isRefineOnMapMove := isRefineOnMapMove;
      isMapAlreadyLoaded := false;
      isPendingRefine := false;
      isUserInteraction := true;
      effects := [];
    }

    method OnChange()
      modifies this`isPendingRefine, provider
      ensures Snapshot() == AfterChange(old(Snapshot()), isRefineOnMapMove)
      ensures RerenderedOnChange()
    {
      if isMapAlreadyLoaded && isUserInteraction {
        provider.SetMapMoveSinceLastRefine(true);
        if isRefineOnMapMove {
          isPendingRefine := true;
        }
      }
    }

    method OnIdle()
      modifies this`isMapAlreadyLoaded, this`isPendingRefine, this`effects, provider
      ensures Snapshot() == AfterIdle(old(Snapshot())).state
      ensures effects == old(effects) + AfterIdle(old(Snapshot())).effects
      ensures RerenderedOnChange()
    {
      isMapAlreadyLoaded := true;
      if isUserInteraction && isPendingRefine {
        RefineWithMap();
        isPendingRefine := false;
      }
    }

    method FitViewToBounds(firesMove: bool)
      requires forall i :: 0 <= i < |hits| ==> hits[i].geoloc.Some?
      modifies this`isUserInteraction, this`isPendingRefine, this`effects, provider
      ensures Snapshot() ==
        AfterFitViewToBounds(old(Snapshot()), Geolocs(hits), isRefinedWithMap, isRefineOnMapMove, firesMove).state
      ensures effects == old(effects) +
        AfterFitViewToBounds(old(Snapshot()), Geolocs(hits), isRefinedWithMap, isRefineOnMapMove, firesMove).effects
      ensures RerenderedOnChange()
    {
      if |hits| > 0 && !provider.hasMapMoveSinceLastRefine && !isRefinedWithMap {
        isUserInteraction := false;
        var bounds := HitsBounds(Geolocs(hits));
        effects := effects + [FitBounds(bounds)];
        if firesMove {
          OnChange();
        }
        isUserInteraction := true;
      }
    }

    /** `componentDidUpdate` after new props. */
    method ReceiveProps(hits: seq<Hit>, isRefinedWithMap: bool, isRefineOnMapMove: bool, firesMove: bool)
      requires forall i :: 0 <= i < |hits| ==> hits[i].geoloc.Some?
      modifies this, provider
      ensures this.hits == hits && this.isRefinedWithMap == isRefinedWithMap && this.isRefineOnMapMove == isRefineOnMapMove
      ensures Snapshot() == Step(old(Snapshot()), Rendered(Geolocs(hits), isRefinedWithMap, isRefineOnMapMove, firesMove)).state
      ensures effects == old(effects) + Step(old(Snapshot()), Rendered(Geolocs(hits), isRefinedWithMap, isRefineOnMapMove, firesMove)).effects
      ensures RerenderedOnChange()
    {
      this.hits := hits;
      this.isRefinedWithMap := isRefinedWithMap;
      this.isRefineOnMapMove := isRefineOnMapMove;
      FitViewToBounds(firesMove);
    }

    method RefineWithMap()
      modifies this`effects, provider
      ensures Snapshot() == AfterRefineWithMap(old(Snapshot())).state
      ensures effects == old(effects) + AfterRefineWithMap(old(Snapshot())).effects
      ensures RerenderedOnChange()
    {
      effects := effects + [RefineWithBounds];
      provider.SetMapMoveSinceLastRefine(false);
    }

    method ClearMapRefinement()
      modifies this`effects, provider
      ensures Snapshot() == AfterClearMapRefinement(old(Snapshot())).state
      ensures effects == old(effects) + AfterClearMapRefinement(old(Snapshot())).effects
      ensures RerenderedOnChange()
    {
      effects := effects + [ClearRefinement];
      provider.SetMapMoveSinceLastRefine(false);
    }

    /** The controls `render` shows for the current props. */
    function Controls(): (c: Controls)
      reads this, provider
      ensures c.redo <==> provider.hasMapMoveSinceLastRefine && !isRefineOnMapMove
      ensures c.toggle <==> !c.redo
      ensures c.clear <==> isRefinedWithMap
    {
      RenderControls(isRefineOnMapMove, provider.hasMapMoveSinceLastRefine, isRefinedWithMap)
    }
  }

  /** A mounted component with hits fits the map once; a later map move
      during the fit is ignored; the first idle only loads the map; a user
      move then an idle refines once and clears the moved flag. */
  method MountMoveIdleScenario()
  {
    var provider := new MapMoveProvider.Provider();
    var hits := [Hit("1", Some(LatLng(10, 12))), Hit("2", Some(LatLng(12, 14)))];
    var component := new GeoSearch(provider, hits, false, true);
    component.FitViewToBounds(true);
    assert Geolocs(hits) == [LatLng(10, 12), LatLng(12, 14)];
    FitBoundsExample();
    assert component.effects == [FitBounds(BoundingBox(LatLng(12, 14), LatLng(10, 12)))];
    assert !provider.hasMapMoveSinceLastRefine && !component.isPendingRefine;
    component.OnIdle();
    assert |component.effects| == 1;
    component.OnChange();
    assert provider.hasMapMoveSinceLastRefine && component.isPendingRefine;
    component.OnIdle();
    assert component.effects[1..] == [RefineWithBounds];
    assert !provider.hasMapMoveSinceLastRefine && !component.isPendingRefine;
  }
}
