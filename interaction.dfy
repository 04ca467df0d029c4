/** The interaction core as a state machine on values: one transition function
    per handler of the page script, an event type for what the user and the
    services deliver, and the properties of the machine as lemmas. The class
    in module RoutingApp is proved to follow these transitions. */
module Interaction {

  import opened Places

  /** An opaque route geometry returned by the routing service. */
  datatype Route = Route(token: nat)

  /** A marker created by the page: its identity (one per `new Marker()`), its
      position, the title of its popup and the place its "Add to route"
      button confirms. */
  datatype Marker = Marker(id: nat, at: Coordinates, title: string, place: Place)

  /** What the map and the routing layer show: the markers attached to the
      map, whether the current marker's popup is open, the waypoints and the
      route the routing layer displays, and the route requests still awaited. */
  datatype View = View(
    onMap: seq<Marker>,
    popupOpen: bool,
    waypointsShown: seq<Place>,
    routeShown: Option<Route>,
    pendingRoutes: nat)

  /** Requests and calls, in order: reverse lookups issued, places passed to
      `addTempMarker`, places passed to `addPlaceToRoute`, how many of those
      came before the latest reset, and the route requests issued. */
  datatype Log = Log(
    geocodeRequests: seq<Coordinates>,
    selections: seq<Place>,
    confirmations: seq<Place>,
    lastReset: nat,
    routeRequests: seq<seq<Place>>)

  /** The page script's variables, with the view they drive and the log. */
  datatype Model = Model(
    poiWasClicked: bool,
    tempMarker: Option<Marker>,
    markersCreated: nat,
    waypoints: seq<Place>,
    resetDisabled: bool,
    view: View,
    log: Log)

  /** The state once the page has loaded: no marker, no waypoints, the
      suppression flag down; the reset button as the page markup sets it. */
  function Init(resetInitiallyDisabled: bool): Model
  {
    Model(false, None, 0, [], resetInitiallyDisabled,
          View([], false, [], None, 0), Log([], [], [], 0, []))
  }

  /** `marker.remove()` on the map: the attached markers, minus the one with this id. */
  function Detach(ms: seq<Marker>, id: nat): seq<Marker>
  {
    if ms == [] then []
    else if ms[0].id == id then Detach(ms[1..], id)
    else [ms[0]] + Detach(ms[1..], id)
  }

  /** The specification of `Detach`: removing a marker keeps exactly the
      other attached markers and never adds one. (Reachable states hold at
      most one marker, so the proofs below unfold `Detach` directly.) */
  lemma {:induction false} DetachKeepsOthers(ms: seq<Marker>, id: nat)
    ensures forall k :: k in Detach(ms, id) <==> k in ms && k.id != id
    ensures |Detach(ms, id)| <= |ms|
    decreases |ms|
  {
    if ms != [] {
      DetachKeepsOthers(ms[1..], id);
      assert forall k :: k in ms <==> k == ms[0] || k in ms[1..];
    }
  }

  /** The marker `m` stands for place `p`: at its coordinates, titled with its display name. */
  predicate Shows(m: Marker, p: Place)
  {
    m.place == p && m.at == p.coordinates && m.title == DisplayName(p.properties)
  }

  /** `tempMarker?.remove()`: the current marker, if any, leaves the map with
      its popup. The variable goes on referring to the removed marker. */
  function RemoveMarker(s: Model): Model
  {
    if s.tempMarker.Some? then
      s.(view := s.view.(onMap := Detach(s.view.onMap, s.tempMarker.value.id), popupOpen := false))
    else s
  }

  /** The rest of `addTempMarker(p)`: a new marker for `p`, titled with its
      display name, becomes the current one, is attached and its popup opened. */
  function AttachMarker(s: Model, p: Place): Model
  {
    var m := Marker(s.markersCreated, p.coordinates, DisplayName(p.properties), p);
    s.(tempMarker := Some(m), markersCreated := s.markersCreated + 1,
       view := s.view.(onMap := s.view.onMap + [m], popupOpen := true),
       log := s.log.(selections := s.log.selections + [p]))
  }

  /** `addTempMarker(p)` */
  function AddTempMarker(s: Model, p: Place): Model
  {
    AttachMarker(RemoveMarker(s), p)
  }

  /** `handleMapClick`: an echo of a point-of-interest click only lowers the
      flag; otherwise the position is reverse-geocoded and, when the lookup
      yields a place (`resolved`), that place is shown. */
  function HandleMapClick(s: Model, at: Coordinates, resolved: Option<Place>): Model
  {
    if s.poiWasClicked then s.(poiWasClicked := false)
    else
      var s' := s.(log := s.log.(geocodeRequests := s.log.geocodeRequests + [at]));
      if resolved.Some? then AddTempMarker(s', resolved.value) else s'
  }

  /** `handlePoiClick`: raise the flag, then show the point of interest. */
  function HandlePoiClick(s: Model, poi: Place): Model
  {
    AddTempMarker(s.(poiWasClicked := true), poi)
  }

  /** `waypoints.push(p)`, then `showWaypoints(waypoints)`. */
  function AppendWaypoint(s: Model, p: Place): Model
  {
    s.(waypoints := s.waypoints + [p],
       view := s.view.(waypointsShown := s.waypoints + [p]),
       log := s.log.(confirmations := s.log.confirmations + [p]))
  }

  /** The synchronous part of `calculateRouteIfNeeded`: with two or more
      waypoints, enable the reset button and request a route over all of them. */
  function CalculateRouteIfNeeded(s: Model): Model
  {
    if |s.waypoints| > 1 then
      s.(resetDisabled := false,
         view := s.view.(pendingRoutes := s.view.pendingRoutes + 1),
         log := s.log.(routeRequests := s.log.routeRequests + [s.waypoints]))
    else s
  }

  /** `addPlaceToRoute(p)`. With no marker ever created, `tempMarker.remove()`
      throws before anything changes; otherwise the marker leaves the map, `p`
      is appended, the routing layer shows the list and a route may be requested. */
  function AddPlaceToRoute(s: Model, p: Place): Model
  {
    if s.tempMarker.None? then s
    else CalculateRouteIfNeeded(AppendWaypoint(RemoveMarker(s), p))
  }

  /** The continuation after `await calculateRoute(...)`: a route that arrives
      is shown; a rejected request shows nothing. */
  function RouteResolved(s: Model, result: Option<Route>): Model
    requires s.view.pendingRoutes > 0
  {
    var v := s.view.(pendingRoutes := s.view.pendingRoutes - 1);
    s.(view := if result.Some? then v.(routeShown := result) else v)
  }

  /** `reset`: clear the route and the waypoints, disable the reset button. */
  function Reset(s: Model): Model
  {
    s.(view := s.view.(routeShown := None, waypointsShown := []),
       waypoints := [], resetDisabled := true,
       log := s.log.(lastReset := |s.log.confirmations|))
  }

  /** What the page receives: a map click (with the outcome of its reverse
      lookup), a point-of-interest click, a click on the popup's "Add to route"
      button, the answer to a route request, a click on the reset button. */
  datatype Event =
    | MapClicked(at: Coordinates, resolved: Option<Place>)
    | PoiClicked(poi: Place)
    | AddToRouteClicked
    | RouteReturned(result: Option<Route>)
    | ResetClicked

  /** The popup's button can be clicked: its marker is on the map. */
  predicate ButtonShown(s: Model)
  {
    s.tempMarker.Some? && s.tempMarker.value in s.view.onMap
  }

  /** The handler each event reaches. A button that is not on screen (no
      marker attached) or that is disabled receives no click; a route answer
      arrives only for a pending request. */
  function Step(s: Model, e: Event): Model
  {
    match e
    case MapClicked(at, resolved) => HandleMapClick(s, at, resolved)
    case PoiClicked(poi) => HandlePoiClick(s, poi)
    case AddToRouteClicked =>
      if ButtonShown(s) then AddPlaceToRoute(s, s.tempMarker.value.place) else s
    case RouteReturned(result) => if s.view.pendingRoutes > 0 then RouteResolved(s, result) else s
    case ResetClicked => if s.resetDisabled then s else Reset(s)
  }

  /** The state after processing `evs` in order. */
  function Run(s: Model, evs: seq<Event>): Model
    decreases |evs|
  {
    if evs == [] then s else Run(Step(s, evs[0]), evs[1..])
  }

  /** At most one marker is on the map, and it is the current one. */
  predicate OneMarker(s: Model)
  {
    s.view.onMap == [] || (s.tempMarker.Some? && s.view.onMap == [s.tempMarker.value])
  }

  /** The invariant every reachable state keeps: at most one marker on the map
      and it is the current one, showing its place; an open popup belongs to
      a marker on the map; the waypoints are exactly the places confirmed since
      the last reset and are what the routing layer shows; every route request
      covers at least two places. */
  predicate Inv(s: Model)
  {
    && OneMarker(s)
    && (s.view.popupOpen ==> s.view.onMap != [])
    && (s.tempMarker.Some? ==> Shows(s.tempMarker.value, s.tempMarker.value.place))
    && s.log.lastReset <= |s.log.confirmations|
    && s.waypoints == s.log.confirmations[s.log.lastReset..]
    && s.view.waypointsShown == s.waypoints
    && (forall r :: r in s.log.routeRequests ==> |r| >= 2)
  }

  lemma InitInv(resetInitiallyDisabled: bool)
    ensures Inv(Init(resetInitiallyDisabled))
  {
  }

  /** Under the invariant, `tempMarker?.remove()` leaves the map empty and
      changes nothing else. */
  lemma RemoveMarkerEmpties(s: Model)
    requires Inv(s)
    ensures s.tempMarker.Some? ==> RemoveMarker(s) == s.(view := s.view.(onMap := [], popupOpen := false))
    ensures s.tempMarker.None? ==> RemoveMarker(s) == s && s.view.onMap == []
  {
    if s.tempMarker.Some? && s.view.onMap != [] {
      var id := s.tempMarker.value.id;
      assert s.view.onMap[1..] == [];
      assert Detach(s.view.onMap, id) == Detach([], id) == [];
    }
  }

  /** At most one marker: after `addTempMarker(p)` the only marker on the map
      is a new one for `p`, its popup open; the waypoints are untouched. */
  lemma AddTempMarkerReplaces(s: Model, p: Place)
    requires Inv(s)
    ensures var t := AddTempMarker(s, p);
      && t.tempMarker.Some? && Shows(t.tempMarker.value, p)
      && t.view.onMap == [t.tempMarker.value] && t.view.popupOpen
      && t.tempMarker.value.id == s.markersCreated
      && t.log.selections == s.log.selections + [p]
      && t.waypoints == s.waypoints && t.log.routeRequests == s.log.routeRequests
      && t.poiWasClicked == s.poiWasClicked
      && Inv(t)
  {
    RemoveMarkerEmpties(s);
  }

  /** Echo clicks are swallowed: a map click while the flag is up lowers it and
      does nothing else, whatever the lookup would have returned. */
  lemma EchoClickSwallowed(s: Model, at: Coordinates, resolved: Option<Place>)
    requires s.poiWasClicked
    ensures HandleMapClick(s, at, resolved) == s.(poiWasClicked := false)
  {
  }

  /** A map click with the flag down issues exactly one lookup for its
      position, and shows the resolved place if there is one; a rejected
      lookup changes nothing else. Either way no route is requested and the
      reset button keeps its state. */
  lemma FreshClickLooksUp(s: Model, at: Coordinates, resolved: Option<Place>)
    requires Inv(s) && !s.poiWasClicked
    ensures var t := HandleMapClick(s, at, resolved);
      && t.log.geocodeRequests == s.log.geocodeRequests + [at]
      && !t.poiWasClicked
      && t.log.routeRequests == s.log.routeRequests && t.resetDisabled == s.resetDisabled
      && (resolved.None? ==> t == s.(log := s.log.(geocodeRequests := s.log.geocodeRequests + [at])))
      && (resolved.Some? ==> t.log.selections == s.log.selections + [resolved.value]
                             && t.tempMarker.Some? && Shows(t.tempMarker.value, resolved.value)
                             && t.view.onMap == [t.tempMarker.value])
      && t.waypoints == s.waypoints
      && Inv(t)
  {
    if resolved.Some? {
      AddTempMarkerReplaces(s.(log := s.log.(geocodeRequests := s.log.geocodeRequests + [at])), resolved.value);
    }
  }

  /** One selection per gesture: a point-of-interest click and the map click
      it propagates as show the point of interest once, issue no lookup and
      leave the flag down, whatever state the flag was in before. */
  lemma OneSelectionPerGesture(s: Model, poi: Place, at: Coordinates, resolved: Option<Place>)
    requires Inv(s)
    ensures var t := Run(s, [PoiClicked(poi), MapClicked(at, resolved)]);
      && t.log.selections == s.log.selections + [poi]
      && t.log.geocodeRequests == s.log.geocodeRequests
      && !t.poiWasClicked
      && t.tempMarker.Some? && Shows(t.tempMarker.value, poi)
      && t.view.onMap == [t.tempMarker.value] && t.view.popupOpen
      && t.waypoints == s.waypoints
  {
    RunTwo(s, PoiClicked(poi), MapClicked(at, resolved));
    AddTempMarkerReplaces(s.(poiWasClicked := true), poi);
  }

  /** Confirming appends: `addPlaceToRoute(p)` keeps the earlier waypoints,
      appends `p`, takes the marker off the map and has the routing layer show
      the whole list; with no marker ever created it changes nothing. */
  lemma ConfirmAppends(s: Model, p: Place)
    requires Inv(s)
    ensures var t := AddPlaceToRoute(s, p);
      && (s.tempMarker.None? ==> t == s)
      && (s.tempMarker.Some? ==>
            && t.waypoints == s.waypoints + [p]
            && t.view.waypointsShown == t.waypoints
            && t.view.onMap == [] && !t.view.popupOpen
            && t.log.confirmations == s.log.confirmations + [p]
            && t.poiWasClicked == s.poiWasClicked)
      && Inv(t)
  {
    RemoveMarkerEmpties(s);
    if s.tempMarker.Some? {
      var t := AddPlaceToRoute(s, p);
      assert t.log.confirmations[t.log.lastReset..] == s.log.confirmations[s.log.lastReset..] + [p];
    }
  }

  /** Route trigger threshold: a confirmation requests a route exactly when the
      list then holds more than one place; the request carries the whole list
      and enables the reset button before any answer arrives. Otherwise the
      route state and the button are untouched. */
  lemma RouteTrigger(s: Model, p: Place)
    requires s.tempMarker.Some?
    ensures var t := AddPlaceToRoute(s, p);
      && (t.log.routeRequests != s.log.routeRequests <==> |t.waypoints| > 1)
      && (|t.waypoints| > 1 ==>
            && t.log.routeRequests == s.log.routeRequests + [s.waypoints + [p]]
            && !t.resetDisabled
            && t.view.pendingRoutes == s.view.pendingRoutes + 1
            && t.view.routeShown == s.view.routeShown)
      && (|t.waypoints| <= 1 ==>
            && t.resetDisabled == s.resetDisabled
            && t.view.pendingRoutes == s.view.pendingRoutes
            && t.view.routeShown == s.view.routeShown)
  {
  }

  /** Reset always empties the list and disables the button, and a second
      reset changes nothing. */
  lemma ResetIdempotent(s: Model)
    ensures Reset(s).waypoints == [] && Reset(s).resetDisabled
    ensures Reset(s).view.routeShown.None? && Reset(s).view.waypointsShown == []
    ensures Reset(Reset(s)) == Reset(s)
  {
  }

  lemma ResetInv(s: Model)
    requires Inv(s)
    ensures Inv(Reset(s))
  {
  }

  /** The same through the button: after one click the button is disabled, so
      a second click is not delivered. */
  lemma ResetClickTwice(s: Model)
    ensures Run(s, [ResetClicked, ResetClicked]) == Step(s, ResetClicked)
    ensures Step(s, ResetClicked).resetDisabled
  {
    RunTwo(s, ResetClicked, ResetClicked);
  }

  /** A route answer that arrives after a reset is still shown, over an empty
      list of waypoints: reset does not cancel requests in flight. */
  lemma StaleRouteAfterReset(s: Model, r: Route)
    requires s.view.pendingRoutes > 0
    ensures var t := RouteResolved(Reset(s), Some(r));
      t.view.routeShown == Some(r) && t.waypoints == [] && t.resetDisabled
  {
  }

  /** Every transition keeps the invariant. */
  lemma StepInv(s: Model, e: Event)
    requires Inv(s)
    ensures Inv(Step(s, e))
  {
    match e
    case MapClicked(at, resolved) => MapClickInv(s, at, resolved);
    case PoiClicked(poi) => PoiClickInv(s, poi);
    case AddToRouteClicked => ConfirmClickInv(s);
    case RouteReturned(result) => RouteReturnedInv(s, result);
    case ResetClicked => ResetClickInv(s);
  }

  lemma MapClickInv(s: Model, at: Coordinates, resolved: Option<Place>)
    requires Inv(s)
    ensures Inv(Step(s, MapClicked(at, resolved)))
  {
    if !s.poiWasClicked {
      FreshClickLooksUp(s, at, resolved);
    }
  }

  lemma PoiClickInv(s: Model, poi: Place)
    requires Inv(s)
    ensures Inv(Step(s, PoiClicked(poi)))
  {
    AddTempMarkerReplaces(s.(poiWasClicked := true), poi);
  }

  lemma ConfirmClickInv(s: Model)
    requires Inv(s)
    ensures Inv(Step(s, AddToRouteClicked))
  {
    if ButtonShown(s) {
      ConfirmAppends(s, s.tempMarker.value.place);
    }
  }

  lemma RouteReturnedInv(s: Model, result: Option<Route>)
    requires Inv(s)
    ensures Inv(Step(s, RouteReturned(result)))
  {
  }

  lemma ResetClickInv(s: Model)
    requires Inv(s)
    ensures Inv(Step(s, ResetClicked))
  {
    if !s.resetDisabled {
      ResetInv(s);
    }
  }

  /** Every reachable state satisfies the invariant. */
  lemma {:induction false} RunInv(s: Model, evs: seq<Event>)
    requires Inv(s)
    ensures Inv(Run(s, evs))
    decreases |evs|
  {
    if evs != [] {
      StepInv(s, evs[0]);
      RunInv(Step(s, evs[0]), evs[1..]);
    }
  }

  /** Waypoint count: from page load, the waypoints are the places confirmed
      since the last reset, in confirmation order (all of them if there was no
      reset), and the map never holds more than one marker. */
  lemma WaypointsSinceReset(resetInitiallyDisabled: bool, evs: seq<Event>)
    ensures var t := Run(Init(resetInitiallyDisabled), evs);
      && t.log.lastReset <= |t.log.confirmations|
      && t.waypoints == t.log.confirmations[t.log.lastReset..]
      && |t.waypoints| == |t.log.confirmations| - t.log.lastReset
      && OneMarker(t)
  {
    InitInv(resetInitiallyDisabled);
    RunInv(Init(resetInitiallyDisabled), evs);
  }

  /** A step other than a reset only appends to the waypoints, and what it
      appends is what it confirms. */
  lemma StepAppends(s: Model, e: Event)
    requires !e.ResetClicked?
    ensures var t := Step(s, e);
      && s.log.confirmations <= t.log.confirmations
      && t.waypoints == s.waypoints + t.log.confirmations[|s.log.confirmations|..]
  {
  }

  /** Append-only until reset: without a reset click, the list grows by exactly
      the places confirmed, in order, and keeps what it held. */
  lemma {:induction false} AppendOnlyWithoutReset(s: Model, evs: seq<Event>)
    requires forall i :: 0 <= i < |evs| ==> !evs[i].ResetClicked?
    ensures var t := Run(s, evs);
      && s.log.confirmations <= t.log.confirmations
      && t.waypoints == s.waypoints + t.log.confirmations[|s.log.confirmations|..]
    decreases |evs|
  {
    if evs != [] {
      var s1 := Step(s, evs[0]);
      var t := Run(s1, evs[1..]);
      assert Run(s, evs) == t;
      StepAppends(s, evs[0]);
      assert forall i :: 0 <= i < |evs[1..]| ==> !evs[1..][i].ResetClicked? by {
        forall i | 0 <= i < |evs[1..]| ensures !evs[1..][i].ResetClicked? {
          assert evs[1..][i] == evs[i + 1];
        }
      }
      AppendOnlyWithoutReset(s1, evs[1..]);
      AppendChain(s.waypoints, s1.waypoints, t.waypoints,
                  s.log.confirmations, s1.log.confirmations, t.log.confirmations);
    }
  }

  /** Two appends in a row, each recorded by the growth of a log, are one. */
  lemma AppendChain(w0: seq<Place>, w1: seq<Place>, w2: seq<Place>,
                    c0: seq<Place>, c1: seq<Place>, c2: seq<Place>)
    requires c0 <= c1 && c1 <= c2
    requires w1 == w0 + c1[|c0|..] && w2 == w1 + c2[|c1|..]
    ensures c0 <= c2 && w2 == w0 + c2[|c0|..]
  {
  }

  /** The reset button is disabled exactly when the list holds at most one place. */
  predicate ButtonTracksList(s: Model)
  {
    s.resetDisabled <==> |s.waypoints| <= 1
  }

  /** Every transition keeps the button in step with the list: a confirmation
      that makes the list longer than one enables it, a reset disables it, and
      nothing else touches either. */
  lemma StepButtonTracksList(s: Model, e: Event)
    requires ButtonTracksList(s)
    ensures ButtonTracksList(Step(s, e))
  {
  }

  /** The same over any sequence of events. */
  lemma {:induction false} RunButtonTracksList(s: Model, evs: seq<Event>)
    requires ButtonTracksList(s)
    ensures ButtonTracksList(Run(s, evs))
    decreases |evs|
  {
    if evs != [] {
      StepButtonTracksList(s, evs[0]);
      RunButtonTracksList(Step(s, evs[0]), evs[1..]);
    }
  }

  /** From a page whose reset button starts disabled, the button is enabled in
      a reachable state exactly when the list holds more than one place. It
      does not depend on whether a route answer arrived. */
  lemma ResetEnabledIffRouteable(evs: seq<Event>)
    ensures var t := Run(Init(true), evs);
      !t.resetDisabled <==> |t.waypoints| > 1
  {
    RunButtonTracksList(Init(true), evs);
  }

  /** Enabled on request: from page load, confirm two places; when the route
      request is then rejected, no route is shown and the button stays enabled. */
  lemma RejectedRouteKeepsResetEnabled(a: Place, b: Place, at: Coordinates)
    ensures var s2 := Run(Run(Init(true), [MapClicked(at, Some(a)), AddToRouteClicked]),
                          [MapClicked(at, Some(b)), AddToRouteClicked]);
      var t := Step(s2, RouteReturned(None));
      && s2.waypoints == [a, b] && s2.view.pendingRoutes == 1 && !s2.resetDisabled
      && !t.resetDisabled && t.view.routeShown.None? && t.waypoints == [a, b]
      && t.view.pendingRoutes == 0
  {
    var s0 := Init(true);
    RunTwo(s0, MapClicked(at, Some(a)), AddToRouteClicked);
    var s1 := Run(s0, [MapClicked(at, Some(a)), AddToRouteClicked]);
    RunTwo(s1, MapClicked(at, Some(b)), AddToRouteClicked);
  }

  /** Confirm A, then B, from page load: no route after A; after B the list is
      [A, B], one route is requested over [A, B] and the button is enabled;
      a reset then empties the list and disables the button again. */
  lemma ConfirmTwoThenReset(a: Place, b: Place, at: Coordinates)
    ensures var s0 := Init(true);
      var s1 := Run(s0, [MapClicked(at, Some(a)), AddToRouteClicked]);
      var s2 := Run(s1, [PoiClicked(b), MapClicked(at, Some(a)), AddToRouteClicked]);
      var s3 := Step(s2, ResetClicked);
      && s1.waypoints == [a] && s1.log.routeRequests == [] && s1.resetDisabled
      && s2.waypoints == [a, b] && s2.log.routeRequests == [[a, b]] && !s2.resetDisabled
      && s2.log.geocodeRequests == [at]
      && s3.waypoints == [] && s3.resetDisabled && s3.view.routeShown.None?
  {
    var s0 := Init(true);
    RunTwo(s0, MapClicked(at, Some(a)), AddToRouteClicked);
    var s1 := Run(s0, [MapClicked(at, Some(a)), AddToRouteClicked]);
    RunThree(s1, PoiClicked(b), MapClicked(at, Some(a)), AddToRouteClicked);
  }

  lemma RunTwo(s: Model, e0: Event, e1: Event)
    ensures Run(s, [e0, e1]) == Step(Step(s, e0), e1)
  {
    assert [e0, e1][1..] == [e1];
    assert [e1][1..] == [];
    assert Run(Step(s, e0), [e1]) == Run(Step(Step(s, e0), e1), []);
  }

  lemma RunThree(s: Model, e0: Event, e1: Event, e2: Event)
    ensures Run(s, [e0, e1, e2]) == Step(Step(Step(s, e0), e1), e2)
  {
    assert [e0, e1, e2][1..] == [e1, e2];
    RunTwo(Step(s, e0), e1, e2);
  }
}
