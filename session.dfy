/** The page script's module-level state as one object. Its fields are the
    script's variables (`poiWasClicked`, `tempMarker`, `waypoints`, the reset
    button's `disabled`) and the state of the map and routing layers the
    handlers drive; the ghost fields log the requests sent to the services.
    Each handler is proved to perform the transition of the same name in
    module Interaction, so the lemmas there hold of this object. */
module RoutingApp {

  import opened Places
  import Interaction

  class Session {
    // the script's own variables
    var poiWasClicked: bool
    var tempMarker: Option<Interaction.Marker>
    var markersCreated: nat
    var waypoints: seq<Place>
    var resetDisabled: bool
    // the map surface and the routing layer
    var view: Interaction.View
    // requests and calls, in order
    ghost var log: Interaction.Log

    /** The whole state as a value. */
    ghost function Snapshot(): Interaction.Model
      reads this
    {
      Interaction.Model(poiWasClicked, tempMarker, markersCreated, waypoints, resetDisabled, view, log)
    }

    ghost predicate Valid()
      reads this
    {
      Interaction.Inv(Snapshot())
    }

    /** The state when the script has loaded. */
    constructor (resetInitiallyDisabled: bool)
      ensures Snapshot() == Interaction.Init(resetInitiallyDisabled)
      ensures Valid()
    {
      poiWasClicked, tempMarker, markersCreated := false, None, 0;
      waypoints, resetDisabled := [], resetInitiallyDisabled;
      view := Interaction.View([], false, [], None, 0);
      log := Interaction.Log([], [], [], 0, []);
    }

    /** `tempMarker?.remove()`: the current marker, if any, leaves the map and
        its popup closes; the variable still refers to it. */
    method RemoveTempMarker()
      requires Valid()
      modifies this
      ensures Snapshot() == Interaction.RemoveMarker(old(Snapshot()))
      ensures view.onMap == [] && tempMarker == old(tempMarker)
      ensures old(tempMarker).None? ==> Snapshot() == old(Snapshot())
    {
      Interaction.RemoveMarkerEmpties(Snapshot());
      if tempMarker.Some? {
        view := view.(onMap := Interaction.Detach(view.onMap, tempMarker.value.id), popupOpen := false);
      }
    }

    /** Replace the marker: the old one leaves the map, a new one at the place's
        coordinates, titled with its display name, is attached with its popup open. */
    method AddTempMarker(place: Place)
      requires Valid()
      modifies this
      ensures Valid()
      ensures Snapshot() == Interaction.AddTempMarker(old(Snapshot()), place)
      ensures tempMarker.Some? && Interaction.Shows(tempMarker.value, place)
      ensures view.onMap == [tempMarker.value] && view.popupOpen
      ensures waypoints == old(waypoints) && poiWasClicked == old(poiWasClicked)
    {
      Interaction.AddTempMarkerReplaces(Snapshot(), place);
      RemoveTempMarker();
      var name := DisplayName(place.properties);
      var marker := Interaction.Marker(markersCreated, place.coordinates, name, place);
      markersCreated := markersCreated + 1;
      tempMarker := Some(marker);
      // a marker's popup starts closed; togglePopup opens it
      view := view.(onMap := view.onMap + [marker], popupOpen := true);
      log := log.(selections := log.selections + [place]);
    }

    /** A map click. `resolved` is what the reverse lookup of `at` settles
        with: `None` when the request is rejected, so nothing is shown. */
    method HandleMapClick(at: Coordinates, resolved: Option<Place>)
      requires Valid()
      modifies this
      ensures Valid()
      ensures Snapshot() == Interaction.HandleMapClick(old(Snapshot()), at, resolved)
      ensures !poiWasClicked && waypoints == old(waypoints)
      ensures old(poiWasClicked) ==> log == old(log) && tempMarker == old(tempMarker)
      ensures !old(poiWasClicked) ==> log.geocodeRequests == old(log.geocodeRequests) + [at]
    {
      if poiWasClicked {
        poiWasClicked := false;
        return;
      }
      log := log.(geocodeRequests := log.geocodeRequests + [at]);
      if resolved.Some? {
        AddTempMarker(resolved.value);
      }
    }

    /** A point-of-interest click: raise the flag so that the map click that
        follows is ignored, and show the point of interest. */
    method HandlePoiClick(poi: Place)
      requires Valid()
      modifies this
      ensures Valid()
      ensures Snapshot() == Interaction.HandlePoiClick(old(Snapshot()), poi)
      ensures poiWasClicked && tempMarker.Some? && Interaction.Shows(tempMarker.value, poi)
      ensures view.onMap == [tempMarker.value] && log.geocodeRequests == old(log.geocodeRequests)
    {
      poiWasClicked := true;
      AddTempMarker(poi);
    }

    /** With more than one waypoint: enable the reset button, then request a
        route over the whole list (its answer arrives through RouteResolved). */
    method CalculateRouteIfNeeded()
      modifies this
      ensures Snapshot() == Interaction.CalculateRouteIfNeeded(old(Snapshot()))
      ensures |waypoints| > 1 ==> !resetDisabled && log.routeRequests == old(log.routeRequests) + [waypoints]
      ensures |waypoints| <= 1 ==> Snapshot() == old(Snapshot())
    {
      if |waypoints| > 1 {
        resetDisabled := false;
        view := view.(pendingRoutes := view.pendingRoutes + 1);
        log := log.(routeRequests := log.routeRequests + [waypoints]);
      }
    }

    /** The popup's "Add to route" action. `ok` is false when no marker was
        ever created: `tempMarker.remove()` then throws and nothing changes. */
    method AddPlaceToRoute(place: Place) returns (ok: bool)
      requires Valid()
      modifies this
      ensures Valid()
      ensures Snapshot() == Interaction.AddPlaceToRoute(old(Snapshot()), place)
      ensures ok == old(tempMarker).Some?
      ensures !ok ==> Snapshot() == old(Snapshot())
      ensures ok ==> waypoints == old(waypoints) + [place] && view.waypointsShown == waypoints && view.onMap == []
    {
      if tempMarker.None? {
        return false;
      }
      Interaction.ConfirmAppends(Snapshot(), place);
      RemoveTempMarker();
      waypoints := waypoints + [place];
      view := view.(waypointsShown := waypoints);
      log := log.(confirmations := log.confirmations + [place]);
      CalculateRouteIfNeeded();
      ok := true;
    }

    /** The answer to a pending route request: a route is shown, a rejection
        leaves the display as it was. */
    method RouteResolved(result: Option<Interaction.Route>)
      requires Valid() && view.pendingRoutes > 0
      modifies this
      ensures Valid()
      ensures Snapshot() == Interaction.RouteResolved(old(Snapshot()), result)
      ensures result.Some? ==> view.routeShown == result
      ensures result.None? ==> view.routeShown == old(view.routeShown)
    {
      view := view.(pendingRoutes := view.pendingRoutes - 1);
      if result.Some? {
        view := view.(routeShown := result);
      }
    }

    /** Clear the route and the waypoints and disable the reset button. */
    method Reset()
      requires Valid()
      modifies this
      ensures Valid()
      ensures Snapshot() == Interaction.Reset(old(Snapshot()))
      ensures waypoints == [] && resetDisabled && view.routeShown.None?
    {
      Interaction.ResetInv(Snapshot());
      view := view.(routeShown := None, waypointsShown := []);
      waypoints := [];
      log := log.(lastReset := |log.confirmations|);
      resetDisabled := true;
    }

    /** The listeners the script registers: map clicks, point-of-interest
        clicks, the popup's button (present only while its marker is on the
        map), route answers, and the reset button (silent while disabled). */
    method Dispatch(e: Interaction.Event)
      requires Valid()
      modifies this
      ensures Valid()
      ensures Snapshot() == Interaction.Step(old(Snapshot()), e)
    {
      match e
      case MapClicked(at, resolved) =>
        HandleMapClick(at, resolved);
      case PoiClicked(poi) =>
        HandlePoiClick(poi);
      case AddToRouteClicked =>
        if tempMarker.Some? && tempMarker.value in view.onMap {
          var _ := AddPlaceToRoute(tempMarker.value.place);
        }
      case RouteReturned(result) =>
        if view.pendingRoutes > 0 {
          RouteResolved(result);
        }
      case ResetClicked =>
        if !resetDisabled {
          Reset();
        }
    }
  }
}
