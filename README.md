# Interactive multi-stop routing: the interaction core

The page script of this map application lets a user build a route one stop
at a time. A click on the map drops a pin at the place a reverse lookup finds.
A click on a point of interest selects that point directly. The popup's
"Add to route" button appends the selected place to the waypoint list, and
the route is requested again whenever the list holds two or more places.
A reset button clears everything.

The core is a small state machine held in module-level variables: the
suppression flag `poiWasClicked`, the single transient marker `tempMarker`,
the ordered list `waypoints` and the reset button's `disabled` flag. This
project models that machine in three files.

- `places.dfy` (module `Places`): places as the map layer hands them over
  (optional properties, an opaque coordinates token), JavaScript truthiness,
  and the popup title fallback `DisplayName`.
- `interaction.dfy` (module `Interaction`): the whole state as a value
  (`Model`). It has one transition function per handler (`HandleMapClick`,
  `HandlePoiClick`, `AddTempMarker`, `AddPlaceToRoute`,
  `CalculateRouteIfNeeded`, `Reset`) and the continuation `RouteResolved`
  that runs after the awaited route computation. An `Event` type, `Step` and
  `Run` replay a scripted sequence of user and service events. The invariant
  `Inv` holds in every reachable state, and the lemmas state the machine's
  properties.
- `session.dfy` (module `RoutingApp`): class `Session`. Its fields are the
  script's variables plus the state of the map and routing layers (`view`). A ghost
  field (`log`) records the requests sent to the services. Each handler
  method mirrors one source function and is proved to perform the transition
  of the same name, `Snapshot() == Interaction.X(old(Snapshot()), ...)`.
  Two methods have no source function of their own. `RemoveTempMarker` is
  the `tempMarker?.remove()` step shared by two handlers and performs
  `RemoveMarker`. `Dispatch` stands for the listener registrations and
  performs `Step`. So every lemma of `Interaction` holds of the object.

The `await` points are step boundaries. The flag test in `handleMapClick`
happens before the reverse lookup is awaited. The lookup's outcome is an
input to the method (`None`: the request was rejected and line 65 is never
reached). `calculateRouteIfNeeded` enables the reset button and issues the
request synchronously. Its answer is a separate step (`RouteResolved`, event
`RouteReturned`), and an answer exists only for a pending request.

The state is grouped as the script sees it. The script's variables are
fields of their own. `View` is what the map and routing layers show, and
`Log` records what was asked of the services; in the class, `log` is ghost.
Attaching and removing a MapLibre marker sets `view.onMap`, and
`togglePopup` sets `view.popupOpen`. `routingModule.showWaypoints` sets
`view.waypointsShown`, `showRoutes` and `clearRoutes` set `view.routeShown`,
and `view.pendingRoutes` counts route requests still awaited. Each
`new Marker()` gets a fresh identity from the counter `markersCreated`.
`reverseGeocode` calls go to `log.geocodeRequests` and `calculateRoute`
requests go to `log.routeRequests`. `log.selections` records the places
passed to `addTempMarker`. `log.confirmations` records the places that
`addPlaceToRoute` appended; a call that throws at line 102 appends nothing
and is not recorded. `log.lastReset` is the length of that record at the most
recent reset.

Three behaviours of the code are easy to miss.

- The reset button is enabled when a route is requested (line 128, before
  the `await` on line 129), not when the answer arrives, so a rejected
  request leaves it enabled. `RouteTrigger`, `ResetEnabledIffRouteable` and
  `RejectedRouteKeepsResetEnabled` state this.
- `addPlaceToRoute` with no marker ever created throws at
  `tempMarker.remove()` (line 102) before anything changes. The model leaves
  the state as it was, and `Session.AddPlaceToRoute` returns `ok == false`.
  The page itself cannot reach this case: the button lives in a marker's
  popup.
- `reset` does not cancel route requests still in flight. An answer that
  arrives after a reset is still shown, over an empty waypoint list
  (`StaleRouteAfterReset`).

## Model

| member | source | states |
|---|---|---|
| `Places.DisplayName` | src/index.js:82-83 | the title is never empty; it is the name when that is a non-empty string, else the free-form address when that is a non-empty string, else "Unknown place" |
| `Places.FirstTruthy` | src/index.js:82-83 | the value of a JavaScript `||` chain: the first truthy candidate, every earlier one falsy, or the default when all are falsy |
| `Places.DisplayNameIsFirstTruthy` | src/index.js:82-83 | the display name is the `||` chain over name, free-form address and the literal fallback |
| `Places.EmptyNameFallsThrough` | src/index.js:82-83 | an empty-string name falls through to the address; empty name and address, or no properties at all, give "Unknown place" |
| `Places.Truthy` | src/index.js:82-83 | JavaScript truthiness of an optional string (missing and "" are falsy); specified through `DisplayName`'s ensures and `FirstTruthy` |
| `Places.Name` | src/index.js:82-83 | `properties?.name`; used by `DisplayName`, whose ensures and `EmptyNameFallsThrough` specify it |
| `Places.FreeformAddress` | src/index.js:82-83 | `properties?.address?.freeformAddress`; specified through `DisplayName`'s ensures and `EmptyNameFallsThrough` |
| `Places.Or` | src/index.js:82-83 | one JavaScript `a \|\| b`; `DisplayNameIsFirstTruthy` ties the chain of two to `FirstTruthy` |
| `Interaction.Init` | src/index.js:18-23 | the state after load; `InitInv` proves the invariant of it, and `WaypointsSinceReset` and `ResetEnabledIffRouteable` start from it |
| `Interaction.Detach` | src/index.js:75 | `marker.remove()` on the map; specified by `DetachKeepsOthers` |
| `Interaction.RemoveMarker` | src/index.js:75 | `tempMarker?.remove()`, also the unguarded call at line 102; specified by `RemoveMarkerEmpties` |
| `Interaction.AttachMarker` | src/index.js:77-98 | the new marker, its title and its open popup; specified with `AddTempMarker` by `AddTempMarkerReplaces` |
| `Interaction.AddTempMarker` | src/index.js:74-98 | `addTempMarker`; specified by `AddTempMarkerReplaces` |
| `Interaction.HandleMapClick` | src/index.js:56-66 | `handleMapClick`; specified by `EchoClickSwallowed` and `FreshClickLooksUp` |
| `Interaction.HandlePoiClick` | src/index.js:68-72 | `handlePoiClick`; specified by `OneSelectionPerGesture` and `PoiClickInv` |
| `Interaction.AppendWaypoint` | src/index.js:103-104 | `waypoints.push` and `showWaypoints`; specified with `AddPlaceToRoute` by `ConfirmAppends` |
| `Interaction.AddPlaceToRoute` | src/index.js:101-106 | `addPlaceToRoute`; specified by `ConfirmAppends` and `RouteTrigger` |
| `Interaction.CalculateRouteIfNeeded` | src/index.js:126-131 | the synchronous part of `calculateRouteIfNeeded`; specified by `RouteTrigger` |
| `Interaction.RouteResolved` | src/index.js:129 | the continuation after the awaited route; specified by `StaleRouteAfterReset`, `RejectedRouteKeepsResetEnabled` and `RouteReturnedInv` |
| `Interaction.Reset` | src/index.js:133-138 | `reset`; specified by `ResetIdempotent`, `ResetInv` and `ResetClickTwice` |
| `Interaction.Step` | src/index.js:140-148 | the handler each registered listener reaches (map click at line 38, POI click at line 49, popup button at line 120, reset button at line 142); specified by `StepInv`, `StepAppends` and `StepButtonTracksList` |
| `Interaction.Run` | src/index.js:140-148 | a sequence of listener calls; specified by `RunInv`, `AppendOnlyWithoutReset` and `RunButtonTracksList` |
| `Interaction.DetachKeepsOthers` | src/index.js:75 | removing a marker keeps exactly the attached markers with another identity, and never adds one |
| `Interaction.InitInv` | src/index.js:18-23 | the initial state (flag down, no marker, no waypoints) satisfies the invariant |
| `Interaction.RemoveMarkerEmpties` | src/index.js:75 | in a reachable state, `tempMarker?.remove()` leaves no marker on the map, closes the popup and changes nothing else; with no marker ever created it changes nothing |
| `Interaction.AddTempMarkerReplaces` | src/index.js:74-98 | after `addTempMarker(p)` the only marker on the map is a new one at p's coordinates titled with p's display name, its popup open; waypoints, flag and route requests unchanged; invariant kept |
| `Interaction.EchoClickSwallowed` | src/index.js:56-60 | a map click while the flag is up only lowers the flag: no lookup, marker, waypoints and everything else unchanged |
| `Interaction.FreshClickLooksUp` | src/index.js:56-66 | a map click with the flag down issues exactly one lookup for its position; a rejected lookup changes nothing else; a resolved one shows that place as the only marker; neither requests a route or touches the reset button |
| `Interaction.OneSelectionPerGesture` | src/index.js:56-72 | a POI click followed by its map click shows the POI exactly once, issues no lookup and leaves the flag down, whatever the flag was before |
| `Interaction.ConfirmAppends` | src/index.js:101-105 | `addPlaceToRoute(p)` makes the list old list + [p], takes the marker off the map, closes its popup and has the routing layer show the whole list; with no marker ever created nothing changes |
| `Interaction.RouteTrigger` | src/index.js:126-131 | a route is requested if and only if the list then holds more than one place; the request is the whole list, the reset button is enabled and the shown route is not yet changed; otherwise button and route state are untouched |
| `Interaction.ResetIdempotent` | src/index.js:133-138 | reset leaves no waypoints, no route, the button disabled, and resetting twice equals resetting once |
| `Interaction.ResetInv` | src/index.js:133-138 | reset keeps the invariant (the list is again the confirmations since the last reset, now none) |
| `Interaction.ResetClickTwice` | src/index.js:133-142 | two clicks on the reset button act as one, since the first disables it |
| `Interaction.StaleRouteAfterReset` | src/index.js:126-138 | a route answer arriving after a reset is still shown while the list is empty and the button disabled |
| `Interaction.StepInv` | src/index.js:56-138 | every handler keeps the invariant: at most one marker, being the current one and showing its place; an open popup has its marker on the map; the list is the confirmations since the last reset and is what the routing layer shows; every route request has at least two places |
| `Interaction.RunInv` | src/index.js:56-138 | every state reached by any sequence of events from a state satisfying the invariant satisfies it |
| `Interaction.WaypointsSinceReset` | src/index.js:101-138 | from page load, the list is exactly the places confirmed since the last reset (since load if none), in order, and the map holds at most one marker |
| `Interaction.StepAppends` | src/index.js:101-105 | a single event other than a reset only appends to the list, and what it appends is what it confirms |
| `Interaction.AppendOnlyWithoutReset` | src/index.js:101-105 | with no reset among the events, the list keeps its old contents and grows by exactly the places confirmed, in order |
| `Interaction.ConfirmTwoThenReset` | src/index.js:101-138 | from load: click and confirm A (list [A], no route request), select and confirm B (list [A, B], one request over [A, B], button enabled, the POI click's echo issues no lookup), then reset (list empty, button disabled, no route) |
| `Interaction.StepButtonTracksList` | src/index.js:126-138 | every event keeps the reset button disabled exactly when the list holds at most one place |
| `Interaction.RunButtonTracksList` | src/index.js:126-138 | the same over any sequence of events |
| `Interaction.ResetEnabledIffRouteable` | src/index.js:126-138 | from load with the button disabled, the button is enabled in a reachable state if and only if the list holds more than one place |
| `Interaction.RejectedRouteKeepsResetEnabled` | src/index.js:126-131 | from load, confirming two places and then a rejected route request leaves the button enabled, no route shown and the list [A, B] |
| `RoutingApp.Session.constructor` | src/index.js:18-23 | the object starts in the initial state and satisfies the invariant |
| `RoutingApp.Session.RemoveTempMarker` | src/index.js:75 | performs the `RemoveMarker` transition: no marker left on the map, `tempMarker` still names the removed one |
| `RoutingApp.Session.AddTempMarker` | src/index.js:74-98 | performs the `AddTempMarker` transition: one marker on the map, for the given place, popup open |
| `RoutingApp.Session.HandleMapClick` | src/index.js:56-66 | performs the `HandleMapClick` transition: the flag ends down; with the flag up no lookup and the same marker; else one lookup for the position |
| `RoutingApp.Session.HandlePoiClick` | src/index.js:68-72 | performs the `HandlePoiClick` transition: flag up, the POI shown as the only marker, no lookup |
| `RoutingApp.Session.CalculateRouteIfNeeded` | src/index.js:126-131 | performs the `CalculateRouteIfNeeded` transition: with more than one waypoint the button is enabled and the whole list requested; otherwise nothing changes |
| `RoutingApp.Session.AddPlaceToRoute` | src/index.js:101-106 | performs the `AddPlaceToRoute` transition: reports whether a marker existed; if not nothing changed, else the list is old list + [place], shown by the routing layer, and no marker is on the map |
| `RoutingApp.Session.RouteResolved` | src/index.js:129 | performs the `RouteResolved` transition: a returned route is shown, a rejection leaves the shown route as it was |
| `RoutingApp.Session.Reset` | src/index.js:133-138 | performs the `Reset` transition: no waypoints, button disabled, no route shown |
| `RoutingApp.Session.Dispatch` | src/index.js:140-148 | delivers each event to the handler the script registers for it, as `Interaction.Step` does |

## Left out

- Map construction, the Paris bounds and the API-key configuration (src/index.js:14-17, 25-39): SDK setup with no state of the core.
- Traffic, POI and routing module initialisation (src/index.js:41-54): asynchronous SDK wiring. The model starts with the modules ready.
- `reverseGeocode` and `calculateRoute` themselves: external services. Their outcomes are inputs (`resolved`, `RouteReturned`) and their requests are logged.
- A reverse lookup that resolves to a value with no geometry is not modelled. In the script, `addTempMarker` would remove the old marker and then throw while destructuring. A `Place` here always has coordinates.
- The DOM content of the popup (`createPopupContent`, `innerHTML`, the listener), marker and popup styling: UI plumbing. A marker keeps only its position, its title and the place its button confirms.
- Popups closed or reopened by the map library itself (a click on the marker, a click elsewhere on the map): `popupOpen` only follows `togglePopup` after creation and removal with the marker. The "Add to route" button counts as available while its marker is on the map.
- The initial `disabled` state of the reset button comes from index.html, which is not part of this model. It is a parameter of `Init` and of the constructor.
- Interleaving of concurrent geocode requests: each lookup's outcome is applied within its own click step, so "last completed wins" between overlapping lookups is not modelled. Route answers are separate steps in any order, but which request an answer belongs to is not tracked.
- Coordinates are an opaque token; no floating-point geography.
- Unhandled promise rejections and the console errors they produce are not modelled: a rejected route request simply shows nothing.
- The script hands the live `waypoints` array to `showWaypoints` and `calculateRoute` (src/index.js:104, 129), and `reset` rebinds the variable (line 136) instead of clearing the array. The model records value snapshots, so later mutation seen through those shared references is not modelled.
- OneSelectionPerGesture: assumes the map layer delivers a gesture's point-of-interest click before its map click. That order comes from the SDK's event dispatch, not from the script.
