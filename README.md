# RouteSense front end — a Dafny model

RouteSense is a browser-based route planner. The user picks a start, an end
and some intermediate stops from a table of saved locations. The planner posts
the trip to an optimisation service and draws the candidate routes it gets
back on a map. It can also play a truck marker along a route. This project
models the logic of the three React components that do this work:

- **Request composer** (`RouteBuilder.jsx`), module `RouteBuilder`. The class
  `Builder` holds the component state: `request`, `routes` and `loading`. Its
  methods are the handlers: select start or end, add a stop row, edit a stop
  row, remove a stop row, move the traffic slider, and submit. Each handler
  states its new state through pure functions on the request: `WithEndpoint`,
  `WithStopLocation`, `WithoutRow` and `BuildPayload`. Lemmas prove what
  those functions promise.
- **Map view** (`MapComponent.jsx`), module `MapComponent`. Pure functions
  derive what the map library is given: the coordinate list of each route
  (`GetPositions`), whether a route counts as optimal (`IsOptimal`, a
  substring search), its style (`StyleFor`), one polyline per route
  (`Polylines`), and the start, end and numbered stop markers.
- **Playback marker** (`RouteAnimator.jsx`), module `RouteAnimator`. The class
  `Animator` holds `position`, the cursor `index` (`indexRef`), the last frame
  handle (`requestRef`), the browser's queue of requested frames (`pending`)
  and a count of end notifications. `Effect`, `Tick` and `Cleanup` are the
  effect body, one animation frame and the effect's cleanup. `Tick` is proved
  against the pure function `Advance`. `RunFrames` keeps running frames until
  none is pending, and it is proved against `Trace`, the list of frames a loop
  runs.

Shared data lives in module `Trip`: locations, stop rows, the trip request,
route candidates and the saved-location table. Module `Seqs` holds an
order-preserving `Filter` with its lemmas. Module `Wrappers` holds `Option`.
JavaScript's `null` and `undefined` both become `None`.

The model follows the code as written, including these behaviours:

- A failed request leaves `routes` as it was. It is not emptied.
- The playback cursor is set to 0 only when the component mounts, and it is
  never reset. Playing again after the end therefore stops on its first frame
  and notifies the end again (`ReplayAfterEnd`).
- `position` is set from the props only at mount. Later props do not move it
  until a frame runs.
- Stop markers are numbered by the row's place in the full stop list, so the
  numbers skip rows that have no location.
- The code has no viewport fitting, no route selection or dimming, no dash
  pattern and no vehicle type, so none of these are modelled.

## Model

| member | source | states |
|---|---|---|
| `Seqs.Filter` | src/components/RouteBuilder.jsx:72 | the result is no longer than the input, and every element it holds is an input element that passes the test |
| `Trip.FindById` | src/components/RouteBuilder.jsx:28 | a found entry is in the table and has the id asked for; nothing is found exactly when no entry has that id |
| `Trip.FindByIdFirst` | src/components/RouteBuilder.jsx:28 | `find` returns the entry at the first position that holds the id |
| `Trip.FindByIdUnique` | src/components/RouteBuilder.jsx:7-13 | in a table whose ids are distinct, looking up an entry's id returns that entry |
| `Trip.Lookup` | src/components/RouteBuilder.jsx:40 | a select value that does not parse finds nothing; a found location has the parsed id and is a saved location |
| `Trip.SavedIds` | src/components/RouteBuilder.jsx:7-13 | the saved-location table has five entries with ids 1 to 5, in order |
| `Trip.LookupSaved` | src/components/RouteBuilder.jsx:7-13 | ids 1 to 5, and only those, name a saved location, and each saved location is found by its own id |
| `RouteBuilder.BuildPayload` | src/components/RouteBuilder.jsx:55-78 | no payload exactly when start or end is unset; otherwise the start and end lat, lon and name, the traffic factor and the weight are copied, and the stops are the located rows' payload stops |
| `RouteBuilder.RemoveStopMembership` | src/components/RouteBuilder.jsx:47-52 | a row survives `removeStop` exactly when it was in the list and has a different id |
| `RouteBuilder.RemoveStopAbsent` | src/components/RouteBuilder.jsx:50 | removing an id that no row has leaves the list unchanged |
| `RouteBuilder.RemoveStopConcat` | src/components/RouteBuilder.jsx:50 | removal distributes over concatenation, so the remaining rows keep their relative order |
| `RouteBuilder.RemoveStopIdempotent` | src/components/RouteBuilder.jsx:50 | removing the same id twice is the same as removing it once |
| `RouteBuilder.AddThenRemove` | src/components/RouteBuilder.jsx:32-52 | adding a row whose id is new and then removing that id gives back the original list |
| `RouteBuilder.StopChangeAbsent` | src/components/RouteBuilder.jsx:41-43 | editing an id that no row has leaves the list unchanged |
| `RouteBuilder.StopChangeLastWins` | src/components/RouteBuilder.jsx:41-43 | editing the same row twice leaves the second choice |
| `RouteBuilder.StopChangeThenRemove` | src/components/RouteBuilder.jsx:39-52 | editing a row and then removing it is the same as just removing it |
| `RouteBuilder.PayloadStopsMembership` | src/components/RouteBuilder.jsx:71-77 | every payload stop is the name and coordinates of some located row, and every located row gives a payload stop |
| `RouteBuilder.PayloadStopsConcat` | src/components/RouteBuilder.jsx:71-77 | the payload's stop list distributes over concatenation of rows, so the order of the rows is kept |
| `RouteBuilder.PayloadStopsAllLocated` | src/components/RouteBuilder.jsx:73-77 | when every row has a location, payload stop i is `{name, latitude: lat, longitude: lon}` of row i's location |
| `RouteBuilder.PayloadStopsNoneLocated` | src/components/RouteBuilder.jsx:72 | rows without a location put nothing in the payload |
| `RouteBuilder.AddStopKeepsPayload` | src/components/RouteBuilder.jsx:32-37 | a newly added empty row does not change the payload |
| `RouteBuilder.PayloadKeepsOrder` | src/components/RouteBuilder.jsx:71-77 | the rows A, an empty row, B serialise to exactly [A, B] |
| `RouteBuilder.ChosenEndpointsReachPayload` | src/components/RouteBuilder.jsx:27-30 | after picking saved locations for start and end, a payload is built, and it carries their names and the request's stops |
| `RouteBuilder.ClearedEndpointBlocksPayload` | src/components/RouteBuilder.jsx:55-58 | resetting start or end to the empty option means no payload is built |
| `RouteBuilder.Builder.constructor` | src/components/RouteBuilder.jsx:16-24 | the initial state: no start, no end, no stops, traffic 1.0, weight 50, no routes, not loading |
| `RouteBuilder.Builder.HandleLocationChange` | src/components/RouteBuilder.jsx:27-30 | start or end becomes the saved location with the parsed id, or none; nothing else changes |
| `RouteBuilder.Builder.AddStop` | src/components/RouteBuilder.jsx:32-37 | exactly one row `{id, location: none}` is appended; nothing else changes |
| `RouteBuilder.Builder.HandleStopChange` | src/components/RouteBuilder.jsx:39-45 | the stop list keeps its length and ids; rows with the id get the looked-up location and every other row is unchanged; nothing else changes |
| `RouteBuilder.Builder.RemoveStop` | src/components/RouteBuilder.jsx:47-52 | the stop list becomes the rows with a different id; nothing else changes |
| `RouteBuilder.Builder.SetTrafficFactor` | src/components/RouteBuilder.jsx:139 | only the traffic factor changes |
| `RouteBuilder.Builder.BeginOptimize` | src/components/RouteBuilder.jsx:54-78 | when start or end is unset, nothing is sent and `loading` is untouched; otherwise `loading` is set and the payload is built from the request |
| `RouteBuilder.Builder.FinishOptimize` | src/components/RouteBuilder.jsx:80-87 | `routes` is replaced only when the call succeeded; `loading` ends false either way |
| `RouteBuilder.Builder.HandleOptimize` | src/components/RouteBuilder.jsx:54-88 | a rejected submission changes nothing; an accepted one ends with `loading` false and `routes` replaced only on success |
| `MapComponent.GetPositionsRoundTrip` | src/components/MapComponent.jsx:23 | the coordinate list has the input's length, and the points can be read back from it in order |
| `MapComponent.GetPositionsEmpty` | src/components/MapComponent.jsx:21-24 | the coordinate list is empty exactly when the sequence is absent or empty |
| `MapComponent.GetPositionsConcat` | src/components/MapComponent.jsx:23 | the coordinate list distributes over concatenation of point sequences |
| `MapComponent.IncludesIff` | src/components/MapComponent.jsx:56 | the left-to-right scan finds a substring exactly when it occurs at some index |
| `MapComponent.OptimalAnywhere` | src/components/MapComponent.jsx:56 | any mode containing "Optimal", whatever surrounds it, is optimal |
| `MapComponent.ShortModeNotOptimal` | src/components/MapComponent.jsx:56 | a mode shorter than "Optimal" is never optimal |
| `MapComponent.SampleOptimalMode` | src/components/MapComponent.jsx:56 | "Optimal Route" is optimal |
| `MapComponent.SampleAlternativeMode` | src/components/MapComponent.jsx:56 | "Alt 1" is not optimal |
| `MapComponent.LowerCaseNotOptimal` | src/components/MapComponent.jsx:56 | the match is case-sensitive: "optimal route" is not optimal |
| `MapComponent.StyleIffClass` | src/components/MapComponent.jsx:61-65 | two routes get the same style exactly when both or neither are optimal |
| `MapComponent.OptimalStandsOut` | src/components/MapComponent.jsx:62-64 | an optimal route is drawn in a different colour, heavier and more opaque than any other route |
| `MapComponent.PolylinesPerRoute` | src/components/MapComponent.jsx:55-74 | one polyline per route in list order; polyline i has key i and route i's positions, and it gets the optimal style exactly when route i is optimal |
| `MapComponent.PolylineStylesFollowModes` | src/components/MapComponent.jsx:55-65 | route lists whose modes agree position by position get the same styles |
| `MapComponent.StopMarkersFromSound` | src/components/MapComponent.jsx:48-52 | every stop marker is "Stop k" for a row k that has a location, and it stands at that row's location with its name |
| `MapComponent.StopMarkersFromComplete` | src/components/MapComponent.jsx:48-52 | every row k that has a location gets the marker "Stop k+1" |
| `MapComponent.StopMarkersFromIncreasing` | src/components/MapComponent.jsx:48-52 | stop numbers strictly increase along the list, so they may skip but never repeat |
| `MapComponent.StopMarkersMatchPayload` | src/components/MapComponent.jsx:48-52 | the stop markers match the payload's stops one for one, in order, by coordinates and name |
| `MapComponent.StopNumbersSkip` | src/components/MapComponent.jsx:50 | an empty row followed by a located row gives only "Stop 2" |
| `MapComponent.Render` | src/components/MapComponent.jsx:33-74 | a start (end) marker is drawn exactly when start (end) is set; there are as many polylines as routes |
| `MapComponent.EmptyViewDrawsNothing` | src/components/MapComponent.jsx:33-74 | the initial request with no routes draws no marker and no polyline |
| `RouteAnimator.InitialPosition` | src/components/RouteAnimator.jsx:16-18 | the first coordinate when the list is non-empty, otherwise none |
| `RouteAnimator.Advance` | src/components/RouteAnimator.jsx:33-51 | one frame moves the cursor by `speed` = 1, stops exactly when the cursor reaches the length, and always shows a coordinate of the route |
| `RouteAnimator.TraceShape` | src/components/RouteAnimator.jsx:35-51 | a loop started at cursor i runs N − i frames (one frame if i ≥ N); frame k reaches cursor i + k + 1; only the last frame stops, and it shows the last coordinate |
| `RouteAnimator.TracePositions` | src/components/RouteAnimator.jsx:38-46 | every position a frame shows is a coordinate of the route: the one at its cursor while running, or the last one |
| `RouteAnimator.Animator.AtMostOnePending` | src/components/RouteAnimator.jsx:43-58 | in every reachable state at most one frame is pending, and it is the one `requestRef` names |
| `RouteAnimator.Animator.constructor` | src/components/RouteAnimator.jsx:14-21 | at mount the position comes from the first props, the cursor is 0, and nothing is pending |
| `RouteAnimator.Animator.RequestFrame` | src/components/RouteAnimator.jsx:43 | a frame is queued under a new handle |
| `RouteAnimator.Animator.CancelFrame` | src/components/RouteAnimator.jsx:26 | the frame with that handle leaves the queue; an undefined or spent handle changes nothing |
| `RouteAnimator.Animator.Effect` | src/components/RouteAnimator.jsx:23-59 | when not playing or without coordinates, nothing is pending and position and cursor are unchanged; otherwise exactly one new frame is pending for a loop over the new coordinates |
| `RouteAnimator.Animator.Cleanup` | src/components/RouteAnimator.jsx:58 | no frame is pending afterwards, and position and cursor are unchanged |
| `RouteAnimator.Animator.Tick` | src/components/RouteAnimator.jsx:31-52 | with no frame pending nothing happens; otherwise the state follows `Advance`: while in bounds the coordinate is shown and exactly one next frame is queued; at the end the last coordinate is shown, nothing is queued, and the end is notified once if a callback was given |
| `RouteAnimator.Animator.RunFrames` | src/components/RouteAnimator.jsx:31-55 | the frames run are exactly `Trace` of the starting cursor; the marker ends on the last coordinate and the end is notified once |
| `RouteAnimator.PlayFromMount` | src/components/RouteAnimator.jsx:21-51 | from mount, N ≥ 1 coordinates play in exactly N frames, end on the last coordinate and notify once |
| `RouteAnimator.ReplayAfterEnd` | src/components/RouteAnimator.jsx:21-51 | playing again after the end stops on the first frame and notifies the end a second time, because the cursor is not reset |
| `RouteAnimator.SwitchRouteMidway` | src/components/RouteAnimator.jsx:55-58 | switching routes mid-loop leaves exactly one frame pending, and the cursor carries on from where it was |
| `RouteAnimator.StoppedOrEmptyIsIdle` | src/components/RouteAnimator.jsx:16-28 | when not playing, or with an absent or empty list, no frame runs and the marker stays at its initial position (none for an empty list) |

## Left out

- `src/components/TestMap.jsx` is a static demo map with no logic.
- Leaflet and react-leaflet rendering, the marker icons, the tile layer, the map centre and zoom, and the JSX layout are not modelled. They are rendering primitives. The model keeps only the data handed to them: positions, styles and marker contents.
- Popup text is modelled as its parts (role, stop number, location name), not as a formatted string. The route popup shows minutes and CO2 through floating-point `toFixed`, which is not modelled.
- The POST itself, `alert` and `console.error` are not modelled, because they are network and I/O. The outcome of the call is a parameter of `FinishOptimize` and `HandleOptimize`: the routes received, or `None` for a failure.
- `parseFloat` of the traffic factor and the weight, and the slider storing its value as a string, are not modelled. Both values are `real` and are copied unchanged. Latitudes and longitudes are `real` values that are only copied.
- `parseInt` of a select value is a parameter `Option<int>`. `None` stands for a value that does not parse, such as the empty "-- Select --" option.
- The stop row id comes from `Date.now()`, so it need not be unique. It is a parameter of `AddStop`, and the lemmas that depend on uniqueness say so in their `requires`.
- `handleStopChange` and the slider handler read `request` from the render's closure, not from the setter's `prev`. Handlers run one after another here, so both see the same request, and a stale closure cannot be shown.
- The disabled state of the submit button while `loading` is true is markup, not part of `handleOptimize`. The model's `HandleOptimize` does not check `loading`, as the handler does not.
- Real `requestAnimationFrame` timing and React's effect scheduling are not modelled. React's rule that a registered cleanup runs before the effect runs again is the `requires !cleanup` of `Animator.Effect`. `Cleanup` is the call React makes for it.
- The dependency check that decides when React re-runs the effect is left to the caller. Each `Effect` call stands for one re-run.

