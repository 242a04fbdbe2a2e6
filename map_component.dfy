/**
 * The map view's derived data: the coordinate lists, styles and markers it
 * hands to the map library. Rendering itself is not modelled; every member
 * here is a pure function of the routes and the trip request.
 */
module MapComponent {
  import opened Wrappers
  import opened Seqs
  import opened Trip
  import RouteBuilder

  /** A `[lat, lon]` pair as the map library takes it. */
  datatype LatLng = LatLng(lat: Coord, lon: Coord)

  /** A polyline's `pathOptions`; the opacity is kept as an integer percentage. */
  datatype PathOptions = PathOptions(color: string, weight: nat, opacityPercent: nat)

  /** One polyline per route: its React key (the route's index), geometry and style. */
  datatype Polyline = Polyline(key: nat, positions: seq<LatLng>, style: PathOptions)

  /** What a marker's popup says. */
  datatype Popup =
    | StartPopup(name: string)        // "Start: <name>"
    | EndPopup(name: string)          // "End: <name>"
    | StopPopup(number: nat, name: string)  // "Stop <number>: <name>"

  datatype Marker = Marker(position: LatLng, popup: Popup)

  /** Everything the view overlays on the base map. */
  datatype Overlay = Overlay(
    start: Option<Marker>,
    end: Option<Marker>,
    stops: seq<Marker>,
    lines: seq<Polyline>)

  // ---------------------------------------------------------------------------
  // Geometry

  /** A route's point sequence as map coordinates; an absent sequence gives none. */
  function GetPositions(sequence: Option<seq<Point>>): seq<LatLng> {
    match sequence
    case None => []
    case Some(points) => seq(|points|, i requires 0 <= i < |points| => LatLng(points[i].lat, points[i].lon))
  }

  /** The points a coordinate list stands for (the inverse of `GetPositions`). */
  function PointsOf(positions: seq<LatLng>): seq<Point> {
    seq(|positions|, i requires 0 <= i < |positions| => Point(positions[i].lat, positions[i].lon))
  }

  /** `GetPositions` keeps length, order and every coordinate: the points can be read back. */
  lemma GetPositionsRoundTrip(points: seq<Point>)
    ensures |GetPositions(Some(points))| == |points|
    ensures PointsOf(GetPositions(Some(points))) == points
  {
  }

  /** An absent or empty sequence draws nothing. */
  lemma GetPositionsEmpty(sequence: Option<seq<Point>>)
    ensures GetPositions(sequence) == [] <==> sequence.None? || sequence.value == []
  {
    if sequence.Some? && sequence.value != [] {
      assert GetPositions(sequence)[0] == LatLng(sequence.value[0].lat, sequence.value[0].lon);
    }
  }

  /** `GetPositions` distributes over concatenation of point sequences. */
  lemma GetPositionsConcat(a: seq<Point>, b: seq<Point>)
    ensures GetPositions(Some(a + b)) == GetPositions(Some(a)) + GetPositions(Some(b))
  {
  }

  // ---------------------------------------------------------------------------
  // Optimal classification

  /** `sub` occurs in `s` starting at index `i`. */
  predicate OccursAt(s: string, sub: string, i: nat) {
    i + |sub| <= |s| && s[i..i + |sub|] == sub
  }

  /** `String.prototype.includes`: scan `s` from the left for `sub`. */
  function Includes(s: string, sub: string): bool
    decreases |s|
  {
    if |sub| > |s| then false
    else if s[..|sub|] == sub then true
    else Includes(s[1..], sub)
  }

  /** The scan finds `sub` exactly when `sub` occurs somewhere in `s`. */
  lemma {:induction false} IncludesIff(s: string, sub: string)
    ensures Includes(s, sub) <==> exists i: nat :: OccursAt(s, sub, i)
    decreases |s|
  {
    if |sub| > |s| {
      forall i: nat ensures !OccursAt(s, sub, i) { }
    } else if s[..|sub|] == sub {
      assert OccursAt(s, sub, 0);
    } else {
      IncludesIff(s[1..], sub);
      if exists i: nat :: OccursAt(s[1..], sub, i) {
        var i: nat :| OccursAt(s[1..], sub, i);
        assert s[i + 1..i + 1 + |sub|] == s[1..][i..i + |sub|];
        assert OccursAt(s, sub, i + 1);
      }
      if exists i: nat :: OccursAt(s, sub, i) {
        var i: nat :| OccursAt(s, sub, i);
        assert i != 0;
        assert s[1..][i - 1..i - 1 + |sub|] == s[i..i + |sub|];
        assert OccursAt(s[1..], sub, i - 1);
      }
    }
  }

  /** The marker a route's mode must contain to be drawn as the optimal route. */
  const OptimalMarker: string := "Optimal"

  /** A route is drawn as optimal exactly when its mode contains "Optimal". */
  predicate IsOptimal(mode: string) {
    Includes(mode, OptimalMarker)
  }

  /** "Optimal" anywhere in the mode, with any text around it, classes the route optimal. */
  lemma OptimalAnywhere(prefix: string, suffix: string)
    ensures IsOptimal(prefix + OptimalMarker + suffix)
  {
    var mode := prefix + OptimalMarker + suffix;
    assert mode[|prefix|..|prefix| + |OptimalMarker|] == OptimalMarker;
    assert OccursAt(mode, OptimalMarker, |prefix|);
    IncludesIff(mode, OptimalMarker);
  }

  /** A mode shorter than "Optimal" never classes the route optimal. */
  lemma ShortModeNotOptimal(mode: string)
    requires |mode| < |OptimalMarker|
    ensures !IsOptimal(mode)
  {
  }

  /** The optimal sample mode of the service: "Optimal Route". */
  lemma SampleOptimalMode()
    ensures IsOptimal("Optimal Route")
  {
    OptimalAnywhere("", " Route");
    assert "" + OptimalMarker + " Route" == "Optimal Route";
  }

  /** The alternative sample mode "Alt 1" is not optimal. */
  lemma SampleAlternativeMode()
    ensures !IsOptimal("Alt 1")
  {
    ShortModeNotOptimal("Alt 1");
  }

  /** The match is case-sensitive: a lower-case "optimal" does not class a route optimal. */
  lemma LowerCaseNotOptimal()
    ensures !IsOptimal("optimal route")
  {
    var mode := "optimal route";
    forall i: nat ensures !OccursAt(mode, OptimalMarker, i) {
      if i + |OptimalMarker| <= |mode| {
        assert mode[i..i + |OptimalMarker|][0] == mode[i];
        assert mode[i] != 'O';
      }
    }
    IncludesIff(mode, OptimalMarker);
  }

  // ---------------------------------------------------------------------------
  // Styles and polylines

  const OptimalStyle: PathOptions := PathOptions("#007bff", 6, 90)
  const AlternativeStyle: PathOptions := PathOptions("#6c757d", 4, 50)

  /** The `pathOptions` of a route with the given mode. */
  function StyleFor(mode: string): PathOptions {
    if IsOptimal(mode) then OptimalStyle else AlternativeStyle
  }

  /** Two routes share a style exactly when they share their classification. */
  lemma StyleIffClass(a: string, b: string)
    ensures StyleFor(a) == StyleFor(b) <==> (IsOptimal(a) <==> IsOptimal(b))
  {
  }

  /** An optimal route is always drawn heavier and more opaque than any other route. */
  lemma OptimalStandsOut(a: string, b: string)
    requires IsOptimal(a) && !IsOptimal(b)
    ensures StyleFor(a).weight > StyleFor(b).weight
    ensures StyleFor(a).opacityPercent > StyleFor(b).opacityPercent
    ensures StyleFor(a).color != StyleFor(b).color
  {
  }

  /** The polylines for a route list, one per route, in order. */
  function Polylines(routes: seq<Route>): seq<Polyline> {
    seq(|routes|, i requires 0 <= i < |routes| =>
      Polyline(i, GetPositions(routes[i].routeSequence), StyleFor(routes[i].mode)))
  }

  /** Polyline i belongs to route i; its style depends on that route's mode alone. */
  lemma PolylinesPerRoute(routes: seq<Route>)
    ensures |Polylines(routes)| == |routes|
    ensures forall i :: 0 <= i < |routes| ==>
      && Polylines(routes)[i].key == i
      && Polylines(routes)[i].positions == GetPositions(routes[i].routeSequence)
      && (Polylines(routes)[i].style == OptimalStyle <==> IsOptimal(routes[i].mode))
  {
  }

  /** Two route lists whose modes agree position by position are drawn with the same styles. */
  lemma PolylineStylesFollowModes(a: seq<Route>, b: seq<Route>)
    requires |a| == |b|
    requires forall i :: 0 <= i < |a| ==> a[i].mode == b[i].mode
    ensures forall i :: 0 <= i < |a| ==> Polylines(a)[i].style == Polylines(b)[i].style
  {
  }

  // ---------------------------------------------------------------------------
  // Markers

  function StartMarker(req: TripRequest): (m: Option<Marker>) {
    match req.start
    case None => None
    case Some(l) => Some(Marker(LatLng(l.lat, l.lon), StartPopup(l.name)))
  }

  function EndMarker(req: TripRequest): (m: Option<Marker>) {
    match req.end
    case None => None
    case Some(l) => Some(Marker(LatLng(l.lat, l.lon), EndPopup(l.name)))
  }

  /** The stop marker for row number `number` (1-based) at location `l`. */
  function StopMarker(number: nat, l: Location): Marker {
    Marker(LatLng(l.lat, l.lon), StopPopup(number, l.name))
  }

  /** The markers of rows `i..` of `stops`: one per located row, numbered by its place in the full list. */
  function StopMarkersFrom(stops: seq<Stop>, i: nat): seq<Marker>
    requires i <= |stops|
    decreases |stops| - i
  {
    if i == |stops| then []
    else
      match stops[i].location
      case None => StopMarkersFrom(stops, i + 1)
      case Some(l) => [StopMarker(i + 1, l)] + StopMarkersFrom(stops, i + 1)
  }

  function StopMarkers(stops: seq<Stop>): seq<Marker> {
    StopMarkersFrom(stops, 0)
  }

  /** Every stop marker is "Stop k" for a located row k (1-based) and shows that row's location. */
  lemma {:induction false} StopMarkersFromSound(stops: seq<Stop>, i: nat)
    requires i <= |stops|
    ensures forall m :: m in StopMarkersFrom(stops, i) ==>
      && m.popup.StopPopup?
      && i < m.popup.number <= |stops|
      && stops[m.popup.number - 1].location.Some?
      && m == StopMarker(m.popup.number, stops[m.popup.number - 1].location.value)
    decreases |stops| - i
  {
    if i < |stops| {
      StopMarkersFromSound(stops, i + 1);
    }
  }

  /** Every located row k (0-based) has the marker "Stop k+1". */
  lemma {:induction false} StopMarkersFromComplete(stops: seq<Stop>, i: nat, k: nat)
    requires i <= k < |stops| && stops[k].location.Some?
    ensures StopMarker(k + 1, stops[k].location.value) in StopMarkersFrom(stops, i)
    decreases k - i
  {
    if i < k {
      StopMarkersFromComplete(stops, i + 1, k);
    }
  }

  /** Stop marker numbers strictly increase along the list, so they may skip but never repeat. */
  lemma {:induction false} StopMarkersFromIncreasing(stops: seq<Stop>, i: nat)
    requires i <= |stops|
    ensures forall a, b :: 0 <= a < b < |StopMarkersFrom(stops, i)| ==>
      && StopMarkersFrom(stops, i)[a].popup.StopPopup?
      && StopMarkersFrom(stops, i)[b].popup.StopPopup?
      && StopMarkersFrom(stops, i)[a].popup.number < StopMarkersFrom(stops, i)[b].popup.number
    decreases |stops| - i
  {
    if i < |stops| {
      StopMarkersFromIncreasing(stops, i + 1);
      StopMarkersFromSound(stops, i + 1);
      var rest := StopMarkersFrom(stops, i + 1);
      var ms := StopMarkersFrom(stops, i);
      forall a, b | 0 <= a < b < |ms|
        ensures ms[a].popup.StopPopup? && ms[b].popup.StopPopup? && ms[a].popup.number < ms[b].popup.number
      {
        if stops[i].location.Some? {
          assert ms == [StopMarker(i + 1, stops[i].location.value)] + rest;
          assert ms[b] == rest[b - 1];
          assert rest[b - 1] in rest;
          if a > 0 {
            assert ms[a] == rest[a - 1];
          }
        } else {
          assert ms == rest;
        }
      }
    } else {
      assert StopMarkersFrom(stops, i) == [];
    }
  }

  /** Marker `m` stands at payload stop `p` and shows its name. */
  predicate ShowsStop(m: Marker, p: RouteBuilder.PayloadStop) {
    m.position == LatLng(p.latitude, p.longitude) && m.popup.name == p.name
  }

  /** The stop markers stand at the payload's stops, one for one and in the same order. */
  lemma {:induction false} StopMarkersMatchPayload(stops: seq<Stop>, i: nat)
    requires i <= |stops|
    ensures |StopMarkersFrom(stops, i)| == |RouteBuilder.PayloadStops(stops[i..])|
    ensures forall k :: 0 <= k < |StopMarkersFrom(stops, i)| ==>
      ShowsStop(StopMarkersFrom(stops, i)[k], RouteBuilder.PayloadStops(stops[i..])[k])
    decreases |stops| - i
  {
    if i == |stops| {
      RouteBuilder.PayloadStopsNoneLocated(stops[i..]);
      assert StopMarkersFrom(stops, i) == [];
    } else {
      StopMarkersMatchPayload(stops, i + 1);
      var ms, rest := StopMarkersFrom(stops, i), StopMarkersFrom(stops, i + 1);
      var ps, tail := RouteBuilder.PayloadStops(stops[i..]), RouteBuilder.PayloadStops(stops[i + 1..]);
      assert stops[i..] == [stops[i]] + stops[i + 1..];
      RouteBuilder.PayloadStopsConcat([stops[i]], stops[i + 1..]);
      if stops[i].location.Some? {
        RouteBuilder.PayloadStopsAllLocated([stops[i]]);
        var l := stops[i].location.value;
        assert ps == [RouteBuilder.ToPayloadStop(l)] + tail;
        assert ms == [StopMarker(i + 1, l)] + rest;
        forall k | 0 <= k < |ms| ensures ShowsStop(ms[k], ps[k]) {
          if k > 0 {
            assert ms[k] == rest[k - 1] && ps[k] == tail[k - 1];
          }
        }
      } else {
        RouteBuilder.PayloadStopsNoneLocated([stops[i]]);
        assert ps == tail;
        assert ms == rest;
      }
    }
  }

  /** An empty row before a located one makes the label skip: rows (empty, A) give only "Stop 2". */
  lemma StopNumbersSkip(a: Location, i1: int, i2: int)
    ensures StopMarkers([Stop(i1, None), Stop(i2, Some(a))]) == [StopMarker(2, a)]
  {
    var rows := [Stop(i1, None), Stop(i2, Some(a))];
    assert StopMarkersFrom(rows, 2) == [];
    assert StopMarkersFrom(rows, 1) == [StopMarker(2, a)];
  }

  // ---------------------------------------------------------------------------
  // The whole overlay

  /** What the map view draws for the given routes and request. */
  function Render(routes: seq<Route>, req: TripRequest): (o: Overlay)
    ensures o.start.Some? <==> req.start.Some?
    ensures o.end.Some? <==> req.end.Some?
    ensures |o.lines| == |routes|
  {
    Overlay(StartMarker(req), EndMarker(req), StopMarkers(req.stops), Polylines(routes))
  }

  /** The initial request with no routes draws nothing at all. */
  lemma EmptyViewDrawsNothing()
    ensures Render([], RouteBuilder.InitialRequest) == Overlay(None, None, [], [])
  {
  }
}
