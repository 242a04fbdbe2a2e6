/**
 * The request composer: the sidebar state (trip request, returned routes and
 * the busy flag), the edits the user makes to the request, and the payload
 * sent to the optimisation service.
 */
module RouteBuilder {
  import opened Wrappers
  import opened Seqs
  import opened Trip

  /** Which end of the trip a location select sets. */
  datatype Endpoint = StartPoint | EndPoint

  /** A stop as the optimisation service receives it. */
  datatype PayloadStop = PayloadStop(name: string, latitude: Coord, longitude: Coord)

  /** The JSON body posted to the optimisation endpoint. */
  datatype Payload = Payload(
    startLat: Coord, startLon: Coord, startName: string,
    endLat: Coord, endLon: Coord, endName: string,
    trafficFactor: real, weightKg: real,
    stops: seq<PayloadStop>)

  /** The request the composer starts with: nothing chosen, traffic 1.0, 50 kg. */
  const InitialRequest: TripRequest := TripRequest(None, None, [], 1.0, 50.0)

  /** The request with its start or end replaced by `loc`. */
  function WithEndpoint(req: TripRequest, which: Endpoint, loc: Option<Location>): TripRequest {
    match which
    case StartPoint => req.(start := loc)
    case EndPoint => req.(end := loc)
  }

  /** The stop rows after the row(s) with id `rowId` were given location `loc`. */
  function WithStopLocation(stops: seq<Stop>, rowId: int, loc: Option<Location>): seq<Stop> {
    seq(|stops|, i requires 0 <= i < |stops| =>
      if stops[i].id == rowId then stops[i].(location := loc) else stops[i])
  }

  /** The test `removeStop` filters with: keep the rows whose id is not `rowId`. */
  function OtherRow(rowId: int): Stop -> bool {
    (s: Stop) => s.id != rowId
  }

  /** The stop rows after removing every row with id `rowId`. */
  function WithoutRow(stops: seq<Stop>, rowId: int): seq<Stop> {
    Filter(stops, OtherRow(rowId))
  }

  /** A stop row takes part in the payload once a location was chosen for it. */
  predicate HasLocation(s: Stop) {
    s.location.Some?
  }

  /** The stop rows that have a location, in order. */
  function Located(stops: seq<Stop>): seq<Stop> {
    Filter(stops, HasLocation)
  }

  /** The service's view of a saved location used as a stop. */
  function ToPayloadStop(l: Location): PayloadStop {
    PayloadStop(l.name, l.lat, l.lon)
  }

  /** The payload's stop list: the located rows mapped to name and coordinates. */
  function PayloadStops(stops: seq<Stop>): seq<PayloadStop> {
    var located := Located(stops);
    seq(|located|, i requires 0 <= i < |located| =>
      assert located[i] in located;
      ToPayloadStop(located[i].location.value))
  }

  /**
   * The payload for a request, or `None` when start or end is not chosen
   * (the composer then alerts and sends nothing).
   */
  function BuildPayload(req: TripRequest): (r: Option<Payload>)
    ensures r.None? <==> req.start.None? || req.end.None?
    ensures r.Some? ==>
      && r.value.startLat == req.start.value.lat
      && r.value.startLon == req.start.value.lon
      && r.value.startName == req.start.value.name
      && r.value.endLat == req.end.value.lat
      && r.value.endLon == req.end.value.lon
      && r.value.endName == req.end.value.name
      && r.value.trafficFactor == req.trafficFactor
      && r.value.weightKg == req.weightKg
      && r.value.stops == PayloadStops(req.stops)
  {
    match (req.start, req.end)
    case (Some(s), Some(e)) =>
      Some(Payload(s.lat, s.lon, s.name, e.lat, e.lon, e.name,
                   req.trafficFactor, req.weightKg, PayloadStops(req.stops)))
    case _ => None
  }

  // ---------------------------------------------------------------------------
  // Properties of the stop-list edits

  /** `removeStop` keeps exactly the rows with another id. */
  lemma RemoveStopMembership(stops: seq<Stop>, rowId: int)
    ensures forall s :: s in WithoutRow(stops, rowId) <==> s in stops && s.id != rowId
  {
    FilterMembership(stops, OtherRow(rowId));
  }

  /** Removing an id no row has leaves the list unchanged. */
  lemma RemoveStopAbsent(stops: seq<Stop>, rowId: int)
    requires forall i :: 0 <= i < |stops| ==> stops[i].id != rowId
    ensures WithoutRow(stops, rowId) == stops
  {
    FilterAllKept(stops, OtherRow(rowId));
  }

  /** Removal keeps the relative order of the remaining rows: it distributes over concatenation. */
  lemma RemoveStopConcat(a: seq<Stop>, b: seq<Stop>, rowId: int)
    ensures WithoutRow(a + b, rowId) == WithoutRow(a, rowId) + WithoutRow(b, rowId)
  {
    FilterConcat(a, b, OtherRow(rowId));
  }

  /** Removing the same id twice is removing it once. */
  lemma RemoveStopIdempotent(stops: seq<Stop>, rowId: int)
    ensures WithoutRow(WithoutRow(stops, rowId), rowId) == WithoutRow(stops, rowId)
  {
    FilterIdempotent(stops, OtherRow(rowId));
  }

  /** Removing a freshly added row whose id no other row has restores the list. */
  lemma AddThenRemove(stops: seq<Stop>, id: int)
    requires forall i :: 0 <= i < |stops| ==> stops[i].id != id
    ensures WithoutRow(stops + [Stop(id, None)], id) == stops
  {
    RemoveStopConcat(stops, [Stop(id, None)], id);
    RemoveStopAbsent(stops, id);
    FilterNoneKept([Stop(id, None)], OtherRow(id));
  }

  /** Choosing a location for no existing row leaves the list unchanged. */
  lemma StopChangeAbsent(stops: seq<Stop>, rowId: int, loc: Option<Location>)
    requires forall i :: 0 <= i < |stops| ==> stops[i].id != rowId
    ensures WithStopLocation(stops, rowId, loc) == stops
  {
  }

  /** The last choice for a row wins. */
  lemma StopChangeLastWins(stops: seq<Stop>, rowId: int, a: Option<Location>, b: Option<Location>)
    ensures WithStopLocation(WithStopLocation(stops, rowId, a), rowId, b) == WithStopLocation(stops, rowId, b)
  {
  }

  /** Editing a row and then removing it is the same as removing it. */
  lemma {:induction false} StopChangeThenRemove(stops: seq<Stop>, rowId: int, loc: Option<Location>)
    ensures WithoutRow(WithStopLocation(stops, rowId, loc), rowId) == WithoutRow(stops, rowId)
  {
    if stops != [] {
      var edited := WithStopLocation(stops, rowId, loc);
      StopChangeThenRemove(stops[1..], rowId, loc);
      assert edited == [edited[0]] + WithStopLocation(stops[1..], rowId, loc);
      assert stops == [stops[0]] + stops[1..];
      RemoveStopConcat([edited[0]], WithStopLocation(stops[1..], rowId, loc), rowId);
      RemoveStopConcat([stops[0]], stops[1..], rowId);
    }
  }

  // ---------------------------------------------------------------------------
  // Properties of the payload

  /** Every payload stop comes from a located row, and every located row gives one. */
  lemma PayloadStopsMembership(stops: seq<Stop>)
    ensures forall p :: p in PayloadStops(stops) ==>
      exists s :: s in stops && s.location.Some? && p == ToPayloadStop(s.location.value)
    ensures forall s :: s in stops && s.location.Some? ==> ToPayloadStop(s.location.value) in PayloadStops(stops)
  {
    var located := Located(stops);
    FilterMembership(stops, HasLocation);
    forall p | p in PayloadStops(stops)
      ensures exists s :: s in stops && s.location.Some? && p == ToPayloadStop(s.location.value)
    {
      var i :| 0 <= i < |located| && PayloadStops(stops)[i] == p;
      assert located[i] in located;
    }
    forall s | s in stops && s.location.Some?
      ensures ToPayloadStop(s.location.value) in PayloadStops(stops)
    {
      assert s in located;
      var i :| 0 <= i < |located| && located[i] == s;
      assert PayloadStops(stops)[i] == ToPayloadStop(s.location.value);
    }
  }

  /** The payload keeps the order of the rows: it distributes over concatenation. */
  lemma PayloadStopsConcat(a: seq<Stop>, b: seq<Stop>)
    ensures PayloadStops(a + b) == PayloadStops(a) + PayloadStops(b)
  {
    FilterConcat(a, b, HasLocation);
  }

  /** When every row is located, payload stop i is row i's location. */
  lemma PayloadStopsAllLocated(stops: seq<Stop>)
    requires forall i :: 0 <= i < |stops| ==> stops[i].location.Some?
    ensures |PayloadStops(stops)| == |stops|
    ensures forall i :: 0 <= i < |stops| ==> PayloadStops(stops)[i] == ToPayloadStop(stops[i].location.value)
  {
    FilterAllKept(stops, HasLocation);
  }

  /** Rows without a location contribute nothing to the payload. */
  lemma PayloadStopsNoneLocated(stops: seq<Stop>)
    requires forall i :: 0 <= i < |stops| ==> stops[i].location.None?
    ensures PayloadStops(stops) == []
  {
    FilterNoneKept(stops, HasLocation);
  }

  /** A newly added (still empty) row does not change the payload. */
  lemma AddStopKeepsPayload(stops: seq<Stop>, id: int)
    ensures PayloadStops(stops + [Stop(id, None)]) == PayloadStops(stops)
  {
    PayloadStopsConcat(stops, [Stop(id, None)]);
    PayloadStopsNoneLocated([Stop(id, None)]);
  }

  /** Rows A, (empty), B serialise to exactly [A, B], in that order. */
  lemma PayloadKeepsOrder(a: Location, b: Location, ia: int, ib: int, ie: int)
    ensures PayloadStops([Stop(ia, Some(a)), Stop(ie, None), Stop(ib, Some(b))])
         == [ToPayloadStop(a), ToPayloadStop(b)]
  {
    var rows := [Stop(ia, Some(a)), Stop(ie, None), Stop(ib, Some(b))];
    assert rows == [Stop(ia, Some(a))] + [Stop(ie, None)] + [Stop(ib, Some(b))];
    PayloadStopsConcat([Stop(ia, Some(a))] + [Stop(ie, None)], [Stop(ib, Some(b))]);
    PayloadStopsConcat([Stop(ia, Some(a))], [Stop(ie, None)]);
    PayloadStopsAllLocated([Stop(ia, Some(a))]);
    PayloadStopsAllLocated([Stop(ib, Some(b))]);
    PayloadStopsNoneLocated([Stop(ie, None)]);
  }

  /** Choosing saved start and end locations yields a payload naming exactly those places. */
  lemma ChosenEndpointsReachPayload(req: TripRequest, s: int, e: int)
    requires 0 <= s < |SavedLocations| && 0 <= e < |SavedLocations|
    ensures var r := WithEndpoint(WithEndpoint(req, StartPoint, Lookup(Some(SavedLocations[s].id))),
                                  EndPoint, Lookup(Some(SavedLocations[e].id)));
            BuildPayload(r).Some? &&
            BuildPayload(r).value.startName == SavedLocations[s].name &&
            BuildPayload(r).value.endName == SavedLocations[e].name &&
            BuildPayload(r).value.stops == PayloadStops(req.stops)
  {
    LookupSaved(SavedLocations[s].id);
  }

  /** Resetting start or end to the empty option blocks submission. */
  lemma ClearedEndpointBlocksPayload(req: TripRequest, which: Endpoint)
    ensures BuildPayload(WithEndpoint(req, which, Lookup(None))).None?
  {
  }

  // ---------------------------------------------------------------------------
  // The component state

  /** The composer's state: the request, the routes last received, and the busy flag. */
  class Builder {
    var request: TripRequest
    var routes: seq<Route>
    var loading: bool

    constructor ()
      ensures request == InitialRequest && routes == [] && !loading
    {
      request := InitialRequest;
      routes := [];
      loading := false;
    }

    /** A start or end select changed to the option whose value parses to `id`. */
    method HandleLocationChange(which: Endpoint, id: Option<int>)
      modifies this
      ensures request == WithEndpoint(old(request), which, Lookup(id))
      ensures routes == old(routes) && loading == old(loading)
    {
      request := WithEndpoint(request, which, Lookup(id));
    }

    /** "+ Add": append an empty stop row; `id` stands for the `Date.now()` timestamp. */
    method AddStop(id: int)
      modifies this
      ensures request == old(request).(stops := old(request).stops + [Stop(id, None)])
      ensures routes == old(routes) && loading == old(loading)
    {
      request := request.(stops := request.stops + [Stop(id, None)]);
    }

    /** A stop row's select changed to the option whose value parses to `locId`. */
    method HandleStopChange(rowId: int, locId: Option<int>)
      modifies this
      ensures request == old(request).(stops := WithStopLocation(old(request).stops, rowId, Lookup(locId)))
      ensures |request.stops| == |old(request).stops|
      ensures forall i :: 0 <= i < |request.stops| ==>
        && request.stops[i].id == old(request).stops[i].id
        && (request.stops[i].id != rowId ==> request.stops[i] == old(request).stops[i])
        && (request.stops[i].id == rowId ==> request.stops[i].location == Lookup(locId))
      ensures routes == old(routes) && loading == old(loading)
    {
      request := request.(stops := WithStopLocation(request.stops, rowId, Lookup(locId)));
    }

    /** The "x" button of row `rowId`. */
    method RemoveStop(rowId: int)
      modifies this
      ensures request == old(request).(stops := WithoutRow(old(request).stops, rowId))
      ensures routes == old(routes) && loading == old(loading)
    {
      request := request.(stops := WithoutRow(request.stops, rowId));
    }

    /** The traffic slider moved to `value`. */
    method SetTrafficFactor(value: real)
      modifies this
      ensures request == old(request).(trafficFactor := value)
      ensures routes == old(routes) && loading == old(loading)
    {
      request := request.(trafficFactor := value);
    }

    /**
     * The synchronous part of "Visualize Route", up to the network call:
     * validation, then the busy flag and the payload.
     */
    method BeginOptimize() returns (payload: Option<Payload>)
      modifies this
      ensures payload == BuildPayload(old(request))
      ensures payload.None? ==> loading == old(loading)
      ensures payload.Some? ==> loading
      ensures request == old(request) && routes == old(routes)
    {
      if request.start.None? || request.end.None? {
        payload := None;
        return;
      }
      loading := true;
      payload := BuildPayload(request);
    }

    /**
     * The part after the network call: `response` is the routes received, or
     * `None` when the call failed (the error is only reported to the user).
     */
    method FinishOptimize(response: Option<seq<Route>>)
      modifies this
      ensures routes == (if response.Some? then response.value else old(routes))
      ensures !loading
      ensures request == old(request)
    {
      if response.Some? {
        routes := response.value;
      }
      loading := false;
    }

    /** "Visualize Route" end to end, with `response` the outcome of the network call. */
    method HandleOptimize(response: Option<seq<Route>>) returns (payload: Option<Payload>)
      modifies this
      ensures payload == BuildPayload(old(request))
      ensures payload.None? ==> routes == old(routes) && loading == old(loading)
      ensures payload.Some? ==> !loading && routes == (if response.Some? then response.value else old(routes))
      ensures request == old(request)
    {
      payload := BeginOptimize();
      if payload.Some? {
        FinishOptimize(response);
      }
    }
  }
}
