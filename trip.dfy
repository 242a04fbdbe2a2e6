/**
 * The data the route planner passes between its components: saved locations,
 * the trip request being composed, and the route candidates the optimisation
 * service returns.
 */
module Trip {
  import opened Wrappers

  /** A latitude or longitude in degrees. The front end only copies these values. */
  type Coord = real

  /** A point of a route's geometry (`route_sequence` element). */
  datatype Point = Point(lat: Coord, lon: Coord)

  /** An entry of the saved-location table. */
  datatype Location = Location(id: int, name: string, lat: Coord, lon: Coord)

  /** A stop row of the request; `location` is `None` until the user picks one. */
  datatype Stop = Stop(id: int, location: Option<Location>)

  /** The trip request being composed in the sidebar. */
  datatype TripRequest = TripRequest(
    start: Option<Location>,
    end: Option<Location>,
    stops: seq<Stop>,
    trafficFactor: real,
    weightKg: real)

  /** One route candidate returned by the optimisation service. */
  datatype Route = Route(
    mode: string,
    routeSequence: Option<seq<Point>>,
    timeSeconds: real,
    co2Emissions: real)

  /** The fixed table of saved locations the three selects offer. */
  const SavedLocations: seq<Location> := [
    Location(1, "Colombo Fort (Station)", 6.9344, 79.8428),
    Location(2, "Town Hall", 6.9147, 79.8633),
    Location(3, "Borella Junction", 6.9122, 79.8829),
    Location(4, "Rajagiriya", 6.9090, 79.8967),
    Location(5, "Malabe SLIIT", 6.9061, 79.9647)
  ]

  /** No two entries of `table` share an id. */
  predicate UniqueIds(table: seq<Location>) {
    forall i, j :: 0 <= i < j < |table| ==> table[i].id != table[j].id
  }

  /** The first entry of `table` whose id is `id`, as `Array.prototype.find` returns it. */
  function FindById(table: seq<Location>, id: int): (r: Option<Location>)
    ensures r.Some? ==> r.value in table && r.value.id == id
    ensures r.None? <==> forall l :: l in table ==> l.id != id
  {
    if table == [] then None
    else if table[0].id == id then Some(table[0])
    else FindById(table[1..], id)
  }

  /** `find` returns the entry at the first position holding that id. */
  lemma {:induction false} FindByIdFirst(table: seq<Location>, id: int, k: nat)
    requires k < |table| && table[k].id == id
    requires forall j :: 0 <= j < k ==> table[j].id != id
    ensures FindById(table, id) == Some(table[k])
  {
    if k > 0 {
      FindByIdFirst(table[1..], id, k - 1);
    }
  }

  /** In a table with unique ids, looking up an entry's id yields that entry. */
  lemma FindByIdUnique(table: seq<Location>, k: nat)
    requires UniqueIds(table) && k < |table|
    ensures FindById(table, table[k].id) == Some(table[k])
  {
    FindByIdFirst(table, table[k].id, k);
  }

  /**
   * The location a select's value designates: the value is parsed as an integer
   * (`None` when it does not parse, as for the empty "-- Select --" option) and
   * looked up in the saved-location table.
   */
  function Lookup(parsed: Option<int>): (r: Option<Location>)
    ensures r.Some? ==> parsed == Some(r.value.id) && r.value in SavedLocations
    ensures parsed.None? ==> r.None?
  {
    match parsed
    case None => None
    case Some(k) => FindById(SavedLocations, k)
  }

  /** The saved locations carry the ids 1 to 5, in that order. */
  lemma SavedIds()
    ensures |SavedLocations| == 5
    ensures forall i :: 0 <= i < |SavedLocations| ==> SavedLocations[i].id == i + 1
  {
  }

  /** Each saved location is found by its own id, and ids outside the table find nothing. */
  lemma LookupSaved(k: int)
    ensures Lookup(Some(k)).Some? <==> 1 <= k <= 5
    ensures forall i :: 0 <= i < |SavedLocations| ==> Lookup(Some(SavedLocations[i].id)) == Some(SavedLocations[i])
  {
    SavedIds();
    assert UniqueIds(SavedLocations);
    forall i | 0 <= i < |SavedLocations|
      ensures Lookup(Some(SavedLocations[i].id)) == Some(SavedLocations[i])
    {
      FindByIdUnique(SavedLocations, i);
    }
    if 1 <= k <= 5 {
      assert SavedLocations[k - 1].id == k;
    } else {
      forall l | l in SavedLocations ensures l.id != k {
        var i :| 0 <= i < |SavedLocations| && SavedLocations[i] == l;
      }
    }
  }
}
