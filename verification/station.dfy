/** The newer station object: a name, a location and an optional route fixed at construction,
    a closed flag, and two independent tables of neighbours (adjacent stations and transfer
    stations), each neighbour carrying a piece of data. */
module Stations {
  import opened Base
  import opened Lines
  import opened Geo

  /** What `__eq__` compares: name, location and route. A dictionary of stations is keyed by
      this triple. */
  datatype StationKey = StationKey(name: string, location: Location, route: Option<string>) {

    /** The hash uses the name and the location only. */
    function Hash(): (string, Location) { (name, location) }

    /** `==` against any object: unequal to `None` and to a value of another class. */
    function Equals(other: Arg<StationKey>): (r: bool)
      ensures r <==> other == Given(this)
      ensures r ==> other.value.Hash() == Hash()
    {
      other.Given? && other.value.name == name && other.value.location == location
      && other.value.route == route
    }

    /** `route:name`, with a missing route written "None". */
    function Id(): (id: string)
      ensures id == JoinId(RouteText(route), name)
      ensures route.Some? ==> id[..|route.value|] == route.value
      ensures route.None? ==> id[..4] == "None"
    {
      JoinId(RouteText(route), name)
    }
  }

  /** How an f-string prints an optional route. */
  function RouteText(route: Option<string>): (s: string)
    ensures route.Some? ==> s == route.value
    ensures route.None? ==> s == "None"
  {
    if route.Some? then route.value else "None"
  }

  /** Two stations that differ only in their route are unequal, yet hash alike: a dictionary
      keeps them apart only through `==`. */
  lemma HashIgnoresRoute(a: StationKey, r: Option<string>)
    requires r != a.route
    ensures !a.Equals(Given(a.(route := r)))
    ensures a.(route := r).Hash() == a.Hash()
  {
  }

  /** The identifier ignores the location: stations at two places share it. */
  lemma IdIgnoresLocation(a: StationKey, l: Location)
    requires l != a.location
    ensures a.(location := l).Id() == a.Id()
    ensures !a.Equals(Given(a.(location := l)))
  {
  }

  /** A missing route and the route "None" print alike. */
  lemma MissingRoutePrintsAsNone(name: string, location: Location)
    ensures StationKey(name, location, None).Id() == StationKey(name, location, Some("None")).Id()
  {
  }

  /** With colon-free routes, the identifier determines route and name. */
  lemma {:induction false} IdDeterminesRouteAndName(a: StationKey, b: StationKey)
    requires ':' !in RouteText(a.route) && ':' !in RouteText(b.route)
    requires a.Id() == b.Id()
    ensures RouteText(a.route) == RouteText(b.route) && a.name == b.name
  {
    JoinIdInjective(RouteText(a.route), a.name, RouteText(b.route), b.name);
  }

  /** The constructor's checks, in order: the name (given, a string, not empty), the location
      (given and a Location), the route (absent or a string). */
  function CheckStation(name: Arg<string>, location: Arg<Location>, route: Arg<string>): (r: Outcome)
    ensures r.Pass? <==> name.Given? && |name.value| > 0 && location.Given? && !route.WrongType?
    ensures name.Null? ==> r == Fail("Name cannot be None")
    ensures name.Given? && name.value == "" ==> r == Fail("Name cannot be empty")
  {
    match name
    case Null => Fail("Name cannot be None")
    case WrongType => Fail("Name must be a string")
    case Given(n) =>
      if |n| == 0 then Fail("Name cannot be empty")
      else
        match location
        case Null => Fail("Location cannot be None")
        case WrongType => Fail("Location must be a Location object")
        case Given(_) =>
          if route.WrongType? then Fail("Route must be a non-empty string") else Pass
  }

  /** The check every neighbour operation makes first: the neighbour is given, is a station,
      and is not equal to this station. */
  function CheckNeighbour(self: StationKey, station: Arg<StationKey>): (r: Outcome)
    ensures r.Pass? <==> station.Given? && station.value != self
    ensures station.Given? && station.value == self ==> r == Fail("Station cannot be adjacent to itself")
  {
    match station
    case Null => Fail("Station cannot be None")
    case WrongType => Fail("Station must be a Station object")
    case Given(s) => if s.Equals(Given(self)) then Fail("Station cannot be adjacent to itself") else Pass
  }

  /** What `dict.get` gives: the stored data, or nothing for a neighbour never added. */
  function Lookup<D>(table: map<StationKey, Option<D>>, station: StationKey): (r: Option<D>)
    ensures station !in table ==> r.None?
    ensures station in table ==> r == table[station]
  {
    if station in table then table[station] else None
  }

  /** A station object with adjacency data of type `A` and transfer data of type `T`; the data
      of a neighbour may be absent (`None`). */
  class Station<A, T> {
    const name: string
    const location: Location
    const route: Option<string>
    var closed: bool
    var adjacent: map<StationKey, Option<A>>
    var transfers: map<StationKey, Option<T>>

    function Key(): StationKey
    {
      StationKey(name, location, route)
    }

    /** Neither table ever lists the station itself. */
    ghost predicate Valid()
      reads this
    {
      Key() !in adjacent && Key() !in transfers
    }

    /** A new station is open and has no neighbours. */
    constructor(name: string, location: Location, route: Option<string>)
      requires CheckStation(Given(name), Given(location), if route.Some? then Given(route.value) else Null).Pass?
      ensures Valid()
      ensures this.name == name && this.location == location && this.route == route
      ensures !closed && adjacent == map[] && transfers == map[]
    {
      this.name := name;
      this.location := location;
      this.route := route;
      closed := false;
      adjacent := map[];
      transfers := map[];
    }

    method SetClosed(closed: Arg<bool>) returns (r: Outcome)
      modifies this`closed
      ensures r.Pass? <==> closed.Given?
      ensures r.Pass? ==> this.closed == closed.value
      ensures r.Fail? ==> this.closed == old(this.closed)
    {
      if closed.Null? {
        return Fail("Closed cannot be None");
      }
      if closed.WrongType? {
        return Fail("Closed must be a boolean");
      }
      this.closed := closed.value;
      r := Pass;
    }

    method IsClosed() returns (b: bool)
      ensures b == closed
    {
      b := closed;
    }

    /** Sets the data of a transfer neighbour, replacing what an earlier call stored. */
    method AddTransferStation(station: Arg<StationKey>, data: Option<T>) returns (r: Outcome)
      requires Valid()
      modifies this`transfers
      ensures Valid()
      ensures r == CheckNeighbour(Key(), station)
      ensures r.Pass? ==> transfers == old(transfers)[station.value := data]
      ensures r.Fail? ==> transfers == old(transfers)
      ensures adjacent == old(adjacent)
    {
      r := CheckNeighbour(Key(), station);
      if r.Pass? {
        transfers := transfers[station.value := data];
      }
    }

    /** Drops a transfer neighbour; dropping one that is not there changes nothing. */
    method RemoveTransferStation(station: Arg<StationKey>) returns (r: Outcome)
      requires Valid()
      modifies this`transfers
      ensures Valid()
      ensures r == CheckNeighbour(Key(), station)
      ensures r.Pass? ==> transfers == old(transfers) - {station.value} && station.value !in transfers
      ensures r.Pass? && station.value !in old(transfers) ==> transfers == old(transfers)
      ensures r.Fail? ==> transfers == old(transfers)
      ensures adjacent == old(adjacent)
    {
      r := CheckNeighbour(Key(), station);
      if r.Pass? {
        transfers := transfers - {station.value};
      }
    }

    method GetTransferData(station: Arg<StationKey>) returns (r: Result<Option<T>>)
      ensures r.Ok? <==> CheckNeighbour(Key(), station).Pass?
      ensures r.Ok? && station.value !in transfers ==> r.value.None?
      ensures r.Ok? && station.value in transfers ==> r.value == transfers[station.value]
      ensures r.Err? ==> r.msg == CheckNeighbour(Key(), station).msg
    {
      var check := CheckNeighbour(Key(), station);
      if check.Fail? {
        return Err(check.msg);
      }
      r := Ok(Lookup(transfers, station.value));
    }

    /** Sets the data of an adjacent neighbour, replacing what an earlier call stored. */
    method AddAdjacentStation(station: Arg<StationKey>, data: Option<A>) returns (r: Outcome)
      requires Valid()
      modifies this`adjacent
      ensures Valid()
      ensures r == CheckNeighbour(Key(), station)
      ensures r.Pass? ==> adjacent == old(adjacent)[station.value := data]
      ensures r.Fail? ==> adjacent == old(adjacent)
      ensures transfers == old(transfers)
    {
      r := CheckNeighbour(Key(), station);
      if r.Pass? {
        adjacent := adjacent[station.value := data];
      }
    }

    /** Drops an adjacent neighbour; dropping one that is not there changes nothing. */
    method RemoveAdjacentStation(station: Arg<StationKey>) returns (r: Outcome)
      requires Valid()
      modifies this`adjacent
      ensures Valid()
      ensures r == CheckNeighbour(Key(), station)
      ensures r.Pass? ==> adjacent == old(adjacent) - {station.value} && station.value !in adjacent
      ensures r.Pass? && station.value !in old(adjacent) ==> adjacent == old(adjacent)
      ensures r.Fail? ==> adjacent == old(adjacent)
      ensures transfers == old(transfers)
    {
      r := CheckNeighbour(Key(), station);
      if r.Pass? {
        adjacent := adjacent - {station.value};
      }
    }

    method GetAdjacentData(station: Arg<StationKey>) returns (r: Result<Option<A>>)
      ensures r.Ok? <==> CheckNeighbour(Key(), station).Pass?
      ensures r.Ok? && station.value !in adjacent ==> r.value.None?
      ensures r.Ok? && station.value in adjacent ==> r.value == adjacent[station.value]
      ensures r.Err? ==> r.msg == CheckNeighbour(Key(), station).msg
    {
      var check := CheckNeighbour(Key(), station);
      if check.Fail? {
        return Err(check.msg);
      }
      r := Ok(Lookup(adjacent, station.value));
    }
  }

  /** `Station(name, location, route)`: the checks first, then a fresh open station. */
  method NewStation<A, T>(name: Arg<string>, location: Arg<Location>, route: Arg<string>)
    returns (r: Result<Station<A, T>>)
    ensures r.Ok? <==> CheckStation(name, location, route).Pass?
    ensures r.Ok? ==> fresh(r.value) && r.value.Valid() && !r.value.closed
    ensures r.Ok? ==> r.value.Key() == StationKey(name.value, location.value, if route.Given? then Some(route.value) else None)
    ensures r.Ok? ==> r.value.adjacent == map[] && r.value.transfers == map[]
  {
    var check := CheckStation(name, location, route);
    if check.Fail? {
      return Err(check.msg);
    }
    var s := new Station(name.value, location.value, if route.Given? then Some(route.value) else None);
    r := Ok(s);
  }
}
