/** The registry of stations by line: one list per line, in the order the stations were added,
    with lookup by `line:name` identifier and a total count. */
module TrainSystems {
  import opened Base
  import opened Lines
  import opened LegacyStation

  /** The dictionary key of a station: its line, or none. */
  type LineKey = Option<Line>

  /** The number of stations listed under `keys`. */
  function CountAll(keys: seq<LineKey>, stations: map<LineKey, seq<TrainStation>>): nat
    requires forall k | k in keys :: k in stations
    decreases |keys|
  {
    if keys == [] then 0
    else CountAll(keys[..|keys| - 1], stations) + |stations[keys[|keys| - 1]]|
  }

  /** Replacing the list of a key that is not among `keys` leaves their count alone. */
  lemma {:induction false} CountAllFrame(keys: seq<LineKey>, stations: map<LineKey, seq<TrainStation>>,
                                         key: LineKey, list: seq<TrainStation>)
    requires forall k | k in keys :: k in stations
    requires key !in keys
    ensures CountAll(keys, stations[key := list]) == CountAll(keys, stations)
    decreases |keys|
  {
    if keys != [] {
      CountAllFrame(keys[..|keys| - 1], stations, key, list);
    }
  }

  /** Replacing the list of one of the (distinct) `keys` changes the count by the difference. */
  lemma {:induction false} CountAllUpdate(keys: seq<LineKey>, stations: map<LineKey, seq<TrainStation>>,
                                          key: LineKey, list: seq<TrainStation>)
    requires forall k | k in keys :: k in stations
    requires forall i, j | 0 <= i < j < |keys| :: keys[i] != keys[j]
    requires key in keys
    ensures CountAll(keys, stations[key := list]) + |stations[key]| == CountAll(keys, stations) + |list|
    decreases |keys|
  {
    var n := |keys| - 1;
    if keys[n] == key {
      assert key !in keys[..n];
      CountAllFrame(keys[..n], stations, key, list);
    } else {
      CountAllUpdate(keys[..n], stations, key, list);
    }
  }

  /** The first position in `list` of a station with this name on this line. */
  function FirstNamed(list: seq<TrainStation>, name: string, line: LineKey): (r: Option<nat>)
    ensures r.Some? ==> r.value < |list| && list[r.value].info.name == name && list[r.value].info.line == line
    ensures r.Some? ==> forall j | 0 <= j < r.value :: !(list[j].info.name == name && list[j].info.line == line)
    ensures r.None? ==> forall j | 0 <= j < |list| :: !(list[j].info.name == name && list[j].info.line == line)
    ensures r.None? ==> forall s | s in list :: !(s.info.name == name && s.info.line == line)
    decreases |list|
  {
    if list == [] then None
    else if list[0].info.name == name && list[0].info.line == line then Some(0)
    else
      match FirstNamed(list[1..], name, line)
      case None => None
      case Some(i) => Some(i + 1)
  }

  /** What `get_station_from_id` answers: an error for a missing identifier, for one that does
      not split into exactly a line and a name, and for a line with no list; otherwise the first
      station of that line with that name, or null. */
  function Resolve(stations: map<LineKey, seq<TrainStation>>, id: Option<string>): (r: Result<TrainStation?>)
    ensures id.None? ==> r == Err("[TrainSystem]: station_id is required")
    ensures id.Some? && SplitId(id.value).None? ==> r.Err?
    ensures r.Ok? <==> id.Some? && SplitId(id.value).Some?
                       && ParseLine(SplitId(id.value).value.0).Some?
                       && Some(ParseLine(SplitId(id.value).value.0).value) in stations
    ensures r.Ok? && r.value != null ==>
              && r.value.info.Id() == id.value
              && r.value in stations[r.value.info.line]
    ensures r.Ok? && r.value == null ==>
              var line := Some(ParseLine(SplitId(id.value).value.0).value);
              forall s | s in stations[line] :: !(s.info.name == SplitId(id.value).value.1 && s.info.line == line)
  {
    if id.None? then Err("[TrainSystem]: station_id is required")
    else
      match SplitId(id.value)
      case None => Err("not enough or too many values to unpack")
      case Some((lineName, name)) =>
        match ParseLine(lineName)
        case None => Err("[TrainSystem]: " + lineName + " line does not exist")
        case Some(l) =>
          if Some(l) !in stations then Err("[TrainSystem]: " + lineName + " line does not exist")
          else
            var list := stations[Some(l)];
            match FirstNamed(list, name, Some(l))
            case None => Ok(null)
            case Some(i) =>
              ParseLineName(l);
              Ok(list[i])
  }

  /** A station listed under its line is found by its identifier, unless its name holds a
      colon (the identifier then does not split into two parts). */
  lemma AddedStationResolves(stations: map<LineKey, seq<TrainStation>>, s: TrainStation)
    requires s.info.line.Some? && s.info.line in stations && s in stations[s.info.line]
    requires ':' !in s.info.name
    ensures var r := Resolve(stations, Some(s.info.Id()));
      r.Ok? && r.value != null && r.value.info.name == s.info.name && r.value.info.line == s.info.line
  {
    var l := s.info.line.value;
    SplitJoinId(LineName(l), s.info.name);
    ParseLineName(l);
    var list := stations[s.info.line];
    var i :| 0 <= i < |list| && list[i] == s;
    assert FirstNamed(list, s.info.name, s.info.line).Some?;
  }

  /** A well-formed registry: the line order lists each dictionary key once, and every station
      is listed under its own line. */
  ghost predicate Registry(lines: seq<LineKey>, stations: map<LineKey, seq<TrainStation>>)
  {
    && (forall i, j | 0 <= i < j < |lines| :: lines[i] != lines[j])
    && (forall k :: k in stations <==> k in lines)
    && (forall k, s | k in stations && s in stations[k] :: s.info.line == k)
  }

  /** The registry after `add_station`: the station appended to its line's list, the list
      created first (and its line put last in the order) when the line is new. */
  function Added(lines: seq<LineKey>, stations: map<LineKey, seq<TrainStation>>, station: TrainStation)
    : (seq<LineKey>, map<LineKey, seq<TrainStation>>)
  {
    var key := station.info.line;
    var list := if key in stations then stations[key] else [];
    (if key in stations then lines else lines + [key], stations[key := list + [station]])
  }

  /** Adding keeps the registry well formed, raises the count by exactly one (a duplicate
      included), keeps the earlier entries of the line in order and touches no other line. */
  lemma AddedKeepsRegistry(lines: seq<LineKey>, stations: map<LineKey, seq<TrainStation>>, station: TrainStation)
    requires Registry(lines, stations)
    ensures var (lines', stations') := Added(lines, stations, station);
      && Registry(lines', stations')
      && CountAll(lines', stations') == CountAll(lines, stations) + 1
      && stations'[station.info.line][|stations'[station.info.line]| - 1] == station
      && (station.info.line in stations ==> stations'[station.info.line][..|stations[station.info.line]|] == stations[station.info.line])
      && (forall k | k in stations && k != station.info.line :: k in stations' && stations'[k] == stations[k])
  {
    AddedWellFormed(lines, stations, station);
    AddedCount(lines, stations, station);
  }

  lemma AddedWellFormed(lines: seq<LineKey>, stations: map<LineKey, seq<TrainStation>>, station: TrainStation)
    requires Registry(lines, stations)
    ensures Registry(Added(lines, stations, station).0, Added(lines, stations, station).1)
  {
    var key := station.info.line;
    var (lines', stations') := Added(lines, stations, station);
    forall k, s | k in stations' && s in stations'[k]
      ensures s.info.line == k
    {
      if k != key {
        assert s in stations[k];
      }
    }
    forall i, j | 0 <= i < j < |lines'|
      ensures lines'[i] != lines'[j]
    {
      if j == |lines| {
        assert lines'[i] in lines;
      }
    }
  }

  lemma AddedCount(lines: seq<LineKey>, stations: map<LineKey, seq<TrainStation>>, station: TrainStation)
    requires Registry(lines, stations)
    ensures CountAll(Added(lines, stations, station).0, Added(lines, stations, station).1) == CountAll(lines, stations) + 1
  {
    var key := station.info.line;
    var (lines', stations') := Added(lines, stations, station);
    var mid := if key in stations then stations else stations[key := []];
    if key !in stations {
      CountAllFrame(lines, stations, key, []);
      assert lines'[..|lines'| - 1] == lines;
    }
    assert forall i, j | 0 <= i < j < |lines'| :: lines'[i] != lines'[j] by {
      AddedWellFormed(lines, stations, station);
    }
    CountAllUpdate(lines', mid, key, stations'[key]);
    assert stations' == mid[key := stations'[key]];
  }

  /** The registry: a list of stations per line, the lines kept in the order they first
      appeared (the dictionary's order). */
  class TrainSystem {
    var lines: seq<LineKey>
    var stations: map<LineKey, seq<TrainStation>>

    ghost predicate Valid()
      reads this
    {
      Registry(lines, stations)
    }

    /** The number of stations over all lines. */
    ghost function Count(): nat
      reads this
      requires Valid()
    {
      CountAll(lines, stations)
    }

    constructor()
      ensures Valid() && lines == [] && stations == map[] && Count() == 0
    {
      lines := [];
      stations := map[];
    }

    /** Appends the station to its line's list, creating the list first when the line is new. */
    method AddStation(station: TrainStation?) returns (r: Outcome)
      requires Valid()
      modifies this
      ensures Valid()
      ensures r.Pass? <==> station != null
      ensures r.Pass? ==> (lines, stations) == Added(old(lines), old(stations), station)
      ensures r.Pass? ==> Count() == old(Count()) + 1
      ensures r.Fail? ==> lines == old(lines) && stations == old(stations)
    {
      if station == null {
        return Fail("[TrainSystem]: station is required");
      }
      AddedKeepsRegistry(lines, stations, station);
      var key := station.info.line;
      var list: seq<TrainStation> := [];
      if key in stations {
        list := stations[key];
      } else {
        lines := lines + [key];
      }
      stations := stations[key := list + [station as TrainStation]];
      r := Pass;
    }

    method GetStationsOnLine(line: LineKey) returns (r: Result<seq<TrainStation>>)
      ensures r.Ok? <==> line in stations
      ensures r.Ok? ==> r.value == stations[line]
    {
      if line !in stations {
        return Err("[TrainSystem]: " + OptLineName(line) + " line does not exist");
      }
      r := Ok(stations[line]);
    }

    /** Splits the identifier, checks its line, then scans that line's list. */
    method GetStationFromId(id: Option<string>) returns (r: Result<TrainStation?>)
      ensures r == Resolve(stations, id)
    {
      if id.None? {
        return Err("[TrainSystem]: station_id is required");
      }
      var parts := SplitId(id.value);
      if parts.None? {
        return Err("not enough or too many values to unpack");
      }
      var (lineName, name) := parts.value;
      var line := ParseLine(lineName);
      if line.None? || line !in stations {
        return Err("[TrainSystem]: " + lineName + " line does not exist");
      }
      var list := stations[line];
      var i := 0;
      while i < |list|
        invariant i <= |list|
        invariant forall j | 0 <= j < i :: !(list[j].info.name == name && list[j].info.line == line)
      {
        if list[i].info.name == name && list[i].info.line == line {
          FirstNamedIs(list, name, line, i);
          return Ok(list[i]);
        }
        i := i + 1;
      }
      FirstNamedNone(list, name, line);
      r := Ok(null);
    }

    /** Adds up the lengths of the lists, line by line. */
    method Len() returns (n: nat)
      requires Valid()
      ensures n == Count()
    {
      n := 0;
      var i := 0;
      while i < |lines|
        invariant i <= |lines|
        invariant n == CountAll(lines[..i], stations)
      {
        assert lines[..i + 1][..i] == lines[..i];
        n := n + |stations[lines[i]]|;
        i := i + 1;
      }
      assert lines[..|lines|] == lines;
    }
  }

  lemma FirstNamedIs(list: seq<TrainStation>, name: string, line: LineKey, i: nat)
    requires i < |list| && list[i].info.name == name && list[i].info.line == line
    requires forall j | 0 <= j < i :: !(list[j].info.name == name && list[j].info.line == line)
    ensures FirstNamed(list, name, line) == Some(i)
  {
  }

  lemma FirstNamedNone(list: seq<TrainStation>, name: string, line: LineKey)
    requires forall j | 0 <= j < |list| :: !(list[j].info.name == name && list[j].info.line == line)
    ensures FirstNamed(list, name, line) == None
  {
  }
}
