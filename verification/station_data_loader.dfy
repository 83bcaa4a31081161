/** Loading stations from route files. Every station of every file is created first, keyed by
    its `route:name` identifier; then each stop's adjacent identifiers are linked, those never
    loaded being skipped. Reading and validating the files is not modelled: each file arrives
    parsed, or as `None` when opening, decoding or validating it failed. */
module StationLoading {
  import opened Base
  import opened Lines
  import opened Geo
  import opened Stations

  /** One stop of a route file. Transfer data is read but never linked. */
  datatype StopRecord = StopRecord(
    name: string,
    route: string,
    lat: real,
    lng: real,
    adjacent: seq<string>,
    transfers: map<string, Option<bool>>)

  datatype StationData = StationData(routeName: string, speed: real, stations: seq<StopRecord>)

  /** The stations a loader builds: neighbours carry no data. */
  type LoadedStation = Station<(), ()>

  function StopId(s: StopRecord): string
  {
    JoinId(s.route, s.name)
  }

  /** The station a stop becomes: its name, its location, and no route. */
  function StopKey(s: StopRecord): StationKey
  {
    StationKey(s.name, Location(s.lat, s.lng), None)
  }

  /** Why the first pass would raise on this stop: a coordinate out of range, or an empty name. */
  function StopProblem(s: StopRecord): (r: Option<string>)
    ensures r.None? <==> -90.0 <= s.lat <= 90.0 && -180.0 <= s.lng <= 180.0 && |s.name| > 0
  {
    match NewLocation(Given(s.lat), Given(s.lng))
    case Err(m) => Some(m)
    case Ok(l) =>
      match CheckStation(Given(s.name), Given(l), Null)
      case Fail(m) => Some(m)
      case Pass => None
  }

  /** The problem of the first offending stop, if any. */
  function FirstProblem(stops: seq<StopRecord>): (r: Option<string>)
    ensures r.None? <==> forall i | 0 <= i < |stops| :: StopProblem(stops[i]).None?
    decreases |stops|
  {
    if stops == [] then None
    else
      var n := |stops| - 1;
      if FirstProblem(stops[..n]).Some? then FirstProblem(stops[..n]) else StopProblem(stops[n])
  }

  /** What the first pass over the files comes to. */
  datatype Screened = Unreadable | Invalid(msg: string) | Readable(files: seq<StationData>)

  /** Files are taken in order; the first unreadable file ends the load with no stations, and
      the first stop the constructors refuse ends it with that error. */
  function Screen(parsed: seq<Option<StationData>>): (r: Screened)
    decreases |parsed|
  {
    if parsed == [] then Readable([])
    else
      var n := |parsed| - 1;
      match Screen(parsed[..n])
      case Readable(fs) =>
        if parsed[n].None? then Unreadable
        else if FirstProblem(parsed[n].value.stations).Some? then Invalid(FirstProblem(parsed[n].value.stations).value)
        else Readable(fs + [parsed[n].value])
      case other => other
  }

  /** Screening passes exactly when every file is readable and none holds a stop the
      constructors refuse; it then passes on the parsed files, in order. */
  lemma {:induction false} ScreenPasses(parsed: seq<Option<StationData>>)
    ensures Screen(parsed).Readable? <==>
              forall i | 0 <= i < |parsed| :: parsed[i].Some? && FirstProblem(parsed[i].value.stations).None?
    ensures Screen(parsed).Readable? ==>
              |Screen(parsed).files| == |parsed| && forall i | 0 <= i < |parsed| :: Screen(parsed).files[i] == parsed[i].value
    decreases |parsed|
  {
    if parsed != [] {
      var n := |parsed| - 1;
      ScreenPasses(parsed[..n]);
      assert forall i | 0 <= i < n :: parsed[..n][i] == parsed[i];
    }
  }

  /** The stops of all files, file after file. */
  function AllStops(files: seq<StationData>): seq<StopRecord>
    decreases |files|
  {
    if files == [] then [] else AllStops(files[..|files| - 1]) + files[|files| - 1].stations
  }

  /** The identifier table after the first pass: a later stop with the same identifier
      replaces the earlier one. */
  function KeysOf(stops: seq<StopRecord>): (keys: map<string, StationKey>)
    ensures forall i | 0 <= i < |stops| :: StopId(stops[i]) in keys
    decreases |stops|
  {
    if stops == [] then map[]
    else
      var n := |stops| - 1;
      KeysOf(stops[..n])[StopId(stops[n]) := StopKey(stops[n])]
  }

  /** The identifiers in the order of their first appearance (the dictionary's order, which a
      replacement does not change). */
  function IdOrder(stops: seq<StopRecord>): (order: seq<string>)
    ensures forall i, j | 0 <= i < j < |order| :: order[i] != order[j]
    decreases |stops|
  {
    if stops == [] then []
    else
      var n := |stops| - 1;
      var prev := IdOrder(stops[..n]);
      if StopId(stops[n]) in prev then prev else prev + [StopId(stops[n])]
  }

  /** One identifier per loaded station, and no more. */
  lemma {:induction false} IdOrderCoversKeys(stops: seq<StopRecord>)
    ensures forall id :: id in IdOrder(stops) <==> id in KeysOf(stops)
    ensures |IdOrder(stops)| == |KeysOf(stops)|
    decreases |stops|
  {
    if stops != [] {
      IdOrderCoversKeys(stops[..|stops| - 1]);
    }
    DistinctSeqCard(IdOrder(stops), KeysOf(stops).Keys);
  }

  lemma {:induction false} DistinctSeqCard(order: seq<string>, s: set<string>)
    requires forall i, j | 0 <= i < j < |order| :: order[i] != order[j]
    requires forall id :: id in order <==> id in s
    ensures |order| == |s|
    decreases |order|
  {
    if order != [] {
      var n := |order| - 1;
      assert forall id :: id in order[..n] <==> id in s - {order[n]};
      DistinctSeqCard(order[..n], s - {order[n]});
    }
  }

  /** The stations the adjacent identifiers of one stop resolve to; unknown ones are skipped. */
  function AdjKeys(adjacent: seq<string>, keys: map<string, StationKey>): set<StationKey>
    decreases |adjacent|
  {
    if adjacent == [] then {}
    else
      var n := |adjacent| - 1;
      var a := adjacent[n];
      AdjKeys(adjacent[..n], keys) + (if a in keys then {keys[a]} else {})
  }

  /** The neighbours the second pass links to the station `id`: those of every stop with that
      identifier, over all files. */
  function LinkSet(stops: seq<StopRecord>, keys: map<string, StationKey>, id: string): set<StationKey>
    decreases |stops|
  {
    if stops == [] then {}
    else
      var n := |stops| - 1;
      LinkSet(stops[..n], keys, id) + (if StopId(stops[n]) == id then AdjKeys(stops[n].adjacent, keys) else {})
  }

  lemma {:induction false} AdjKeysComplete(adjacent: seq<string>, keys: map<string, StationKey>, a: string)
    requires a in adjacent && a in keys
    ensures keys[a] in AdjKeys(adjacent, keys)
    decreases |adjacent|
  {
    var n := |adjacent| - 1;
    if adjacent[n] != a {
      assert a in adjacent[..n];
      AdjKeysComplete(adjacent[..n], keys, a);
    }
  }

  lemma {:induction false} AdjKeysSound(adjacent: seq<string>, keys: map<string, StationKey>, k: StationKey)
    requires k in AdjKeys(adjacent, keys)
    ensures exists a | a in adjacent && a in keys :: keys[a] == k
    decreases |adjacent|
  {
    var n := |adjacent| - 1;
    if k in AdjKeys(adjacent[..n], keys) {
      AdjKeysSound(adjacent[..n], keys, k);
      var a :| a in adjacent[..n] && a in keys && keys[a] == k;
      assert a in adjacent;
    }
  }

  /** Linking a stop never meets the station itself among its loaded neighbours. */
  predicate NoSelfLink(s: StopRecord, keys: map<string, StationKey>)
    requires StopId(s) in keys
  {
    keys[StopId(s)] !in AdjKeys(s.adjacent, keys)
  }

  /** The second pass succeeds exactly when no stop lists a station equal to its own. */
  predicate LinksAccepted(stops: seq<StopRecord>, keys: map<string, StationKey>)
    requires forall i | 0 <= i < |stops| :: StopId(stops[i]) in keys
  {
    forall i | 0 <= i < |stops| :: NoSelfLink(stops[i], keys)
  }

  /** An adjacent identifier that names a stop anywhere in the files, a later file included,
      is linked. */
  lemma {:induction false} ForwardReferenceLinked(stops: seq<StopRecord>, keys: map<string, StationKey>, i: nat, a: string)
    requires i < |stops| && a in stops[i].adjacent && a in keys
    ensures keys[a] in LinkSet(stops, keys, StopId(stops[i]))
    decreases |stops|
  {
    var n := |stops| - 1;
    if i < n {
      ForwardReferenceLinked(stops[..n], keys, i, a);
    } else {
      AdjKeysComplete(stops[n].adjacent, keys, a);
    }
  }

  /** Every linked neighbour comes from a loaded identifier listed by a stop with this
      identifier: nothing is linked from thin air, and transfers never are. */
  lemma {:induction false} LinkSetSound(stops: seq<StopRecord>, keys: map<string, StationKey>, id: string, k: StationKey)
    requires k in LinkSet(stops, keys, id)
    ensures exists i, a | 0 <= i < |stops| && a in stops[i].adjacent && a in keys ::
              StopId(stops[i]) == id && keys[a] == k
    decreases |stops|
  {
    var n := |stops| - 1;
    if k in LinkSet(stops[..n], keys, id) {
      LinkSetSound(stops[..n], keys, id, k);
      var i, a :| 0 <= i < |stops[..n]| && a in stops[..n][i].adjacent && a in keys
                  && StopId(stops[..n][i]) == id && keys[a] == k;
      assert stops[i] == stops[..n][i];
    } else {
      assert StopId(stops[n]) == id && k in AdjKeys(stops[n].adjacent, keys);
      AdjKeysSound(stops[n].adjacent, keys, k);
    }
  }

  /** `StationDataLoader(files)`: the argument must be given, be a list, and not be empty. */
  function CheckFiles(files: Arg<seq<string>>): (r: Outcome)
    ensures r.Pass? <==> files.Given? && |files.value| > 0
    ensures files.Null? ==> r == Fail("Filename cannot be None")
  {
    match files
    case Null => Fail("Filename cannot be None")
    case WrongType => Fail("Filename must be a string")
    case Given(fs) => if |fs| == 0 then Fail("Filename cannot be empty") else Pass
  }

  class StationDataLoader {
    const files: seq<string>

    constructor(files: seq<string>)
      requires CheckFiles(Given(files)).Pass?
      ensures this.files == files
    {
      this.files := files;
    }

    /** The two passes over the already-parsed files (`parsed[i]` is file `i`). */
    method LoadStations(parsed: seq<Option<StationData>>) returns (r: Result<seq<LoadedStation>>)
      requires |parsed| == |files|
      ensures Screen(parsed).Unreadable? ==> r == Ok([])
      ensures Screen(parsed).Invalid? ==> r == Err(Screen(parsed).msg)
      ensures Screen(parsed).Readable? ==>
                var stops := AllStops(Screen(parsed).files);
                && (r.Ok? <==> LinksAccepted(stops, KeysOf(stops)))
                && (r.Ok? ==> Loaded(r.value, stops))
      ensures r.Ok? ==> forall k | 0 <= k < |r.value| :: fresh(r.value[k])
    {
      var status, stops, byId, order := CreateStations(parsed);
      if status.Unreadable? {
        return Ok([]);
      }
      if status.Invalid? {
        return Err(status.msg);
      }
      var ok := LinkStations(status.files, stops, byId);
      if ok.Fail? {
        return Err(ok.msg);
      }
      var list := LoadedValues(byId, order, stops);
      r := Ok(list);
    }
  }

  /** The result of a load that got through both passes. */
  method LoadedValues(byId: map<string, LoadedStation>, order: seq<string>, ghost stops: seq<StopRecord>)
    returns (list: seq<LoadedStation>)
    requires Linked(byId, stops, KeysOf(stops)) && order == IdOrder(stops)
    ensures Loaded(list, stops)
    ensures forall k | 0 <= k < |list| :: list[k] in byId.Values
  {
    IdOrderCoversKeys(stops);
    list := Values(byId, order);
    LinkedLoaded(byId, order, list, stops);
  }

  /** `list(stations.values())`: the stations in the order of their identifiers. */
  method Values(byId: map<string, LoadedStation>, order: seq<string>) returns (list: seq<LoadedStation>)
    requires forall id | id in order :: id in byId
    ensures |list| == |order|
    ensures forall k | 0 <= k < |list| :: list[k] == byId[order[k]]
  {
    list := [];
    var i := 0;
    while i < |order|
      invariant i <= |order|
      invariant |list| == i
      invariant forall k | 0 <= k < i :: list[k] == byId[order[k]]
    {
      list := list + [byId[order[i]]];
      i := i + 1;
    }
  }

  /** The loaded stations, one per identifier in first-appearance order: each built from the
      last stop with its identifier, distinct, open, with no transfers, and adjacent to exactly
      the stations its stops' identifiers resolve to. */
  ghost predicate Loaded(list: seq<LoadedStation>, stops: seq<StopRecord>)
    reads set k | 0 <= k < |list| :: list[k]
  {
    var keys := KeysOf(stops);
    var order := IdOrder(stops);
    && |list| == |order|
    && (forall k | 0 <= k < |list| ::
          && order[k] in keys
          && list[k].Key() == keys[order[k]]
          && !list[k].closed
          && list[k].transfers == map[]
          && list[k].adjacent.Keys == LinkSet(stops, keys, order[k])
          && (forall n | n in list[k].adjacent :: list[k].adjacent[n].None?))
    && (forall k, m | 0 <= k < m < |list| :: list[k] != list[m])
  }

  lemma LinkedLoaded(byId: map<string, LoadedStation>, order: seq<string>, list: seq<LoadedStation>, stops: seq<StopRecord>)
    requires Linked(byId, stops, KeysOf(stops))
    requires order == IdOrder(stops)
    requires forall id :: id in order <==> id in KeysOf(stops)
    requires |list| == |order| && forall k | 0 <= k < |list| :: list[k] == byId[order[k]]
    ensures Loaded(list, stops)
  {
    forall k, m | 0 <= k < m < |list|
      ensures list[k] != list[m]
    {
      assert order[k] != order[m];
    }
  }

  /** The first pass: files in order, and each file's stops in order, become stations. */
  method CreateStations(parsed: seq<Option<StationData>>)
    returns (status: Screened, ghost stops: seq<StopRecord>, byId: map<string, LoadedStation>, order: seq<string>)
    ensures status == Screen(parsed)
    ensures status.Readable? ==> stops == AllStops(status.files) && Created(byId, order, stops)
    ensures forall id | id in byId :: fresh(byId[id])
  {
    byId := map[];
    order := [];
    stops := [];
    var i := 0;
    while i < |parsed|
      invariant i <= |parsed|
      invariant Screen(parsed[..i]).Readable?
      invariant stops == AllStops(Screen(parsed[..i]).files)
      invariant Created(byId, order, stops)
      invariant forall id | id in byId :: fresh(byId[id])
    {
      assert parsed[..i + 1][..i] == parsed[..i];
      ghost var fs := Screen(parsed[..i]).files;
      if parsed[i].None? {
        ScreenStops(parsed, i + 1);
        return Unreadable, stops, byId, order;
      }
      var problem;
      ghost var before := byId;
      problem, byId, order, stops := CreateFileStations(parsed[i].value, byId, order, stops);
      forall id | id in byId
        ensures fresh(byId[id])
      {
        assert byId[id] in byId.Values;
        if byId[id] in before.Values {
          var old_id :| old_id in before && before[old_id] == byId[id];
        }
      }
      if problem.Some? {
        ScreenStops(parsed, i + 1);
        return Invalid(problem.value), stops, byId, order;
      }
      assert (fs + [parsed[i].value])[..|fs|] == fs;
      i := i + 1;
    }
    assert parsed[..|parsed|] == parsed;
    status := Screen(parsed);
  }

  /** The first pass over one file's stops. */
  method CreateFileStations(file: StationData, byId: map<string, LoadedStation>, order: seq<string>,
                            ghost stops: seq<StopRecord>)
    returns (problem: Option<string>, byId': map<string, LoadedStation>, order': seq<string>,
             ghost stops': seq<StopRecord>)
    requires Created(byId, order, stops)
    ensures problem == FirstProblem(file.stations)
    ensures problem.None? ==> stops' == stops + file.stations && Created(byId', order', stops')
    ensures forall o | o in byId'.Values :: fresh(o) || o in byId.Values
  {
    byId', order', stops' := byId, order, stops;
    var j := 0;
    while j < |file.stations|
      invariant j <= |file.stations|
      invariant FirstProblem(file.stations[..j]).None?
      invariant stops' == stops + file.stations[..j]
      invariant Created(byId', order', stops')
      invariant forall o | o in byId'.Values :: fresh(o) || o in byId.Values
    {
      problem, byId', order' := CreateNext(file.stations, j, byId', order', stops');
      if problem.Some? {
        return;
      }
      AppendNext(stops, file.stations, j);
      stops' := stops' + [file.stations[j]];
      j := j + 1;
    }
    assert file.stations[..|file.stations|] == file.stations;
    problem := None;
  }

  lemma AppendNext(done: seq<StopRecord>, stations: seq<StopRecord>, j: nat)
    requires j < |stations|
    ensures done + stations[..j + 1] == (done + stations[..j]) + [stations[j]]
  {
    assert stations[..j + 1] == stations[..j] + [stations[j]];
  }

  /** One step of the first pass over a file: the `j`-th stop raises, or becomes a station. */
  method CreateNext(stations: seq<StopRecord>, j: nat, byId: map<string, LoadedStation>, order: seq<string>,
                    ghost done: seq<StopRecord>)
    returns (problem: Option<string>, byId': map<string, LoadedStation>, order': seq<string>)
    requires j < |stations| && FirstProblem(stations[..j]).None?
    requires Created(byId, order, done)
    ensures problem.Some? ==> problem == FirstProblem(stations)
    ensures problem.None? ==> FirstProblem(stations[..j + 1]).None? && Created(byId', order', done + [stations[j]])
    ensures forall o | o in byId'.Values :: fresh(o) || o in byId.Values
  {
    var stop := stations[j];
    assert stations[..j + 1][..j] == stations[..j];
    problem := StopProblem(stop);
    if problem.Some? {
      FirstProblemPrefix(stations, j + 1);
      return problem, byId, order;
    }
    byId', order' := CreateStop(byId, order, done, stop);
  }

  /** A problem in a prefix of a file's stops is the file's first problem. */
  lemma {:induction false} FirstProblemPrefix(stops: seq<StopRecord>, j: nat)
    requires j <= |stops| && FirstProblem(stops[..j]).Some?
    ensures FirstProblem(stops) == FirstProblem(stops[..j])
    decreases |stops| - j
  {
    if j < |stops| {
      assert stops[..j + 1][..j] == stops[..j];
      FirstProblemPrefix(stops, j + 1);
    } else {
      assert stops[..j] == stops;
    }
  }

  /** Once a prefix of the files fails to screen, so do all of them. */
  lemma {:induction false} ScreenStops(parsed: seq<Option<StationData>>, i: nat)
    requires i <= |parsed| && !Screen(parsed[..i]).Readable?
    ensures Screen(parsed) == Screen(parsed[..i])
    decreases |parsed| - i
  {
    if i < |parsed| {
      assert parsed[..i + 1][..i] == parsed[..i];
      ScreenStops(parsed, i + 1);
    } else {
      assert parsed[..i] == parsed;
    }
  }

  /** The state of the first pass after `stops`: one distinct, unlinked station per
      identifier, built from the last stop with that identifier. */
  ghost predicate Created(byId: map<string, LoadedStation>, order: seq<string>, stops: seq<StopRecord>)
    reads byId.Values
  {
    && order == IdOrder(stops)
    && byId.Keys == KeysOf(stops).Keys
    && (forall id | id in byId ::
          && byId[id].Key() == KeysOf(stops)[id]
          && byId[id].Valid()
          && !byId[id].closed
          && byId[id].adjacent == map[]
          && byId[id].transfers == map[])
    && (forall a, b | a in byId && b in byId && a != b :: byId[a] != byId[b])
  }

  /** Builds the station of a stop and puts it under the stop's identifier, replacing the
      station an earlier stop with that identifier left there. */
  method CreateStop(byId: map<string, LoadedStation>, order: seq<string>, ghost stops: seq<StopRecord>,
                    stop: StopRecord)
    returns (byId': map<string, LoadedStation>, order': seq<string>)
    requires Created(byId, order, stops)
    requires StopProblem(stop).None?
    ensures Created(byId', order', stops + [stop])
    ensures forall o | o in byId'.Values :: fresh(o) || o in byId.Values
  {
    var s := new Station(stop.name, Location(stop.lat, stop.lng), None);
    byId', order' := Record(byId, order, stops, stop, s);
  }

  /** Puts a newly built station under its stop's identifier. */
  method Record(byId: map<string, LoadedStation>, order: seq<string>, ghost stops: seq<StopRecord>,
                stop: StopRecord, s: LoadedStation)
    returns (byId': map<string, LoadedStation>, order': seq<string>)
    requires Created(byId, order, stops)
    requires s.Key() == StopKey(stop) && s.Valid() && !s.closed && s.adjacent == map[] && s.transfers == map[]
    requires forall id | id in byId :: byId[id] != s
    ensures Created(byId', order', stops + [stop])
    ensures byId' == byId[StopId(stop) := s]
  {
    var id := StopId(stop);
    assert (stops + [stop])[..|stops|] == stops;
    byId' := byId[id := s];
    order' := if id in order then order else order + [id];
  }

  /** The linking state after the stops `done`: each loaded station is adjacent to exactly the
      stations those stops resolve to under its identifier, with no data. */
  ghost predicate Linked(byId: map<string, LoadedStation>, done: seq<StopRecord>, keys: map<string, StationKey>)
    reads byId.Values
  {
    && byId.Keys == keys.Keys
    && (forall id | id in byId ::
          && byId[id].Key() == keys[id]
          && byId[id].Valid()
          && !byId[id].closed
          && byId[id].transfers == map[]
          && byId[id].adjacent.Keys == LinkSet(done, keys, id)
          && (forall n | n in byId[id].adjacent :: byId[id].adjacent[n].None?))
    && (forall a, b | a in byId && b in byId && a != b :: byId[a] != byId[b])
  }

  /** The stops of the first `i` files and `j` stops of the next come first among all stops. */
  lemma AllStopsPrefix(files: seq<StationData>, i: nat, j: nat)
    requires i < |files| && j <= |files[i].stations|
    ensures AllStops(files[..i]) + files[i].stations[..j] <= AllStops(files)
  {
    assert files[..i + 1][..i] == files[..i];
    AllStopsMonotone(files, i + 1);
  }

  lemma {:induction false} AllStopsMonotone(files: seq<StationData>, i: nat)
    requires i <= |files|
    ensures AllStops(files[..i]) <= AllStops(files)
    decreases |files|
  {
    if i < |files| {
      var n := |files| - 1;
      assert files[..n][..i] == files[..i];
      AllStopsMonotone(files[..n], i);
    } else {
      assert files[..i] == files;
    }
  }

  lemma CreatedLinked(byId: map<string, LoadedStation>, stops: seq<StopRecord>)
    requires Created(byId, IdOrder(stops), stops)
    ensures Linked(byId, [], KeysOf(stops))
  {
  }

  /** The stops of file `i` follow those of the files before it among all stops. */
  lemma FileWithinStops(files: seq<StationData>, i: nat, stops: seq<StopRecord>, done: seq<StopRecord>)
    requires i < |files| && stops == AllStops(files) && done == AllStops(files[..i])
    ensures done + files[i].stations <= stops
    ensures forall k | 0 <= k < |files[i].stations| :: StopId(files[i].stations[k]) in KeysOf(stops)
    ensures forall k | 0 <= k < |files[i].stations| :: files[i].stations[k] == stops[|done| + k]
  {
    AllStopsPrefix(files, i, |files[i].stations|);
    assert files[i].stations[..|files[i].stations|] == files[i].stations;
    forall k | 0 <= k < |files[i].stations|
      ensures files[i].stations[k] == stops[|done| + k]
      ensures StopId(files[i].stations[k]) in KeysOf(stops)
    {
      assert (done + files[i].stations)[|done| + k] == files[i].stations[k];
    }
  }

  /** The second pass: every stop of every file, in order, links its loaded neighbours. */
  method LinkStations(files: seq<StationData>, ghost stops: seq<StopRecord>, byId: map<string, LoadedStation>)
    returns (r: Outcome)
    requires stops == AllStops(files)
    requires Created(byId, IdOrder(stops), stops)
    modifies byId.Values
    ensures r.Pass? <==> LinksAccepted(stops, KeysOf(stops))
    ensures r.Pass? ==> Linked(byId, stops, KeysOf(stops))
  {
    ghost var keys := KeysOf(stops);
    ghost var done: seq<StopRecord> := [];
    CreatedLinked(byId, stops);
    r := Pass;
    var i := 0;
    while i < |files| && r.Pass?
      invariant i <= |files|
      invariant r.Pass? ==> done == AllStops(files[..i]) && done <= stops
      invariant r.Pass? ==> LinksAccepted(done, keys) && Linked(byId, done, keys)
      invariant r.Fail? ==> !LinksAccepted(stops, keys)
    {
      var file := files[i];
      FileWithinStops(files, i, stops, done);
      r := LinkFile(file.stations, byId, keys, done);
      LinksAcceptedAppend(done, file.stations, keys);
      if r.Fail? {
        LinksAcceptedPrefix(done + file.stations, stops, keys);
      } else {
        done := done + file.stations;
        assert files[..i + 1][..i] == files[..i];
      }
      i := i + 1;
    }
    if r.Pass? {
      assert files[..|files|] == files;
    }
  }

  lemma LinksAcceptedAppend(a: seq<StopRecord>, b: seq<StopRecord>, keys: map<string, StationKey>)
    requires forall i | 0 <= i < |a| :: StopId(a[i]) in keys
    requires forall i | 0 <= i < |b| :: StopId(b[i]) in keys
    ensures forall i | 0 <= i < |a + b| :: StopId((a + b)[i]) in keys
    ensures LinksAccepted(a + b, keys) <==> LinksAccepted(a, keys) && LinksAccepted(b, keys)
  {
    if LinksAccepted(a, keys) && LinksAccepted(b, keys) {
      forall i | 0 <= i < |a + b|
        ensures NoSelfLink((a + b)[i], keys)
      {
        if i < |a| {
          assert (a + b)[i] == a[i];
        } else {
          assert (a + b)[i] == b[i - |a|];
        }
      }
    }
    if LinksAccepted(a + b, keys) {
      forall i | 0 <= i < |a|
        ensures NoSelfLink(a[i], keys)
      {
        assert (a + b)[i] == a[i];
      }
      forall i | 0 <= i < |b|
        ensures NoSelfLink(b[i], keys)
      {
        assert (a + b)[|a| + i] == b[i];
      }
    }
  }

  lemma LinksAcceptedPrefix(a: seq<StopRecord>, b: seq<StopRecord>, keys: map<string, StationKey>)
    requires a <= b
    requires forall i | 0 <= i < |b| :: StopId(b[i]) in keys
    requires !LinksAccepted(a, keys)
    ensures !LinksAccepted(b, keys)
  {
    var i :| 0 <= i < |a| && !NoSelfLink(a[i], keys);
    assert a[i] == b[i];
  }

  /** The second pass over the stops of one file. */
  method LinkFile(stations: seq<StopRecord>, byId: map<string, LoadedStation>, ghost keys: map<string, StationKey>,
                  ghost done: seq<StopRecord>)
    returns (r: Outcome)
    requires forall k | 0 <= k < |stations| :: StopId(stations[k]) in keys
    requires Linked(byId, done, keys)
    modifies byId.Values
    ensures r.Pass? <==> LinksAccepted(stations, keys)
    ensures r.Pass? ==> Linked(byId, done + stations, keys)
  {
    var j := 0;
    ghost var cur := done;
    while j < |stations|
      invariant j <= |stations|
      invariant cur == done + stations[..j]
      invariant forall k | 0 <= k < j :: NoSelfLink(stations[k], keys)
      invariant Linked(byId, cur, keys)
    {
      var stop := stations[j];
      var ok := LinkStop(byId, keys, cur, stop);
      if ok.Fail? {
        return ok;
      }
      AppendNext(done, stations, j);
      cur := cur + [stop];
      j := j + 1;
    }
    assert stations[..|stations|] == stations;
    r := Pass;
  }

  /** Links the loaded neighbours of one stop to the station under its identifier. */
  method LinkStop(byId: map<string, LoadedStation>, ghost keys: map<string, StationKey>,
                  ghost done: seq<StopRecord>, stop: StopRecord)
    returns (r: Outcome)
    requires StopId(stop) in keys
    requires Linked(byId, done, keys)
    modifies byId[StopId(stop)]
    ensures r.Pass? <==> NoSelfLink(stop, keys)
    ensures r.Pass? ==> Linked(byId, done + [stop], keys)
  {
    var id := StopId(stop);
    var station := byId[id];
    r := AddNeighbours(station, byId, keys, stop.adjacent);
    if r.Pass? {
      forall other | other in byId
        ensures byId[other].adjacent.Keys == LinkSet(done + [stop], keys, other)
      {
        assert (done + [stop])[..|done|] == done;
      }
    }
  }

  /** The inner loop of the second pass: each adjacent identifier that names a loaded station
      adds that station as a neighbour, with no data. */
  method AddNeighbours(station: LoadedStation, byId: map<string, LoadedStation>, ghost keys: map<string, StationKey>,
                       adjacent: seq<string>)
    returns (r: Outcome)
    requires station.Valid()
    requires byId.Keys == keys.Keys && forall a | a in byId :: byId[a].Key() == keys[a]
    requires forall n | n in station.adjacent :: station.adjacent[n].None?
    modifies station`adjacent
    ensures station.Valid()
    ensures r.Pass? <==> station.Key() !in AdjKeys(adjacent, keys)
    ensures r.Pass? ==> station.adjacent.Keys == old(station.adjacent.Keys) + AdjKeys(adjacent, keys)
    ensures forall n | n in station.adjacent :: station.adjacent[n].None?
  {
    var j := 0;
    while j < |adjacent|
      invariant j <= |adjacent|
      invariant station.Valid()
      invariant station.adjacent.Keys == old(station.adjacent.Keys) + AdjKeys(adjacent[..j], keys)
      invariant forall n | n in station.adjacent :: station.adjacent[n].None?
      invariant station.Key() !in AdjKeys(adjacent[..j], keys)
    {
      var a := adjacent[j];
      assert adjacent[..j + 1][..j] == adjacent[..j];
      if a in byId {
        var ok := station.AddAdjacentStation(Given(byId[a].Key()), None);
        if ok.Fail? {
          AdjKeysPrefix(adjacent, j + 1, keys);
          return ok;
        }
      }
      j := j + 1;
    }
    assert adjacent[..|adjacent|] == adjacent;
    r := Pass;
  }

  /** The neighbours of a prefix of the adjacent identifiers are among those of all of them. */
  lemma {:induction false} AdjKeysPrefix(adjacent: seq<string>, j: nat, keys: map<string, StationKey>)
    requires j <= |adjacent|
    ensures AdjKeys(adjacent[..j], keys) <= AdjKeys(adjacent, keys)
    decreases |adjacent| - j
  {
    if j < |adjacent| {
      assert adjacent[..j + 1][..j] == adjacent[..j];
      AdjKeysPrefix(adjacent, j + 1, keys);
    } else {
      assert adjacent[..j] == adjacent;
    }
  }
}
