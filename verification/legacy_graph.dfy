/** The legacy weighted directed graph of stations, and the turning of a station route into
    the steps a rider takes. The graph library the source wraps is modelled by the two
    updates it is asked for: adding a node and setting the weight of an edge. */
module LegacyGraph {
  import opened Base
  import opened LegacyStation

  type Edge = (StationInfo, StationInfo)

  /** The step a rider takes on reaching `station` from `prev`: a transfer first when the line
      changes, then the arrival itself. Transfers are built unpaid. */
  function Leg(prev: StationInfo, station: StationInfo): seq<TrainStep>
  {
    (if prev.line != station.line then [TrainTransfer(prev, station, 0.0)] else [])
    + [TrainAction(station, 0.0)]
  }

  /** The station a rider stands at before the `k`-th station of `route`. */
  function Before(source: StationInfo, route: seq<StationInfo>, k: nat): StationInfo
    requires k < |route|
  {
    if k == 0 then source else route[k - 1]
  }

  /** The steps of a route that starts out from `source`, leg by leg. */
  function Itinerary(source: StationInfo, route: seq<StationInfo>): seq<TrainStep>
    decreases |route|
  {
    if route == [] then []
    else
      var k := |route| - 1;
      Itinerary(source, route[..k]) + Leg(Before(source, route, k), route[k])
  }

  /** The stations arrived at, in order: the sources of the plain actions. */
  function Arrivals(steps: seq<TrainStep>): seq<StationInfo>
    decreases |steps|
  {
    if steps == [] then []
    else
      var k := |steps| - 1;
      Arrivals(steps[..k]) + (if steps[k].TrainAction? then [steps[k].source] else [])
  }

  /** How many stations of `route` lie on another line than the station before them. */
  function LineChanges(source: StationInfo, route: seq<StationInfo>): nat
    decreases |route|
  {
    if route == [] then 0
    else
      var k := |route| - 1;
      LineChanges(source, route[..k]) + (if Before(source, route, k).line != route[k].line then 1 else 0)
  }

  lemma {:induction false} ArrivalsAppend(a: seq<TrainStep>, b: seq<TrainStep>)
    ensures Arrivals(a + b) == Arrivals(a) + Arrivals(b)
    decreases |b|
  {
    if b == [] {
      assert a + b == a;
    } else {
      var k := |b| - 1;
      assert (a + b)[..|a| + k] == a + b[..k];
      ArrivalsAppend(a, b[..k]);
    }
  }

  /** Exactly one action per route station, in route order. */
  lemma {:induction false} ArrivalsAreRoute(source: StationInfo, route: seq<StationInfo>)
    ensures Arrivals(Itinerary(source, route)) == route
    decreases |route|
  {
    if route != [] {
      var k := |route| - 1;
      var prev := Before(source, route, k);
      ArrivalsAreRoute(source, route[..k]);
      ArrivalsAppend(Itinerary(source, route[..k]), Leg(prev, route[k]));
      var leg := Leg(prev, route[k]);
      if prev.line != route[k].line {
        assert leg[..1] == [TrainTransfer(prev, route[k], 0.0)];
        assert Arrivals(leg[..1]) == Arrivals([]) + [];
      }
      assert Arrivals(leg) == [route[k]];
      assert route == route[..k] + [route[k]];
    }
  }

  /** One step per station plus one transfer per change of line. */
  lemma {:induction false} ItineraryLength(source: StationInfo, route: seq<StationInfo>)
    ensures |Itinerary(source, route)| == |route| + LineChanges(source, route)
    decreases |route|
  {
    if route != [] {
      ItineraryLength(source, route[..|route| - 1]);
    }
  }

  /** Every step is free: transfers are built unpaid and actions carry the default cost. */
  lemma {:induction false} ItineraryFree(source: StationInfo, route: seq<StationInfo>)
    ensures forall k :: 0 <= k < |Itinerary(source, route)| ==> Itinerary(source, route)[k].cost == 0.0
    decreases |route|
  {
    if route != [] {
      ItineraryFree(source, route[..|route| - 1]);
    }
  }

  lemma LastStepIsArrival(source: StationInfo, route: seq<StationInfo>)
    requires route != []
    ensures |Itinerary(source, route)| > 0
    ensures Itinerary(source, route)[|Itinerary(source, route)| - 1] == TrainAction(route[|route| - 1], 0.0)
  {
  }

  /** Where transfers stand in `steps`. A transfer from the previous station (or from
      `source`, for the first step) comes right before the arrival at its destination, and only
      when the line changes; an arrival not preceded by a transfer stays on the line of the
      station before. */
  ghost predicate TransfersPlaced(source: StationInfo, steps: seq<TrainStep>)
  {
    && (forall k {:trigger steps[k]} :: 0 <= k < |steps| && steps[k].TrainTransfer? ==>
          && k + 1 < |steps|
          && steps[k + 1] == TrainAction(steps[k].destination, 0.0)
          && steps[k].source.line != steps[k].destination.line
          && steps[k].source == (if k == 0 then source else steps[k - 1].source)
          && (k > 0 ==> steps[k - 1].TrainAction?))
    && (forall k {:trigger steps[k]} :: 0 <= k < |steps| && steps[k].TrainAction? && (k == 0 || steps[k - 1].TrainAction?) ==>
          steps[k].source.line == (if k == 0 then source else steps[k - 1].source).line)
  }

  /** One more leg keeps the transfers in place, when it starts where the steps so far end. */
  lemma LegKeepsTransfersPlaced(source: StationInfo, p: seq<TrainStep>, prev: StationInfo, station: StationInfo)
    requires TransfersPlaced(source, p)
    requires if p == [] then prev == source else p[|p| - 1] == TrainAction(prev, 0.0)
    ensures TransfersPlaced(source, p + Leg(prev, station))
  {
    var leg := Leg(prev, station);
    var steps := p + leg;
    forall k | 0 <= k < |steps| && steps[k].TrainTransfer?
      ensures && k + 1 < |steps|
              && steps[k + 1] == TrainAction(steps[k].destination, 0.0)
              && steps[k].source.line != steps[k].destination.line
              && steps[k].source == (if k == 0 then source else steps[k - 1].source)
              && (k > 0 ==> steps[k - 1].TrainAction?)
    {
      if k < |p| {
        assert steps[k] == p[k];
        if k > 0 {
          assert steps[k - 1] == p[k - 1];
        }
        assert steps[k + 1] == p[k + 1];
      } else {
        assert steps[k] == leg[k - |p|];
        assert k == |p|;
        if k > 0 {
          assert steps[k - 1] == p[|p| - 1];
        }
      }
    }
    forall k | 0 <= k < |steps| && steps[k].TrainAction? && (k == 0 || steps[k - 1].TrainAction?)
      ensures steps[k].source.line == (if k == 0 then source else steps[k - 1].source).line
    {
      if k < |p| {
        assert steps[k] == p[k];
        if k > 0 {
          assert steps[k - 1] == p[k - 1];
        }
      } else if k == |p| {
        assert steps[k] == leg[0];
        if k > 0 {
          assert steps[k - 1] == p[|p| - 1];
        }
      }
    }
  }

  lemma {:induction false} TransferPlacement(source: StationInfo, route: seq<StationInfo>)
    ensures TransfersPlaced(source, Itinerary(source, route))
    decreases |route|
  {
    if route != [] {
      var n := |route| - 1;
      var p := Itinerary(source, route[..n]);
      var prev := Before(source, route, n);
      TransferPlacement(source, route[..n]);
      if n > 0 {
        LastStepIsArrival(source, route[..n]);
        assert route[..n][n - 1] == prev;
      }
      LegKeepsTransfersPlaced(source, p, prev, route[n]);
      assert Itinerary(source, route) == p + Leg(prev, route[n]);
    }
  }

  /** The first station gets no transfer when the route starts at the source itself. */
  lemma {:induction false} FirstStepIsArrival(source: StationInfo, route: seq<StationInfo>)
    requires route != [] && route[0] == source
    ensures |Itinerary(source, route)| > 0
    ensures Itinerary(source, route)[0] == TrainAction(source, 0.0)
    decreases |route|
  {
    var n := |route| - 1;
    if n > 0 {
      FirstStepIsArrival(source, route[..n]);
    }
  }

  /** `route` is a walk along the edges from `source` to `destination`. */
  ghost predicate IsRoute(edges: map<Edge, real>, route: seq<StationInfo>, source: StationInfo, destination: StationInfo)
  {
    && |route| > 0
    && route[0] == source
    && route[|route| - 1] == destination
    && forall k :: 0 <= k < |route| - 1 ==> (route[k], route[k + 1]) in edges
  }

  /** The legacy graph: a set of station nodes and weighted directed edges between them. */
  class TrainGraph {
    var nodes: set<StationInfo>
    var edges: map<Edge, real>

    ghost predicate Valid()
      reads this
    {
      forall e | e in edges :: e.0 in nodes && e.1 in nodes
    }

    constructor()
      ensures Valid() && nodes == {} && edges == map[]
    {
      nodes := {};
      edges := map[];
    }

    method AddNode(node: TrainStation?) returns (r: Outcome)
      requires Valid()
      modifies this
      ensures Valid()
      ensures r.Pass? <==> node != null
      ensures r.Pass? ==> nodes == old(nodes) + {node.info} && edges == old(edges)
      ensures r.Fail? ==> nodes == old(nodes) && edges == old(edges)
    {
      if node == null {
        return Fail("[GraphRepresentation]: node is required");
      }
      nodes := nodes + {node.info};
      r := Pass;
    }

    /** Adds both end points as nodes and sets the weight of the edge, replacing an earlier one. */
    method AddEdge(source: TrainStation?, destination: TrainStation?, weight: Option<real>) returns (r: Outcome)
      requires Valid()
      modifies this`nodes, this`edges
      ensures Valid()
      ensures r.Pass? <==> source != null && destination != null && weight.Some?
      ensures r.Pass? ==> nodes == old(nodes) + {source.info, destination.info}
      ensures r.Pass? ==> edges == old(edges)[(source.info, destination.info) := weight.value]
      ensures r.Fail? ==> nodes == old(nodes) && edges == old(edges)
    {
      if source == null {
        return Fail("[GraphRepresentation]: source is required");
      }
      if destination == null {
        return Fail("[GraphRepresentation]: destination is required");
      }
      if weight.None? {
        return Fail("[GraphRepresentation]: weight is required");
      }
      nodes := nodes + {source.info, destination.info};
      edges := edges[(source.info, destination.info) := weight.value];
      r := Pass;
    }

    /** The loop that walks a route and emits its steps, remembering the last station. */
    static method Decompose(source: StationInfo, route: seq<StationInfo>) returns (steps: seq<TrainStep>)
      ensures steps == Itinerary(source, route)
    {
      var i := 0;
      var last := source;
      steps := [];
      while i < |route|
        invariant i <= |route|
        invariant last == if i == 0 then source else route[i - 1]
        invariant steps == Itinerary(source, route[..i])
      {
        var station := route[i];
        if last.line != station.line {
          steps := steps + [TrainTransfer(last, station, 0.0)];
        }
        steps := steps + [TrainAction(station, 0.0)];
        last := station;
        assert route[..i + 1][..i] == route[..i];
        i := i + 1;
      }
      assert route[..|route|] == route;
    }

    /** `found` is what the library's shortest-path search gives: `None` when it raises for a
        missing path, otherwise a route along the graph's edges. Both end points are checked
        before the search. */
    method GetShortestPath(source: TrainStation?, destination: TrainStation?, found: Option<seq<StationInfo>>)
      returns (r: Result<seq<TrainStep>>)
      requires source != null && destination != null && found.Some? ==>
                 IsRoute(edges, found.value, source.info, destination.info)
      ensures r.Ok? <==> source != null && destination != null && found.Some?
      ensures r.Ok? ==> r.value == Itinerary(source.info, found.value)
      ensures r.Ok? ==> Arrivals(r.value) == found.value
      ensures r.Ok? ==> r.value[0] == TrainAction(source.info, 0.0)
    {
      if source == null {
        return Err("[GraphRepresentation]: source is required");
      }
      if destination == null {
        return Err("[GraphRepresentation]: destination is required");
      }
      if found.None? {
        return Err("no path between source and destination");
      }
      var steps := Decompose(source.info, found.value);
      ArrivalsAreRoute(source.info, found.value);
      FirstStepIsArrival(source.info, found.value);
      r := Ok(steps);
    }
  }
}
