# CTA "L" network optimizer — a Dafny model

This project models the core of the CTA route optimizer. The optimizer represents Chicago's
"L" train network as a weighted graph of stations and searches it for the cheapest route. The
model covers the following parts:

- **Distances and coordinates.** The legacy kilometre/mile conversion, the `Kilometer` and
  `Mile` value objects, and the checked `Location` (both copies of it).
- **Stations.** The legacy `TrainStation`, its `TrainAction`/`TrainTransfer` route steps and
  its `line:name` identifiers. Also the newer `Station` with its adjacency and transfer tables,
  and the CTA train station built on it.
- **Registries.** The train system, which keeps stations grouped by line and resolves
  `line:name` identifiers, and the position factory, which caches one position per coordinate
  pair.
- **Graphs.** The legacy train graph, which decomposes a shortest route into arrivals and
  transfers, and the stand-alone graph service and its Dijkstra search.
- **Loaders and the rush-hour test.** The two loaders: one builds the train system and graph
  from station records, the other builds `Station` objects from route files. Also the
  rush-hour test.

Each source file is one Dafny module:

- `Conversion`, `Distance` and `Geo` hold the values;
- `Lines` holds the line enumeration and the identifier format;
- `Positions`, `LegacyStation`, `Stations` and `CtaStations` hold the stations and positions;
- `TrainSystems`, `LegacyGraph` and `GraphServices` hold the registries and graphs;
- `DataLoading` and `StationLoading` hold the loaders;
- `RushPeriod` holds the rush-hour test;
- `Base` holds the shared `Option`, `Result` and `Outcome` types.

Python arguments are written as `Arg<T>` where the source checks them; an `Arg<T>` is `None`,
of the wrong type, or given. A raised `ValueError` becomes an `Err`/`Fail` that carries the
source's message. Objects whose fields the source updates in place are classes, and the rest
are datatypes.

The search is proved correct against an independent definition. With non-negative distances,
`find_best_path` returns a path exactly when the destination differs from the source and some
walk reaches it. The path it returns is a walk from the source to the destination, and no walk
between them costs less. The data loader is proved against a value-level account of what it
builds:

- which records are kept;
- which station object each identifier ends up naming;
- the order of the transfer queue;
- the edges of both link phases.

The proofs then show the following properties of the result:

- every edge weighs 1 or 2 and joins two open stations that were built;
- each adjacency between two open stations is an edge;
- the last queued transfer between two stations decides the edge's weight.

## Model

| member | source | states |
|---|---|---|
| Conversion.KilometersToMiles | backend/backend_legacy/legacy/utils/conversion.py:1-5 | zero stays zero; a non-negative distance in miles is never longer than the same distance in kilometres |
| Conversion.MilesToKilometers | backend/backend_legacy/legacy/utils/conversion.py:8-12 | zero stays zero; a non-negative distance in kilometres is never shorter than the same distance in miles |
| Conversion.ConversionFactors | backend/backend_legacy/legacy/utils/conversion.py:1-12 | one kilometre converts to 0.621371 miles and one mile to 1.60934 kilometres, and both conversions scale linearly, which fixes them on every distance |
| Conversion.LegacyKilometersMatchKilometerObject | backend/backend_legacy/legacy/utils/conversion.py:1-5 | for every non-negative distance, the legacy kilometre conversion gives exactly what `Kilometer.to_miles` (cta_optimizer/models/kilometer.py) gives |
| Conversion.ConversionsMonotone | backend/backend_legacy/legacy/utils/conversion.py:1-12 | both conversions preserve the order of distances |
| Conversion.RoundTripShrinks | backend/backend_legacy/legacy/utils/conversion.py:1-12 | the two factors are not inverses: converting to miles and back scales by 0.99999720514, so every non-zero distance changes and every positive one shrinks |
| Conversion.LegacyMilesShorterThanMileObject | backend/backend_legacy/legacy/utils/conversion.py:8-12 | the legacy conversion gives fewer kilometres for a positive mile distance than `Mile.to_kilometers` (cta_optimizer/models/mile.py) does |
| Distance.Kilometer.Equals | cta_optimizer/models/kilometer.py:25-32 | equal exactly to another `Kilometer` of the same value, never to `None` or another type; equal distances hash alike |
| Distance.Mile.Equals | cta_optimizer/models/mile.py:27-34 | equal exactly to another `Mile` of the same value; equal distances hash alike |
| Distance.NewKilometer | cta_optimizer/models/kilometer.py:2-12 | construction succeeds exactly for a given, non-negative number, and then keeps it |
| Distance.NewMile | cta_optimizer/models/mile.py:5-14 | construction succeeds exactly for a given, non-negative number, and then keeps it |
| Distance.AddKilometers | cta_optimizer/models/kilometer.py:19-20 | the sum of two distances always succeeds and is their total |
| Distance.SubKilometers | cta_optimizer/models/kilometer.py:22-23 | the difference fails exactly when the second distance is longer; otherwise it is `a - b`, no longer than `a` |
| Distance.AddMiles | cta_optimizer/models/mile.py:21-22 | the sum of two distances always succeeds and is their total |
| Distance.SubMiles | cta_optimizer/models/mile.py:24-25 | the difference fails exactly when the second distance is longer; otherwise it is `a - b` |
| Distance.ToMiles | cta_optimizer/models/kilometer.py:14-17 | conversion of a valid distance always succeeds, gives a valid `Mile`, and is never longer |
| Distance.ToKilometers | cta_optimizer/models/mile.py:16-19 | conversion of a valid distance always succeeds, gives a valid `Kilometer`, and is never shorter |
| Distance.ConversionFactors | cta_optimizer/models/kilometer.py:14-17 | one kilometre is 0.621371 miles and the conversion scales linearly; `Mile.to_kilometers` (cta_optimizer/models/mile.py:16-19) gives the distance that times 0.621371 is the mile value |
| Distance.OneMileInKilometers | cta_optimizer/models/mile.py:1-19 | one mile converts to between 1.60934 and 1.60935 kilometres |
| Distance.KilometerRoundTrip | cta_optimizer/models/kilometer.py:14-17 | kilometres to miles and back gives the original distance |
| Distance.MileRoundTrip | cta_optimizer/models/mile.py:16-19 | miles to kilometres and back gives the original distance |
| Geo.Location.Coordinates | cta_optimizer/location.py:31-32 | the pair is (latitude, longitude) as stored; the same holds for cta_optimizer/models/location.py:34-35 |
| Geo.Location.Equals | cta_optimizer/location.py:43-50 | equal exactly to a location with both coordinates equal, which is also exactly when the hashes agree; the same holds for cta_optimizer/models/location.py:71-78 |
| Geo.CheckLatitude | cta_optimizer/location.py:9-18 | accepted exactly when given and within [-90, 90], and then kept unchanged; the same holds for cta_optimizer/models/location.py:12-21 |
| Geo.CheckLongitude | cta_optimizer/location.py:20-29 | accepted exactly when given and within [-180, 180], and then kept unchanged; the same holds for cta_optimizer/models/location.py:23-32 |
| Geo.NewLocation | cta_optimizer/location.py:2-7 | a location is built exactly when both coordinates pass; it is valid and holds them; a bad latitude is reported first |
| Geo.DistanceArgument | cta_optimizer/models/location.py:51-52 | `distance_to` accepts exactly a given `Location` and uses it unchanged |
| Geo.BoundaryCoordinatesAccepted | cta_optimizer/location.py:9-29 | the range ends ±90 and ±180 are accepted, and values just beyond them are refused |
| Lines.LineName | src/train_line.py:11-24 | every line's value is non-empty and has no colon |
| Lines.OptLineName | backend/backend_legacy/legacy/train_station.py:130-136 | the printed form of an optional line has no colon, and a present line prints as its value |
| Lines.ParseLine | src/utils/data_loader.py:90 | a string parses to a line only when it is that line's value |
| Lines.ParseLineFails | src/utils/data_loader.py:90 | parsing fails exactly for strings that are no line's value |
| Lines.ParseLineName | src/train_line.py:11-24 | every line's value parses back to that line |
| Lines.JoinId | backend/backend_legacy/legacy/train_station.py:130-136 | the identifier is the prefix, a colon at position `\|prefix\|`, then the name |
| Lines.JoinIdInjective | backend/backend_legacy/legacy/train_station.py:130-136 | with colon-free prefixes, equal identifiers have equal prefixes and equal names |
| Lines.SplitId | src/train_system.py:70 | splitting at colons succeeds only for two colon-free parts, which join back to the input |
| Lines.SplitJoinId | src/train_system.py:70 | an identifier built from colon-free parts splits back into those parts |
| Lines.SplitRejectsColonInName | src/train_system.py:70 | an identifier whose name holds a colon cannot be split |
| Positions.FormatPosition | src/position/position_factory.py:31 | the cache key determines both coordinates |
| Positions.PositionFactory.constructor | src/position/position_factory.py:19 | the cache starts empty |
| Positions.PositionFactory.GetPosition | src/position/position_factory.py:21-39 | on a hit, returns the cached position and leaves the cache unchanged; on a miss, adds exactly that key; either way the position has the requested coordinates |
| Positions.PositionFactory.Length | src/position/position_factory.py:41-48 | the number of cached positions |
| Positions.PositionFactory.ClearPositions | src/position/position_factory.py:50-57 | the cache is empty afterwards |
| RushPeriod.IsRushPeriod | src/utils/is_rush_period.py:4-15 | never rush hour at weekends; on a weekday, rush hour exactly when the hour is 5–8 with minute < 10, or 14–17 with minute < 18 |
| RushPeriod.IsRushPeriodIntended | src/utils/is_rush_period.py:8 | never at weekends; on a weekday every minute of hours 5–8 and 14–17 counts, and nothing outside hours 5–9 and 14–18 |
| RushPeriod.AsWrittenWithinIntended | src/utils/is_rush_period.py:8-14 | every moment the code calls rush hour lies within the documented windows |
| RushPeriod.IntendedWindowEnds | src/utils/is_rush_period.py:8 | the documented windows end at 9:10 and 18:18 and start at 5:00 and 14:00 |
| RushPeriod.MinuteTestNarrowsWindow | src/utils/is_rush_period.py:12-14 | Monday 05:30, 09:05 and 17:45 fall in the documented windows, but the code does not call them rush hour |
| Stations.StationKey.Equals | cta_optimizer/models/station.py:82-93 | equal exactly to a station with the same name, location and route; equal stations hash alike |
| Stations.StationKey.Id | cta_optimizer/models/station.py:28-29 | the identifier begins with the route (or "None") and joins it to the name |
| Stations.RouteText | cta_optimizer/models/station.py:28-29 | a missing route prints as "None" |
| Stations.HashIgnoresRoute | cta_optimizer/models/station.py:82-93 | stations that differ only in route are unequal, yet hash alike |
| Stations.IdIgnoresLocation | cta_optimizer/models/station.py:28-29 | stations at two locations can share an identifier while being unequal |
| Stations.MissingRoutePrintsAsNone | cta_optimizer/models/station.py:28-29 | a missing route and the route "None" give the same identifier |
| Stations.IdDeterminesRouteAndName | cta_optimizer/models/station.py:28-29 | with colon-free routes, the identifier determines route text and name |
| Stations.CheckStation | cta_optimizer/models/station.py:95-127 | passes exactly for a given non-empty name, a given location and a route that is absent or a string; a missing or empty name gives its message |
| Stations.CheckNeighbour | cta_optimizer/models/station.py:43-45 | a neighbour is accepted exactly when it is given and differs from the station itself |
| Stations.Lookup | cta_optimizer/models/station.py:54-56 | the stored data for a known neighbour, and nothing for an unknown one |
| Stations.Station.constructor | cta_optimizer/models/station.py:10-26 | a new station is open, has no neighbours and keeps its name, location and route |
| Stations.Station.SetClosed | cta_optimizer/models/station.py:31-38 | sets the flag exactly when a boolean is given; otherwise fails and leaves it unchanged |
| Stations.Station.IsClosed | cta_optimizer/models/station.py:40-41 | the current flag |
| Stations.Station.AddTransferStation | cta_optimizer/models/station.py:43-45 | an accepted neighbour gets the data, replacing earlier data; a refused one changes nothing; the adjacency table is untouched; the station is never its own neighbour |
| Stations.Station.RemoveTransferStation | cta_optimizer/models/station.py:47-49 | an accepted neighbour is gone afterwards, and removing an absent one changes nothing; the adjacency table is untouched |
| Stations.Station.GetTransferData | cta_optimizer/models/station.py:54-56 | for an accepted neighbour, its stored data or nothing; otherwise the neighbour check's error |
| Stations.Station.AddAdjacentStation | cta_optimizer/models/station.py:58-60 | an accepted neighbour gets the data, replacing earlier data; a refused one changes nothing; the transfer table is untouched; the station is never its own neighbour |
| Stations.Station.RemoveAdjacentStation | cta_optimizer/models/station.py:62-64 | an accepted neighbour is gone afterwards, and removing an absent one changes nothing; the transfer table is untouched |
| Stations.Station.GetAdjacentData | cta_optimizer/models/station.py:69-71 | for an accepted neighbour, its stored data or nothing; otherwise the neighbour check's error |
| Stations.NewStation | cta_optimizer/models/station.py:10-26 | a station is built exactly when the checks pass; it is new, open and has no neighbours |
| CtaStations.LineText | cta_optimizer/cta/train_station.py:17-18 | a line prints as its value, which parses back to the line |
| CtaStations.CtaTrainStation.Id | cta_optimizer/cta/train_station.py:26-27 | the identifier begins with the line's text and joins it to the name |
| CtaStations.CtaTrainStation.GetLine | cta_optimizer/cta/train_station.py:29-30 | the line the station was built with |
| CtaStations.CtaTrainStation.Equals | cta_optimizer/cta/train_station.py:35-46 | equal exactly to a CTA station with the same name, location and line; equal stations hash alike |
| CtaStations.NewCtaTrainStation | cta_optimizer/cta/train_station.py:22-24 | built exactly when the base checks on name and location pass, and keeps its line unchecked |
| CtaStations.IdIdentifiesLineAndName | cta_optimizer/cta/train_station.py:26-27 | the identifier splits back into line text and name, and two stations share it exactly when they share line and name |
| CtaStations.EqualStationsShareId | cta_optimizer/cta/train_station.py:35-43 | a station equals itself, and a moved copy is unequal but keeps the identifier |
| LegacyStation.StationInfo.Id | backend/backend_legacy/legacy/train_station.py:130-136 | the identifier begins with the line's value and joins it to the name |
| LegacyStation.StationInfo.Equals | backend/backend_legacy/legacy/train_station.py:141-155 | equal exactly to a station with the same name, line and position; equal stations hash alike |
| LegacyStation.OptLineNameInjective | backend/backend_legacy/legacy/train_station.py:130-136 | different optional lines print differently |
| LegacyStation.IdDeterminesLineAndName | backend/backend_legacy/legacy/train_station.py:130-136 | equal identifiers mean equal lines and equal names |
| LegacyStation.NewStationInfo | backend/backend_legacy/legacy/train_station.py:22-31 | built exactly for a given name and position and a line that is absent or a line; a missing name is reported first |
| LegacyStation.NewAction | backend/backend_legacy/legacy/train_station.py:163-178 | built exactly for a given source and cost, and holds them |
| LegacyStation.TransferCost | backend/backend_legacy/legacy/train_station.py:210 | never negative, and positive exactly for a paid transfer |
| LegacyStation.NewTransfer | backend/backend_legacy/legacy/train_station.py:207-258 | built exactly for a given source and destination; it is paid exactly when asked to be, costs the fare when paid, and stays on one line exactly when both stations share it |
| LegacyStation.TrainStation.constructor | backend/backend_legacy/legacy/train_station.py:22-31 | a new station is open and lists no transfers |
| LegacyStation.TrainStation.Close | backend/backend_legacy/legacy/train_station.py:82-88 | the station is closed afterwards |
| LegacyStation.TrainStation.Open | backend/backend_legacy/legacy/train_station.py:90-96 | the station is open afterwards |
| LegacyStation.TrainStation.IsStationOpen | backend/backend_legacy/legacy/train_station.py:98-104 | the current open flag |
| LegacyStation.TrainStation.AddTransferStation | backend/backend_legacy/legacy/train_station.py:33-47 | a transfer is appended after the earlier ones; anything else is refused and changes nothing |
| LegacyGraph.ArrivalsAreRoute | backend/backend_legacy/legacy/train_graph.py:80-94 | the arrivals of the decomposed route are exactly the route's stations, in order |
| LegacyGraph.ItineraryLength | backend/backend_legacy/legacy/train_graph.py:80-94 | the route decomposes into one arrival per station plus one transfer per line change |
| LegacyGraph.ItineraryFree | backend/backend_legacy/legacy/train_graph.py:88-91 | every step the decomposition emits costs nothing |
| LegacyGraph.LastStepIsArrival | backend/backend_legacy/legacy/train_graph.py:80-94 | a non-empty route ends with the arrival at its last station |
| LegacyGraph.TransferPlacement | backend/backend_legacy/legacy/train_graph.py:84-91 | each transfer sits between the arrival at the station it leaves and the arrival at the station it reaches, on another line |
| LegacyGraph.FirstStepIsArrival | backend/backend_legacy/legacy/train_graph.py:80-94 | a route that starts at the source begins with the arrival at the source |
| LegacyGraph.TrainGraph.constructor | backend/backend_legacy/legacy/train_graph.py:8-9 | the graph starts with no nodes and no edges |
| LegacyGraph.TrainGraph.AddNode | backend/backend_legacy/legacy/train_graph.py:11-26 | a given station becomes a node; a missing one is refused; edges are untouched |
| LegacyGraph.TrainGraph.AddEdge | backend/backend_legacy/legacy/train_graph.py:28-48 | with both stations and a weight given, both become nodes and the edge gets that weight, replacing an earlier one; otherwise nothing changes |
| LegacyGraph.TrainGraph.Decompose | backend/backend_legacy/legacy/train_graph.py:80-94 | the loop emits exactly the itinerary of the route |
| LegacyGraph.TrainGraph.GetShortestPath | backend/backend_legacy/legacy/train_graph.py:50-94 | succeeds exactly when both stations are given and the library's search returns a route (`found`); the result's arrivals are that route, and it begins with the arrival at the source |
| TrainSystems.FirstNamed | src/train_system.py:75-77 | the first station on the list with that name and line, or none when no station has them |
| TrainSystems.Resolve | src/train_system.py:58-79 | a missing identifier, one that does not split into line and name, and an unknown line are errors; a station found has exactly that identifier and is listed under its line; none means no station of that line has that name |
| TrainSystems.AddedStationResolves | src/train_system.py:58-79 | a registered station with a colon-free name is found again by its own identifier, as a station with its name and line |
| TrainSystems.AddedKeepsRegistry | src/train_system.py:25-44 | adding keeps the registry well formed, raises the count by one, puts the station last on its line after the earlier entries, and leaves every other line unchanged |
| TrainSystems.TrainSystem.constructor | src/train_system.py:22-23 | a new system holds no lines and no stations |
| TrainSystems.TrainSystem.AddStation | src/train_system.py:25-44 | a given station is appended to its line, creating the line when new, and the count grows by one; a missing one is refused and changes nothing |
| TrainSystems.TrainSystem.GetStationsOnLine | src/train_system.py:46-56 | the line's list when the line is known; an error otherwise |
| TrainSystems.TrainSystem.GetStationFromId | src/train_system.py:58-79 | resolves the identifier against the current registry |
| TrainSystems.TrainSystem.Len | src/train_system.py:81-87 | the number of stations over all lines |
| GraphServices.Reverse | standalone/services/graph_service.py:53 | the same stations in the opposite order |
| GraphServices.SelectMin | standalone/services/graph_service.py:25-31 | none exactly when no unvisited station has been reached; otherwise an unvisited, reached station at the least tentative distance |
| GraphServices.Relax | standalone/services/graph_service.py:39-43 | each neighbour whose distance improves gets the new distance and the visited station as predecessor; every other station keeps both |
| GraphServices.RelaxStep | standalone/services/graph_service.py:40-43 | one more connection relaxed keeps the relaxation state |
| GraphServices.CostPrefix | standalone/services/graph_service.py:39-43 | with non-negative distances, a prefix of a walk costs no more than the whole walk |
| GraphServices.SettleBound | standalone/services/graph_service.py:24-43 | the station visited next is already at a distance no more than the cost of any walk to it |
| GraphServices.SettledKept | standalone/services/graph_service.py:39-43 | relaxing never changes the distance or predecessor of a visited station |
| GraphServices.RelaxLowers | standalone/services/graph_service.py:39-43 | relaxing never raises a tentative distance |
| GraphServices.SettleStep | standalone/services/graph_service.py:24-43 | visiting the nearest reached station keeps the search invariant: a predecessor tree of walks, ordered visits, relaxed frontier, optimal visited distances |
| GraphServices.Explore | standalone/services/graph_service.py:19-43 | the main loop ends with every reached station visited and the search invariant held |
| GraphServices.Visit | standalone/services/graph_service.py:36-43 | visiting one station keeps the search invariant |
| GraphServices.FinalReach | standalone/services/graph_service.py:24-43 | after the loop, every station some walk from the source reaches has a distance |
| GraphServices.FinalOptimal | standalone/services/graph_service.py:24-43 | after the loop, every reached station's distance is no more than the cost of any walk to it |
| GraphServices.Reconstruct | standalone/services/graph_service.py:48-53 | following predecessors back from the destination gives a walk from the source to it whose cost is its distance |
| GraphServices.NoPredecessorUnreachable | standalone/services/graph_service.py:45-46 | a destination without a predecessor is the source or unreachable |
| GraphServices.Graph.constructor | standalone/services/graph_service.py:9-10 | a new graph has no stations |
| GraphServices.Graph.AddStation | standalone/services/graph_service.py:12-13 | the station gets an empty connection table, and the other stations are unchanged |
| GraphServices.Graph.AddConnection | standalone/services/graph_service.py:15-16 | for a known source, the connection gets the distance, replacing an earlier one; an unknown source fails and changes nothing |
| GraphServices.Graph.FindBestPath | standalone/services/graph_service.py:18-53 | a path exactly when the destination differs from the source and is reachable; the path is a walk between them that costs no more than any other |
| GraphServices.GraphService.constructor | standalone/services/graph_service.py:56-57 | the service owns a new, empty graph |
| GraphServices.GraphService.BuildGraph | standalone/services/graph_service.py:59-61 | each listed station is present with no connections, and other stations keep theirs |
| GraphServices.GraphService.AddConnection | standalone/services/graph_service.py:63-64 | the graph's connection update: set on a known source, failure otherwise |
| GraphServices.GraphService.FindBestPath | standalone/services/graph_service.py:66-67 | the graph's cheapest path: present exactly when reachable and distinct, a walk, and of least cost |
| DataLoading.FileRecords | src/utils/data_loader.py:49-58 | a missing file or one without `stations` contributes no records; otherwise its list |
| DataLoading.AllRecordsAppend | src/utils/data_loader.py:49-58 | the records of consecutive file lists concatenate |
| DataLoading.Info | src/utils/data_loader.py:94-98 | an accepted record builds the station with its name, its line and its coordinates |
| DataLoading.FreeOf | src/utils/data_loader.py:123 | a transfer without a `free` flag is free |
| DataLoading.TransferWeight | src/utils/data_loader.py:162-164 | weight 1 exactly for a free transfer and 2 exactly for a paid one |
| DataLoading.FirstBadLine | src/utils/data_loader.py:86-90 | the position, if any, of a complete record whose line names no train line |
| DataLoading.FirstBadLineMeaning | src/utils/data_loader.py:86-90 | no line is refused exactly when every complete record names a known line; the records before the refused one are all accepted |
| DataLoading.FirstBadLineExtends | src/utils/data_loader.py:49-90 | records after the refused one do not change which one is refused |
| DataLoading.Scanned | src/utils/data_loader.py:60-90 | the load reads every record, or the records up to and including the refused one |
| DataLoading.PositionKeysAppend | src/utils/data_loader.py:79-82 | a record asks the factory for a position exactly when it has a name and both coordinates |
| DataLoading.Kept | src/utils/data_loader.py:62-88 | the records kept are exactly those with name, both coordinates and line |
| DataLoading.LastById | src/utils/data_loader.py:100-103 | every identifier maps to a kept record with that identifier, and every kept record's identifier is present |
| DataLoading.LaterRecordReplaces | src/utils/data_loader.py:100-103 | an identifier maps to the last record that has it |
| DataLoading.IdOrder | src/utils/data_loader.py:135 | the adjacency phase visits each identifier of the map exactly once |
| DataLoading.Pendings | src/utils/data_loader.py:117-125 | one queue entry per transfer of a station (its record, or the object built from it), in table order, with its `free` flag |
| DataLoading.Queue | src/utils/data_loader.py:117-125 | every queued transfer belongs to a kept record |
| DataLoading.NodesHave | src/utils/data_loader.py:106 | every kept record's station is a node of the graph, even one replaced later in the map |
| DataLoading.AdjacencyOpen | src/utils/data_loader.py:134-151 | the adjacency phase adds only weight-1 edges between open stations that were built |
| DataLoading.TransferOpen | src/utils/data_loader.py:153-166 | the transfer phase adds only weight-1 or weight-2 edges between open stations that were built |
| DataLoading.EdgesJoinOpenStations | src/utils/data_loader.py:134-166 | every edge of the loaded graph weighs 1 or 2 and joins two open stations that were built |
| DataLoading.LastAssignmentWins | src/utils/data_loader.py:166 | when edges are added in sequence, an edge's weight is the one given by the last addition for that pair |
| DataLoading.TransferAssigns | src/utils/data_loader.py:153-166 | the transfer phase is the queue's edge additions made in order, with skipped entries making none |
| DataLoading.TransferSetsWeight | src/utils/data_loader.py:153-166 | a queued transfer between two open loaded stations sets its edge to 1 or 2 as it is free or paid, unless a later transfer covers the same pair |
| DataLoading.AdjacencyLinked | src/utils/data_loader.py:134-151 | each adjacency between two open loaded stations is an edge of the loaded graph |
| DataLoading.TransferLinked | src/utils/data_loader.py:153-166 | in the loaded graph, the last queued transfer between two open stations decides the weight of their edge |
| DataLoading.Registered | src/utils/data_loader.py:128 | adding the built stations in order gives a well-formed registry counting all of them |
| DataLoading.ReadRecord | src/utils/data_loader.py:60-98 | a record is skipped exactly when incomplete, refused exactly when complete with an unknown line, and otherwise builds its station; the factory gains exactly the record's coordinates when it has a name and both of them |
| DataLoading.ScanStep | src/utils/data_loader.py:60-90 | one more record read extends the kept records and the refusal verdict as expected |
| DataLoading.LoadFile | src/utils/data_loader.py:60-128 | reading one file's records ends with the first refused line's message, or with the build state of all records kept so far |
| DataLoading.LoadRecord | src/utils/data_loader.py:60-128 | one record: refused with the line's message exactly when its line is unknown; otherwise kept when complete, with the build state kept |
| DataLoading.Refused | src/utils/data_loader.py:86-90 | a refused line after clean records is the load's first refusal, and reading stops there |
| DataLoading.AcceptRecord | src/utils/data_loader.py:94-128 | an accepted record joins the kept records and the build state holds |
| DataLoading.BuildStation | src/utils/data_loader.py:94-128 | a new station object that becomes a node and is registered, open exactly when the record leaves it open, with its transfers queued in table order |
| DataLoading.QueueTransfers | src/utils/data_loader.py:117-125 | the object's transfers are appended to the queue in table order |
| DataLoading.LinkAdjacent | src/utils/data_loader.py:134-151 | the adjacency phase adds exactly the value-level adjacency edges and no nodes |
| DataLoading.LinkStation | src/utils/data_loader.py:136-151 | one station's adjacency list adds exactly its links, in order |
| DataLoading.LinkNeighbour | src/utils/data_loader.py:138-151 | one adjacent identifier adds a weight-1 edge exactly when it was loaded and both stations are open |
| DataLoading.LinkTransfers | src/utils/data_loader.py:153-166 | the transfer phase adds exactly the value-level transfer edges, in queue order |
| DataLoading.TransferStep | src/utils/data_loader.py:154-166 | the transfer phase over one more queued entry |
| DataLoading.LinkTransfer | src/utils/data_loader.py:155-166 | one queued transfer adds its edge exactly when the other station was loaded and both are open |
| DataLoading.LoadData | src/utils/data_loader.py:25-172 | no file list is an error that changes nothing; otherwise the load succeeds exactly when no complete record names an unknown line, and fails with that line's message; the factory gains the positions of the records read; on success, new system and graph objects hold one station per kept record, open as its record says, with the graph's nodes and edges as both link phases make them |
| DataLoading.Finish | src/utils/data_loader.py:134-166 | after a clean build, both link phases produce the loaded graph |
| DataLoading.LoadFiles | src/utils/data_loader.py:49-132 | the files are read in order until the first refused line; the factory gains the positions of the records read |
| DataLoading.FilesRefused | src/utils/data_loader.py:49-90 | once a file holds a refused line, later files change neither the refusal nor what was read |
| DataLoading.LinkStations | src/utils/data_loader.py:134-166 | both link phases over the build state give the loaded graph |
| DataLoading.LinkGraph | src/utils/data_loader.py:134-166 | the adjacency phase, then the transfer phase, over the graph's current edges |
| StationLoading.StopProblem | cta_optimizer/station_data_loader.py:75 | a stop builds its station exactly when both coordinates are in range and its name is non-empty |
| StationLoading.FirstProblem | cta_optimizer/station_data_loader.py:73-75 | a file raises no error exactly when every stop builds |
| StationLoading.ScreenPasses | cta_optimizer/station_data_loader.py:65-75 | the first pass gets through exactly when every file is readable and every stop builds, and it passes on the files in order |
| StationLoading.ScreenStops | cta_optimizer/station_data_loader.py:65-75 | the first unreadable or refused file decides the outcome, and later files do not matter |
| StationLoading.KeysOf | cta_optimizer/station_data_loader.py:73-75 | every stop's `route:name` identifier is a key |
| StationLoading.IdOrder | cta_optimizer/station_data_loader.py:89 | identifiers are listed without repetition, in first-insertion order |
| StationLoading.IdOrderCoversKeys | cta_optimizer/station_data_loader.py:89 | the order lists exactly the keys of the map |
| StationLoading.AdjKeysComplete | cta_optimizer/station_data_loader.py:81-87 | every adjacent identifier that was loaded is linked |
| StationLoading.AdjKeysSound | cta_optimizer/station_data_loader.py:83-84 | only loaded adjacent identifiers are linked |
| StationLoading.ForwardReferenceLinked | cta_optimizer/station_data_loader.py:65-87 | an adjacent identifier that names a stop in a later file is still linked |
| StationLoading.LinkSetSound | cta_optimizer/station_data_loader.py:77-87 | every neighbour of a station comes from some stop with its identifier listing a loaded station |
| StationLoading.CheckFiles | cta_optimizer/station_data_loader.py:40-48 | the file list is accepted exactly when given and non-empty, with each error's message |
| StationLoading.StationDataLoader.constructor | cta_optimizer/station_data_loader.py:39-50 | the loader keeps the accepted file list |
| StationLoading.StationDataLoader.LoadStations | cta_optimizer/station_data_loader.py:52-96 | an unreadable file gives no stations; a stop that does not build gives its error; otherwise the load succeeds exactly when no stop lists a station equal to its own, and then returns one new, open station per identifier, adjacent to exactly what its stops name |
| StationLoading.LoadedValues | cta_optimizer/station_data_loader.py:89 | the stations of the map in identifier order form the loaded result |
| StationLoading.Values | cta_optimizer/station_data_loader.py:89 | the map's values in the given key order |
| StationLoading.CreateStations | cta_optimizer/station_data_loader.py:65-75 | the first pass reaches the first-pass verdict and, when readable, one new, unlinked station per identifier, built from the last stop with it |
| StationLoading.CreateFileStations | cta_optimizer/station_data_loader.py:73-75 | one file's stops are created until the first that does not build |
| StationLoading.CreateNext | cta_optimizer/station_data_loader.py:73-75 | one more stop is created, or its problem is the file's first |
| StationLoading.CreateStop | cta_optimizer/station_data_loader.py:74-75 | a stop that builds replaces the station under its identifier with a new one |
| StationLoading.Record | cta_optimizer/station_data_loader.py:75 | storing the new station under the stop's identifier keeps the first-pass state |
| StationLoading.LinkStations | cta_optimizer/station_data_loader.py:77-87 | the second pass succeeds exactly when no stop lists a station equal to its own, and then links every station to exactly what its stops name |
| StationLoading.LinkFile | cta_optimizer/station_data_loader.py:79-87 | one file's stops are linked in order, failing exactly at a self-link |
| StationLoading.LinkStop | cta_optimizer/station_data_loader.py:80-87 | one stop's links are added, failing exactly when one of them is the station itself |
| StationLoading.AddNeighbours | cta_optimizer/station_data_loader.py:81-87 | the loaded adjacent stations are added with no data, failing exactly when one is the station itself |

## Left out

- The clock is left out. `is_rush_period()` takes a (weekday, hour, minute) reading, and the loader takes the rush-hour verdict as its `isRush` argument.
- File I/O, JSON decoding, pydantic validation, `print` and the loader's final log line are left out. For the train-system loader, a `Missing` file stands for `FileNotFoundError`, and a file parsed without `stations` is `Parsed(None)`. The loader catches only `FileNotFoundError`, so any other `OSError` or a `JSONDecodeError` ends `load_data` with an exception; files are only missing or parsed here, so that abort is not modelled. For the station loader, a `None` parsed file stands for `OSError`, `JSONDecodeError` or `ValidationError`.
- `load_data`'s unused `line` argument and its `base_path` are left out.
- Absent `closed`, `rush_period_only` and `free` flags, and absent `transfers` and `adjacent` lists, take the defaults the loader gives them. Values of other JSON types are not modelled.
- The deque's `popleft` loop is modelled as iteration over the queue by index.
- The position factory's class-level dictionary is one factory object that the caller passes in. `format_position`'s string key is modelled as the coordinate pair it is built from.
- Iteration over a `set` or `dict` whose order Python leaves open is modelled as an arbitrary choice. This covers the graph service's unvisited set. Dictionaries iterate in insertion order, and the model follows that order.
- src/train_station.py and src/train_graph.py are not part of this model. The train-system loader uses the legacy station and graph in their place. cta_optimizer/station.py is not part of this model, and `Stations.Station` (cta_optimizer/models/station.py) stands in for it.
- Python's `isinstance` checks are modelled through `Arg` where the source checks a value. The legacy graph's checks of its station arguments are nullable references.
- The network-library shortest-path call is left out: `LegacyGraph.TrainGraph.GetShortestPath` takes its result as the `found` argument, with `None` for a missing path or node.
- The `KeyError` that `Graph.add_connection` raises for an unknown source is modelled as a failure.
- The Haversine distance in `Location.distance_to`, square roots and the position objects' distance are left out. Only the argument check of `distance_to` is modelled. Floating-point numbers are modelled as exact reals.
- `FARE_COST` lives in a constants module that is not part of this model. It is 2.5 here, and the proofs use only that it is positive.
- The legacy station's transfer list is a sequence, so duplicates are kept as the source keeps them.
- `__str__` methods, logging and getters without logic beyond those listed are left out. So are cta_station_data_loader.py, main.py and the data scripts.
- GraphServices.Graph.FindBestPath: requires non-negative distances. With a negative cycle, the source's predecessor walk can loop forever, so the search is proved only for non-negative distances. The same holds for `GraphServices.Explore` and `GraphServices.GraphService.FindBestPath`.
- Distance.ToMiles: its own contract states only validity and the bound. The exact factor is stated by `Distance.ConversionFactors` and `Conversion.LegacyKilometersMatchKilometerObject`. The round-trip lemmas alone hold for any factor applied and then undone, and `Distance.OneMileInKilometers` only bounds the inverse factor between 1.60934 and 1.60935.
- Distance.ToKilometers: its own contract states only validity and the bound; `Distance.ConversionFactors` states that the result times 0.621371 is the mile value.
- RushPeriod.IsRushPeriodIntended: requires a minute below 60, as a clock reading always has.
- LegacyGraph.TrainGraph.GetShortestPath: requires a found route to be a route of the graph from the source to the destination, as the library's search guarantees.

## Findings

| source | as written | input that shows it | evidently intended | confidence | as-written member | corrected member |
|---|---|---|---|---|---|---|
| src/utils/is_rush_period.py:8-14 | the minute test applies to every hour of a window, so only minutes 0–9 of 5–8 AM and 0–17 of 2–5 PM count | a weekday at 05:30, 09:05 or 17:45 | rush hour from 5:00 to 9:10 and from 14:00 to 18:18 on weekdays, as the function's documentation says | not executed | RushPeriod.MinuteTestNarrowsWindow | RushPeriod.IsRushPeriodIntended |
