/** The build phase of the train-system loader: already-parsed station records become legacy
    station objects registered in a train system and nodes of a train graph, then adjacency
    and transfer links between open stations become weighted edges. The value-level functions
    below say what the build produces; the methods at the end build it in place. */
module DataLoading {
  import opened Base
  import opened Lines
  import opened Positions
  import opened LegacyStation
  import opened LegacyGraph
  import opened TrainSystems

  /** The `position` object of a record; either coordinate may be missing. */
  datatype RecordPosition = RecordPosition(lat: Option<real>, lng: Option<real>)

  /** One entry of a record's `transfers` table: the other station's id and its `free` flag,
      when the entry has one. */
  datatype TransferRecord = TransferRecord(id: string, free: Option<bool>)

  /** One station record. A missing or false `closed` / `rush_period_only` is `false`; a
      missing `transfers` or `adjacent` is empty. */
  datatype StationRecord = StationRecord(
    name: Option<string>,
    position: Option<RecordPosition>,
    line: Option<string>,
    closed: bool,
    rushPeriodOnly: bool,
    transfers: seq<TransferRecord>,
    adjacent: seq<string>)

  /** A data file: missing, or parsed with or without a `stations` list. */
  datatype DataFile = Missing | Parsed(stations: Option<seq<StationRecord>>)

  /** A transfer waiting for the link phase: the station object, the other station's id and
      whether the transfer is free. */
  type Pending = (TrainStation, string, bool)

  /** The same at the level of records. */
  type PendingRecord = (StationRecord, string, bool)

  /** The records a file contributes: none when it is missing or has no `stations`. */
  function FileRecords(f: DataFile): (recs: seq<StationRecord>)
    ensures f.Parsed? && f.stations.Some? ==> recs == f.stations.value
    ensures f.Missing? || f.stations.None? ==> recs == []
  {
    if f.Parsed? && f.stations.Some? then f.stations.value else []
  }

  /** The records of all files, file after file. */
  function AllRecords(files: seq<DataFile>): seq<StationRecord>
    decreases |files|
  {
    if files == [] then [] else AllRecords(files[..|files| - 1]) + FileRecords(files[|files| - 1])
  }

  lemma {:induction false} AllRecordsAppend(a: seq<DataFile>, b: seq<DataFile>)
    ensures AllRecords(a + b) == AllRecords(a) + AllRecords(b)
    decreases |b|
  {
    if b == [] {
      assert a + b == a;
    } else {
      var n := |b| - 1;
      var ab := a + b;
      assert ab[..|ab| - 1] == a + b[..n];
      assert ab[|ab| - 1] == b[n];
      calc {
        AllRecords(ab);
        AllRecords(a + b[..n]) + FileRecords(b[n]);
        { AllRecordsAppend(a, b[..n]); }
        (AllRecords(a) + AllRecords(b[..n])) + FileRecords(b[n]);
        AllRecords(a) + (AllRecords(b[..n]) + FileRecords(b[n]));
      }
    }
  }

  /** The record has a name and both coordinates: its position is fetched from the factory. */
  predicate Positioned(r: StationRecord)
  {
    r.name.Some? && r.position.Some? && r.position.value.lat.Some? && r.position.value.lng.Some?
  }

  /** The record also has a line: a station is built from it, or its line is refused. */
  predicate Complete(r: StationRecord)
  {
    Positioned(r) && r.line.Some?
  }

  /** A complete record whose line names a train line. */
  predicate Accepted(r: StationRecord)
  {
    Complete(r) && ParseLine(r.line.value).Some?
  }

  function Coordinates(r: StationRecord): PositionKey
    requires Positioned(r)
  {
    FormatPosition(r.position.value.lat.value, r.position.value.lng.value)
  }

  /** The station an accepted record builds. */
  function Info(r: StationRecord): (info: StationInfo)
    requires Accepted(r)
    ensures info.name == r.name.value && info.line.Some? && LineName(info.line.value) == r.line.value
    ensures info.position == Position(Coordinates(r).0, Coordinates(r).1)
  {
    StationInfo(r.name.value, ParseLine(r.line.value), Position(r.position.value.lat.value, r.position.value.lng.value))
  }

  /** The `line:name` key of the station an accepted record builds. */
  function StopId(r: StationRecord): string
    requires Accepted(r)
  {
    Info(r).Id()
  }

  /** The station stays open unless its record closes it, or it runs only in the rush period
      and the load happens outside it. */
  predicate IsOpen(r: StationRecord, isRush: bool)
  {
    !r.closed && !(r.rushPeriodOnly && !isRush)
  }

  /** A transfer is free unless its entry says otherwise. */
  function FreeOf(t: TransferRecord): (free: bool)
    ensures t.free.None? ==> free
    ensures t.free.Some? ==> free == t.free.value
  {
    GetOr(t.free, true)
  }

  /** A free transfer costs one, a paid one two. */
  function TransferWeight(free: bool): (w: real)
    ensures free <==> w == 1.0
    ensures !free <==> w == 2.0
  {
    if free then 1.0 else 2.0
  }

  /** The first complete record whose line is refused; reaching it ends the load. */
  function FirstBadLine(recs: seq<StationRecord>): (r: Option<nat>)
    ensures r.Some? ==> r.value < |recs| && Complete(recs[r.value]) && !Accepted(recs[r.value])
    decreases |recs|
  {
    if recs == [] then None
    else
      var n := |recs| - 1;
      match FirstBadLine(recs[..n])
      case Some(i) => Some(i)
      case None => if Complete(recs[n]) && !Accepted(recs[n]) then Some(n) else None
  }

  /** No line is refused exactly when every complete record's line is known; a refused line
      is the first complete record with an unknown line. */
  lemma {:induction false} FirstBadLineMeaning(recs: seq<StationRecord>)
    ensures FirstBadLine(recs).None? <==> forall x | x in recs && Complete(x) :: Accepted(x)
    ensures FirstBadLine(recs).Some? ==> forall x | x in recs[..FirstBadLine(recs).value] && Complete(x) :: Accepted(x)
    decreases |recs|
  {
    if recs != [] {
      var n := |recs| - 1;
      SplitLast(recs);
      FirstBadLineMeaning(recs[..n]);
      if FirstBadLine(recs[..n]).Some? {
        var i := FirstBadLine(recs[..n]).value;
        assert recs[..i] == recs[..n][..i];
      }
    }
  }

  /** Records after the first refused line do not change the verdict. */
  lemma {:induction false} FirstBadLineExtends(p: seq<StationRecord>, s: seq<StationRecord>)
    requires FirstBadLine(p).Some?
    ensures FirstBadLine(p + s) == FirstBadLine(p)
    decreases |s|
  {
    if s == [] {
      assert p + s == p;
    } else {
      var n := |s| - 1;
      assert (p + s)[..|p + s| - 1] == p + s[..n];
      FirstBadLineExtends(p, s[..n]);
    }
  }

  /** The records the load reads: all of them, or those up to and including the refused one. */
  function Scanned(recs: seq<StationRecord>): (read: seq<StationRecord>)
    ensures FirstBadLine(recs).None? ==> read == recs
    ensures FirstBadLine(recs).Some? ==> read == recs[..FirstBadLine(recs).value + 1]
  {
    match FirstBadLine(recs)
    case None => recs
    case Some(i) => recs[..i + 1]
  }

  /** The coordinates the position factory is asked for while reading `recs`. */
  function PositionKeys(recs: seq<StationRecord>): set<PositionKey>
    decreases |recs|
  {
    if recs == [] then {}
    else
      var n := |recs| - 1;
      PositionKeys(recs[..n]) + (if Positioned(recs[n]) then {Coordinates(recs[n])} else {})
  }

  lemma PositionKeysAppend(recs: seq<StationRecord>, r: StationRecord)
    ensures PositionKeys(recs + [r]) == PositionKeys(recs) + (if Positioned(r) then {Coordinates(r)} else {})
  {
    assert (recs + [r])[..|recs|] == recs;
  }

  /** The complete records, in order: a record missing a name, a coordinate or a line is
      skipped and builds nothing. */
  function Kept(recs: seq<StationRecord>): (kept: seq<StationRecord>)
    ensures forall x :: x in kept <==> x in recs && Complete(x)
    ensures |kept| <= |recs|
    decreases |recs|
  {
    if recs == [] then []
    else
      var n := |recs| - 1;
      SplitLast(recs);
      Kept(recs[..n]) + (if Complete(recs[n]) then [recs[n]] else [])
  }

  ghost predicate AllAccepted(kept: seq<StationRecord>)
  {
    forall x | x in kept :: Accepted(x)
  }

  /** The id map after the build: each id maps to the record of its last station. */
  function LastById(kept: seq<StationRecord>): (last: map<string, StationRecord>)
    requires AllAccepted(kept)
    ensures forall id | id in last :: last[id] in kept && StopId(last[id]) == id
    ensures forall x | x in kept :: StopId(x) in last
    decreases |kept|
  {
    if kept == [] then map[]
    else
      var n := |kept| - 1;
      SplitLast(kept);
      LastById(kept[..n])[StopId(kept[n]) := kept[n]]
  }

  /** A later record with the same id replaces an earlier one: the map holds the record of
      the last station built under each id. */
  lemma {:induction false} LaterRecordReplaces(kept: seq<StationRecord>, i: nat)
    requires AllAccepted(kept) && i < |kept|
    requires forall j | i < j < |kept| :: StopId(kept[j]) != StopId(kept[i])
    ensures LastById(kept)[StopId(kept[i])] == kept[i]
    decreases |kept|
  {
    var n := |kept| - 1;
    SplitLast(kept);
    var id := StopId(kept[i]);
    if i < n {
      assert kept[..n][i] == kept[i];
      assert StopId(kept[n]) != id;
      LaterRecordReplaces(kept[..n], i);
    }
  }

  /** The order of the id map's keys: first insertion; a replaced entry keeps its place. */
  function IdOrder(kept: seq<StationRecord>): (order: seq<string>)
    requires AllAccepted(kept)
    ensures forall id :: id in order <==> id in LastById(kept)
    ensures forall i, j | 0 <= i < j < |order| :: order[i] != order[j]
    decreases |kept|
  {
    if kept == [] then []
    else
      var n := |kept| - 1;
      SplitLast(kept);
      var prev := IdOrder(kept[..n]);
      if StopId(kept[n]) in prev then prev else prev + [StopId(kept[n])]
  }

  /** Every id maps to an accepted record. */
  ghost predicate Loaded(last: map<string, StationRecord>)
  {
    forall id | id in last :: Accepted(last[id])
  }

  /** One adjacency link: an edge of weight one from the record's station to the station
      loaded under `a`, when `a` was loaded and both are open; an unknown `a` is skipped. */
  function Link(rec: StationRecord, a: string, last: map<string, StationRecord>, isRush: bool,
                e: map<Edge, real>): map<Edge, real>
    requires Accepted(rec) && Loaded(last)
  {
    if a in last && IsOpen(last[a], isRush) && IsOpen(rec, isRush) then e[(Info(rec), Info(last[a])) := 1.0]
    else e
  }

  /** The links of one record's `adjacent` list, in order. */
  function LinkAll(rec: StationRecord, adjacent: seq<string>, last: map<string, StationRecord>, isRush: bool,
                   e: map<Edge, real>): map<Edge, real>
    requires Accepted(rec) && Loaded(last)
    decreases |adjacent|
  {
    if adjacent == [] then e
    else
      var n := |adjacent| - 1;
      Link(rec, adjacent[n], last, isRush, LinkAll(rec, adjacent[..n], last, isRush, e))
  }

  /** The adjacency phase: the ids in map order, each with the adjacency list of its record. */
  function AdjacencyEdges(order: seq<string>, last: map<string, StationRecord>, isRush: bool,
                          e: map<Edge, real>): map<Edge, real>
    requires Loaded(last) && forall id | id in order :: id in last
    decreases |order|
  {
    if order == [] then e
    else
      var n := |order| - 1;
      var rec := last[order[n]];
      LinkAll(rec, rec.adjacent, last, isRush, AdjacencyEdges(order[..n], last, isRush, e))
  }

  /** The queue entries of one station, a record or the object built from it: one per
      transfer, in table order. */
  function Pendings<S>(owner: S, transfers: seq<TransferRecord>): (q: seq<(S, string, bool)>)
    ensures |q| == |transfers|
    ensures forall k | 0 <= k < |q| :: q[k] == (owner, transfers[k].id, FreeOf(transfers[k]))
    decreases |transfers|
  {
    if transfers == [] then []
    else
      var n := |transfers| - 1;
      Pendings(owner, transfers[..n]) + [(owner, transfers[n].id, FreeOf(transfers[n]))]
  }

  /** The transfer queue after the build: every built station's transfers, station after
      station, replaced stations included. */
  function Queue(kept: seq<StationRecord>): (q: seq<PendingRecord>)
    ensures forall p | p in q :: p.0 in kept
    decreases |kept|
  {
    if kept == [] then []
    else
      var n := |kept| - 1;
      SplitLast(kept);
      Queue(kept[..n]) + Pendings(kept[n], kept[n].transfers)
  }

  /** One transfer link: an edge from the queued station to the station loaded under the
      other id, weighing one when free and two when paid, when the other id was loaded and
      both are open; an unknown id is skipped. */
  function Connect(p: PendingRecord, last: map<string, StationRecord>, isRush: bool, e: map<Edge, real>): map<Edge, real>
    requires Accepted(p.0) && Loaded(last)
  {
    if Connects(p, last, isRush) then e[Pair(p, last) := TransferWeight(p.2)] else e
  }

  /** The other station was loaded, and both are open. */
  predicate Connects(p: PendingRecord, last: map<string, StationRecord>, isRush: bool)
  {
    p.1 in last && IsOpen(last[p.1], isRush) && IsOpen(p.0, isRush)
  }

  /** The edge a queued transfer stands for. */
  function Pair(p: PendingRecord, last: map<string, StationRecord>): Edge
    requires Accepted(p.0) && Loaded(last) && p.1 in last
  {
    (Info(p.0), Info(last[p.1]))
  }

  /** The transfer phase: the queue in order. */
  function TransferEdges(q: seq<PendingRecord>, last: map<string, StationRecord>, isRush: bool,
                         e: map<Edge, real>): map<Edge, real>
    requires Loaded(last) && forall p | p in q :: Accepted(p.0)
    decreases |q|
  {
    if q == [] then e
    else
      var n := |q| - 1;
      assert q[n] in q;
      Connect(q[n], last, isRush, TransferEdges(q[..n], last, isRush, e))
  }

  /** The graph's nodes after the build: every station built, replaced and closed ones too. */
  function Nodes(kept: seq<StationRecord>): set<StationInfo>
    requires AllAccepted(kept)
    decreases |kept|
  {
    if kept == [] then {}
    else
      var n := |kept| - 1;
      assert kept[n] in kept;
      Nodes(kept[..n]) + {Info(kept[n])}
  }

  /** Every record kept has its station among the nodes. */
  lemma {:induction false} NodesHave(kept: seq<StationRecord>, x: StationRecord)
    requires AllAccepted(kept) && x in kept
    ensures Info(x) in Nodes(kept)
    decreases |kept|
  {
    var n := |kept| - 1;
    if x != kept[n] {
      SplitLast(kept);
      NodesHave(kept[..n], x);
    }
  }

  /** The graph's edges after both link phases. */
  function Edges(kept: seq<StationRecord>, isRush: bool): map<Edge, real>
    requires AllAccepted(kept)
  {
    var last := LastById(kept);
    TransferEdges(Queue(kept), last, isRush, AdjacencyEdges(IdOrder(kept), last, isRush, map[]))
  }

  /** Every edge weighs one or two and joins two open stations that were built. */
  ghost predicate OpenEdges(e: map<Edge, real>, kept: seq<StationRecord>, isRush: bool)
    requires AllAccepted(kept)
  {
    forall k | k in e ::
      && (e[k] == 1.0 || e[k] == 2.0)
      && exists x, y | x in kept && y in kept :: IsOpen(x, isRush) && IsOpen(y, isRush) && k == (Info(x), Info(y))
  }

  lemma {:induction false} LinkAllOpen(rec: StationRecord, adjacent: seq<string>, last: map<string, StationRecord>,
                                       isRush: bool, e: map<Edge, real>, kept: seq<StationRecord>)
    requires AllAccepted(kept) && Loaded(last) && rec in kept
    requires forall id | id in last :: last[id] in kept
    requires OpenEdges(e, kept, isRush)
    ensures OpenEdges(LinkAll(rec, adjacent, last, isRush, e), kept, isRush)
    decreases |adjacent|
  {
    if adjacent != [] {
      LinkAllOpen(rec, adjacent[..|adjacent| - 1], last, isRush, e, kept);
    }
  }

  lemma {:induction false} AdjacencyOpen(order: seq<string>, last: map<string, StationRecord>, isRush: bool,
                                         e: map<Edge, real>, kept: seq<StationRecord>)
    requires AllAccepted(kept) && Loaded(last) && forall id | id in order :: id in last
    requires forall id | id in last :: last[id] in kept
    requires OpenEdges(e, kept, isRush)
    ensures OpenEdges(AdjacencyEdges(order, last, isRush, e), kept, isRush)
    decreases |order|
  {
    if order != [] {
      var n := |order| - 1;
      AdjacencyOpen(order[..n], last, isRush, e, kept);
      var rec := last[order[n]];
      LinkAllOpen(rec, rec.adjacent, last, isRush, AdjacencyEdges(order[..n], last, isRush, e), kept);
    }
  }

  lemma {:induction false} TransferOpen(q: seq<PendingRecord>, last: map<string, StationRecord>, isRush: bool,
                                        e: map<Edge, real>, kept: seq<StationRecord>)
    requires AllAccepted(kept) && Loaded(last) && forall p | p in q :: p.0 in kept
    requires forall id | id in last :: last[id] in kept
    requires OpenEdges(e, kept, isRush)
    ensures OpenEdges(TransferEdges(q, last, isRush, e), kept, isRush)
    decreases |q|
  {
    if q != [] {
      var n := |q| - 1;
      assert q[n] in q;
      TransferOpen(q[..n], last, isRush, e, kept);
    }
  }

  /** No edge starts or ends at a closed station, and every weight is one or two. */
  lemma EdgesJoinOpenStations(kept: seq<StationRecord>, isRush: bool)
    requires AllAccepted(kept)
    ensures OpenEdges(Edges(kept, isRush), kept, isRush)
  {
    var last := LastById(kept);
    AdjacencyOpen(IdOrder(kept), last, isRush, map[], kept);
    TransferOpen(Queue(kept), last, isRush, AdjacencyEdges(IdOrder(kept), last, isRush, map[]), kept);
  }

  lemma {:induction false} LinkAllGrows(rec: StationRecord, adjacent: seq<string>, last: map<string, StationRecord>,
                                        isRush: bool, e: map<Edge, real>)
    requires Accepted(rec) && Loaded(last)
    ensures e.Keys <= LinkAll(rec, adjacent, last, isRush, e).Keys
    decreases |adjacent|
  {
    if adjacent != [] {
      LinkAllGrows(rec, adjacent[..|adjacent| - 1], last, isRush, e);
    }
  }

  lemma {:induction false} LinkAllHas(rec: StationRecord, adjacent: seq<string>, last: map<string, StationRecord>,
                                      isRush: bool, e: map<Edge, real>, a: string)
    requires Accepted(rec) && Loaded(last)
    requires a in adjacent && a in last && IsOpen(last[a], isRush) && IsOpen(rec, isRush)
    ensures (Info(rec), Info(last[a])) in LinkAll(rec, adjacent, last, isRush, e)
    decreases |adjacent|
  {
    var n := |adjacent| - 1;
    if adjacent[n] != a {
      assert adjacent == adjacent[..n] + [adjacent[n]];
      LinkAllHas(rec, adjacent[..n], last, isRush, e, a);
    }
  }

  lemma {:induction false} AdjacencyGrows(order: seq<string>, last: map<string, StationRecord>, isRush: bool,
                                          e: map<Edge, real>)
    requires Loaded(last) && forall id | id in order :: id in last
    ensures e.Keys <= AdjacencyEdges(order, last, isRush, e).Keys
    decreases |order|
  {
    if order != [] {
      var n := |order| - 1;
      AdjacencyGrows(order[..n], last, isRush, e);
      LinkAllGrows(last[order[n]], last[order[n]].adjacent, last, isRush, AdjacencyEdges(order[..n], last, isRush, e));
    }
  }

  lemma {:induction false} AdjacencyHas(order: seq<string>, last: map<string, StationRecord>, isRush: bool,
                                        e: map<Edge, real>, id: string, a: string)
    requires Loaded(last) && forall id | id in order :: id in last
    requires id in order && a in last[id].adjacent && a in last
    requires IsOpen(last[id], isRush) && IsOpen(last[a], isRush)
    ensures (Info(last[id]), Info(last[a])) in AdjacencyEdges(order, last, isRush, e)
    decreases |order|
  {
    var n := |order| - 1;
    var prev := AdjacencyEdges(order[..n], last, isRush, e);
    if order[n] == id {
      LinkAllHas(last[id], last[id].adjacent, last, isRush, prev, a);
    } else {
      SplitLast(order);
      AdjacencyHas(order[..n], last, isRush, e, id, a);
      LinkAllGrows(last[order[n]], last[order[n]].adjacent, last, isRush, prev);
    }
  }

  lemma {:induction false} TransferGrows(q: seq<PendingRecord>, last: map<string, StationRecord>, isRush: bool,
                                         e: map<Edge, real>)
    requires Loaded(last) && forall p | p in q :: Accepted(p.0)
    ensures e.Keys <= TransferEdges(q, last, isRush, e).Keys
    decreases |q|
  {
    if q != [] {
      TransferGrows(q[..|q| - 1], last, isRush, e);
    }
  }

  /** Dictionary assignments in order, a missing one skipped: a later assignment to a key
      replaces an earlier one. */
  function Assign<K, V>(us: seq<Option<(K, V)>>, m: map<K, V>): map<K, V>
    decreases |us|
  {
    if us == [] then m
    else
      var prev := Assign(us[..|us| - 1], m);
      match us[|us| - 1]
      case None => prev
      case Some((k, v)) => prev[k := v]
  }

  /** The assignment at `i` decides the value of its key when no later one assigns that key. */
  lemma {:induction false} LastAssignmentWins<K, V>(us: seq<Option<(K, V)>>, m: map<K, V>, i: nat)
    requires i < |us| && us[i].Some?
    requires forall j | i < j < |us| && us[j].Some? :: us[j].value.0 != us[i].value.0
    ensures us[i].value.0 in Assign(us, m) && Assign(us, m)[us[i].value.0] == us[i].value.1
    decreases |us|
  {
    var n := |us| - 1;
    if i < n {
      assert us[..n][i] == us[i];
      assert forall j | i < j < n :: us[..n][j] == us[j];
      LastAssignmentWins(us[..n], m, i);
    }
  }

  /** The assignment a queued transfer makes, if any. */
  function Update(p: PendingRecord, last: map<string, StationRecord>, isRush: bool): Option<(Edge, real)>
    requires Accepted(p.0) && Loaded(last)
  {
    if Connects(p, last, isRush) then Some((Pair(p, last), TransferWeight(p.2))) else None
  }

  /** The assignments the queued transfers make, in queue order. */
  function Updates(q: seq<PendingRecord>, last: map<string, StationRecord>, isRush: bool): (us: seq<Option<(Edge, real)>>)
    requires Loaded(last) && forall p | p in q :: Accepted(p.0)
    ensures |us| == |q|
  {
    seq(|q|, k requires 0 <= k < |q| => assert q[k] in q; Update(q[k], last, isRush))
  }

  /** The transfer phase is the queue's assignments made in order. */
  lemma {:induction false} TransferAssigns(q: seq<PendingRecord>, last: map<string, StationRecord>, isRush: bool,
                                           e: map<Edge, real>)
    requires Loaded(last) && forall p | p in q :: Accepted(p.0)
    ensures TransferEdges(q, last, isRush, e) == Assign(Updates(q, last, isRush), e)
    decreases |q|
  {
    if q != [] {
      var n := |q| - 1;
      assert q[n] in q;
      var us := Updates(q, last, isRush);
      UpdatesPrefix(q, last, isRush, n);
      calc {
        TransferEdges(q, last, isRush, e);
        Connect(q[n], last, isRush, TransferEdges(q[..n], last, isRush, e));
        { TransferAssigns(q[..n], last, isRush, e); }
        Connect(q[n], last, isRush, Assign(us[..n], e));
        { ConnectAssigns(q[n], last, isRush, us, e); }
        Assign(us, e);
      }
    }
  }

  /** The assignments of a prefix of the queue are the prefix of its assignments. */
  lemma UpdatesPrefix(q: seq<PendingRecord>, last: map<string, StationRecord>, isRush: bool, n: nat)
    requires Loaded(last) && forall p | p in q :: Accepted(p.0)
    requires n <= |q|
    ensures forall p | p in q[..n] :: Accepted(p.0)
    ensures Updates(q, last, isRush)[..n] == Updates(q[..n], last, isRush)
  {
    var us := Updates(q, last, isRush);
    forall k | 0 <= k < n
      ensures us[..n][k] == Updates(q[..n], last, isRush)[k]
    {
      assert q[..n][k] == q[k];
    }
  }

  /** One more queued transfer makes the assignment it stands for. */
  lemma ConnectAssigns(p: PendingRecord, last: map<string, StationRecord>, isRush: bool,
                       us: seq<Option<(Edge, real)>>, e: map<Edge, real>)
    requires Accepted(p.0) && Loaded(last)
    requires us != [] && us[|us| - 1] == Update(p, last, isRush)
    ensures Connect(p, last, isRush, Assign(us[..|us| - 1], e)) == Assign(us, e)
  {
  }

  /** The assignment at a queue position is the one its transfer makes. */
  lemma UpdatesAt(q: seq<PendingRecord>, last: map<string, StationRecord>, isRush: bool, k: nat)
    requires Loaded(last) && forall p | p in q :: Accepted(p.0)
    requires k < |q|
    ensures Updates(q, last, isRush)[k] == Update(q[k], last, isRush)
  {
  }

  /** The queued transfer at `i` sets the weight of its edge, unless a later queued transfer
      between the same stations sets it again. */
  lemma TransferSetsWeight(q: seq<PendingRecord>, last: map<string, StationRecord>, isRush: bool,
                           e: map<Edge, real>, i: nat)
    requires Loaded(last) && forall p | p in q :: Accepted(p.0)
    requires i < |q| && Connects(q[i], last, isRush)
    requires forall j | i < j < |q| && Connects(q[j], last, isRush) :: Pair(q[j], last) != Pair(q[i], last)
    ensures Pair(q[i], last) in TransferEdges(q, last, isRush, e)
    ensures TransferEdges(q, last, isRush, e)[Pair(q[i], last)] == TransferWeight(q[i].2)
  {
    TransferAssigns(q, last, isRush, e);
    var us := Updates(q, last, isRush);
    UpdatesAt(q, last, isRush, i);
    forall j | i < j < |us| && us[j].Some?
      ensures us[j].value.0 != us[i].value.0
    {
      UpdatesAt(q, last, isRush, j);
    }
    LastAssignmentWins(us, e, i);
  }

  /** A loaded, open station listing a loaded, open neighbour is joined to it by an edge. */
  lemma AdjacencyLinked(kept: seq<StationRecord>, isRush: bool, id: string, a: string)
    requires AllAccepted(kept)
    requires id in LastById(kept) && a in LastById(kept)[id].adjacent && a in LastById(kept)
    requires IsOpen(LastById(kept)[id], isRush) && IsOpen(LastById(kept)[a], isRush)
    ensures (Info(LastById(kept)[id]), Info(LastById(kept)[a])) in Edges(kept, isRush)
  {
    var last := LastById(kept);
    var adj := AdjacencyEdges(IdOrder(kept), last, isRush, map[]);
    AdjacencyHas(IdOrder(kept), last, isRush, map[], id, a);
    TransferGrows(Queue(kept), last, isRush, adj);
  }

  /** The last transfer queued between two open stations decides the weight of their edge:
      one when free, two when paid. */
  lemma TransferLinked(kept: seq<StationRecord>, isRush: bool, q: seq<PendingRecord>, last: map<string, StationRecord>, i: nat)
    requires AllAccepted(kept) && q == Queue(kept) && last == LastById(kept)
    requires i < |q| && Connects(q[i], last, isRush)
    requires forall j | i < j < |q| && Connects(q[j], last, isRush) :: Pair(q[j], last) != Pair(q[i], last)
    ensures Pair(q[i], last) in Edges(kept, isRush)
    ensures Edges(kept, isRush)[Pair(q[i], last)] == TransferWeight(q[i].2)
  {
    var adj := AdjacencyEdges(IdOrder(kept), last, isRush, map[]);
    assert Edges(kept, isRush) == TransferEdges(q, last, isRush, adj);
    TransferSetsWeight(q, last, isRush, adj, i);
  }

  /** The registry after adding `objs` in order to an empty train system. */
  function Registered(objs: seq<TrainStation>): (reg: (seq<LineKey>, map<LineKey, seq<TrainStation>>))
    ensures Registry(reg.0, reg.1)
    ensures CountAll(reg.0, reg.1) == |objs|
    decreases |objs|
  {
    if objs == [] then ([], map[])
    else
      var prev := Registered(objs[..|objs| - 1]);
      AddedKeepsRegistry(prev.0, prev.1, objs[|objs| - 1]);
      Added(prev.0, prev.1, objs[|objs| - 1])
  }

  /** The state of the build phase: the id map of station objects, the id map of records,
      the order of their keys, and the transfer queue. */
  datatype Build = Build(trainMap: map<string, TrainStation>, data: map<string, StationRecord>,
                         order: seq<string>, queue: seq<Pending>)

  /** Each station object built so far, with the record it was built from: the object holds
      the record's station and is open exactly when the record leaves it open. */
  ghost predicate Stands(recOf: map<TrainStation, StationRecord>, isRush: bool)
    reads recOf.Keys
  {
    forall o | o in recOf :: Accepted(recOf[o]) && o.info == Info(recOf[o]) && o.isOpen == IsOpen(recOf[o], isRush)
  }

  /** A queued object stands for the queued record. */
  ghost predicate QueuedAs(p: Pending, v: PendingRecord, recOf: map<TrainStation, StationRecord>)
  {
    p.0 in recOf && recOf[p.0] == v.0 && p.1 == v.1 && p.2 == v.2
  }

  /** The build state holds what the records kept so far build; `created` lists the objects
      built, one per kept record. */
  ghost predicate Matches(b: Build, kept: seq<StationRecord>, created: seq<TrainStation>,
                          recOf: map<TrainStation, StationRecord>)
  {
    && AllAccepted(kept)
    && b.data == LastById(kept)
    && b.order == IdOrder(kept)
    && CreatedMatch(kept, created, recOf)
    && MapMatch(b.trainMap, b.data, recOf)
    && QueueMatch(b.queue, Queue(kept), recOf)
  }

  ghost predicate CreatedMatch(kept: seq<StationRecord>, created: seq<TrainStation>, recOf: map<TrainStation, StationRecord>)
  {
    && |created| == |kept|
    && forall k | 0 <= k < |kept| :: created[k] in recOf && recOf[created[k]] == kept[k]
  }

  ghost predicate MapMatch(trainMap: map<string, TrainStation>, data: map<string, StationRecord>,
                           recOf: map<TrainStation, StationRecord>)
  {
    && trainMap.Keys == data.Keys
    && forall id | id in trainMap :: trainMap[id] in recOf && recOf[trainMap[id]] == data[id]
  }

  ghost predicate QueueMatch(q: seq<Pending>, v: seq<PendingRecord>, recOf: map<TrainStation, StationRecord>)
  {
    && |q| == |v|
    && forall k | 0 <= k < |q| :: QueuedAs(q[k], v[k], recOf)
  }

  /** The train system and the graph hold what the records kept so far build, before any
      link: one registry entry and one node per kept record, no edge. */
  ghost predicate Registers(system: TrainSystem, graph: TrainGraph, kept: seq<StationRecord>, created: seq<TrainStation>)
    reads system, graph
    requires AllAccepted(kept)
  {
    && system.Valid() && (system.lines, system.stations) == Registered(created)
    && graph.Valid() && graph.nodes == Nodes(kept) && graph.edges == map[]
  }

  /** The error an unknown line raises. */
  function BadLineMessage(r: StationRecord): string
    requires r.line.Some?
  {
    "'" + r.line.value + "' is not a valid CTATrainLine"
  }

  /** The error of the first refused line. */
  function RefusedMessage(recs: seq<StationRecord>): string
    requires FirstBadLine(recs).Some?
  {
    BadLineMessage(recs[FirstBadLine(recs).value])
  }

  /** What reading one record decides: skip it, refuse its line, or build this station. */
  datatype Verdict = Skip | BadLine(msg: string) | Make(info: StationInfo)

  /** The checks made on one record, in order: name, position, latitude and longitude (a
      record missing one is skipped), then the position is fetched from the factory, then the
      line (a record without one is skipped; an unknown one is refused). */
  method ReadRecord(rec: StationRecord, factory: PositionFactory) returns (v: Verdict)
    requires factory.Valid()
    modifies factory
    ensures factory.Valid()
    ensures factory.positions.Keys == old(factory.positions.Keys) + (if Positioned(rec) then {Coordinates(rec)} else {})
    ensures v.Skip? <==> !Complete(rec)
    ensures v.BadLine? <==> Complete(rec) && !Accepted(rec)
    ensures v.BadLine? ==> v.msg == BadLineMessage(rec)
    ensures v.Make? ==> Accepted(rec) && v.info == Info(rec)
  {
    if rec.name.None? || rec.position.None? || rec.position.value.lat.None? || rec.position.value.lng.None? {
      return Skip;
    }
    var position := factory.GetPosition(rec.position.value.lat.value, rec.position.value.lng.value);
    if rec.line.None? {
      return Skip;
    }
    var line := ParseLine(rec.line.value);
    if line.None? {
      return BadLine(BadLineMessage(rec));
    }
    v := Make(StationInfo(rec.name.value, line, position));
  }

  /** The whole build state: the build maps and queue, the station objects and the registry
      and graph hold what the records kept so far build. */
  ghost predicate Holds(b: Build, kept: seq<StationRecord>, created: seq<TrainStation>,
                        recOf: map<TrainStation, StationRecord>, system: TrainSystem, graph: TrainGraph, isRush: bool)
    reads system, graph, recOf.Keys
  {
    Matches(b, kept, created, recOf) && Stands(recOf, isRush) && Registers(system, graph, kept, created)
  }

  /** One more record read: the refused-line verdict and the kept records, step by step. */
  lemma ScanStep(p: seq<StationRecord>, r: StationRecord)
    ensures Kept(p + [r]) == Kept(p) + (if Complete(r) then [r] else [])
    ensures FirstBadLine(p).None? ==> FirstBadLine(p + [r]) == (if Complete(r) && !Accepted(r) then Some(|p|) else None)
  {
    assert (p + [r])[..|p|] == p;
  }

  /** Reads the records of one file in order, building a station from each accepted one; the
      first refused line ends the load with its message. `seen` are the records read before,
      none of them refused, and `base` the factory's positions before the load. */
  method LoadFile(recs: seq<StationRecord>, isRush: bool, factory: PositionFactory, system: TrainSystem,
                  graph: TrainGraph, b: Build, ghost seen: seq<StationRecord>, ghost base: set<PositionKey>,
                  ghost kept: seq<StationRecord>, ghost created: seq<TrainStation>,
                  ghost recOf: map<TrainStation, StationRecord>)
    returns (err: Option<string>, b': Build, ghost kept': seq<StationRecord>, ghost created': seq<TrainStation>,
             ghost recOf': map<TrainStation, StationRecord>)
    requires FirstBadLine(seen).None? && kept == Kept(seen)
    requires factory.Valid() && factory.positions.Keys == base + PositionKeys(seen)
    requires Holds(b, kept, created, recOf, system, graph, isRush)
    modifies factory, system, graph
    ensures factory.Valid() && factory.positions.Keys == base + PositionKeys(Scanned(seen + recs))
    ensures err == if FirstBadLine(seen + recs).None? then None else Some(RefusedMessage(seen + recs))
    ensures err.None? ==> kept' == Kept(seen + recs) && Holds(b', kept', created', recOf', system, graph, isRush)
  {
    b', kept', created', recOf' := b, kept, created, recOf;
    err := None;
    var j := 0;
    assert seen + recs[..0] == seen;
    while j < |recs| && err.None?
      invariant j <= |recs| && factory.Valid()
      invariant err.None? ==> FirstBadLine(seen + recs[..j]).None? && kept' == Kept(seen + recs[..j])
      invariant err.None? ==> factory.positions.Keys == base + PositionKeys(seen + recs[..j])
      invariant err.None? ==> Holds(b', kept', created', recOf', system, graph, isRush)
      invariant err.Some? ==> FirstBadLine(seen + recs).Some? && err.value == RefusedMessage(seen + recs)
      invariant err.Some? ==> factory.positions.Keys == base + PositionKeys(Scanned(seen + recs))
    {
      ReadOn(seen, recs, j, base);
      err, b', kept', created', recOf' := LoadRecord(recs[j], isRush, factory, system, graph, b', kept', created', recOf');
      if err.Some? {
        Refused(seen, recs, j);
      }
      j := j + 1;
    }
    if err.None? {
      assert recs[..j] == recs;
    }
  }

  /** Reads one record: builds its station when it is accepted, refuses its line when it names
      none, and otherwise only leaves its position in the factory. */
  method LoadRecord(rec: StationRecord, isRush: bool, factory: PositionFactory, system: TrainSystem,
                    graph: TrainGraph, b: Build, ghost kept: seq<StationRecord>, ghost created: seq<TrainStation>,
                    ghost recOf: map<TrainStation, StationRecord>)
    returns (err: Option<string>, b': Build, ghost kept': seq<StationRecord>, ghost created': seq<TrainStation>,
             ghost recOf': map<TrainStation, StationRecord>)
    requires factory.Valid()
    requires Holds(b, kept, created, recOf, system, graph, isRush)
    modifies factory, system, graph
    ensures factory.Valid()
    ensures factory.positions.Keys == old(factory.positions.Keys) + (if Positioned(rec) then {Coordinates(rec)} else {})
    ensures err.Some? <==> Complete(rec) && !Accepted(rec)
    ensures err.Some? ==> err.value == BadLineMessage(rec)
    ensures err.None? ==> kept' == kept + (if Complete(rec) then [rec] else [])
    ensures err.None? ==> Holds(b', kept', created', recOf', system, graph, isRush)
  {
    var v := ReadRecord(rec, factory);
    match v
    case BadLine(msg) =>
      return Some(msg), b, kept, created, recOf;
    case Skip =>
      return None, b, kept, created, recOf;
    case Make(info) =>
      err := None;
      b', kept', created', recOf' := AcceptRecord(rec, isRush, info, system, graph, b, kept, created, recOf);
  }

  /** What reading the record at position `j` of a file adds to what was read before it. */
  lemma ReadOn(seen: seq<StationRecord>, recs: seq<StationRecord>, j: nat, base: set<PositionKey>)
    requires j < |recs|
    ensures base + PositionKeys(seen + recs[..j + 1])
            == base + PositionKeys(seen + recs[..j]) + (if Positioned(recs[j]) then {Coordinates(recs[j])} else {})
    ensures Kept(seen + recs[..j + 1]) == Kept(seen + recs[..j]) + (if Complete(recs[j]) then [recs[j]] else [])
    ensures FirstBadLine(seen + recs[..j]).None? && !(Complete(recs[j]) && !Accepted(recs[j])) ==>
              FirstBadLine(seen + recs[..j + 1]).None?
  {
    var read := seen + recs[..j];
    ReadNext(seen, recs, j);
    ScanStep(read, recs[j]);
    PositionKeysAppend(read, recs[j]);
  }

  /** A refused line at position `j` of a file, after records none of which was refused, is
      where the load stops reading. */
  lemma Refused(seen: seq<StationRecord>, recs: seq<StationRecord>, j: nat)
    requires j < |recs| && FirstBadLine(seen + recs[..j]).None?
    requires Complete(recs[j]) && !Accepted(recs[j])
    ensures FirstBadLine(seen + recs).Some? && FirstBadLine(seen + recs).value == |seen| + j
    ensures RefusedMessage(seen + recs) == BadLineMessage(recs[j])
    ensures Scanned(seen + recs) == seen + recs[..j + 1]
  {
    var read := seen + recs[..j];
    var upto := seen + recs[..j + 1];
    ReadNext(seen, recs, j);
    ScanStep(read, recs[j]);
    SplitAt(recs, j + 1);
    AppendAssoc(seen, recs[..j + 1], recs[j + 1..]);
    FirstBadLineExtends(upto, recs[j + 1..]);
    PrefixOfAppend(upto, recs[j + 1..], |upto|);
  }

  /** The records read up to position `j` of a file, and one more. */
  lemma ReadNext(seen: seq<StationRecord>, recs: seq<StationRecord>, j: nat)
    requires j < |recs|
    ensures seen + recs[..j + 1] == (seen + recs[..j]) + [recs[j]]
  {
    assert recs[..j + 1] == recs[..j] + [recs[j]];
  }

  /** Takes in an accepted record: builds its station and keeps the build state, the registry
      and the graph in step with the records kept. */
  method AcceptRecord(rec: StationRecord, isRush: bool, info: StationInfo, system: TrainSystem, graph: TrainGraph,
                      b: Build, ghost kept: seq<StationRecord>, ghost created: seq<TrainStation>,
                      ghost recOf: map<TrainStation, StationRecord>)
    returns (b': Build, ghost kept': seq<StationRecord>, ghost created': seq<TrainStation>,
             ghost recOf': map<TrainStation, StationRecord>)
    requires Accepted(rec) && info == Info(rec)
    requires Holds(b, kept, created, recOf, system, graph, isRush)
    modifies system, graph
    ensures kept' == kept + [rec]
    ensures Holds(b', kept', created', recOf', system, graph, isRush)
  {
    var station, queue := BuildStation(rec, isRush, info, system, graph, b.queue);
    StandsAdd(recOf, rec, station, isRush);
    var id := station.info.Id();
    b' := Build(b.trainMap[id := station], b.data[id := rec], if id in b.data then b.order else b.order + [id], queue);
    kept' := kept + [rec];
    created' := created + [station];
    recOf' := recOf[station := rec];
    HoldsAdd(b, kept, created, recOf, system, graph, isRush, rec, station, b');
  }

  /** An accepted record whose station is built, a node of the graph and registered keeps the
      build state in step. */
  lemma HoldsAdd(b: Build, kept: seq<StationRecord>, created: seq<TrainStation>,
                 recOf: map<TrainStation, StationRecord>, system: TrainSystem, graph: TrainGraph, isRush: bool,
                 rec: StationRecord, station: TrainStation, b': Build)
    requires Matches(b, kept, created, recOf) && Stands(recOf[station := rec], isRush)
    requires Accepted(rec) && station !in recOf && station.info == Info(rec)
    requires b' == Build(b.trainMap[StopId(rec) := station], b.data[StopId(rec) := rec],
                         if StopId(rec) in b.data then b.order else b.order + [StopId(rec)],
                         b.queue + Pendings(station, rec.transfers))
    requires system.Valid() && (system.lines, system.stations) == Added(Registered(created).0, Registered(created).1, station)
    requires graph.Valid() && graph.nodes == Nodes(kept) + {Info(rec)} && graph.edges == map[]
    ensures Holds(b', kept + [rec], created + [station], recOf[station := rec], system, graph, isRush)
  {
    BuiltMatches(b, b', kept, created, recOf, rec, station);
    RegistersAdd(system, graph, kept, created, rec, station);
  }

  /** Builds the station of an accepted record: a new object that becomes a node of the graph,
      closed as the record says, with its transfers queued, registered in the train system. */
  method BuildStation(rec: StationRecord, isRush: bool, info: StationInfo, system: TrainSystem, graph: TrainGraph,
                      queue: seq<Pending>)
    returns (station: TrainStation, queue': seq<Pending>)
    requires system.Valid() && graph.Valid()
    modifies system, graph
    ensures fresh(station) && station.info == info && station.isOpen == IsOpen(rec, isRush)
    ensures queue' == queue + Pendings(station, rec.transfers)
    ensures graph.Valid() && graph.nodes == old(graph.nodes) + {info} && graph.edges == old(graph.edges)
    ensures system.Valid() && (system.lines, system.stations) == Added(old(system.lines), old(system.stations), station)
  {
    station := new TrainStation(info);
    var _ := graph.AddNode(station);
    if rec.closed {
      station.Close();
    }
    if rec.rushPeriodOnly && !isRush {
      station.Close();
    }
    queue' := QueueTransfers(station, rec.transfers, queue);
    var _ := system.AddStation(station);
  }

  lemma StandsAdd(recOf: map<TrainStation, StationRecord>, rec: StationRecord, station: TrainStation, isRush: bool)
    requires Stands(recOf, isRush) && Accepted(rec)
    requires station.info == Info(rec) && station.isOpen == IsOpen(rec, isRush)
    ensures Stands(recOf[station := rec], isRush)
  {
  }

  lemma RegistersAdd(system: TrainSystem, graph: TrainGraph, kept: seq<StationRecord>, created: seq<TrainStation>,
                     rec: StationRecord, station: TrainStation)
    requires AllAccepted(kept) && Accepted(rec) && station.info == Info(rec)
    requires system.Valid() && (system.lines, system.stations) == Added(Registered(created).0, Registered(created).1, station)
    requires graph.Valid() && graph.nodes == Nodes(kept) + {Info(rec)} && graph.edges == map[]
    ensures AllAccepted(kept + [rec])
    ensures Registers(system, graph, kept + [rec], created + [station])
  {
    RegisteredAppend(created, station);
    NodesAppend(kept, rec);
  }

  lemma RegisteredAppend(created: seq<TrainStation>, station: TrainStation)
    ensures Registered(created + [station]) == Added(Registered(created).0, Registered(created).1, station)
  {
    assert (created + [station])[..|created|] == created;
  }

  lemma NodesAppend(kept: seq<StationRecord>, rec: StationRecord)
    requires AllAccepted(kept) && Accepted(rec)
    ensures AllAccepted(kept + [rec])
    ensures Nodes(kept + [rec]) == Nodes(kept) + {Info(rec)}
  {
    assert (kept + [rec])[..|kept|] == kept;
  }

  /** Appends one queue entry per transfer of the station, in table order. */
  method QueueTransfers(station: TrainStation, transfers: seq<TransferRecord>, queue: seq<Pending>) returns (queue': seq<Pending>)
    ensures queue' == queue + Pendings(station, transfers)
  {
    queue' := queue;
    var j := 0;
    while j < |transfers|
      invariant j <= |transfers|
      invariant queue' == queue + Pendings(station, transfers[..j])
    {
      assert transfers[..j + 1][..j] == transfers[..j];
      queue' := queue' + [(station, transfers[j].id, FreeOf(transfers[j]))];
      j := j + 1;
    }
    assert transfers[..j] == transfers;
  }

  lemma BuiltMatches(b: Build, b': Build, kept: seq<StationRecord>, created: seq<TrainStation>,
                     recOf: map<TrainStation, StationRecord>, rec: StationRecord, station: TrainStation)
    requires Matches(b, kept, created, recOf) && Accepted(rec) && station !in recOf
    requires b'.trainMap == b.trainMap[StopId(rec) := station] && b'.data == b.data[StopId(rec) := rec]
    requires b'.order == if StopId(rec) in b.data then b.order else b.order + [StopId(rec)]
    requires b'.queue == b.queue + Pendings(station, rec.transfers)
    ensures Matches(b', kept + [rec], created + [station], recOf[station := rec])
  {
    KeptAppend(kept, rec);
    QueueMatches(b.queue, b'.queue, Queue(kept), recOf, rec, station, Queue(kept + [rec]));
    CreatedMatches(kept, created, recOf, rec, station);
    MapMatches(b.trainMap, b.data, recOf, rec, station, b'.trainMap, b'.data, recOf[station := rec]);
  }

  lemma CreatedMatches(kept: seq<StationRecord>, created: seq<TrainStation>, recOf: map<TrainStation, StationRecord>,
                       rec: StationRecord, station: TrainStation)
    requires CreatedMatch(kept, created, recOf) && station !in recOf
    ensures CreatedMatch(kept + [rec], created + [station], recOf[station := rec])
  {
    var kept', created', recOf' := kept + [rec], created + [station], recOf[station := rec];
    forall k | 0 <= k < |kept'|
      ensures created'[k] in recOf' && recOf'[created'[k]] == kept'[k]
    {
      if k < |kept| {
        assert created'[k] == created[k] && kept'[k] == kept[k];
        assert created[k] in recOf && created[k] != station;
        assert recOf'[created[k]] == recOf[created[k]];
      } else {
        assert created'[k] == station && kept'[k] == rec;
      }
    }
  }

  lemma MapMatches(trainMap: map<string, TrainStation>, data: map<string, StationRecord>,
                   recOf: map<TrainStation, StationRecord>, rec: StationRecord, station: TrainStation,
                   trainMap': map<string, TrainStation>, data': map<string, StationRecord>,
                   recOf': map<TrainStation, StationRecord>)
    requires Accepted(rec) && station !in recOf
    requires MapMatch(trainMap, data, recOf)
    requires trainMap' == trainMap[StopId(rec) := station] && data' == data[StopId(rec) := rec]
    requires recOf' == recOf[station := rec]
    ensures MapMatch(trainMap', data', recOf')
  {
    forall id | id in trainMap'
      ensures trainMap'[id] in recOf' && recOf'[trainMap'[id]] == data'[id]
    {
      if id != StopId(rec) {
        assert trainMap[id] in recOf && trainMap[id] != station;
      }
    }
  }

  /** What the build functions give once one more accepted record is kept. */
  lemma KeptAppend(kept: seq<StationRecord>, rec: StationRecord)
    requires AllAccepted(kept) && Accepted(rec)
    ensures AllAccepted(kept + [rec])
    ensures LastById(kept + [rec]) == LastById(kept)[StopId(rec) := rec]
    ensures IdOrder(kept + [rec]) == if StopId(rec) in LastById(kept) then IdOrder(kept) else IdOrder(kept) + [StopId(rec)]
    ensures Queue(kept + [rec]) == Queue(kept) + Pendings(rec, rec.transfers)
  {
    assert (kept + [rec])[..|kept|] == kept;
  }

  lemma QueueMatches(q: seq<Pending>, q': seq<Pending>, v: seq<PendingRecord>, recOf: map<TrainStation, StationRecord>,
                     rec: StationRecord, station: TrainStation, v': seq<PendingRecord>)
    requires station !in recOf
    requires QueueMatch(q, v, recOf)
    requires q' == q + Pendings(station, rec.transfers)
    requires v' == v + Pendings(rec, rec.transfers)
    ensures QueueMatch(q', v', recOf[station := rec])
  {
    forall k | 0 <= k < |q'|
      ensures QueuedAs(q'[k], v'[k], recOf[station := rec])
    {
      if k < |q| {
        assert q'[k] == q[k] && v'[k] == v[k];
      } else {
        assert q'[k] == Pendings(station, rec.transfers)[k - |q|];
        assert v'[k] == Pendings(rec, rec.transfers)[k - |q|];
      }
    }
  }
  /** What the link phases rely on: every id maps to an accepted record and to a station
      object that holds the record's station, is open exactly when the record leaves it open,
      and is a node of the graph. */
  ghost predicate Linkable(trainMap: map<string, TrainStation>, data: map<string, StationRecord>, isRush: bool,
                           nodes: set<StationInfo>)
    reads trainMap.Values
  {
    && trainMap.Keys == data.Keys
    && Loaded(data)
    && forall id | id in trainMap ::
         && trainMap[id].info == Info(data[id])
         && trainMap[id].isOpen == IsOpen(data[id], isRush) && Info(data[id]) in nodes
  }

  /** Connects the adjacent stations: the ids in map order, each with the adjacency list of
      its record, an edge of weight one for each loaded neighbour when both stations are open. */
  method LinkAdjacent(order: seq<string>, trainMap: map<string, TrainStation>, data: map<string, StationRecord>,
                      isRush: bool, graph: TrainGraph)
    requires forall id | id in order :: id in data
    requires graph.Valid() && Linkable(trainMap, data, isRush, graph.nodes)
    modifies graph`nodes, graph`edges
    ensures graph.Valid() && graph.nodes == old(graph.nodes)
    ensures Loaded(data) && graph.edges == AdjacencyEdges(order, data, isRush, old(graph.edges))
  {
    var i := 0;
    while i < |order|
      invariant i <= |order|
      invariant graph.Valid() && graph.nodes == old(graph.nodes)
      invariant graph.edges == AdjacencyEdges(order[..i], data, isRush, old(graph.edges))
    {
      assert order[..i + 1][..i] == order[..i];
      assert order[i] in order;
      LinkStation(data[order[i]], trainMap[order[i]], trainMap, data, isRush, graph);
      i := i + 1;
    }
    assert order[..i] == order;
  }

  /** The adjacency links of one loaded station, in the order of its list. */
  method LinkStation(rec: StationRecord, station: TrainStation, trainMap: map<string, TrainStation>,
                     data: map<string, StationRecord>, isRush: bool, graph: TrainGraph)
    requires Accepted(rec) && station.info == Info(rec) && station.isOpen == IsOpen(rec, isRush)
    requires graph.Valid() && Info(rec) in graph.nodes && Linkable(trainMap, data, isRush, graph.nodes)
    modifies graph`nodes, graph`edges
    ensures graph.Valid() && graph.nodes == old(graph.nodes)
    ensures Loaded(data) && graph.edges == LinkAll(rec, rec.adjacent, data, isRush, old(graph.edges))
  {
    var k := 0;
    while k < |rec.adjacent|
      invariant k <= |rec.adjacent|
      invariant graph.Valid() && graph.nodes == old(graph.nodes)
      invariant graph.edges == LinkAll(rec, rec.adjacent[..k], data, isRush, old(graph.edges))
    {
      assert rec.adjacent[..k + 1][..k] == rec.adjacent[..k];
      LinkNeighbour(rec, rec.adjacent[k], station, trainMap, data, isRush, graph);
      k := k + 1;
    }
    assert rec.adjacent[..k] == rec.adjacent;
  }

  /** One adjacency link: when `a` was loaded and both stations are open, an edge of weight one. */
  method LinkNeighbour(rec: StationRecord, a: string, station: TrainStation, trainMap: map<string, TrainStation>,
                       data: map<string, StationRecord>, isRush: bool, graph: TrainGraph)
    requires Accepted(rec) && station.info == Info(rec) && station.isOpen == IsOpen(rec, isRush)
    requires graph.Valid() && Info(rec) in graph.nodes && Linkable(trainMap, data, isRush, graph.nodes)
    modifies graph`nodes, graph`edges
    ensures graph.Valid() && graph.nodes == old(graph.nodes)
    ensures Loaded(data) && graph.edges == Link(rec, a, data, isRush, old(graph.edges))
  {
    if a in trainMap {
      var neighbour := trainMap[a];
      var neighbourOpen := neighbour.IsStationOpen();
      var stationOpen := station.IsStationOpen();
      if neighbourOpen && stationOpen {
        var _ := graph.AddEdge(station, neighbour, Some(1.0));
      }
    }
  }

  /** Connects the transfer stations: the queue in order, an edge from the queued station to
      the station loaded under the other id when both are open, weighing one when the transfer
      is free and two when it is paid. */
  method LinkTransfers(q: seq<Pending>, ghost v: seq<PendingRecord>, trainMap: map<string, TrainStation>,
                       data: map<string, StationRecord>, isRush: bool, graph: TrainGraph)
    requires Loaded(data) && forall p | p in v :: Accepted(p.0)
    requires |q| == |v|
    requires forall k | 0 <= k < |q| :: Queued(q[k], v[k], graph.nodes) && q[k].0.isOpen == IsOpen(v[k].0, isRush)
    requires graph.Valid() && Linkable(trainMap, data, isRush, graph.nodes)
    modifies graph`nodes, graph`edges
    ensures graph.Valid() && graph.nodes == old(graph.nodes)
    ensures graph.edges == TransferEdges(v, data, isRush, old(graph.edges))
  {
    var i := 0;
    while i < |q|
      invariant i <= |q|
      invariant graph.Valid() && graph.nodes == old(graph.nodes)
      invariant graph.edges == TransferEdges(v[..i], data, isRush, old(graph.edges))
    {
      TransferStep(v, i, data, isRush, old(graph.edges));
      LinkTransfer(q[i], v[i], trainMap, data, isRush, graph);
      i := i + 1;
    }
    assert v[..i] == v;
  }

  /** The transfer phase over one more queued transfer. */
  lemma TransferStep(v: seq<PendingRecord>, i: nat, data: map<string, StationRecord>, isRush: bool, e: map<Edge, real>)
    requires i < |v| && Loaded(data) && forall p | p in v :: Accepted(p.0)
    ensures Accepted(v[i].0)
    ensures TransferEdges(v[..i + 1], data, isRush, e) == Connect(v[i], data, isRush, TransferEdges(v[..i], data, isRush, e))
  {
    assert v[i] in v;
    assert v[..i + 1][..i] == v[..i];
  }

  /** A queued station object holds the queued record's station, which is a node of the graph,
      with the queued id and free flag. */
  ghost predicate Queued(p: Pending, v: PendingRecord, nodes: set<StationInfo>)
  {
    && Accepted(v.0) && p.0.info == Info(v.0) && Info(v.0) in nodes
    && p.1 == v.1 && p.2 == v.2
  }

  /** One transfer link: when the other id was loaded and both stations are open, an edge
      weighing one when free and two when paid. */
  method LinkTransfer(p: Pending, ghost v: PendingRecord, trainMap: map<string, TrainStation>,
                      data: map<string, StationRecord>, isRush: bool, graph: TrainGraph)
    requires Queued(p, v, graph.nodes) && p.0.isOpen == IsOpen(v.0, isRush)
    requires graph.Valid() && Linkable(trainMap, data, isRush, graph.nodes)
    modifies graph`nodes, graph`edges
    ensures graph.Valid() && graph.nodes == old(graph.nodes)
    ensures Loaded(data) && graph.edges == Connect(v, data, isRush, old(graph.edges))
  {
    var (station, otherId, free) := p;
    if otherId in trainMap {
      var other := trainMap[otherId];
      var otherOpen := other.IsStationOpen();
      var stationOpen := station.IsStationOpen();
      if otherOpen && stationOpen {
        var weight := 2.0;
        if free {
          weight := 1.0;
        }
        var _ := graph.AddEdge(station, other, Some(weight));
      }
    }
  }

  /** What a successful load gives: the station objects hold their records' stations and a
      registry of them, and the graph is linked. */
  ghost predicate Loads(system: TrainSystem, graph: TrainGraph, kept: seq<StationRecord>, created: seq<TrainStation>,
                        isRush: bool)
    reads system, graph, created
  {
    Standing(system, kept, created, isRush) && Linked(graph, kept, isRush)
  }

  /** One object per kept record, in order, holding its record's station and open exactly
      when the record leaves it open; the registry holds them all, in order. */
  ghost predicate Standing(system: TrainSystem, kept: seq<StationRecord>, created: seq<TrainStation>, isRush: bool)
    reads system, created
  {
    && AllAccepted(kept)
    && (system.lines, system.stations) == Registered(created)
    && |created| == |kept|
    && forall k | 0 <= k < |kept| :: created[k].info == Info(kept[k]) && created[k].isOpen == IsOpen(kept[k], isRush)
  }

  /** The graph's nodes are the stations of the kept records and its edges those of both link
      phases. */
  ghost predicate Linked(graph: TrainGraph, kept: seq<StationRecord>, isRush: bool)
    reads graph
  {
    AllAccepted(kept) && graph.Valid() && graph.nodes == Nodes(kept) && graph.edges == Edges(kept, isRush)
  }

  /** `load_data`: without a list of files, an error; otherwise every file in order, missing
      files and files without stations skipped, each record read and built until the first
      refused line, which ends the load with its error; then the adjacency links and the
      transfer links. The clock reading of the rush-hour test is the `isRush` argument. */
  method LoadData(files: Option<seq<DataFile>>, isRush: bool, factory: PositionFactory)
    returns (r: Result<(TrainSystem, TrainGraph)>, ghost created: seq<TrainStation>)
    requires factory.Valid()
    modifies factory
    ensures factory.Valid()
    ensures files.None? ==> r == Err("[DataLoader]: file_names is required") && factory.positions == old(factory.positions)
    ensures files.Some? ==> factory.positions.Keys == old(factory.positions.Keys) + PositionKeys(Scanned(AllRecords(files.value)))
    ensures r.Ok? <==> files.Some? && FirstBadLine(AllRecords(files.value)).None?
    ensures files.Some? && r.Err? ==> r.msg == RefusedMessage(AllRecords(files.value))
    ensures r.Ok? ==> fresh(r.value.0) && fresh(r.value.1)
    ensures r.Ok? ==> Loads(r.value.0, r.value.1, Kept(AllRecords(files.value)), created, isRush)
  {
    if files.None? {
      r, created := Err("[DataLoader]: file_names is required"), [];
    } else {
      var err, system, graph, b;
      ghost var kept, recOf;
      system := new TrainSystem();
      graph := new TrainGraph();
      HoldsFirst(system, graph, isRush);
      err, b, kept, created, recOf := LoadFiles(files.value, isRush, factory, system, graph);
      if err.Some? {
        r := Err(err.value);
      } else {
        Finish(b, kept, created, recOf, system, graph, isRush);
        r := Ok((system, graph));
      }
    }
  }

  /** The link phases after a build that refused no line. */
  method Finish(b: Build, ghost kept: seq<StationRecord>, ghost created: seq<TrainStation>,
                ghost recOf: map<TrainStation, StationRecord>, system: TrainSystem, graph: TrainGraph, isRush: bool)
    requires Holds(b, kept, created, recOf, system, graph, isRush)
    modifies graph`nodes, graph`edges
    ensures Loads(system, graph, kept, created, isRush)
  {
    BuiltReady(b, kept, created, recOf, system, graph, isRush);
    LinkStations(b, kept, graph, isRush);
  }

  /** The build phase over the files in order, from an empty train system and graph. */
  method LoadFiles(fs: seq<DataFile>, isRush: bool, factory: PositionFactory, system: TrainSystem, graph: TrainGraph)
    returns (err: Option<string>, b: Build, ghost kept: seq<StationRecord>,
             ghost created: seq<TrainStation>, ghost recOf: map<TrainStation, StationRecord>)
    requires factory.Valid() && Holds(Build(map[], map[], [], []), [], [], map[], system, graph, isRush)
    modifies factory, system, graph
    ensures factory.Valid() && factory.positions.Keys == old(factory.positions.Keys) + PositionKeys(Scanned(AllRecords(fs)))
    ensures err == if FirstBadLine(AllRecords(fs)).None? then None else Some(RefusedMessage(AllRecords(fs)))
    ensures err.None? ==> kept == Kept(AllRecords(fs)) && Holds(b, kept, created, recOf, system, graph, isRush)
  {
    b, kept, created, recOf := Build(map[], map[], [], []), [], [], map[];
    err := None;
    ghost var base := factory.positions.Keys;
    var i := 0;
    while i < |fs|
      invariant i <= |fs| && err.None?
      invariant FirstBadLine(AllRecords(fs[..i])).None? && kept == Kept(AllRecords(fs[..i]))
      invariant factory.Valid() && factory.positions.Keys == base + PositionKeys(AllRecords(fs[..i]))
      invariant Holds(b, kept, created, recOf, system, graph, isRush)
    {
      FilesRead(fs, i);
      err, b, kept, created, recOf :=
        LoadFile(FileRecords(fs[i]), isRush, factory, system, graph, b, AllRecords(fs[..i]), base, kept, created, recOf);
      if err.Some? {
        FilesRefused(fs, i);
        return;
      }
      i := i + 1;
    }
    assert fs[..i] == fs;
  }

  /** Before any record: nothing built, an empty registry and an empty graph. */
  lemma HoldsFirst(system: TrainSystem, graph: TrainGraph, isRush: bool)
    requires system.Valid() && system.lines == [] && system.stations == map[]
    requires graph.Valid() && graph.nodes == {} && graph.edges == map[]
    ensures Holds(Build(map[], map[], [], []), [], [], map[], system, graph, isRush)
  {
  }

  /** The records of one more file. */
  lemma FilesRead(fs: seq<DataFile>, i: nat)
    requires i < |fs|
    ensures AllRecords(fs[..i + 1]) == AllRecords(fs[..i]) + FileRecords(fs[i])
  {
    assert fs[..i + 1][..i] == fs[..i];
  }

  /** Once a file's records hold a refused line, the files after it change nothing. */
  lemma FilesRefused(fs: seq<DataFile>, i: nat)
    requires i < |fs| && FirstBadLine(AllRecords(fs[..i + 1])).Some?
    ensures FirstBadLine(AllRecords(fs)) == FirstBadLine(AllRecords(fs[..i + 1]))
    ensures Scanned(AllRecords(fs)) == Scanned(AllRecords(fs[..i + 1]))
    ensures RefusedMessage(AllRecords(fs)) == RefusedMessage(AllRecords(fs[..i + 1]))
  {
    var read := AllRecords(fs[..i + 1]);
    var rest := AllRecords(fs[i + 1..]);
    assert AllRecords(fs) == read + rest by {
      SplitAt(fs, i + 1);
      AllRecordsAppend(fs[..i + 1], fs[i + 1..]);
    }
    FirstBadLineExtends(read, rest);
    PrefixOfAppend(read, rest, FirstBadLine(read).value + 1);
  }

  lemma SplitLast<T>(s: seq<T>)
    requires s != []
    ensures s == s[..|s| - 1] + [s[|s| - 1]]
  {
  }

  lemma SplitAt<T>(s: seq<T>, n: nat)
    requires n <= |s|
    ensures s == s[..n] + s[n..]
  {
  }

  lemma AppendAssoc<T>(a: seq<T>, b: seq<T>, c: seq<T>)
    ensures a + (b + c) == (a + b) + c
  {
  }

  lemma PrefixOfAppend<T>(a: seq<T>, b: seq<T>, n: nat)
    requires n <= |a|
    ensures (a + b)[..n] == a[..n]
  {
  }

  /** The build leaves the registry and the station objects as they stay, a graph of nodes
      without edges, and the id maps and queue ready to link. */
  lemma BuiltReady(b: Build, kept: seq<StationRecord>, created: seq<TrainStation>,
                   recOf: map<TrainStation, StationRecord>, system: TrainSystem, graph: TrainGraph, isRush: bool)
    requires Holds(b, kept, created, recOf, system, graph, isRush)
    ensures Standing(system, kept, created, isRush)
    ensures AllAccepted(kept) && graph.Valid() && graph.nodes == Nodes(kept) && graph.edges == map[]
    ensures b.data == LastById(kept) && b.order == IdOrder(kept)
    ensures Linkable(b.trainMap, b.data, isRush, graph.nodes)
    ensures |b.queue| == |Queue(kept)|
    ensures forall k | 0 <= k < |b.queue| :: Queued(b.queue[k], Queue(kept)[k], graph.nodes) && b.queue[k].0.isOpen == IsOpen(Queue(kept)[k].0, isRush)
  {
    LinkReady(b, kept, created, recOf, system, graph, isRush);
    QueueReady(b.queue, kept, recOf, graph.nodes, isRush);
    CreatedStand(kept, created, recOf, isRush);
  }

  /** Both link phases: the graph gets the edges of the records kept. */
  method LinkStations(b: Build, ghost kept: seq<StationRecord>, graph: TrainGraph, isRush: bool)
    requires AllAccepted(kept) && graph.Valid() && graph.nodes == Nodes(kept) && graph.edges == map[]
    requires b.data == LastById(kept) && b.order == IdOrder(kept)
    requires Linkable(b.trainMap, b.data, isRush, graph.nodes)
    requires |b.queue| == |Queue(kept)|
    requires forall k | 0 <= k < |b.queue| :: Queued(b.queue[k], Queue(kept)[k], graph.nodes) && b.queue[k].0.isOpen == IsOpen(Queue(kept)[k].0, isRush)
    modifies graph`nodes, graph`edges
    ensures Linked(graph, kept, isRush)
  {
    QueueAccepted(kept);
    LinkGraph(b.order, b.trainMap, b.data, b.queue, Queue(kept), graph, isRush);
  }

  lemma QueueAccepted(kept: seq<StationRecord>)
    requires AllAccepted(kept)
    ensures Loaded(LastById(kept)) && forall p | p in Queue(kept) :: Accepted(p.0)
  {
  }

  /** The adjacency phase, then the transfer phase. */
  method LinkGraph(order: seq<string>, trainMap: map<string, TrainStation>, data: map<string, StationRecord>,
                   q: seq<Pending>, ghost v: seq<PendingRecord>, graph: TrainGraph, isRush: bool)
    requires forall id | id in order :: id in data
    requires |q| == |v|
    requires forall k | 0 <= k < |q| :: Queued(q[k], v[k], graph.nodes) && q[k].0.isOpen == IsOpen(v[k].0, isRush)
    requires graph.Valid() && Linkable(trainMap, data, isRush, graph.nodes)
    modifies graph`nodes, graph`edges
    ensures graph.Valid() && graph.nodes == old(graph.nodes)
    ensures Loaded(data) && forall p | p in v :: Accepted(p.0)
    ensures graph.edges == TransferEdges(v, data, isRush, AdjacencyEdges(order, data, isRush, old(graph.edges)))
  {
    QueuedAccepted(q, v, graph.nodes);
    LinkAdjacent(order, trainMap, data, isRush, graph);
    LinkTransfers(q, v, trainMap, data, isRush, graph);
  }

  lemma QueuedAccepted(q: seq<Pending>, v: seq<PendingRecord>, nodes: set<StationInfo>)
    requires |q| == |v| && forall k | 0 <= k < |q| :: Queued(q[k], v[k], nodes)
    ensures forall p | p in v :: Accepted(p.0)
  {
    forall p | p in v
      ensures Accepted(p.0)
    {
      var k :| 0 <= k < |v| && v[k] == p;
      assert Queued(q[k], v[k], nodes);
    }
  }

  /** After the build, the id maps are ready for the link phases. */
  lemma LinkReady(b: Build, kept: seq<StationRecord>, created: seq<TrainStation>,
                  recOf: map<TrainStation, StationRecord>, system: TrainSystem, graph: TrainGraph, isRush: bool)
    requires Holds(b, kept, created, recOf, system, graph, isRush)
    ensures Loaded(b.data) && Linkable(b.trainMap, b.data, isRush, graph.nodes)
    ensures forall id | id in b.order :: id in b.data
  {
    forall id | id in b.trainMap
      ensures Info(b.data[id]) in graph.nodes
    {
      NodesHave(kept, b.data[id]);
    }
  }

  /** After the build, the queue is ready for the transfer phase. */
  lemma QueueReady(q: seq<Pending>, kept: seq<StationRecord>, recOf: map<TrainStation, StationRecord>,
                   nodes: set<StationInfo>, isRush: bool)
    requires AllAccepted(kept) && nodes == Nodes(kept)
    requires QueueMatch(q, Queue(kept), recOf) && Stands(recOf, isRush)
    ensures |q| == |Queue(kept)|
    ensures forall k | 0 <= k < |q| :: Queued(q[k], Queue(kept)[k], nodes) && q[k].0.isOpen == IsOpen(Queue(kept)[k].0, isRush)
  {
    var v := Queue(kept);
    forall k | 0 <= k < |q|
      ensures Queued(q[k], v[k], nodes)
    {
      assert v[k] in v;
      NodesHave(kept, v[k].0);
    }
  }

  /** Each object built holds the station of its record, open as the record leaves it. */
  lemma CreatedStand(kept: seq<StationRecord>, created: seq<TrainStation>, recOf: map<TrainStation, StationRecord>,
                     isRush: bool)
    requires CreatedMatch(kept, created, recOf) && Stands(recOf, isRush)
    ensures forall k | 0 <= k < |kept| :: created[k].info == Info(kept[k]) && created[k].isOpen == IsOpen(kept[k], isRush)
  {
  }
}
