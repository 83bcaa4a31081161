/** The legacy station record: a station with a name, an optional line and a position, an
    open/closed flag and a list of transfers; and the two route steps built from stations,
    a plain action and a transfer. */
module LegacyStation {
  import opened Base
  import opened Lines
  import opened Positions

  /** The flat fare charged for a paid transfer. Its value lives in a constants module that is
      not part of this model; every proof here uses only that it is positive. */
  const FARE_COST: real := 2.5

  /** What identifies a station: the triple that `__eq__` compares and `__hash__` hashes. */
  datatype StationInfo = StationInfo(name: string, line: Option<Line>, position: Position) {

    /** `line:name`, with a missing line written "None". */
    function Id(): (id: string)
      ensures id == JoinId(OptLineName(line), name)
      ensures line.Some? ==> id[..|LineName(line.value)|] == LineName(line.value)
    {
      JoinId(OptLineName(line), name)
    }

    function Hash(): (string, Option<Line>, Position) { (name, line, position) }

    /** `==`: `None` and values of another class are unequal; otherwise the triple decides. */
    function Equals(other: Arg<StationInfo>): (r: bool)
      ensures r <==> other == Given(this)
      ensures r ==> other.value.Hash() == Hash()
    {
      other.Given? && other.value.name == name && other.value.line == line
      && other.value.position == position
    }
  }

  lemma OptLineNameInjective(a: Option<Line>, b: Option<Line>)
    requires OptLineName(a) == OptLineName(b)
    ensures a == b
  {
    if a.Some? && b.Some? {
      ParseLineName(a.value);
      ParseLineName(b.value);
    }
  }

  /** Two stations with the same identifier share their line and their name. */
  lemma {:induction false} IdDeterminesLineAndName(a: StationInfo, b: StationInfo)
    requires a.Id() == b.Id()
    ensures a.line == b.line && a.name == b.name
  {
    JoinIdInjective(OptLineName(a.line), a.name, OptLineName(b.line), b.name);
    OptLineNameInjective(a.line, b.line);
  }

  /** The constructor's checks, in its order: name, then position, then line. A missing line is
      allowed. */
  function NewStationInfo(name: Arg<string>, line: Arg<Line>, position: Arg<Position>): (r: Result<StationInfo>)
    ensures r.Ok? <==> name.Given? && position.Given? && !line.WrongType?
    ensures r.Ok? ==> r.value.name == name.value && r.value.position == position.value
    ensures r.Ok? ==> r.value.line == (if line.Given? then Some(line.value) else None)
    ensures name.Null? ==> r == Err("[TrainStation]: name is required")
  {
    match name
    case Null => Err("[TrainStation]: name is required")
    case WrongType => Err("[TrainStation]: name must be a string")
    case Given(n) =>
      match position
      case Null => Err("[TrainStation]: position is required")
      case WrongType => Err("[TrainStation]: position must be an instance of Position")
      case Given(p) =>
        match line
        case WrongType => Err("[TrainStation]: line must be a string")
        case Null => Ok(StationInfo(n, None, p))
        case Given(l) => Ok(StationInfo(n, Some(l), p))
  }

  /** One step of a route: arriving at a station, or changing from one station to another. */
  datatype TrainStep =
    | TrainAction(source: StationInfo, cost: real)
    | TrainTransfer(source: StationInfo, destination: StationInfo, cost: real)
  {
    predicate IsTransferPaid()
      requires TrainTransfer?
    {
      cost > 0.0
    }

    predicate IsSameLine()
      requires TrainTransfer?
    {
      source.line == destination.line
    }
  }

  /** `TrainAction(source, cost=0.0)`: a source is required and the cost must be a float. */
  function NewAction(source: Arg<StationInfo>, cost: Arg<real>): (r: Result<TrainStep>)
    ensures r.Ok? <==> source.Given? && cost.Given?
    ensures r.Ok? ==> r.value == TrainAction(source.value, cost.value)
  {
    if source.Null? then Err("[TrainAction]: source is required")
    else if source.WrongType? then Err("[TrainAction]: source must be an instance of TrainStation")
    else if !cost.Given? then Err("[TrainAction]: cost must be a float")
    else Ok(TrainAction(source.value, cost.value))
  }

  /** The cost of a transfer: the fare when paid, nothing otherwise. */
  function TransferCost(isPaid: bool): (c: real)
    ensures c >= 0.0
    ensures c > 0.0 <==> isPaid
  {
    if isPaid then FARE_COST else 0.0
  }

  /** `TrainTransfer(source, destination, is_paid=False)`: the source is checked first. */
  function NewTransfer(source: Arg<StationInfo>, destination: Arg<StationInfo>, isPaid: bool): (r: Result<TrainStep>)
    ensures r.Ok? <==> source.Given? && destination.Given?
    ensures source.Null? ==> r == Err("[TrainAction]: source is required")
    ensures r.Ok? ==> r.value.TrainTransfer? && r.value.source == source.value
                      && r.value.destination == destination.value
    ensures r.Ok? ==> (r.value.IsTransferPaid() <==> isPaid)
    ensures r.Ok? ==> r.value.cost == (if isPaid then FARE_COST else 0.0)
    ensures r.Ok? ==> (r.value.IsSameLine() <==> source.value.line == destination.value.line)
  {
    match NewAction(source, Given(TransferCost(isPaid)))
    case Err(m) => Err(m)
    case Ok(a) =>
      if destination.Null? then Err("[TrainTransfer]: destination is required")
      else if destination.WrongType? then Err("[TrainTransfer]: destination must be an instance of TrainStation")
      else Ok(TrainTransfer(a.source, destination.value, a.cost))
  }

  /** A station object: its identifying triple never changes; whether it is open and which
      transfers it lists do. */
  class TrainStation {
    const info: StationInfo
    var isOpen: bool
    var transfers: seq<TrainStep>

    /** A new station is open and lists no transfers. */
    constructor(info: StationInfo)
      ensures this.info == info && isOpen && transfers == []
    {
      this.info := info;
      isOpen := true;
      transfers := [];
    }

    method Close()
      modifies this`isOpen
      ensures !isOpen
    {
      isOpen := false;
    }

    method Open()
      modifies this`isOpen
      ensures isOpen
    {
      isOpen := true;
    }

    method IsStationOpen() returns (b: bool)
      ensures b == isOpen
    {
      b := isOpen;
    }

    /** Appends a transfer, keeping earlier entries and duplicates; anything that is not a
        transfer is refused. */
    method AddTransferStation(station: Arg<TrainStep>) returns (r: Outcome)
      modifies this`transfers
      ensures r.Pass? <==> station.Given? && station.value.TrainTransfer?
      ensures r.Pass? ==> transfers == old(transfers) + [station.value]
      ensures r.Fail? ==> transfers == old(transfers)
    {
      if station.Null? {
        return Fail("[TrainStation]: station is required");
      }
      if station.WrongType? || !station.value.TrainTransfer? {
        return Fail("[TrainStation]: station must be an instance of TrainTransfer");
      }
      transfers := transfers + [station.value];
      r := Pass;
    }
  }
}
