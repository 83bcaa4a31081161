/** The CTA train station: a station whose route is a train line. Its identifier, line,
    equality and hash are expressions over the fixed name, location and line. */
module CtaStations {
  import opened Base
  import opened Lines
  import opened Geo
  import opened Stations

  /** The printed form of a line (`CTATrainLine.__str__`): its lowercase value. */
  function LineText(l: Line): (s: string)
    ensures s == LineName(l)
    ensures ParseLine(s) == Some(l)
  {
    ParseLineName(l);
    LineName(l)
  }

  /** The route is assigned after the base constructor and never checked, so it may be
      missing; it then prints as "None". */
  datatype CtaTrainStation = CtaTrainStation(name: string, location: Location, route: Option<Line>) {

    /** `route:name`, e.g. "red:Howard". */
    function Id(): (id: string)
      ensures id == JoinId(OptLineName(route), name)
      ensures route.Some? ==> id[..|LineText(route.value)|] == LineText(route.value)
    {
      JoinId(OptLineName(route), name)
    }

    function GetLine(): (l: Option<Line>)
      ensures l == route
    {
      route
    }

    /** The hash covers the whole triple. */
    function Hash(): (string, Location, Option<Line>) { (name, location, route) }

    /** `==`: only another CTA train station can be equal, and then exactly when the triple is. */
    function Equals(other: Arg<CtaTrainStation>): (r: bool)
      ensures r <==> other == Given(this)
      ensures r ==> other.value.Hash() == Hash()
    {
      other.Given? && other.value.name == name && other.value.location == location
      && other.value.route == route
    }
  }

  /** `CTATrainStation(name, location, route)`: the base constructor checks the name and the
      location (with no route), then the line is stored as given. */
  function NewCtaTrainStation(name: Arg<string>, location: Arg<Location>, route: Option<Line>): (r: Result<CtaTrainStation>)
    ensures r.Ok? <==> CheckStation(name, location, Null).Pass?
    ensures r.Ok? <==> name.Given? && |name.value| > 0 && location.Given?
    ensures r.Ok? ==> r.value.name == name.value && r.value.location == location.value
    ensures r.Ok? ==> r.value.GetLine() == route
  {
    match CheckStation(name, location, Null)
    case Fail(m) => Err(m)
    case Pass => Ok(CtaTrainStation(name.value, location.value, route))
  }

  /** Two stations on lines, with colon-free names, have the same identifier exactly when they
      share line and name; the identifier splits back into the line's text and the name. */
  lemma {:induction false} IdIdentifiesLineAndName(a: CtaTrainStation, b: CtaTrainStation)
    requires a.route.Some? && b.route.Some?
    requires ':' !in a.name
    ensures SplitId(a.Id()) == Some((LineText(a.route.value), a.name))
    ensures a.Id() == b.Id() <==> a.route == b.route && a.name == b.name
  {
    SplitJoinId(LineName(a.route.value), a.name);
    if a.Id() == b.Id() {
      JoinIdInjective(LineName(a.route.value), a.name, LineName(b.route.value), b.name);
      ParseLineName(a.route.value);
      ParseLineName(b.route.value);
    }
  }

  /** Equal stations have equal identifiers; the converse fails across locations. */
  lemma EqualStationsShareId(a: CtaTrainStation, l: Location)
    requires l != a.location
    ensures a.Equals(Given(a)) && !a.Equals(Given(a.(location := l)))
    ensures a.(location := l).Id() == a.Id()
  {
  }
}
