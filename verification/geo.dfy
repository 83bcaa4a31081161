/** Geographic locations: a latitude in [-90, 90] and a longitude in [-180, 180], checked at
    construction and compared by value. */
module Geo {
  import opened Base

  datatype Location = Location(latitude: real, longitude: real) {
    function Coordinates(): (c: (real, real))
      ensures c.0 == latitude && c.1 == longitude
    {
      (latitude, longitude)
    }

    function Hash(): (real, real) { (latitude, longitude) }

    /** `==`: equal exactly when the other object is a Location with both coordinates equal;
        equal locations have equal hashes. */
    function Equals(other: Arg<Location>): (r: bool)
      ensures r <==> other.Given? && other.value.latitude == latitude && other.value.longitude == longitude
      ensures r <==> other.Given? && other.value.Hash() == Hash()
    {
      other.Given? && other.value.latitude == latitude && other.value.longitude == longitude
    }
  }

  predicate ValidLocation(l: Location)
  {
    -90.0 <= l.latitude <= 90.0 && -180.0 <= l.longitude <= 180.0
  }

  function CheckLatitude(latitude: Arg<real>): (r: Result<real>)
    ensures r.Ok? <==> latitude.Given? && -90.0 <= latitude.value <= 90.0
    ensures r.Ok? ==> r.value == latitude.value
  {
    match latitude
    case Null => Err("Latitude cannot be None")
    case WrongType => Err("Latitude must be a number")
    case Given(x) =>
      if x < -90.0 || x > 90.0 then Err("Latitude must be between -90 and 90") else Ok(x)
  }

  function CheckLongitude(longitude: Arg<real>): (r: Result<real>)
    ensures r.Ok? <==> longitude.Given? && -180.0 <= longitude.value <= 180.0
    ensures r.Ok? ==> r.value == longitude.value
  {
    match longitude
    case Null => Err("Longitude cannot be None")
    case WrongType => Err("Longitude must be a number")
    case Given(x) =>
      if x < -180.0 || x > 180.0 then Err("Longitude must be between -180 and 180") else Ok(x)
  }

  /** `Location(latitude, longitude)`: the latitude is checked first, then the longitude. */
  function NewLocation(latitude: Arg<real>, longitude: Arg<real>): (r: Result<Location>)
    ensures r.Ok? <==> CheckLatitude(latitude).Ok? && CheckLongitude(longitude).Ok?
    ensures r.Ok? ==> ValidLocation(r.value)
    ensures r.Ok? ==> r.value.Coordinates() == (latitude.value, longitude.value)
    ensures CheckLatitude(latitude).Err? ==> r == Err(CheckLatitude(latitude).msg)
  {
    match CheckLatitude(latitude)
    case Err(m) => Err(m)
    case Ok(lat) =>
      match CheckLongitude(longitude)
      case Err(m) => Err(m)
      case Ok(lng) => Ok(Location(lat, lng))
  }

  /** The argument check at the head of `distance_to`; the Haversine formula itself is not
      part of this model. */
  function DistanceArgument(other: Arg<Location>): (r: Result<Location>)
    ensures r.Ok? <==> other.Given?
    ensures r.Ok? ==> r.value == other.value
  {
    if other.Given? then Ok(other.value) else Err("Invalid location")
  }

  /** The bounds themselves are accepted. */
  lemma BoundaryCoordinatesAccepted()
    ensures NewLocation(Given(90.0), Given(180.0)) == Ok(Location(90.0, 180.0))
    ensures NewLocation(Given(-90.0), Given(-180.0)) == Ok(Location(-90.0, -180.0))
    ensures NewLocation(Given(90.5), Given(0.0)).Err?
    ensures NewLocation(Given(0.0), Given(-180.5)).Err?
  {
  }
}
