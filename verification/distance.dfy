/** Distance value objects: kilometres and miles, with exact `real` arithmetic standing for
    Python floats. Every operation goes back through the checking constructor, as the
    operators of the source do. */
module Distance {
  import opened Base

  /** Miles per kilometre. The source names it MILE_TO_KILOMETER and divides by it. */
  const MILE_TO_KILOMETER: real := 0.621371

  datatype Kilometer = Kilometer(value: real) {
    function Hash(): real { value }

    /** `==`: only another Kilometer with the same value is equal. */
    function Equals(other: Arg<Kilometer>): (r: bool)
      ensures r <==> other == Given(this)
      ensures r ==> other.value.Hash() == Hash()
    {
      other.Given? && other.value.value == value
    }
  }

  datatype Mile = Mile(value: real) {
    function Hash(): real { value }

    function Equals(other: Arg<Mile>): (r: bool)
      ensures r <==> other == Given(this)
      ensures r ==> other.value.Hash() == Hash()
    {
      other.Given? && other.value.value == value
    }
  }

  /** `Kilometer(value)`: `None`, a non-number and a negative value are refused. */
  function NewKilometer(v: Arg<real>): (r: Result<Kilometer>)
    ensures r.Ok? <==> v.Given? && v.value >= 0.0
    ensures r.Ok? ==> r.value == Kilometer(v.value)
  {
    match v
    case Null => Err("Distance cannot be None")
    case WrongType => Err("Distance must be a number")
    case Given(x) => if x < 0.0 then Err("Distance cannot be negative") else Ok(Kilometer(x))
  }

  /** `Mile(value)`: the same checks as for kilometres. */
  function NewMile(v: Arg<real>): (r: Result<Mile>)
    ensures r.Ok? <==> v.Given? && v.value >= 0.0
    ensures r.Ok? ==> r.value == Mile(v.value)
  {
    match v
    case Null => Err("Distance cannot be None")
    case WrongType => Err("Distance must be a number")
    case Given(x) => if x < 0.0 then Err("Distance cannot be negative") else Ok(Mile(x))
  }

  predicate ValidKilometer(k: Kilometer) { k.value >= 0.0 }

  predicate ValidMile(m: Mile) { m.value >= 0.0 }

  function AddKilometers(a: Kilometer, b: Kilometer): (r: Result<Kilometer>)
    requires ValidKilometer(a) && ValidKilometer(b)
    ensures r == Ok(Kilometer(a.value + b.value))
  {
    NewKilometer(Given(a.value + b.value))
  }

  /** `a - b` raises exactly when `b` is longer than `a`. */
  function SubKilometers(a: Kilometer, b: Kilometer): (r: Result<Kilometer>)
    requires ValidKilometer(a) && ValidKilometer(b)
    ensures r.Ok? <==> b.value <= a.value
    ensures r.Ok? ==> r.value.value == a.value - b.value && r.value.value <= a.value
  {
    NewKilometer(Given(a.value - b.value))
  }

  function AddMiles(a: Mile, b: Mile): (r: Result<Mile>)
    requires ValidMile(a) && ValidMile(b)
    ensures r == Ok(Mile(a.value + b.value))
  {
    NewMile(Given(a.value + b.value))
  }

  function SubMiles(a: Mile, b: Mile): (r: Result<Mile>)
    requires ValidMile(a) && ValidMile(b)
    ensures r.Ok? <==> b.value <= a.value
    ensures r.Ok? ==> r.value.value == a.value - b.value && r.value.value <= a.value
  {
    NewMile(Given(a.value - b.value))
  }

  function ToMiles(k: Kilometer): (r: Result<Mile>)
    requires ValidKilometer(k)
    ensures r.Ok? && ValidMile(r.value)
    ensures r.value.value <= k.value
  {
    NewMile(Given(k.value * MILE_TO_KILOMETER))
  }

  function ToKilometers(m: Mile): (r: Result<Kilometer>)
    requires ValidMile(m)
    ensures r.Ok? && ValidKilometer(r.value)
    ensures r.value.value >= m.value
  {
    NewKilometer(Given(m.value / MILE_TO_KILOMETER))
  }

  /** One mile is about 1.60934 kilometres. */
  lemma OneMileInKilometers()
    ensures 1.60934 < ToKilometers(Mile(1.0)).value.value < 1.60935
  {
  }

  /** One kilometre is 0.621371 miles and the conversion scales linearly; a distance in
      kilometres is the one in miles divided by that factor. */
  lemma ConversionFactors(k: Kilometer, m: Mile, c: real)
    requires ValidKilometer(k) && ValidMile(m) && c >= 0.0
    ensures ToMiles(Kilometer(1.0)) == Ok(Mile(0.621371))
    ensures ToMiles(Kilometer(c * k.value)).value.value == c * ToMiles(k).value.value
    ensures ToKilometers(m).value.value * 0.621371 == m.value
  {
  }

  /** Converting to miles and back gives the same distance, in exact arithmetic. */
  lemma KilometerRoundTrip(k: Kilometer)
    requires ValidKilometer(k)
    ensures ToKilometers(ToMiles(k).value) == Ok(k)
  {
  }

  lemma MileRoundTrip(m: Mile)
    requires ValidMile(m)
    ensures ToMiles(ToKilometers(m).value) == Ok(m)
  {
  }
}
