/** Positions and the factory that hands out one shared Position per coordinate pair. */
module Positions {

  datatype Position = Position(latitude: real, longitude: real)

  /** The text key `Position.format_position` builds; distinct coordinate pairs give distinct
      keys, which is all the factory relies on, so the pair itself stands for the text. */
  type PositionKey = (real, real)

  function FormatPosition(latitude: real, longitude: real): (key: PositionKey)
    ensures key.0 == latitude && key.1 == longitude
  {
    (latitude, longitude)
  }

  /** A cache of positions keyed by their formatted coordinates. The source keeps the cache in
      a class attribute shared by the whole process; here it is an object the caller owns. */
  class PositionFactory {
    var positions: map<PositionKey, Position>

    /** Every cached position carries the coordinates of its key. */
    ghost predicate Valid()
      reads this
    {
      forall key | key in positions :: positions[key] == Position(key.0, key.1)
    }

    constructor()
      ensures Valid() && positions == map[]
    {
      positions := map[];
    }

    /** Returns the cached position for these coordinates, creating and caching it first when
        there is none. A cached entry is never replaced. */
    method GetPosition(latitude: real, longitude: real) returns (p: Position)
      requires Valid()
      modifies this
      ensures Valid()
      ensures p.latitude == latitude && p.longitude == longitude
      ensures FormatPosition(latitude, longitude) in old(positions) ==>
                positions == old(positions) && p == old(positions)[FormatPosition(latitude, longitude)]
      ensures FormatPosition(latitude, longitude) !in old(positions) ==>
                positions == old(positions)[FormatPosition(latitude, longitude) := p]
      ensures |positions| == |old(positions)| + (if FormatPosition(latitude, longitude) in old(positions) then 0 else 1)
    {
      var key := FormatPosition(latitude, longitude);
      if key in positions {
        p := positions[key];
        return;
      }
      p := Position(latitude, longitude);
      positions := positions[key := p];
    }

    method Length() returns (n: nat)
      ensures n == |positions|
    {
      n := |positions|;
    }

    method ClearPositions()
      modifies this
      ensures Valid() && positions == map[] && |positions| == 0
    {
      positions := map[];
    }
  }
}
