/**
  Snapping a location onto the grid of the weather data set: longitudes at every whole
  degree plus one half, latitudes at every whole degree plus one or three quarters.
  The integer part is Java's `(int)` cast, which truncates toward zero; for negative
  coordinates that moves the point away from the location it was taken from.
*/
module GpsGrid {
  import opened JavaNumerics
  import opened Records

  /** The two fractional offsets a grid latitude can have above its truncated part. */
  predicate OnGrid(g: GpsCoordinates) {
    && IsWhole(g.longitude - 0.5)
    && (IsWhole(g.latitude - 0.25) || IsWhole(g.latitude - 0.75))
  }

  /** `getCorrespondingGpsCoords`. */
  function GetCorrespondingGpsCoords(g: GpsCoordinates): (r: GpsCoordinates)
    ensures OnGrid(r)
    ensures r.longitude == IntCast(g.longitude) as real + 0.5
    ensures IsWhole(r.latitude - 0.25) <==> g.latitude - IntCast(g.latitude) as real < 0.5
  {
    var intLatitude := IntCast(g.latitude);
    var fraction := if g.latitude - intLatitude as real < 0.5 then 0.25 else 0.75;
    GpsCoordinates(IntCast(g.longitude) as real + 0.5, intLatitude as real + fraction)
  }

  /** For a location with non-negative coordinates (within `int` range) the grid point lies
      in the same one-degree by half-degree cell: at most half a degree of longitude and a
      quarter degree of latitude away. */
  lemma {:induction false} GridPointNearby(g: GpsCoordinates)
    requires 0.0 <= g.longitude < IntMax as real
    requires 0.0 <= g.latitude < IntMax as real
    ensures var r := GetCorrespondingGpsCoords(g);
      && -0.5 <= r.longitude - g.longitude <= 0.5
      && -0.25 <= r.latitude - g.latitude <= 0.25
  {
  }

  /** For non-negative coordinates, snapping a grid point again leaves it where it is. */
  lemma {:induction false} GridIdempotentForNonNegative(g: GpsCoordinates)
    requires 0.0 <= g.longitude < IntMax as real - 1.0
    requires 0.0 <= g.latitude < IntMax as real - 1.0
    ensures GetCorrespondingGpsCoords(GetCorrespondingGpsCoords(g)) == GetCorrespondingGpsCoords(g)
  {
    var r := GetCorrespondingGpsCoords(g);
    var lon, lat := IntCast(g.longitude), IntCast(g.latitude);
    assert IntCast(r.longitude) == lon;
    assert IntCast(r.latitude) == lat;
  }

  /** South of the equator the truncated latitude lies above the location, so the
      difference is never below one half: a negative latitude is always snapped to its
      truncation plus one quarter, north of the location it came from. */
  lemma {:induction false} NegativeLatitudeSnapsNorth(g: GpsCoordinates)
    requires IntMin as real < g.latitude < 0.0
    ensures GetCorrespondingGpsCoords(g).latitude == Trunc(g.latitude) as real + 0.25
    ensures GetCorrespondingGpsCoords(g).latitude > g.latitude
  {
  }

  /** A location in the south-west quadrant whose grid point is not a fixed point of the
      snapping, and lies more than a quarter degree of latitude away from the location. */
  lemma NegativeCoordinatesNotIdempotent()
    ensures var g := GpsCoordinates(-1.3, -1.3);
      && GetCorrespondingGpsCoords(g) == GpsCoordinates(-0.5, -0.75)
      && GetCorrespondingGpsCoords(GetCorrespondingGpsCoords(g)) == GpsCoordinates(0.5, 0.25)
      && GetCorrespondingGpsCoords(g).latitude - g.latitude > 0.25
  {
    assert Trunc(-1.3) == -1;
    assert Trunc(-0.5) == 0;
    assert Trunc(-0.75) == 0;
  }
}
