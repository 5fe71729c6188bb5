/**
  The DC power of one module from the irradiance on its plane, after the Sandia module
  temperature model and the PVWatts temperature correction.  The coefficient `a` is the
  mean of four mounting configurations; the coefficient `b` is the plain sum of the four
  values, which is what the source computes.
*/
module ModulePower {
  import opened Trigonometry
  import opened Records

  const TemperatureCoefficient: real := -0.47 * 0.01
  const ReferenceCellTemp: real := 25.0
  const CoefficientA: real := (-3.47 + -2.98 + -3.56 + -2.81) / 4.0
  const CoefficientB: real := -0.0594 + -0.0471 + -0.075 + -0.0455
  const TemperatureDifference: real := (3.0 + 1.0 + 3.0 + 0.0) / 4.0

  /** The coefficients as the source evaluates them: `b` is four times the mean of the
      four values it lists. */
  lemma Coefficients()
    ensures CoefficientA == -3.205
    ensures CoefficientB == -0.227
    ensures CoefficientB == 4.0 * ((-0.0594 + -0.0471 + -0.075 + -0.0455) / 4.0)
    ensures TemperatureDifference == 1.75
    ensures TemperatureCoefficient == -0.0047
  {
  }

  /** `getBackSurfaceTemp`: the air temperature raised by the global irradiance, damped by
      the wind. */
  function GetBackSurfaceTemp(m: MathFunctions, f: FileData): (t: real)
    requires Sound(m)
    ensures f.globalHorizontalIrradiance == 0.0 ==> t == f.temperature
    ensures f.globalHorizontalIrradiance > 0.0 ==> t > f.temperature
    ensures f.globalHorizontalIrradiance < 0.0 ==> t < f.temperature
  {
    var damping := m.exp(CoefficientA + CoefficientB * f.windSpeed);
    PositiveProduct(f.globalHorizontalIrradiance, damping);
    f.globalHorizontalIrradiance * damping + f.temperature
  }

  lemma {:induction false} PositiveProduct(x: real, y: real)
    requires 0.0 < y
    ensures 0.0 < x ==> 0.0 < x * y
    ensures x < 0.0 ==> x * y < 0.0
  {
  }

  /** `getCellTemp`: the back surface temperature plus the conduction difference at the
      current irradiance. */
  function GetCellTemp(m: MathFunctions, f: FileData): (t: real)
    requires Sound(m)
    ensures f.globalHorizontalIrradiance == 0.0 ==> t == f.temperature
    ensures f.globalHorizontalIrradiance > 0.0 ==> t > GetBackSurfaceTemp(m, f) > f.temperature
    ensures t - GetBackSurfaceTemp(m, f) == f.globalHorizontalIrradiance * 0.00175
  {
    GetBackSurfaceTemp(m, f) + f.globalHorizontalIrradiance / 1000.0 * TemperatureDifference
  }

  /** The factor by which the cell temperature corrects the rated power. */
  function TemperatureFactor(cellTemp: real): (k: real)
    ensures cellTemp == ReferenceCellTemp ==> k == 1.0
    ensures cellTemp > ReferenceCellTemp ==> k < 1.0
    ensures cellTemp < ReferenceCellTemp ==> k > 1.0
  {
    1.0 + TemperatureCoefficient * (cellTemp - ReferenceCellTemp)
  }

  /** `getDCpower`: the rated power scaled by the irradiance relative to 1000 W/m² and by
      the temperature correction. */
  function GetDcPower(m: MathFunctions, poaIrradiance: real, f: FileData, dcRating: real): (p: real)
    requires Sound(m)
    ensures poaIrradiance == 0.0 ==> p == 0.0
    ensures dcRating == 0.0 ==> p == 0.0
    ensures GetCellTemp(m, f) == ReferenceCellTemp ==> p == poaIrradiance * dcRating / 1000.0
  {
    poaIrradiance / 1000.0 * dcRating * TemperatureFactor(GetCellTemp(m, f))
  }

  /** The DC power is linear in the irradiance on the plane: that is what lets a change of
      the beam term alone (a horizon obstacle) be read off the power difference. */
  lemma {:induction false} DcPowerLinearInIrradiance(m: MathFunctions, p1: real, p2: real, k: real, f: FileData, dcRating: real)
    requires Sound(m)
    ensures GetDcPower(m, p1 + p2, f, dcRating) == GetDcPower(m, p1, f, dcRating) + GetDcPower(m, p2, f, dcRating)
    ensures GetDcPower(m, k * p1, f, dcRating) == k * GetDcPower(m, p1, f, dcRating)
  {
    var c := dcRating * TemperatureFactor(GetCellTemp(m, f)) / 1000.0;
    assert GetDcPower(m, p1, f, dcRating) == p1 * c;
    assert GetDcPower(m, p2, f, dcRating) == p2 * c;
    assert GetDcPower(m, p1 + p2, f, dcRating) == (p1 + p2) * c;
    assert GetDcPower(m, k * p1, f, dcRating) == (k * p1) * c;
  }

  /** Below the temperature at which the correction factor reaches zero, more irradiance on
      the plane gives more power for a module with a positive rating. */
  lemma {:induction false} DcPowerMonotoneInIrradiance(m: MathFunctions, p1: real, p2: real, f: FileData, dcRating: real)
    requires Sound(m)
    requires p1 < p2 && 0.0 < dcRating
    requires 0.0 < TemperatureFactor(GetCellTemp(m, f))
    ensures GetDcPower(m, p1, f, dcRating) < GetDcPower(m, p2, f, dcRating)
  {
    var c := dcRating * TemperatureFactor(GetCellTemp(m, f)) / 1000.0;
    assert 0.0 < c;
    assert GetDcPower(m, p1, f, dcRating) == p1 * c;
    assert GetDcPower(m, p2, f, dcRating) == p2 * c;
  }
}
