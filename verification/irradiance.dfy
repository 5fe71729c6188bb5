/**
  The irradiance on the plane of a module: the direct beam (blocked when the horizon at
  the sun's azimuth is at least as high as the sun, and corrected for reflection at steep
  angles of incidence), the sky diffuse part after the Hay-Davies model, and the light
  reflected from the ground.
*/
module Irradiance {
  import opened JavaNumerics
  import opened Trigonometry
  import opened Outcomes
  import Calendar
  import opened Records
  import opened Horizon

  const GroundAlbedo: real := 0.2
  const SolarConstant: real := 1367.0
  /** Above this angle of incidence (degrees) the beam is corrected for reflection. */
  const ReflectionThreshold: real := 50.0

  /** The cosine of the angle between the sun and the normal of the panel. */
  function IncidenceCosine(m: MathFunctions, azimuthSun: real, elevationSun: real, azimuthPanel: real, tiltPanel: real): real {
    var azimuthSunRad := ToRadians(m, azimuthSun);
    var solarZenithRad := ToRadians(m, 90.0 - elevationSun);
    var azimuthPanelRad := ToRadians(m, azimuthPanel);
    var tiltPanelRad := ToRadians(m, tiltPanel);
    m.sin(solarZenithRad) * m.cos(azimuthPanelRad - azimuthSunRad) * m.sin(tiltPanelRad)
      + m.cos(solarZenithRad) * m.cos(tiltPanelRad)
  }

  /** `calcAngleOfIncidence`: the angle in degrees, clamped to 90 when the sun is behind
      the panel. */
  function CalcAngleOfIncidence(m: MathFunctions, azimuthSun: real, elevationSun: real, azimuthPanel: real, tiltPanel: real): (aoi: real)
    requires Sound(m)
    ensures 0.0 <= aoi <= 90.0
    ensures aoi < 90.0 ==> aoi == ToDegrees(m, m.acos(IncidenceCosine(m, azimuthSun, elevationSun, azimuthPanel, tiltPanel)))
  {
    var angle := ToDegrees(m, m.acos(IncidenceCosine(m, azimuthSun, elevationSun, azimuthPanel, tiltPanel)));
    if angle > 90.0 then 90.0 else angle
  }

  /** The reflection loss polynomial in the angle of incidence. */
  function ReflectionCorrection(aoi: real): real {
    1.0
      + -0.002438 * aoi
      + 0.0003103 * (aoi * aoi)
      + -0.00001246 * (aoi * aoi * aoi)
      + 0.0000002112 * (aoi * aoi * aoi * aoi)
      + -0.000000001359 * (aoi * aoi * aoi * aoi * aoi)
  }

  /** `getRawPOAbeam`: the direct normal irradiance projected onto the panel. */
  function GetRawPoaBeam(m: MathFunctions, directNormalIrradiance: real, aoi: real): (b: real)
    requires Sound(m)
    ensures 0.0 <= directNormalIrradiance ==> -directNormalIrradiance <= b <= directNormalIrradiance
    ensures aoi == 0.0 ==> b == directNormalIrradiance
  {
    BoundedProduct(directNormalIrradiance, CosDeg(m, aoi));
    directNormalIrradiance * CosDeg(m, aoi)
  }

  lemma {:induction false} BoundedProduct(x: real, c: real)
    requires -1.0 <= c <= 1.0
    ensures 0.0 <= x ==> -x <= x * c <= x
  {
    if 0.0 < x {
      MulLeftMono(x, c, 1.0);
      MulLeftMono(x, -1.0, c);
    }
  }

  /** `getReflectionCorrectedPOAbeam`. */
  function GetReflectionCorrectedPoaBeam(m: MathFunctions, directNormalIrradiance: real, aoi: real): (b: real)
    requires Sound(m)
    ensures aoi <= ReflectionThreshold ==> b == GetRawPoaBeam(m, directNormalIrradiance, aoi)
    ensures ReflectionThreshold < aoi ==> b == GetRawPoaBeam(m, directNormalIrradiance, aoi) * ReflectionCorrection(aoi)
  {
    var raw := GetRawPoaBeam(m, directNormalIrradiance, aoi);
    if aoi > ReflectionThreshold then raw * ReflectionCorrection(aoi) else raw
  }

  /** The correction does not start at 1: the beam drops by about 0.8 percent as the angle
      of incidence passes 50 degrees, and at 90 degrees about 4 percent of the (already
      vanishing) raw beam is kept. */
  lemma ReflectionCorrectionEndpoints()
    ensures ReflectionCorrection(ReflectionThreshold) == 0.9916625
    ensures ReflectionCorrection(90.0) == 0.0427429
  {
  }

  /** The horizon blocks the sun when it is at least as high as the sun.  An indeterminate
      horizon (NaN in the source) compares false and never blocks. */
  predicate Shades(horizon: SkylineValue, sunElevation: real) {
    horizon.Elevation? && horizon.degrees >= sunElevation
  }

  /** The skyline bucket the sun's azimuth falls into. */
  function SunBucket(sun: SunPosition): int {
    IntCast(sun.azimuth)
  }

  /** `getPoaBeam`.  A bucket missing from the skyline is an error: the source unboxes a
      missing map entry. */
  function GetPoaBeam(m: MathFunctions, directNormalIrradiance: real, pv: PvModule, sun: SunPosition): (r: Result<real>)
    requires Sound(m)
    ensures r.Ok? <==> SunBucket(sun) in pv.skyline
    ensures r.Err? ==> r.failure == MissingSkylineBucket(SunBucket(sun))
    ensures r.Ok? && Shades(pv.skyline[SunBucket(sun)], sun.elevation) ==> r.value == 0.0
    ensures r.Ok? && !Shades(pv.skyline[SunBucket(sun)], sun.elevation) ==>
      r.value == GetReflectionCorrectedPoaBeam(m, directNormalIrradiance,
        CalcAngleOfIncidence(m, sun.azimuth, sun.elevation, pv.azimuth, pv.tilt))
  {
    match GetShadowingElevationForAzimuth(pv, SunBucket(sun))
    case Err(e) => Err(e)
    case Ok(horizon) =>
      if Shades(horizon, sun.elevation) then Ok(0.0)
      else
        var aoi := CalcAngleOfIncidence(m, sun.azimuth, sun.elevation, pv.azimuth, pv.tilt);
        Ok(GetReflectionCorrectedPoaBeam(m, directNormalIrradiance, aoi))
  }

  /** The view factor `(1 + cos tilt) / 2` of the sky, in [0, 1]. */
  function SkyViewFactor(m: MathFunctions, tiltRadians: real): (v: real)
    requires Sound(m)
    ensures 0.0 <= v <= 1.0
    ensures tiltRadians == 0.0 ==> v == 1.0
  {
    (1.0 + m.cos(tiltRadians)) / 2.0
  }

  lemma {:induction false} FractionOf(x: real, v: real)
    requires 0.0 <= v <= 1.0
    ensures 0.0 <= x ==> 0.0 <= x * v <= x
  {
    if 0.0 < x {
      MulLeftMono(x, v, 1.0);
      MulLeftMono(x, 0.0, v);
    }
  }

  /** `getPoaDiffuse`: the isotropic share of the diffuse light that the panel sees. */
  function GetPoaDiffuse(m: MathFunctions, anisotropyIndex: real, diffuseHorizontalIrradiance: real, tiltRadians: real): (d: real)
    requires Sound(m)
    ensures 0.0 <= diffuseHorizontalIrradiance * (1.0 - anisotropyIndex) ==>
      0.0 <= d <= diffuseHorizontalIrradiance * (1.0 - anisotropyIndex)
    ensures tiltRadians == 0.0 ==> d == diffuseHorizontalIrradiance * (1.0 - anisotropyIndex)
  {
    var v := SkyViewFactor(m, tiltRadians);
    var iso := diffuseHorizontalIrradiance * (1.0 - anisotropyIndex);
    FractionOf(iso, v);
    iso * v
  }

  /** `getPoaGroundReflected`: the light the ground reflects onto the panel. */
  function GetPoaGroundReflected(m: MathFunctions, globalHorizontalIrradiance: real, tiltRadians: real): (g: real)
    requires Sound(m)
    ensures 0.0 <= globalHorizontalIrradiance ==> 0.0 <= g <= GroundAlbedo * globalHorizontalIrradiance
    ensures tiltRadians == 0.0 ==> g == GroundAlbedo * globalHorizontalIrradiance
  {
    var v := SkyViewFactor(m, tiltRadians);
    var reflected := globalHorizontalIrradiance * GroundAlbedo;
    FractionOf(reflected, v);
    reflected * v
  }

  /** The angle of the day in the extraterrestrial radiation formula.  The source multiplies
      by 365 where the formula divides by it. */
  function DayAngle(m: MathFunctions, dayOfYear: int): real {
    (2.0 * m.pi * dayOfYear as real) * 365.0
  }

  /** `calcExtraterrestrialRadiation`. */
  function CalcExtraterrestrialRadiation(m: MathFunctions, dayOfYear: int): (e: real)
    requires Sound(m)
    ensures 1317.532371 <= e <= 1416.768369
  {
    var beta := DayAngle(m, dayOfYear);
    var c1, s1, c2, s2 := m.cos(beta), m.sin(beta), m.cos(2.0 * beta), m.sin(2.0 * beta);
    BoundedProduct(0.034221, c1);
    BoundedProduct(0.00128, s1);
    BoundedProduct(0.000719, c2);
    BoundedProduct(0.000077, s2);
    var factor := 1.00011 + 0.034221 * c1 + 0.00128 * s1 + 0.000719 * c2 + 0.000077 * s2;
    assert 0.963813 <= factor <= 1.036407;
    SolarConstant * factor
  }

  /** Because the day angle is a whole number of turns, with periodic sine and cosine the
      extraterrestrial radiation is the same on every day of the year. */
  lemma {:induction false} ExtraterrestrialRadiationConstant(m: MathFunctions, dayOfYear: int)
    requires Sound(m) && Periodic(m)
    ensures CalcExtraterrestrialRadiation(m, dayOfYear) == 1414.91335
  {
    var beta := DayAngle(m, dayOfYear);
    assert beta == FullTurns(m, 365 * dayOfYear);
    assert 2.0 * beta == FullTurns(m, 730 * dayOfYear);
  }

  /** `calcAnisotropyIndex`: the share of the direct beam in the extraterrestrial radiation. */
  function CalcAnisotropyIndex(m: MathFunctions, directNormalIrradiance: real, dayOfYear: int): (a: real)
    requires Sound(m)
    ensures 0.0 <= directNormalIrradiance ==> 0.0 <= a <= directNormalIrradiance / 1317.532371
    ensures directNormalIrradiance == 0.0 ==> a == 0.0
  {
    var e := CalcExtraterrestrialRadiation(m, dayOfYear);
    DivAntitone(directNormalIrradiance, 1317.532371, e);
    directNormalIrradiance / e
  }

  lemma {:induction false} DivAntitone(x: real, lo: real, d: real)
    requires 0.0 < lo <= d
    ensures 0.0 <= x ==> 0.0 <= x / d <= x / lo
  {
    var q := x / d;
    if 0.0 <= x {
      DivAntitoneNonNegative(x, lo, d);
    }
  }

  lemma {:induction false} DivAntitoneNonNegative(x: real, lo: real, d: real)
    requires 0.0 <= x && 0.0 < lo <= d
    ensures 0.0 <= x / d <= x / lo
  {
    var q := x / d;
    assert q * d == x;
    if q > x / lo {
      MulLeftMono(lo, x / lo, q);
      MulLeftMono(q, lo, d);
    }
  }

  /** `getPOAIrradiance`: beam plus sky diffuse plus ground reflected. */
  function GetPoaIrradiance(m: MathFunctions, f: FileData, pv: PvModule, sun: SunPosition): (r: Result<real>)
    requires Sound(m)
    ensures r.Ok? <==> SunBucket(sun) in pv.skyline
    ensures r.Err? ==> r.failure == MissingSkylineBucket(SunBucket(sun))
    ensures r.Ok? ==> r.value == GetPoaBeam(m, f.directNormalIrradiance, pv, sun).value + DiffuseAndGround(m, f, pv)
  {
    match GetPoaBeam(m, f.directNormalIrradiance, pv, sun)
    case Err(e) => Err(e)
    case Ok(beam) => Ok(beam + DiffuseAndGround(m, f, pv))
  }

  /** The two terms that do not depend on the sun's position or the horizon. */
  function DiffuseAndGround(m: MathFunctions, f: FileData, pv: PvModule): real
    requires Sound(m)
  {
    var anisotropyIndex := CalcAnisotropyIndex(m, f.directNormalIrradiance, Calendar.DayOfYear(f.localDateTime));
    var tiltRadians := ToRadians(m, pv.tilt);
    GetPoaDiffuse(m, anisotropyIndex, f.diffuseHorizontalIrradiance, tiltRadians)
      + GetPoaGroundReflected(m, f.globalHorizontalIrradiance, tiltRadians)
  }

  /** With the sun blocked by the horizon only the diffuse and ground terms remain. */
  lemma {:induction false} BlockedSunLeavesDiffuse(m: MathFunctions, f: FileData, pv: PvModule, sun: SunPosition)
    requires Sound(m)
    requires SunBucket(sun) in pv.skyline && Shades(pv.skyline[SunBucket(sun)], sun.elevation)
    ensures GetPoaIrradiance(m, f, pv, sun) == Ok(DiffuseAndGround(m, f, pv))
  {
  }

  /** The horizon enters the irradiance only through the single decision whether it blocks
      the sun: two modules with the same orientation whose skylines both leave the sun
      unblocked (or both block it) receive the same irradiance. */
  lemma {:induction false} SkylineOnlyDecidesBlocking(m: MathFunctions, f: FileData, p: PvModule, q: PvModule, sun: SunPosition)
    requires Sound(m)
    requires p.azimuth == q.azimuth && p.tilt == q.tilt
    requires SunBucket(sun) in p.skyline && SunBucket(sun) in q.skyline
    requires Shades(p.skyline[SunBucket(sun)], sun.elevation) == Shades(q.skyline[SunBucket(sun)], sun.elevation)
    ensures GetPoaIrradiance(m, f, p, sun) == GetPoaIrradiance(m, f, q, sun)
  {
  }

  /** After the obstacles are removed, the sun is never blocked away from bucket 0, and in
      bucket 0 only when it is on or below the mathematical horizon.  The lookup never
      fails for an azimuth in [0, 360). */
  lemma {:induction false} NoShadowSkylineBlocking(m: MathFunctions, pv: PvModule, sun: SunPosition)
    requires 0.0 <= sun.azimuth < 360.0
    ensures SunBucket(sun) in RemoveShadowing(pv).skyline
    ensures Shades(RemoveShadowing(pv).skyline[SunBucket(sun)], sun.elevation)
        <==> SunBucket(sun) == 0 && sun.elevation <= 0.0
  {
    var k := SunBucket(sun);
    assert IsBucket(k);
    if k != 0 {
      assert RemoveShadowing(pv).skyline[k] == Indeterminate;
    }
  }
}
