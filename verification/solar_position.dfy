/**
  The position of the sun for a place and a local time, after the low-precision formulas
  of the Astronomical Almanac: the time is turned into a Julian date (Meeus's algorithm),
  from which the ecliptic coordinates of the sun, its equatorial coordinates, the sidereal
  time and finally the local hour angle, azimuth and elevation follow.  All angles are in
  degrees.  The local time is taken to be one hour ahead of universal time.
*/
module SolarPosition {
  import opened JavaNumerics
  import opened Trigonometry
  import opened Calendar
  import opened Records

  /** The Julian date of the epoch J2000.0, 2000-01-01 12:00 universal time. */
  const J2000: real := 2451545.0

  // ---------------------------------------------------------------------------------------
  // Julian date

  /** January and February count as months 13 and 14 of the previous year. */
  function ShiftedYear(t: DateTime): int {
    if t.month < 3 then t.year - 1 else t.year
  }

  function ShiftedMonth(t: DateTime): int {
    if t.month < 3 then t.month + 12 else t.month
  }

  /** `Math.floor(365.25 * (year + 4716))`. */
  function YearTerm(year: int): int {
    (365.25 * (year + 4716) as real).Floor
  }

  /** `Math.floor(30.6001 * (month + 1))`. */
  function MonthTerm(month: int): int {
    (30.6001 * (month + 1) as real).Floor
  }

  /** The Gregorian correction `b = 2 - a + floor(a / 4)`, with `a = year / 100` an
      integer division. */
  function CenturyCorrection(year: int): int {
    var a := IntDiv(year, 100);
    2 - a + (a as real / 4.0).Floor
  }

  /** The fraction of the day elapsed at the time of `t`. */
  function DayFraction(t: DateTime): (f: real)
    requires Valid(t)
    ensures 0.0 <= f < 1.0
    ensures t.hour == 0 && t.minute == 0 <==> f == 0.0
  {
    t.hour as real / 24.0 + t.minute as real / 1440.0
  }

  /** The whole-number terms of the Julian day number, which is this count less 1524.5. */
  function JulianDayCount(t: DateTime): int {
    var year := ShiftedYear(t);
    YearTerm(year) + MonthTerm(ShiftedMonth(t)) + t.day + CenturyCorrection(year)
  }

  /** `convertToJulian`: the Julian day number (which falls on noon, so it ends in .5 at
      midnight), the day fraction and their sum. */
  function ConvertToJulian(t: DateTime): (j: Julian)
    requires Valid(t)
    ensures j.universalTime == t
    ensures j.dayFraction == DayFraction(t)
    ensures 0.0 <= j.dayFraction < 1.0
    ensures j.dateTime == j.day + j.dayFraction
    ensures IsWhole(j.day + 0.5)
  {
    var julianDay := JulianDayCount(t) as real - 1524.5;
    WholeNumber(JulianDayCount(t) - 1524);
    Julian(julianDay, DayFraction(t), julianDay + DayFraction(t), t)
  }

  lemma {:induction false} WholeNumber(k: int)
    ensures IsWhole(k as real)
  {
  }

  /** Two dates of the literature: J2000.0 itself, and 1988-06-19 12:00. */
  lemma JulianReferenceDates()
    ensures ConvertToJulian(DateTime(2000, 1, 1, 12, 0)).dateTime == J2000
    ensures ConvertToJulian(DateTime(1988, 6, 19, 12, 0)).dateTime == 2447332.0
  {
    assert YearTerm(1999) == 2452653;
    assert MonthTerm(13) == 428;
    assert CenturyCorrection(1999) == -13 by { FloorQuarterOf(19); }
    assert YearTerm(1988) == 2448636;
    assert MonthTerm(6) == 214;
    assert CenturyCorrection(1988) == -13 by { FloorQuarterOf(19); }
  }

  /** `floor(365.25 z) = 365 z + z / 4` for a non-negative whole number `z`. */
  lemma {:induction false} FloorQuarter(z: int)
    requires 0 <= z
    ensures (365.25 * z as real).Floor == 365 * z + z / 4
  {
    var q, r := z / 4, z % 4;
    assert z == 4 * q + r;
    assert 365.25 * z as real == (365 * z + q) as real + r as real / 4.0;
  }

  /** `Math.floor(a / 4)` of a whole number is Dafny's integer quotient by 4. */
  lemma {:induction false} FloorQuarterOf(a: int)
    ensures (a as real / 4.0).Floor == a / 4
  {
    var q, r := a / 4, a % 4;
    assert a == 4 * q + r;
    assert a as real / 4.0 == q as real + r as real / 4.0;
  }

  /** The year term grows by the length of a Julian year. */
  lemma {:induction false} YearTermStep(year: int)
    requires 1 <= year + 4716
    ensures YearTerm(year) - YearTerm(year - 1) == if year % 4 == 0 then 366 else 365
  {
    var z := year + 4716;
    FloorQuarter(z);
    FloorQuarter(z - 1);
    assert z % 4 == year % 4;
  }

  /** The century correction drops one day at each century year, except every fourth. */
  lemma {:induction false} CenturyStep(year: int)
    requires 1 <= year
    ensures CenturyCorrection(year) - CenturyCorrection(year - 1)
         == if year % 100 != 0 then 0 else if year % 400 == 0 then 0 else -1
  {
    var a, a' := year / 100, (year - 1) / 100;
    assert IntDiv(year, 100) == a && IntDiv(year - 1, 100) == a';
    FloorQuarterOf(a);
    FloorQuarterOf(a');
    if year % 100 == 0 {
      assert a == a' + 1;
      CenturyOfFourHundred(year);
      QuarterStep(a);
    } else {
      assert a == a';
    }
  }

  lemma {:induction false} CenturyOfFourHundred(year: int)
    requires year % 100 == 0
    ensures (year / 100) % 4 == 0 <==> year % 400 == 0
  {
    var a := year / 100;
    var q, r := a / 4, a % 4;
    assert year == 400 * q + 100 * r;
    assert 0 <= 100 * r < 400;
  }

  lemma {:induction false} QuarterStep(a: int)
    ensures a / 4 - (a - 1) / 4 == if a % 4 == 0 then 1 else 0
  {
    var q, r := a / 4, a % 4;
    assert a == 4 * q + r;
    if r == 0 { assert a - 1 == 4 * (q - 1) + 3; } else { assert a - 1 == 4 * q + (r - 1); }
  }

  /** The month term grows by the length of the month: months 3 to 14 run from March to
      February, so that the leap day falls at the end. */
  lemma {:induction false} MonthTermStep(t: DateTime)
    requires Valid(t) && t.month != 2
    ensures MonthTerm(ShiftedMonth(t) + 1) - MonthTerm(ShiftedMonth(t)) == DaysInMonth(t.year, t.month)
  {
    match ShiftedMonth(t)
    case 3 => assert MonthTerm(3) == 122 && MonthTerm(4) == 153;
    case 4 => assert MonthTerm(4) == 153 && MonthTerm(5) == 183;
    case 5 => assert MonthTerm(5) == 183 && MonthTerm(6) == 214;
    case 6 => assert MonthTerm(6) == 214 && MonthTerm(7) == 244;
    case 7 => assert MonthTerm(7) == 244 && MonthTerm(8) == 275;
    case 8 => assert MonthTerm(8) == 275 && MonthTerm(9) == 306;
    case 9 => assert MonthTerm(9) == 306 && MonthTerm(10) == 336;
    case 10 => assert MonthTerm(10) == 336 && MonthTerm(11) == 367;
    case 11 => assert MonthTerm(11) == 367 && MonthTerm(12) == 397;
    case 12 => assert MonthTerm(12) == 397 && MonthTerm(13) == 428;
    case 13 => assert MonthTerm(13) == 428 && MonthTerm(14) == 459;
  }

  /** The Julian day number counts days: from one calendar day to the next it grows by
      exactly one, across month ends, leap days and century years (of the common era). */
  lemma {:induction false} JulianDayNextDay(t: DateTime)
    requires Valid(t) && 1 <= t.year
    ensures ConvertToJulian(NextDay(t)).day == ConvertToJulian(t).day + 1.0
  {
    JulianDayCountNextDay(t);
  }

  lemma {:induction false} JulianDayCountNextDay(t: DateTime)
    requires Valid(t) && 1 <= t.year
    ensures JulianDayCount(NextDay(t)) == JulianDayCount(t) + 1
  {
    if t.day == DaysInMonth(t.year, t.month) {
      if t.month == 2 {
        LeapDayCount(t);
      } else {
        MonthEndCount(t);
      }
    }
  }

  /** From the end of February to the first of March the shifted year changes. */
  lemma {:induction false} LeapDayCount(t: DateTime)
    requires Valid(t) && 1 <= t.year && t.month == 2 && t.day == DaysInMonth(t.year, 2)
    ensures JulianDayCount(NextDay(t)) == JulianDayCount(t) + 1
  {
    var y := t.year;
    var u := NextDay(t);
    assert u == t.(month := 3, day := 1);
    assert ShiftedYear(t) == y - 1 && ShiftedMonth(t) == 14;
    assert ShiftedYear(u) == y && ShiftedMonth(u) == 3;
    assert MonthTerm(3) == 122 && MonthTerm(14) == 459;
    assert JulianDayCount(t) == YearTerm(y - 1) + 459 + t.day + CenturyCorrection(y - 1);
    assert JulianDayCount(u) == YearTerm(y) + 122 + 1 + CenturyCorrection(y);
    YearTermStep(y);
    CenturyStep(y);
    CenturyDivides(y);
    var yearStep, centuryStep := YearTerm(y) - YearTerm(y - 1), CenturyCorrection(y) - CenturyCorrection(y - 1);
    assert yearStep + centuryStep == 337 + t.day - 1 + 1 by {
      if y % 4 != 0 {
        assert yearStep == 365 && centuryStep == 0 && t.day == 28;
      } else if y % 100 != 0 {
        assert yearStep == 366 && centuryStep == 0 && t.day == 29;
      } else if y % 400 != 0 {
        assert yearStep == 366 && centuryStep == -1 && t.day == 28;
      } else {
        assert yearStep == 366 && centuryStep == 0 && t.day == 29;
      }
    }
  }

  /** Every century year is a multiple of four, and every fourth century a century year. */
  lemma {:induction false} CenturyDivides(y: int)
    ensures y % 100 == 0 ==> y % 4 == 0
    ensures y % 400 == 0 ==> y % 100 == 0
  {
    if y % 100 == 0 {
      var k := y / 100;
      assert y == 4 * (25 * k);
    }
    if y % 400 == 0 {
      var k := y / 400;
      assert y == 100 * (4 * k);
    }
  }

  /** At the end of any other month only the month term changes (December and January
      share a shifted year). */
  lemma {:induction false} MonthEndCount(t: DateTime)
    requires Valid(t) && t.month != 2 && t.day == DaysInMonth(t.year, t.month)
    ensures JulianDayCount(NextDay(t)) == JulianDayCount(t) + 1
  {
    var u := NextDay(t);
    assert ShiftedYear(u) == ShiftedYear(t) && ShiftedMonth(u) == ShiftedMonth(t) + 1;
    MonthTermStep(t);
  }

  /** The local time is converted one hour back; on the Julian scale that is exactly one
      twenty-fourth of a day, also across midnight. */
  lemma {:induction false} JulianHourStep(t: DateTime)
    requires Valid(t) && 2 <= t.year
    ensures ConvertToJulian(MinusOneHour(t)).dateTime == ConvertToJulian(t).dateTime - 1.0 / 24.0
  {
    var u := MinusOneHour(t);
    if t.hour == 0 {
      var p := PreviousDay(t);
      PreviousNextDay(t);
      JulianDayCountNextDay(p);
      assert u == p.(hour := 23);
      var c := JulianDayCount(p);
      assert JulianDayCount(u) == c;
      assert JulianDayCount(t) == c + 1;
      assert DayFraction(u) == 23.0 / 24.0 + t.minute as real / 1440.0;
      assert DayFraction(t) == t.minute as real / 1440.0;
    } else {
      assert JulianDayCount(u) == JulianDayCount(t);
    }
  }

  // ---------------------------------------------------------------------------------------
  // Ecliptic and equatorial coordinates of the sun

  /** `calcTimeVariableN`: days since J2000.0. */
  function CalcTimeVariableN(j: Julian): real {
    j.dateTime - J2000
  }

  /** `n` counts days from the epoch: it is 0 at J2000.0, and it grows by one from a day
      to the next at the same time of day. */
  lemma {:induction false} TimeVariableCountsDays(t: DateTime)
    requires Valid(t) && 1 <= t.year
    ensures CalcTimeVariableN(ConvertToJulian(DateTime(2000, 1, 1, 12, 0))) == 0.0
    ensures CalcTimeVariableN(ConvertToJulian(NextDay(t))) == CalcTimeVariableN(ConvertToJulian(t)) + 1.0
  {
    JulianReferenceDates();
    JulianDayNextDay(t);
    assert NextDay(t).hour == t.hour && NextDay(t).minute == t.minute;
  }

  /** `correctDegree`: an angle brought into [0, 360) by whole turns. */
  function CorrectDegree(degree: real): (d: real)
    ensures 0.0 <= d < 360.0
    ensures IsWhole((degree - d) / 360.0)
    ensures 0.0 <= degree < 360.0 ==> d == degree
  {
    var r := Rem(degree, 360.0);
    WholeTurnShift(degree, r);
    if r < 0.0 then r + 360.0 else r
  }

  lemma {:induction false} WholeTurnShift(x: real, r: real)
    requires IsWhole((x - r) / 360.0)
    ensures IsWhole((x - (r + 360.0)) / 360.0)
  {
    var k := (x - r) / 360.0;
    assert (x - (r + 360.0)) / 360.0 == k - 1.0;
  }

  /** Correcting an angle twice changes nothing. */
  lemma {:induction false} CorrectDegreeIdempotent(degree: real)
    ensures CorrectDegree(CorrectDegree(degree)) == CorrectDegree(degree)
  {
  }

  /** `calcMeanEclipticLongitudeSunL`. */
  function CalcMeanEclipticLongitudeSunL(n: real): (l: real)
    ensures 0.0 <= l < 360.0
    ensures IsWhole((280.460 + 0.9856474 * n - l) / 360.0)
  {
    CorrectDegree(280.460 + 0.9856474 * n)
  }

  /** `calcMeanAnomalyEclipticLongitudeSunG`. */
  function CalcMeanAnomalyEclipticLongitudeSunG(n: real): (g: real)
    ensures 0.0 <= g < 360.0
    ensures IsWhole((357.528 + 0.9856003 * n - g) / 360.0)
  {
    CorrectDegree(357.528 + 0.9856003 * n)
  }

  /** At the epoch both mean angles take their tabulated values. */
  lemma MeanAnglesAtEpoch()
    ensures CalcMeanEclipticLongitudeSunL(0.0) == 280.460
    ensures CalcMeanAnomalyEclipticLongitudeSunG(0.0) == 357.528
  {
  }

  /** `calcEclipticLongitudeSunL`: the mean longitude plus the equation of center, which
      never moves it by more than 1.93497 degrees. */
  function CalcEclipticLongitudeSunL(m: MathFunctions, l: real, g: real): (lambda: real)
    requires Sound(m)
    ensures l - 1.93497 <= lambda <= l + 1.93497
  {
    var s1, s2 := SinDeg(m, g), SinDeg(m, 2.0 * g);
    assert -1.915 <= 1.915 * s1 <= 1.915;
    assert -0.01997 <= 0.01997 * s2 <= 0.01997;
    l + 1.915 * s1 + 0.01997 * s2
  }

  /** `calcObliquityEclipticE`: the obliquity slowly decreases after the epoch. */
  function CalcObliquityEclipticE(n: real): (e: real)
    ensures 0.0 <= n ==> e <= 23.439
    ensures n <= 0.0 ==> 23.439 <= e
  {
    23.439 - 0.0000004 * n
  }

  /** `calcRightAscensionA`. */
  function CalcRightAscensionA(m: MathFunctions, e: real, lambda: real): (alpha: real)
    requires Sound(m)
    ensures -180.0 < alpha <= 180.0
  {
    ToDegrees(m, m.atan2(CosDeg(m, e) * SinDeg(m, lambda), CosDeg(m, lambda)))
  }

  /** `calcDeclinationD`. */
  function CalcDeclinationD(m: MathFunctions, e: real, lambda: real): (delta: real)
    requires Sound(m)
    ensures -90.0 <= delta <= 90.0
  {
    ToDegrees(m, m.asin(SinDeg(m, e) * SinDeg(m, lambda)))
  }

  // ---------------------------------------------------------------------------------------
  // Sidereal time and hour angle

  /** The argument of the sidereal time, in hours, before the remainder is taken. */
  function SiderealHours(j: Julian): real {
    var t0 := (j.day - J2000) / 36525.0;
    var t := j.universalTime.hour as real + j.universalTime.minute as real / 60.0;
    6.697376 + 2400.05134 * t0 + 1.002738 * t
  }

  /** `calcMeanGreenwichSiderealTime`: Java's `%`, so a negative argument (before about
      1900) gives a negative time. */
  function CalcMeanGreenwichSiderealTime(j: Julian): (s: real)
    ensures -24.0 < s < 24.0
    ensures 0.0 <= SiderealHours(j) ==> 0.0 <= s
    ensures SiderealHours(j) < 0.0 ==> s <= 0.0
    ensures IsWhole((SiderealHours(j) - s) / 24.0)
  {
    Rem(SiderealHours(j), 24.0)
  }

  /** `calcGreenwichHourAngleSpringTH`: hours to degrees. */
  function CalcGreenwichHourAngleSpringTH(siderealTime: real): (angle: real)
    ensures -24.0 < siderealTime < 24.0 ==> -360.0 < angle < 360.0
  {
    siderealTime * 15.0
  }

  /** `calcGeoCoordinateHourAngleSpringTH`: east longitudes count positive. */
  function CalcGeoCoordinateHourAngleSpringTH(greenwichHourAngle: real, longitude: real): real
  {
    greenwichHourAngle + longitude
  }

  /** `calcGeoCoordinateHourAngleSunT`. */
  function CalcGeoCoordinateHourAngleSunT(hourAngleSpring: real, rightAscension: real): real
  {
    hourAngleSpring - rightAscension
  }

  /** The local hour angle of the sun, from the sidereal time through the hour angle of
      the vernal equinox: it lies within a turn of `longitude - rightAscension`, and it is
      a whole number of turns away from the angle of the unreduced sidereal time.  Java's
      `% 24` therefore changes the hour angle only by whole turns. */
  lemma {:induction false} LocalHourAngle(j: Julian, longitude: real, rightAscension: real)
    ensures var tau := CalcGeoCoordinateHourAngleSunT(CalcGeoCoordinateHourAngleSpringTH(
        CalcGreenwichHourAngleSpringTH(CalcMeanGreenwichSiderealTime(j)), longitude), rightAscension);
      && -360.0 < tau - (longitude - rightAscension) < 360.0
      && IsWhole((15.0 * SiderealHours(j) + longitude - rightAscension - tau) / 360.0)
  {
    var h, s := SiderealHours(j), CalcMeanGreenwichSiderealTime(j);
    var tau := CalcGeoCoordinateHourAngleSunT(CalcGeoCoordinateHourAngleSpringTH(
        CalcGreenwichHourAngleSpringTH(s), longitude), rightAscension);
    assert tau == 15.0 * s + longitude - rightAscension;
    assert (15.0 * h + longitude - rightAscension - tau) / 360.0 == (h - s) / 24.0;
  }

  // ---------------------------------------------------------------------------------------
  // Horizontal coordinates

  /** `Math.atan(y / x)` in radians.  A zero denominator makes the quotient infinite and
      the arc tangent a right angle with the sign of the numerator. */
  function AtanOfQuotient(m: MathFunctions, y: real, x: real): (a: real)
    requires Sound(m)
    ensures -m.pi / 2.0 <= a <= m.pi / 2.0
    ensures x != 0.0 ==> -m.pi / 2.0 < a < m.pi / 2.0
    ensures x == 0.0 && 0.0 < y ==> a == m.pi / 2.0
    ensures x == 0.0 && y < 0.0 ==> a == -m.pi / 2.0
  {
    if x != 0.0 then m.atan(y / x)
    else if y > 0.0 then m.pi / 2.0
    else if y < 0.0 then -m.pi / 2.0
    else 0.0
  }

  /** `calcAzimuth`, measured from north: the arc tangent leaves it in [90, 270], so the
      sun is always placed in the southern half of the sky. */
  function CalcAzimuth(m: MathFunctions, hourAngle: real, latitude: real, declination: real): (az: real)
    requires Sound(m)
    ensures 90.0 <= az <= 270.0
    ensures SinDeg(m, hourAngle) == 0.0 ==> az == 180.0
  {
    var y := SinDeg(m, hourAngle);
    var x := CosDeg(m, hourAngle) * SinDeg(m, latitude) - TanDeg(m, declination) * CosDeg(m, latitude);
    ToDegrees(m, AtanOfQuotient(m, y, x)) + 180.0
  }

  /** `calcElevation`. */
  function CalcElevation(m: MathFunctions, hourAngle: real, latitude: real, declination: real): (el: real)
    requires Sound(m)
    ensures -90.0 <= el <= 90.0
  {
    var x := CosDeg(m, declination) * CosDeg(m, hourAngle) * CosDeg(m, latitude)
      + SinDeg(m, declination) * SinDeg(m, latitude);
    ToDegrees(m, m.asin(x))
  }

  /** The chain of `getSunPosition` from the Julian date of universal time onward. */
  function SunPositionAt(m: MathFunctions, gps: GpsCoordinates, j: Julian): (p: SunPosition)
    requires Sound(m)
    ensures 90.0 <= p.azimuth <= 270.0
    ensures -90.0 <= p.elevation <= 90.0
  {
    var n := CalcTimeVariableN(j);
    var l := CalcMeanEclipticLongitudeSunL(n);
    var g := CalcMeanAnomalyEclipticLongitudeSunG(n);
    var lambda := CalcEclipticLongitudeSunL(m, l, g);
    var e := CalcObliquityEclipticE(n);
    var alpha := CalcRightAscensionA(m, e, lambda);
    var delta := CalcDeclinationD(m, e, lambda);
    var theta := CalcGeoCoordinateHourAngleSpringTH(
      CalcGreenwichHourAngleSpringTH(CalcMeanGreenwichSiderealTime(j)), gps.longitude);
    var tau := CalcGeoCoordinateHourAngleSunT(theta, alpha);
    SunPosition(CalcAzimuth(m, tau, gps.latitude, delta), CalcElevation(m, tau, gps.latitude, delta))
  }

  /** `getSunPosition`: the local time is taken one hour back to universal time. */
  function GetSunPosition(m: MathFunctions, gps: GpsCoordinates, localDateTime: DateTime): (p: SunPosition)
    requires Sound(m) && Valid(localDateTime)
    ensures 90.0 <= p.azimuth <= 270.0
    ensures -90.0 <= p.elevation <= 90.0
    ensures 0.0 <= p.azimuth < 360.0
  {
    SunPositionAt(m, gps, ConvertToJulian(MinusOneHour(localDateTime)))
  }

  /** The position for a local time is the position for the universal time one hour
      earlier: shifting the local time by an hour shifts the universal time the model uses
      by the same hour. */
  lemma {:induction false} SunPositionUsesUniversalTime(m: MathFunctions, gps: GpsCoordinates, universal: DateTime)
    requires Sound(m) && Valid(universal)
    ensures GetSunPosition(m, gps, PlusOneHour(universal)) == SunPositionAt(m, gps, ConvertToJulian(universal))
  {
    HourRoundTrip(universal);
  }

  /** At local 13:00 on 2000-01-01 the model is at the epoch: no days have passed, and the
      mean longitude and anomaly are the tabulated values. */
  lemma EpochInLocalTime()
    ensures var j := ConvertToJulian(MinusOneHour(DateTime(2000, 1, 1, 13, 0)));
      && CalcTimeVariableN(j) == 0.0
      && CalcMeanEclipticLongitudeSunL(CalcTimeVariableN(j)) == 280.460
      && CalcMeanAnomalyEclipticLongitudeSunG(CalcTimeVariableN(j)) == 357.528
  {
    JulianReferenceDates();
    assert MinusOneHour(DateTime(2000, 1, 1, 13, 0)) == DateTime(2000, 1, 1, 12, 0);
  }
}
