# goodsun yield calculation in Dafny

This project models the yield calculation of the goodsun backend. A request describes a PV system: where it stands, its panels with the horizon obstacles surveyed for each panel, and its inverters. The backend estimates the average yearly AC energy in kWh of that system. It does so twice: once with the obstacles, and once with the obstacles removed.

The calculation runs as a pipeline. Each stage is a Dafny module:

- `Horizon`: the skyline of a module. Obstacle samples are grouped by their truncated azimuth (bucket 0..359), each bucket is averaged, and unobserved buckets are filled by linear interpolation between the nearest observed buckets on the circle. `removeShadowing` replaces the skyline with the one built from the single sample (0, 0).
- `PvSystem`: one module per panel, the AC rating of the first inverter, and shadow removal over the whole system.
- `GpsGrid`: snapping a location onto the grid of the weather data set.
- `SolarPosition`: Julian date (Meeus's algorithm), mean and ecliptic longitude, obliquity, right ascension, declination, sidereal time, hour angle, azimuth and elevation of the sun. `Calendar` provides the `minusHours(1)` and `getDayOfYear` arithmetic of `LocalDateTime`.
- `Irradiance`: irradiance on the plane of the module. It is the sum of three terms:
  - the beam, gated by the skyline and corrected for reflection above 50° angle of incidence;
  - the Hay-Davies sky diffuse term, with the anisotropy index against the extraterrestrial radiation;
  - the ground-reflected light.
- `ModulePower`: the Sandia back-surface and cell temperature, and the PVWatts DC power.
- `SystemLoss`: the nine PVWatts loss percentages, their combined total, and how it is applied.
- `InverterModel`: the PVWatts inverter, with part-load efficiency below the nameplate DC rating and clipping above it.
- `Calculator`: the sum over the daylight samples of 2017 to 2019 at the grid point, and the averaging to kWh per year. The loops are written for any time step and compared with a reference: the list of the step energies of the daylight samples, year by year (`YearsEnergies`), and its total (`Total`).

Supporting modules:

- `JavaNumerics`: Java's `(int)` cast (truncating, saturating), integer division, `%` on doubles, and a small `ExtendedReal` for the NaN and −∞ values a division by zero can inject into a sum.
- `Trigonometry`: `java.lang.Math`'s transcendental functions, as a record of functions passed in. The proofs use only the facts collected in `Sound` (ranges, and `atan(0) = 0`), plus periodicity (`Periodic`) in one lemma.
- `Records`: the request, weather and result records.
- `Outcomes`: `Option`, `Result`, and the failures that end a calculation.

Where the code does something other than what a reader of its documentation would expect, the model follows the code, and a lemma states the difference:

- `dcPower * 1 - totalSystemLoss / 100` subtracts about 0.114 W instead of derating by about 11.4 % (`SystemLoss.LossScalesOnlyAtOneWatt`).
- The inverter curve scales only its linear term (`InverterModel.OnlyLinearTermScaled`). As a result, the output just below the nameplate rating exceeds the AC rating, and the output drops when the input reaches the nameplate rating (`InverterModel.OutputDropsAtNameplate`).
- The wind coefficient `b` of the Sandia model is the sum of the four listed values (−0.227), not their mean (`ModulePower.Coefficients`).
- The day angle of the extraterrestrial radiation is `2π·day·365`, a whole number of turns. With periodic sine and cosine the radiation is therefore the same constant on every day (`Irradiance.ExtraterrestrialRadiationConstant`).
- The skyline after `removeShadowing` has one observed bucket, bucket 0 at 0°. Every other bucket is NaN in Java (`Indeterminate` here), and NaN never blocks the sun. Such a skyline would block a sun in bucket 0 at or below 0° (`Irradiance.NoShadowSkylineBlocking`), but the computed azimuth never falls there, so the "unshadowed" run is never blocked (`Calculator.NoShadowNeverBlocks`).
- Snapping truncates toward zero, so negative coordinates are not snapped into their own cell and snapping is not idempotent there (`GpsGrid.NegativeCoordinatesNotIdempotent`).
- The azimuth formula `atan(...) + 180` keeps the sun in [90°, 270°], the southern half of the sky (`SolarPosition.CalcAzimuth`).

## Model

All source paths are below `src/main/java/com/goodsun/goodsunbackend/`; the table writes them in full.

| member | source | states |
|---|---|---|
| Horizon.CombineDatasets | src/main/java/com/goodsun/goodsunbackend/model/calculation/PvModule.java:146-160 | every sample of every survey lands in the list of its truncated azimuth, in survey order; a bucket is present exactly when some sample truncates to it |
| Horizon.ElevationsInNonEmpty | src/main/java/com/goodsun/goodsunbackend/model/calculation/PvModule.java:150-157 | a bucket's list is non-empty if and only if some sample's `(int)` azimuth equals the bucket |
| Horizon.ElevationsInAppend | src/main/java/com/goodsun/goodsunbackend/model/calculation/PvModule.java:148-158 | collecting several surveys gives the concatenation of what each survey contributes |
| Horizon.AverageDatasets | src/main/java/com/goodsun/goodsunbackend/model/calculation/PvModule.java:130-138 | the same buckets, each holding the mean of its list (never empty) |
| Horizon.MeanWithin | src/main/java/com/goodsun/goodsunbackend/model/calculation/PvModule.java:168-174 | the average of samples within [lo, hi] lies within [lo, hi] |
| Horizon.ClockwiseDistance | src/main/java/com/goodsun/goodsunbackend/model/calculation/PvModule.java:118-119 | `(b - a + 360) % 360` is the clockwise step count in [0, 360): `b - a` if `a <= b`, else `b - a + 360` (so 359 to 0 is 1) |
| Horizon.SearchCcw | src/main/java/com/goodsun/goodsunbackend/model/calculation/PvModule.java:78-84 | the counter-clockwise loop returns an observed in-range bucket, the one the fewest steps away; it returns nothing only if no in-range bucket is observed |
| Horizon.SearchCw | src/main/java/com/goodsun/goodsunbackend/model/calculation/PvModule.java:86-92 | the clockwise loop returns the observed in-range bucket the fewest steps away |
| Horizon.InterpolateElevation | src/main/java/com/goodsun/goodsunbackend/model/calculation/PvModule.java:117-122 | indeterminate (0/0, NaN in Java) exactly when left equals right; otherwise it hits both endpoints and stays between the two elevations on the arc from left to right |
| Horizon.InterpolateDataset | src/main/java/com/goodsun/goodsunbackend/model/calculation/PvModule.java:68-105 | only keys 0..359 are output; observed buckets keep their values; all 360 buckets are present if one in-range bucket was observed, none otherwise |
| Horizon.SearchesFindNearest | src/main/java/com/goodsun/goodsunbackend/model/calculation/PvModule.java:78-92 | for an unobserved bucket, the two searches find its nearest observed neighbours counter-clockwise and clockwise |
| Horizon.NearestUnique | src/main/java/com/goodsun/goodsunbackend/model/calculation/PvModule.java:78-92 | the nearest neighbour in each direction is unique |
| Horizon.GapBetweenNeighbours | src/main/java/com/goodsun/goodsunbackend/model/calculation/PvModule.java:78-98 | with two or more observed buckets, a gap bucket is interpolated between distinct nearest neighbours, strictly inside their arc (0 < t < 1), and its value lies between their elevations |
| Horizon.SingleObservation | src/main/java/com/goodsun/goodsunbackend/model/calculation/PvModule.java:94-98 | with exactly one observed bucket, that bucket keeps its value and every other bucket is indeterminate |
| Horizon.OutOfRangeIgnored | src/main/java/com/goodsun/goodsunbackend/model/calculation/PvModule.java:71-92 | keys outside 0..359 are never output or used as neighbours: dropping them does not change the skyline |
| Horizon.WrapAroundNeighbours | src/main/java/com/goodsun/goodsunbackend/model/calculation/PvModule.java:80-98 | buckets 359 and 1 are the neighbours of bucket 0 across the wrap; bucket 0 gets their midpoint |
| Horizon.GetSingleDatasetForPvModule | src/main/java/com/goodsun/goodsunbackend/model/calculation/PvModule.java:55-60 | an observed in-range bucket holds the mean of all its samples; one observed bucket makes all 360 present; none gives the empty skyline |
| Horizon.GetPvModule | src/main/java/com/goodsun/goodsunbackend/model/calculation/PvModule.java:45-47 | rating, azimuth and tilt are the panel's; the skyline is built from the panel's surveys |
| Horizon.NoShadowSkyline | src/main/java/com/goodsun/goodsunbackend/model/calculation/PvModule.java:211-214 | the skyline built from the single sample (0, 0): bucket 0 is 0°, buckets 1..359 are indeterminate |
| Horizon.RemoveShadowing | src/main/java/com/goodsun/goodsunbackend/model/calculation/PvModule.java:211-214 | only the skyline changes: rating, azimuth and tilt are kept; the new skyline has all 360 buckets, 0° at bucket 0 and indeterminate elsewhere |
| Horizon.GetShadowingElevationForAzimuth | src/main/java/com/goodsun/goodsunbackend/model/calculation/PvModule.java:204-206 | the stored value if the bucket is present, a missing-bucket failure (null unboxing) otherwise |
| PvSystem.GetPvModules | src/main/java/com/goodsun/goodsunbackend/model/calculation/UserPvSystem.java:38-41 | exactly one module per panel, in panel order |
| PvSystem.GetUserPvSystem | src/main/java/com/goodsun/goodsunbackend/model/calculation/UserPvSystem.java:36-43 | fails if and only if there is no inverter; otherwise the coordinates are kept as given and the rating is the first inverter's |
| PvSystem.OnlyFirstInverterCounts | src/main/java/com/goodsun/goodsunbackend/model/calculation/UserPvSystem.java:42 | inverters after the first do not change the system |
| PvSystem.RemoveShadowing | src/main/java/com/goodsun/goodsunbackend/model/calculation/UserPvSystem.java:69-74 | every module is replaced by its shadow-free version; count, order, location and inverter rating are kept |
| PvSystem.RemoveShadowingIdempotent | src/main/java/com/goodsun/goodsunbackend/model/calculation/UserPvSystem.java:69-74 | removing the obstacles twice is the same as once |
| PvSystem.RemoveShadowingComplete | src/main/java/com/goodsun/goodsunbackend/model/calculation/UserPvSystem.java:69-74 | after removal every module has every bucket and keeps its rating and orientation |
| GpsGrid.GetCorrespondingGpsCoords | src/main/java/com/goodsun/goodsunbackend/service/GpsGridService.java:18-33 | the result is a grid point; longitude is `(int) lon + 0.5`; latitude ends in .25 if and only if `lat - (int) lat < 0.5` |
| GpsGrid.GridPointNearby | src/main/java/com/goodsun/goodsunbackend/service/GpsGridService.java:21-30 | for non-negative inputs the grid point is within 0.5° of longitude and 0.25° of latitude |
| GpsGrid.GridIdempotentForNonNegative | src/main/java/com/goodsun/goodsunbackend/service/GpsGridService.java:21-30 | for non-negative inputs, snapping a grid point again leaves it where it is |
| GpsGrid.NegativeLatitudeSnapsNorth | src/main/java/com/goodsun/goodsunbackend/service/GpsGridService.java:23-30 | a negative latitude always gets the truncation plus 0.25, north of the location |
| GpsGrid.NegativeCoordinatesNotIdempotent | src/main/java/com/goodsun/goodsunbackend/service/GpsGridService.java:21-30 | (−1.3, −1.3) snaps to (−0.5, −0.75), which snaps on to (0.5, 0.25) |
| SystemLoss.TotalSystemLossValue | src/main/java/com/goodsun/goodsunbackend/service/SystemLossService.java:20-34 | nine distinctly named losses, each in [0, 100); the total computed once at construction lies in (11.418, 11.419) |
| SystemLoss.CalcTotalSystemLoss | src/main/java/com/goodsun/goodsunbackend/service/SystemLossService.java:43-49 | proper percentages give a total in [0, 100); all-zero losses give 0; a single loss is its own total |
| SystemLoss.DerateFactorWithin | src/main/java/com/goodsun/goodsunbackend/service/SystemLossService.java:44-47 | the product of the factors `1 - loss/100` of proper percentages lies in (0, 1] |
| SystemLoss.TotalLossOrderIndependent | src/main/java/com/goodsun/goodsunbackend/service/SystemLossService.java:43-49 | two permutations of the percentages (the hash map's iteration order) give the same total |
| SystemLoss.GetDcPowerWithSystemLosses | src/main/java/com/goodsun/goodsunbackend/service/SystemLossService.java:57-59 | the result is the input minus a constant between 0.11418 and 0.11419 |
| SystemLoss.LossIsAnOffset | src/main/java/com/goodsun/goodsunbackend/service/SystemLossService.java:58 | extra DC power passes through the losses unchanged |
| SystemLoss.LossScalesOnlyAtOneWatt | src/main/java/com/goodsun/goodsunbackend/service/SystemLossService.java:58 | the result equals `p · (1 − total/100)` if and only if p is 1 W; at 0 W it is negative |
| InverterModel.CalcNameplateDcRating | src/main/java/com/goodsun/goodsunbackend/service/InverterService.java:20-22 | the nameplate DC rating times 0.96 is the AC rating; it is positive iff the rating is, and then above it |
| InverterModel.CalcEfficiencyCurveScalingFactor | src/main/java/com/goodsun/goodsunbackend/service/InverterService.java:11-29 | the factor times 0.9637 is 0.96, about 0.99616 |
| InverterModel.GetAcPower | src/main/java/com/goodsun/goodsunbackend/service/InverterService.java:38-45 | at or above nameplate the output is the AC rating; below, `dc · eff(dc/np)`; NaN exactly for zero DC below a positive nameplate; −∞ exactly for negative DC and zero rating |
| InverterModel.CalcPartLoadEfficiency | src/main/java/com/goodsun/goodsunbackend/service/InverterService.java:54-57 | for a positive load fraction the efficiency is below 0.9858; at full load it lies just above 0.9637, within 0.0001 |
| InverterModel.ClippedAboveNameplate | src/main/java/com/goodsun/goodsunbackend/service/InverterService.java:40-44 | all inputs at or above nameplate give the same output, the AC rating |
| InverterModel.OnlyLinearTermScaled | src/main/java/com/goodsun/goodsunbackend/service/InverterService.java:54-57 | the curve as written differs from the fully scaled curve by `(1 − s)(0.9858 − 0.0059/lf)` |
| InverterModel.ScaledCurveMeetsRating | src/main/java/com/goodsun/goodsunbackend/service/InverterService.java:11-29 | with the whole curve scaled, the output at nameplate is exactly the AC rating |
| InverterModel.OutputDropsAtNameplate | src/main/java/com/goodsun/goodsunbackend/service/InverterService.java:38-57 | a 960 W inverter gives more than 962.8 W at 999 W DC and 960 W at 1000 W DC |
| InverterModel.MonotoneBelowNameplate | src/main/java/com/goodsun/goodsunbackend/service/InverterService.java:40-57 | between 0 and nameplate the output is finite and strictly increasing in the DC input |
| InverterModel.OutputBelowNameplate | src/main/java/com/goodsun/goodsunbackend/service/InverterService.java:54-57 | below nameplate the output is the quadratic `0.9858 d − c d²/np − 0.0059 np` |
| ModulePower.Coefficients | src/main/java/com/goodsun/goodsunbackend/service/ModuleService.java:37-49 | `a` is the mean −3.205, `b` the sum −0.227 (four times the mean), the temperature difference 1.75 |
| ModulePower.GetBackSurfaceTemp | src/main/java/com/goodsun/goodsunbackend/service/ModuleService.java:47-51 | equal to the air temperature at zero GHI, above it for positive GHI, below it for negative GHI |
| ModulePower.GetCellTemp | src/main/java/com/goodsun/goodsunbackend/service/ModuleService.java:35-39 | exceeds the back-surface temperature by `GHI · 0.00175` |
| ModulePower.TemperatureFactor | src/main/java/com/goodsun/goodsunbackend/service/ModuleService.java:25 | 1 at 25 °C, below 1 above it and above 1 below it |
| ModulePower.GetDcPower | src/main/java/com/goodsun/goodsunbackend/service/ModuleService.java:22-27 | zero at zero POA irradiance or zero rating; exactly `poa · rating / 1000` at a cell temperature of 25 °C |
| ModulePower.DcPowerLinearInIrradiance | src/main/java/com/goodsun/goodsunbackend/service/ModuleService.java:22-27 | the DC power is additive and homogeneous in the POA irradiance |
| ModulePower.DcPowerMonotoneInIrradiance | src/main/java/com/goodsun/goodsunbackend/service/ModuleService.java:22-27 | with a positive rating and temperature factor, more irradiance gives strictly more power |
| Irradiance.CalcAngleOfIncidence | src/main/java/com/goodsun/goodsunbackend/service/PlaneOfArrayIrradianceService.java:121-135 | in [0, 90]; below 90 it is the arc cosine of the incidence cosine, in degrees |
| Irradiance.GetRawPoaBeam | src/main/java/com/goodsun/goodsunbackend/service/PlaneOfArrayIrradianceService.java:86-88 | within ±DNI, and DNI itself at normal incidence |
| Irradiance.GetReflectionCorrectedPoaBeam | src/main/java/com/goodsun/goodsunbackend/service/PlaneOfArrayIrradianceService.java:64-77 | the raw beam up to 50°; above 50° the raw beam times the quintic correction |
| Irradiance.ReflectionCorrectionEndpoints | src/main/java/com/goodsun/goodsunbackend/service/PlaneOfArrayIrradianceService.java:68-73 | the correction is 0.9916625 at 50° (a jump below 1) and 0.0427429 at 90° |
| Irradiance.GetPoaBeam | src/main/java/com/goodsun/goodsunbackend/service/PlaneOfArrayIrradianceService.java:48-55 | fails iff the sun's `(int)` azimuth bucket is missing; 0 when the horizon there is at least the sun's elevation; the corrected beam otherwise |
| Irradiance.GetPoaDiffuse | src/main/java/com/goodsun/goodsunbackend/service/PlaneOfArrayIrradianceService.java:98-99 | between 0 and `DHI · (1 − anisotropy)`, equal to it for a flat panel |
| Irradiance.GetPoaGroundReflected | src/main/java/com/goodsun/goodsunbackend/service/PlaneOfArrayIrradianceService.java:108-110 | between 0 and `0.2 · GHI`, equal to it for a flat panel |
| Irradiance.CalcExtraterrestrialRadiation | src/main/java/com/goodsun/goodsunbackend/service/PlaneOfArrayIrradianceService.java:143-147 | within [1317.532371, 1416.768369] W/m² |
| Irradiance.ExtraterrestrialRadiationConstant | src/main/java/com/goodsun/goodsunbackend/service/PlaneOfArrayIrradianceService.java:144 | with `beta = 2π·day·365` and periodic trigonometry, the radiation is 1414.91335 on every day |
| Irradiance.CalcAnisotropyIndex | src/main/java/com/goodsun/goodsunbackend/service/PlaneOfArrayIrradianceService.java:156-158 | between 0 and `DNI / 1317.532371` for non-negative DNI, 0 at zero DNI |
| Irradiance.GetPoaIrradiance | src/main/java/com/goodsun/goodsunbackend/service/PlaneOfArrayIrradianceService.java:31-38 | fails iff the sun's bucket is missing; otherwise beam plus sky diffuse plus ground reflected |
| Irradiance.BlockedSunLeavesDiffuse | src/main/java/com/goodsun/goodsunbackend/service/PlaneOfArrayIrradianceService.java:49-54 | with the sun blocked only the diffuse and ground terms remain |
| Irradiance.SkylineOnlyDecidesBlocking | src/main/java/com/goodsun/goodsunbackend/service/PlaneOfArrayIrradianceService.java:31-38 | the skyline enters only through the blocking decision: equally oriented modules that decide alike get the same irradiance |
| Irradiance.NoShadowSkylineBlocking | src/main/java/com/goodsun/goodsunbackend/service/PlaneOfArrayIrradianceService.java:49-54 | after shadow removal, every azimuth in [0, 360) has a bucket, and the sun is blocked iff it is in bucket 0 at or below 0° |
| Calendar.HourRoundTrip | src/main/java/com/goodsun/goodsunbackend/service/SunPositionService.java:30 | subtracting one hour and adding it back are inverse |
| Calendar.DayOfYearNextDay | src/main/java/com/goodsun/goodsunbackend/service/PlaneOfArrayIrradianceService.java:33 | the day of the year grows by one per day and restarts at 1 on New Year's day |
| SolarPosition.ConvertToJulian | src/main/java/com/goodsun/goodsunbackend/service/SunPositionService.java:53-66 | the day fraction lies in [0, 1); date-time = day + fraction; the day number ends in .5; the universal time is kept |
| SolarPosition.JulianReferenceDates | src/main/java/com/goodsun/goodsunbackend/service/SunPositionService.java:56-63 | 2000-01-01 12:00 is J2000.0 (2451545.0) and 1988-06-19 12:00 is 2447332.0 |
| SolarPosition.JulianDayNextDay | src/main/java/com/goodsun/goodsunbackend/service/SunPositionService.java:56-63 | from one calendar day to the next the Julian day grows by exactly one, with January and February as months 13 and 14 |
| SolarPosition.JulianHourStep | src/main/java/com/goodsun/goodsunbackend/service/SunPositionService.java:53-66 | one hour back is exactly 1/24 of a Julian day back, also across midnight |
| SolarPosition.CorrectDegree | src/main/java/com/goodsun/goodsunbackend/service/SunPositionService.java:133-136 | in [0, 360), congruent to the input modulo 360, the identity on [0, 360) |
| SolarPosition.CorrectDegreeIdempotent | src/main/java/com/goodsun/goodsunbackend/service/SunPositionService.java:133-136 | correcting twice is correcting once |
| SolarPosition.CalcMeanEclipticLongitudeSunL | src/main/java/com/goodsun/goodsunbackend/service/SunPositionService.java:126-128 | in [0, 360) and congruent to `280.460 + 0.9856474 n` |
| SolarPosition.CalcMeanAnomalyEclipticLongitudeSunG | src/main/java/com/goodsun/goodsunbackend/service/SunPositionService.java:123-125 | in [0, 360) and congruent to `357.528 + 0.9856003 n` |
| SolarPosition.TimeVariableCountsDays | src/main/java/com/goodsun/goodsunbackend/service/SunPositionService.java:130-132 | n is 0 at J2000.0 (2000-01-01 12:00) and, from year 1 on, grows by exactly one from a date-time to the same time on the next day |
| SolarPosition.EpochInLocalTime | src/main/java/com/goodsun/goodsunbackend/service/SunPositionService.java:30-33 | at local 13:00 on 2000-01-01, n = JD − 2451545 is 0 and L, g are 280.460 and 357.528 |
| SolarPosition.CalcEclipticLongitudeSunL | src/main/java/com/goodsun/goodsunbackend/service/SunPositionService.java:119-121 | within 1.93497° of the mean longitude |
| SolarPosition.CalcObliquityEclipticE | src/main/java/com/goodsun/goodsunbackend/service/SunPositionService.java:116-118 | at most 23.439° after the epoch, at least before it |
| SolarPosition.CalcRightAscensionA | src/main/java/com/goodsun/goodsunbackend/service/SunPositionService.java:113-115 | in (−180, 180] |
| SolarPosition.CalcDeclinationD | src/main/java/com/goodsun/goodsunbackend/service/SunPositionService.java:110-112 | in [−90, 90] |
| SolarPosition.CalcMeanGreenwichSiderealTime | src/main/java/com/goodsun/goodsunbackend/service/SunPositionService.java:103-108 | Java's `% 24` of the sidereal argument (T0 from the Julian day, UT from hour and minute): in (−24, 24), with the argument's sign, differing from it by whole days |
| SolarPosition.CalcGreenwichHourAngleSpringTH | src/main/java/com/goodsun/goodsunbackend/service/SunPositionService.java:100-102 | the sidereal hours in degrees (15° per hour), within ±360° |
| SolarPosition.LocalHourAngle | src/main/java/com/goodsun/goodsunbackend/service/SunPositionService.java:92-108 | the sun's local hour angle, built from sidereal time, longitude and right ascension, is congruent modulo 360° to `15 · sidereal hours + longitude − right ascension`, and within 360° of `longitude − right ascension` |
| SolarPosition.AtanOfQuotient | src/main/java/com/goodsun/goodsunbackend/service/SunPositionService.java:89 | within (−π/2, π/2) for a non-zero denominator; ±π/2 (atan of ±∞) for a zero one |
| SolarPosition.CalcAzimuth | src/main/java/com/goodsun/goodsunbackend/service/SunPositionService.java:88-90 | in [90, 270]: `atan(...) + 180` never leaves the southern half; exactly 180 (due south) when the sine of the hour angle is 0 |
| SolarPosition.CalcElevation | src/main/java/com/goodsun/goodsunbackend/service/SunPositionService.java:76-78 | in [−90, 90] |
| SolarPosition.GetSunPosition | src/main/java/com/goodsun/goodsunbackend/service/SunPositionService.java:29-45 | azimuth in [90, 270] (so a skyline bucket always exists) and elevation in [−90, 90] |
| SolarPosition.SunPositionUsesUniversalTime | src/main/java/com/goodsun/goodsunbackend/service/SunPositionService.java:30 | the position for a local time is the position at the universal time one hour earlier |
| Calculator.ModulesDcPower | src/main/java/com/goodsun/goodsunbackend/service/CalculatorService.java:89-94 | succeeds iff every module's skyline has the sun's bucket; no modules give 0 |
| Calculator.CalculateTimestepOutput | src/main/java/com/goodsun/goodsunbackend/service/CalculatorService.java:81-108 | fails exactly when some module's skyline lacks the sun's bucket, with that bucket as the failure; otherwise a quarter of the inverter's AC output for the loss-reduced DC power of all modules |
| Calculator.NoShadowStepSucceeds | src/main/java/com/goodsun/goodsunbackend/service/CalculatorService.java:81-108 | a time step of the shadow-free system never fails |
| Calculator.UnblockedStepUnchanged | src/main/java/com/goodsun/goodsunbackend/service/CalculatorService.java:81-108 | when no module's obstacles block the sun, the step yields the same energy with and without obstacles |
| Calculator.NoShadowNeverBlocks | src/main/java/com/goodsun/goodsunbackend/service/SunPositionService.java:29-45 | the computed sun always has a bucket in an obstacle-free skyline, and that bucket never blocks it |
| Calculator.SameBlockingSameDcPower | src/main/java/com/goodsun/goodsunbackend/service/CalculatorService.java:89-94 | modules that differ only in skylines deciding alike give the same summed DC power |
| Calculator.SumSamples | src/main/java/com/goodsun/goodsunbackend/service/CalculatorService.java:60-65 | samples without daylight add nothing; a NaN total stays NaN; a failure is the failure of the step at some daylight sample |
| Calculator.OnlyDaylightCounts | src/main/java/com/goodsun/goodsunbackend/service/CalculatorService.java:60-65 | summing all samples equals summing the daylight (GHI > 0) samples |
| Calculator.SumYears | src/main/java/com/goodsun/goodsunbackend/service/CalculatorService.java:57-66 | a failure is a missing weather file of a year between the start year and 2019, or the failure of a time step |
| Calculator.MissingYearFails | src/main/java/com/goodsun/goodsunbackend/service/CalculatorService.java:57-58 | a missing weather file for any year from the start year to 2019 fails the loop |
| Calculator.Total | src/main/java/com/goodsun/goodsunbackend/service/CalculatorService.java:63 | the left-to-right sum of energies is NaN exactly when one of them is, and finite when all are |
| Calculator.TotalAppend | src/main/java/com/goodsun/goodsunbackend/service/CalculatorService.java:63 | the total of two lists joined is the sum of their totals |
| Calculator.EnergiesAt | src/main/java/com/goodsun/goodsunbackend/service/CalculatorService.java:60-64 | the reference list holds each sample's step energy at the sample's position, and any failing step fails it |
| Calculator.YearsEnergies | src/main/java/com/goodsun/goodsunbackend/service/CalculatorService.java:57-65 | the energies of the daylight samples of every year to 2019; it succeeds only if every year's weather file exists |
| Calculator.ThreeYearsSummed | src/main/java/com/goodsun/goodsunbackend/service/CalculatorService.java:57-65 | the listed energies are those of 2017, then 2018, then 2019, each year's daylight samples in file order |
| Calculator.SumSamplesTotal | src/main/java/com/goodsun/goodsunbackend/service/CalculatorService.java:60-65 | the accumulating loop over one year's samples equals the accumulator plus the total of the daylight samples' energies |
| Calculator.SumYearsTotal | src/main/java/com/goodsun/goodsunbackend/service/CalculatorService.java:57-66 | the loop over the years equals the accumulator plus the total of the listed energies, and fails exactly when the list does |
| Calculator.CalculateOutput | src/main/java/com/goodsun/goodsunbackend/service/CalculatorService.java:49-72 | fails exactly when the reference list of energies does (a missing weather file of 2017 to 2019, or a missing skyline bucket); otherwise the `int` cast of a thousandth of its total divided by three, in the int range |
| Calculator.OutputDependsOnGridWeatherOnly | src/main/java/com/goodsun/goodsunbackend/service/CalculatorService.java:55-58 | only the weather of the snapped grid point for 2017, 2018 and 2019 is read |
| Calculator.NoShadowOutputFailsOnlyForWeather | src/main/java/com/goodsun/goodsunbackend/service/CalculatorService.java:37-72 | the shadow-free output can fail only for a missing weather file |
| Calculator.CalculateResult | src/main/java/com/goodsun/goodsunbackend/service/CalculatorService.java:29-41 | succeeds exactly when there is an inverter and both runs succeed; otherwise fails with the failure of the first stage that fails, in source order (no inverter, then the run with obstacles, then the run without); on success the first figure is the output of the system and the second that of the same system with its obstacles removed |
| JavaNumerics.IntCast | src/main/java/com/goodsun/goodsunbackend/service/GpsGridService.java:21 | Java's `(int)`: truncation toward zero within the int range, saturation outside |
| JavaNumerics.Rem | src/main/java/com/goodsun/goodsunbackend/service/SunPositionService.java:134 | Java's `%` on doubles, by 360 here and by 24 at line 107: the sign of the dividend, smaller than the modulus, a whole multiple of the modulus away |
| JavaNumerics.IntCastExtended | src/main/java/com/goodsun/goodsunbackend/service/CalculatorService.java:71 | `(int)` of NaN is 0, of −∞ the smallest int, of a finite value the saturating truncation |

## Left out

- The HTTP controllers and the Spring bootstrap: they only delegate.
- Loading the weather files (classpath I/O and CSV parsing) is replaced by a `Weather` parameter. It maps a grid point and a year to the samples, or to nothing when no file exists, which fails the calculation.
- The values of `sin`, `cos`, `tan`, `asin`, `acos`, `atan`, `atan2`, `exp` and `toRadians`: they are parameters with range facts only, so no numeric accuracy is claimed.
- IEEE 754 rounding: all arithmetic is exact over `real`. `Math.pow(x, n)` is an exact product.
- `SolarPosition.AtanOfQuotient`: when both numerator and denominator are 0, Java gives NaN and the model gives 0 (a 180° azimuth). The contract says nothing about that case.
- `SolarPosition.JulianDayNextDay` is proved for years from 1 on, and `SolarPosition.JulianHourStep` for years from 2 on. The calendar itself is modelled for all years.
- `SolarPosition.TimeVariableCountsDays` is proved for years from 1 on only. Before year 0 the century correction uses Java's `Math.floor(year / 100)` of an integer division that truncates toward zero, so it stays the same where Meeus's formula would step. At year −100, n then grows by 2 from February 28 to March 1.
- The range of `LocalDateTime` years (±999999999) and seconds: weather samples have neither.
- In-place mutation (`removeShadowing` on the shared system object) is modelled as returning a new system. `CalculateResult` feeds the shadowed system to the first run and the rebuilt one to the second, which is the order the source uses.
- `JavaNumerics.Rem`: defined only for the two moduli the source divides by, 24 and 360, not for any modulus.
- `toString` and the getters.
