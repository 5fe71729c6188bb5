/**
  The yearly yield of a PV system: for every quarter-hour weather sample with daylight in
  the years 2017 to 2019 at the grid point of the system, the sun position, the irradiance
  on each module, the DC power of the modules, the system losses and the inverter give an
  energy, and the sum over the three years is averaged to kWh per year.  This is done once
  with the horizon obstacles and once without them.

  Loading the weather files is not modelled: the data of a grid point and a year is a
  parameter, and a file that is not there is an error.
*/
module Calculator {
  import opened JavaNumerics
  import opened Trigonometry
  import opened Outcomes
  import opened Records
  import Horizon
  import opened PvSystem
  import GpsGrid
  import SolarPosition
  import Irradiance
  import ModulePower
  import SystemLoss
  import InverterModel
  import Calendar

  /** The weather samples of a grid point for a year, if a file exists for them. */
  type Weather = (GpsCoordinates, int) -> Option<seq<FileData>>

  const FirstYear: int := 2017
  const EndYear: int := 2020

  /** The DC power of all modules for one sample and sun position, summed in module order.
      The first module whose skyline misses the sun's bucket makes the step fail. */
  function ModulesDcPower(m: MathFunctions, modules: seq<Horizon.PvModule>, f: FileData, sun: SunPosition): (r: Result<real>)
    requires Sound(m)
    ensures r.Ok? <==> forall i :: 0 <= i < |modules| ==> Irradiance.SunBucket(sun) in modules[i].skyline
    ensures r.Err? ==> r.failure == MissingSkylineBucket(Irradiance.SunBucket(sun))
    ensures |modules| == 0 ==> r == Ok(0.0)
    decreases |modules|
  {
    if |modules| == 0 then Ok(0.0)
    else
      match Irradiance.GetPoaIrradiance(m, f, modules[0], sun)
      case Err(e) => Err(e)
      case Ok(poa) =>
        match ModulesDcPower(m, modules[1..], f, sun)
        case Err(e) => Err(e)
        case Ok(rest) =>
          assert forall i :: 1 <= i < |modules| ==> modules[i] == modules[1..][i - 1];
          Ok(ModulePower.GetDcPower(m, poa, f, modules[0].dcRating) + rest)
  }

  /** `calculateTimestepOutput`: the AC energy of one quarter hour, in Wh. */
  function CalculateTimestepOutput(m: MathFunctions, system: UserPvSystem, f: FileData): (r: Result<ExtendedReal>)
    requires Sound(m)
    ensures var k := Irradiance.SunBucket(SolarPosition.GetSunPosition(m, system.gpsCoordinates, f.localDateTime));
      && (r.Ok? <==> forall i :: 0 <= i < |system.pvModules| ==> k in system.pvModules[i].skyline)
      && (r.Err? ==> r.failure == MissingSkylineBucket(k))
    ensures var sun := SolarPosition.GetSunPosition(m, system.gpsCoordinates, f.localDateTime);
      && (r.Ok? ==> r.value == Scale(InverterModel.GetAcPower(
            SystemLoss.GetDcPowerWithSystemLosses(ModulesDcPower(m, system.pvModules, f, sun).value),
            system.inverterAcRating), 0.25))
  {
    var sun := SolarPosition.GetSunPosition(m, system.gpsCoordinates, f.localDateTime);
    match ModulesDcPower(m, system.pvModules, f, sun)
    case Err(e) => Err(e)
    case Ok(dcPower) =>
      var acPower := InverterModel.GetAcPower(SystemLoss.GetDcPowerWithSystemLosses(dcPower), system.inverterAcRating);
      Ok(Scale(acPower, 0.25))
  }

  /** A time step, as a function of the weather sample.  The loops below are written for
      any step; `calculateOutput` runs them with the step of the system, `StepOf`. */
  type Step = FileData -> Result<ExtendedReal>

  /** The time step of `system`. */
  function StepOf(m: MathFunctions, system: UserPvSystem): (step: Step)
    requires Sound(m)
    ensures forall f :: step(f) == CalculateTimestepOutput(m, system, f)
  {
    f => CalculateTimestepOutput(m, system, f)
  }

  /** Samples with daylight, the only ones that enter the sum. */
  predicate Daylight(f: FileData) {
    f.globalHorizontalIrradiance > 0.0
  }

  /** The inner loop of `calculateOutput` over the samples of one year. */
  function SumSamples(step: Step, samples: seq<FileData>, acc: ExtendedReal): (r: Result<ExtendedReal>)
    ensures (forall i :: 0 <= i < |samples| ==> !Daylight(samples[i])) ==> r == Ok(acc)
    ensures acc.NotANumber? && r.Ok? ==> r.value.NotANumber?
    ensures r.Err? ==> exists i :: 0 <= i < |samples| && Daylight(samples[i]) && step(samples[i]) == Err(r.failure)
    decreases |samples|
  {
    if |samples| == 0 then Ok(acc)
    else
      assert forall i :: 1 <= i < |samples| ==> samples[i] == samples[1..][i - 1];
      if !Daylight(samples[0]) then SumSamples(step, samples[1..], acc)
      else
        match step(samples[0])
        case Err(e) => Err(e)
        case Ok(energy) => SumSamples(step, samples[1..], Plus(acc, energy))
  }

  /** The samples with daylight, in their order. */
  function DaylightSamples(samples: seq<FileData>): (d: seq<FileData>)
    ensures forall i :: 0 <= i < |d| ==> Daylight(d[i])
    ensures |d| <= |samples|
  {
    if |samples| == 0 then []
    else if Daylight(samples[0]) then [samples[0]] + DaylightSamples(samples[1..])
    else DaylightSamples(samples[1..])
  }

  /** Filtering the samples first gives the same sum: the loop looks at nothing but the
      samples with daylight. */
  lemma {:induction false} OnlyDaylightCounts(step: Step, samples: seq<FileData>, acc: ExtendedReal)
    ensures SumSamples(step, samples, acc) == SumSamples(step, DaylightSamples(samples), acc)
    decreases |samples|
  {
    if |samples| > 0 {
      var rest := samples[1..];
      if Daylight(samples[0]) {
        var d := DaylightSamples(samples);
        assert d[0] == samples[0] && d[1..] == DaylightSamples(rest);
        match step(samples[0])
        case Err(_) =>
        case Ok(energy) => OnlyDaylightCounts(step, rest, Plus(acc, energy));
      } else {
        OnlyDaylightCounts(step, rest, acc);
      }
    }
  }

  /** The outer loop of `calculateOutput` over the years from `year` to 2019.  It fails for
      the first missing weather file, or with the failure of a time step. */
  function SumYears(step: Step, weather: Weather, grid: GpsCoordinates, year: int, acc: ExtendedReal): (r: Result<ExtendedReal>)
    requires FirstYear <= year <= EndYear
    ensures r.Err? ==>
      || (exists y :: year <= y < EndYear && weather(grid, y).None? && r.failure == WeatherUnavailable(y))
      || (exists f :: step(f) == Err(r.failure))
    decreases EndYear - year
  {
    if year == EndYear then Ok(acc)
    else
      match weather(grid, year)
      case None => Err(WeatherUnavailable(year))
      case Some(samples) =>
        match SumSamples(step, samples, acc)
        case Err(e) => Err(e)
        case Ok(total) => SumYears(step, weather, grid, year + 1, total)
  }

  /** A year whose weather file is missing fails the loop over the years. */
  lemma {:induction false} MissingYearFails(step: Step, weather: Weather, grid: GpsCoordinates, year: int, acc: ExtendedReal, missing: int)
    requires FirstYear <= year <= missing < EndYear && weather(grid, missing).None?
    ensures SumYears(step, weather, grid, year, acc).Err?
    decreases EndYear - year
  {
    if year < missing {
      match weather(grid, year)
      case None =>
      case Some(samples) =>
        match SumSamples(step, samples, acc)
        case Err(_) =>
        case Ok(total) => MissingYearFails(step, weather, grid, year + 1, total, missing);
    }
  }

  // ---------------------------------------------------------------------------------------
  // A reference for the sum: the list of the energies that enter it

  /** The sum of a list of energies, from the first to the last. */
  function Total(es: seq<ExtendedReal>): (t: ExtendedReal)
    ensures t.NotANumber? <==> exists i :: 0 <= i < |es| && es[i].NotANumber?
    ensures (forall i :: 0 <= i < |es| ==> es[i].Finite?) ==> t.Finite?
    decreases |es|
  {
    if |es| == 0 then Finite(0.0)
    else
      assert forall i :: 1 <= i < |es| ==> es[i] == es[1..][i - 1];
      Plus(es[0], Total(es[1..]))
  }

  lemma {:induction false} TotalAppend(a: seq<ExtendedReal>, b: seq<ExtendedReal>)
    ensures Total(a + b) == Plus(Total(a), Total(b))
    decreases |a|
  {
    if |a| == 0 {
      assert a + b == b;
      PlusZero(Total(b));
    } else {
      assert (a + b)[1..] == a[1..] + b;
      TotalAppend(a[1..], b);
      PlusAssociative(a[0], Total(a[1..]), Total(b));
    }
  }

  /** The energy of every sample, in order; the first sample whose step fails fails the
      list. */
  function Energies(step: Step, samples: seq<FileData>): (r: Result<seq<ExtendedReal>>)
    ensures r.Ok? ==> |r.value| == |samples|
    decreases |samples|
  {
    if |samples| == 0 then Ok([])
    else
      match step(samples[0])
      case Err(e) => Err(e)
      case Ok(energy) =>
        match Energies(step, samples[1..])
        case Err(e) => Err(e)
        case Ok(rest) => Ok([energy] + rest)
  }

  /** The list holds the energy of each sample's step, at the sample's position; a failing
      step fails the list. */
  lemma {:induction false} EnergiesAt(step: Step, samples: seq<FileData>, i: int)
    requires 0 <= i < |samples|
    ensures Energies(step, samples).Ok? ==> step(samples[i]) == Ok(Energies(step, samples).value[i])
    ensures step(samples[i]).Err? ==> Energies(step, samples).Err?
    decreases i
  {
    if 0 < i {
      EnergiesAt(step, samples[1..], i - 1);
      assert samples[1..][i - 1] == samples[i];
    }
  }

  /** The energies of the daylight samples of the years from `year` to 2019, year by year;
      a missing weather file fails the list. */
  function YearsEnergies(step: Step, weather: Weather, grid: GpsCoordinates, year: int): (r: Result<seq<ExtendedReal>>)
    requires FirstYear <= year <= EndYear
    ensures r.Ok? ==> forall y :: year <= y < EndYear ==> weather(grid, y).Some?
    decreases EndYear - year
  {
    if year == EndYear then Ok([])
    else
      match weather(grid, year)
      case None => Err(WeatherUnavailable(year))
      case Some(samples) =>
        match Energies(step, DaylightSamples(samples))
        case Err(e) => Err(e)
        case Ok(energies) =>
          match YearsEnergies(step, weather, grid, year + 1)
          case Err(e) => Err(e)
          case Ok(rest) => Ok(energies + rest)
  }

  /** The three years 2017, 2018 and 2019 are the ones summed, in that order. */
  lemma {:induction false} ThreeYearsSummed(step: Step, weather: Weather, grid: GpsCoordinates, s1: seq<FileData>, s2: seq<FileData>, s3: seq<FileData>)
    requires weather(grid, 2017) == Some(s1) && weather(grid, 2018) == Some(s2) && weather(grid, 2019) == Some(s3)
    requires Energies(step, DaylightSamples(s1)).Ok?
    requires Energies(step, DaylightSamples(s2)).Ok?
    requires Energies(step, DaylightSamples(s3)).Ok?
    ensures YearsEnergies(step, weather, grid, FirstYear)
      == Ok(Energies(step, DaylightSamples(s1)).value
          + Energies(step, DaylightSamples(s2)).value
          + Energies(step, DaylightSamples(s3)).value)
  {
    var e1 := Energies(step, DaylightSamples(s1)).value;
    var e2 := Energies(step, DaylightSamples(s2)).value;
    var e3 := Energies(step, DaylightSamples(s3)).value;
    assert YearsEnergies(step, weather, grid, 2020) == Ok([]);
    assert YearsEnergies(step, weather, grid, 2019) == Ok(e3 + []);
    assert YearsEnergies(step, weather, grid, 2018) == Ok(e2 + (e3 + []));
    assert e1 + (e2 + (e3 + [])) == e1 + e2 + e3;
  }

  /** An accumulator plus the total of a list of energies, or the failure of the list. */
  function AddTotal(acc: ExtendedReal, energies: Result<seq<ExtendedReal>>): Result<ExtendedReal> {
    match energies
    case Err(e) => Err(e)
    case Ok(es) => Ok(Plus(acc, Total(es)))
  }

  /** The loop over the samples adds the total of the daylight samples' energies to the
      accumulator. */
  lemma {:induction false} SumSamplesTotal(step: Step, samples: seq<FileData>, acc: ExtendedReal)
    ensures SumSamples(step, samples, acc) == AddTotal(acc, Energies(step, DaylightSamples(samples)))
    decreases |samples|
  {
    if |samples| == 0 {
      PlusZero(acc);
    } else {
      var rest := samples[1..];
      if !Daylight(samples[0]) {
        SumSamplesTotal(step, rest, acc);
      } else {
        var d := DaylightSamples(samples);
        assert d[0] == samples[0] && d[1..] == DaylightSamples(rest);
        match step(samples[0])
        case Err(_) =>
        case Ok(energy) =>
          SumSamplesTotal(step, rest, Plus(acc, energy));
          match Energies(step, d[1..])
          case Err(_) =>
          case Ok(es) =>
            assert ([energy] + es)[0] == energy && ([energy] + es)[1..] == es;
            PlusAssociative(acc, energy, Total(es));
      }
    }
  }

  /** The loop over the years adds the total of the listed energies to the accumulator. */
  lemma {:induction false} SumYearsTotal(step: Step, weather: Weather, grid: GpsCoordinates, year: int, acc: ExtendedReal)
    requires FirstYear <= year <= EndYear
    ensures SumYears(step, weather, grid, year, acc) == AddTotal(acc, YearsEnergies(step, weather, grid, year))
    decreases EndYear - year
  {
    if year == EndYear {
      PlusZero(acc);
    } else {
      match weather(grid, year)
      case None =>
      case Some(samples) =>
        SumSamplesTotal(step, samples, acc);
        match Energies(step, DaylightSamples(samples))
        case Err(_) =>
        case Ok(es) =>
          SumYearsTotal(step, weather, grid, year + 1, Plus(acc, Total(es)));
          match YearsEnergies(step, weather, grid, year + 1)
          case Err(_) =>
          case Ok(rest) =>
            TotalAppend(es, rest);
            PlusAssociative(acc, Total(es), Total(rest));
    }
  }

  /** `calculateOutput`: the energy of the daylight samples of 2017, 2018 and 2019 at the
      grid point, in kWh, divided by three and cast to an int.  It fails for a missing
      weather file of one of the three years, or for a skyline that misses the sun. */
  function CalculateOutput(m: MathFunctions, system: UserPvSystem, weather: Weather): (r: Result<int>)
    requires Sound(m)
    ensures var energies := YearsEnergies(StepOf(m, system), weather, GpsGrid.GetCorrespondingGpsCoords(system.gpsCoordinates), FirstYear);
      && (r.Ok? <==> energies.Ok?)
      && (r.Err? ==> r.failure == energies.failure)
      && (r.Ok? ==> r.value == IntCastExtended(Scale(Total(energies.value), 0.001 / 3.0)))
    ensures r.Ok? ==> IntMin <= r.value <= IntMax
    ensures r.Err? ==> (
      || r.failure.MissingSkylineBucket?
      || (&& r.failure.WeatherUnavailable? && FirstYear <= r.failure.year < EndYear
          && weather(GpsGrid.GetCorrespondingGpsCoords(system.gpsCoordinates), r.failure.year).None?))
  {
    var grid := GpsGrid.GetCorrespondingGpsCoords(system.gpsCoordinates);
    var step := StepOf(m, system);
    SumYearsTotal(step, weather, grid, FirstYear, Finite(0.0));
    var energies := YearsEnergies(step, weather, grid, FirstYear);
    PlusZero(if energies.Ok? then Total(energies.value) else Finite(0.0));
    match SumYears(step, weather, grid, FirstYear, Finite(0.0))
    case Err(e) => Err(e)
    case Ok(total) => Ok(IntCastExtended(Scale(total, 0.001 / 3.0)))
  }

  /** `calculateResult`: the yield with the obstacles, then with the obstacles removed. */
  function CalculateResult(m: MathFunctions, userData: UserData, weather: Weather): (r: Result<Results>)
    requires Sound(m)
    ensures |userData.userInverters| == 0 ==> r == Err(NoInverter)
    ensures var system := GetUserPvSystem(userData);
      r.Ok? <==> (&& system.Ok?
                  && CalculateOutput(m, system.value, weather).Ok?
                  && CalculateOutput(m, RemoveShadowing(system.value), weather).Ok?)
    ensures var system := GetUserPvSystem(userData);
      r.Err? ==>
        r.failure == if system.Err? then system.failure
          else if CalculateOutput(m, system.value, weather).Err? then CalculateOutput(m, system.value, weather).failure
          else CalculateOutput(m, RemoveShadowing(system.value), weather).failure
    ensures r.Ok? ==>
      var system := GetUserPvSystem(userData).value;
      && CalculateOutput(m, system, weather) == Ok(r.value.calculatedOutput)
      && CalculateOutput(m, RemoveShadowing(system), weather) == Ok(r.value.calculatedOutputNoShadow)
  {
    match GetUserPvSystem(userData)
    case Err(e) => Err(e)
    case Ok(system) =>
      match CalculateOutput(m, system, weather)
      case Err(e) => Err(e)
      case Ok(withShadow) =>
        match CalculateOutput(m, RemoveShadowing(system), weather)
        case Err(e) => Err(e)
        case Ok(noShadow) => Ok(Results(withShadow, noShadow))
  }

  // ---------------------------------------------------------------------------------------
  // Properties of the whole calculation

  /** Only the weather of the system's grid point in the three years is read. */
  lemma {:induction false} WeatherFrame(step: Step, w1: Weather, w2: Weather, grid: GpsCoordinates, year: int, acc: ExtendedReal)
    requires FirstYear <= year <= EndYear
    requires forall y :: year <= y < EndYear ==> w1(grid, y) == w2(grid, y)
    ensures SumYears(step, w1, grid, year, acc) == SumYears(step, w2, grid, year, acc)
    decreases EndYear - year
  {
    if year < EndYear {
      assert w1(grid, year) == w2(grid, year);
      match w1(grid, year)
      case None =>
      case Some(samples) =>
        match SumSamples(step, samples, acc)
        case Err(_) =>
        case Ok(total) => WeatherFrame(step, w1, w2, grid, year + 1, total);
    }
  }

  /** Two weather sources that agree on the grid point of the system for 2017 to 2019 give
      the same yield. */
  lemma {:induction false} OutputDependsOnGridWeatherOnly(m: MathFunctions, system: UserPvSystem, w1: Weather, w2: Weather)
    requires Sound(m)
    requires forall y :: FirstYear <= y < EndYear ==>
      w1(GpsGrid.GetCorrespondingGpsCoords(system.gpsCoordinates), y) == w2(GpsGrid.GetCorrespondingGpsCoords(system.gpsCoordinates), y)
    ensures CalculateOutput(m, system, w1) == CalculateOutput(m, system, w2)
  {
    WeatherFrame(StepOf(m, system), w1, w2, GpsGrid.GetCorrespondingGpsCoords(system.gpsCoordinates), FirstYear, Finite(0.0));
  }

  /** Without obstacles a time step never fails: every skyline has every bucket, and the
      sun's azimuth always falls into one. */
  lemma {:induction false} NoShadowStepSucceeds(m: MathFunctions, system: UserPvSystem, f: FileData)
    requires Sound(m)
    ensures CalculateTimestepOutput(m, RemoveShadowing(system), f).Ok?
  {
    var sun := SolarPosition.GetSunPosition(m, system.gpsCoordinates, f.localDateTime);
    var k := Irradiance.SunBucket(sun);
    assert Horizon.IsBucket(k);
    var modules := RemoveShadowing(system).pvModules;
    forall i | 0 <= i < |modules| ensures k in modules[i].skyline {
      RemoveShadowingComplete(system, i, k);
    }
  }

  /** For a step that never fails, the loop over the samples never fails. */
  lemma {:induction false} SamplesSucceed(step: Step, samples: seq<FileData>, acc: ExtendedReal)
    requires forall f :: step(f).Ok?
    ensures SumSamples(step, samples, acc).Ok?
    decreases |samples|
  {
    if |samples| > 0 {
      SamplesSucceed(step, samples[1..], acc);
      if Daylight(samples[0]) {
        SamplesSucceed(step, samples[1..], Plus(acc, step(samples[0]).value));
      }
    }
  }

  /** Hence the loop over the years fails only for a missing weather file. */
  lemma {:induction false} YearsFailOnlyForWeather(step: Step, weather: Weather, grid: GpsCoordinates, year: int, acc: ExtendedReal)
    requires forall f :: step(f).Ok?
    requires FirstYear <= year <= EndYear
    ensures var r := SumYears(step, weather, grid, year, acc);
      r.Err? ==> r.failure.WeatherUnavailable?
    decreases EndYear - year
  {
    if year < EndYear {
      match weather(grid, year)
      case None =>
      case Some(samples) =>
        SamplesSucceed(step, samples, acc);
        var total := SumSamples(step, samples, acc).value;
        YearsFailOnlyForWeather(step, weather, grid, year + 1, total);
    }
  }

  /** The yield of the system with its obstacles removed fails only for a missing weather
      file. */
  lemma {:induction false} NoShadowOutputFailsOnlyForWeather(m: MathFunctions, system: UserPvSystem, weather: Weather)
    requires Sound(m)
    ensures var r := CalculateOutput(m, RemoveShadowing(system), weather);
      r.Err? ==> r.failure.WeatherUnavailable?
  {
    var free := RemoveShadowing(system);
    var step := StepOf(m, free);
    forall f ensures step(f).Ok? {
      NoShadowStepSucceeds(m, system, f);
    }
    YearsFailOnlyForWeather(step, weather, GpsGrid.GetCorrespondingGpsCoords(free.gpsCoordinates), FirstYear, Finite(0.0));
  }

  /** Modules whose skylines take the same blocking decision at the sun's bucket give the
      same DC power. */
  lemma {:induction false} SameBlockingSameDcPower(m: MathFunctions, p: seq<Horizon.PvModule>, q: seq<Horizon.PvModule>, f: FileData, sun: SunPosition)
    requires Sound(m)
    requires |p| == |q|
    requires forall i :: 0 <= i < |p| ==> SameButBlocking(p[i], q[i], sun)
    ensures ModulesDcPower(m, p, f, sun) == ModulesDcPower(m, q, f, sun)
    decreases |p|
  {
    if |p| > 0 {
      Irradiance.SkylineOnlyDecidesBlocking(m, f, p[0], q[0], sun);
      assert forall i :: 0 <= i < |p| - 1 ==> SameButBlocking(p[1..][i], q[1..][i], sun) by {
        forall i | 0 <= i < |p| - 1 ensures SameButBlocking(p[1..][i], q[1..][i], sun) {
          assert p[1..][i] == p[i + 1] && q[1..][i] == q[i + 1];
        }
      }
      SameBlockingSameDcPower(m, p[1..], q[1..], f, sun);
      SameHeadSameDcPower(m, p, q, f, sun);
    }
  }

  /** Lists whose first modules give the same irradiance and rating, and whose remainders
      give the same power, give the same power. */
  lemma {:induction false} SameHeadSameDcPower(m: MathFunctions, p: seq<Horizon.PvModule>, q: seq<Horizon.PvModule>, f: FileData, sun: SunPosition)
    requires Sound(m)
    requires 0 < |p| && 0 < |q|
    requires Irradiance.GetPoaIrradiance(m, f, p[0], sun) == Irradiance.GetPoaIrradiance(m, f, q[0], sun)
    requires p[0].dcRating == q[0].dcRating
    requires ModulesDcPower(m, p[1..], f, sun) == ModulesDcPower(m, q[1..], f, sun)
    ensures ModulesDcPower(m, p, f, sun) == ModulesDcPower(m, q, f, sun)
  {
  }

  /** Two modules that agree in everything but their skylines, whose skylines both hold the
      sun's bucket and take the same blocking decision there. */
  predicate SameButBlocking(p: Horizon.PvModule, q: Horizon.PvModule, sun: SunPosition) {
    var k := Irradiance.SunBucket(sun);
    && p.dcRating == q.dcRating && p.azimuth == q.azimuth && p.tilt == q.tilt
    && k in p.skyline && k in q.skyline
    && Irradiance.Shades(p.skyline[k], sun.elevation) == Irradiance.Shades(q.skyline[k], sun.elevation)
  }

  /** A time step at which no module's obstacles block the sun yields the same energy with
      and without the obstacles. */
  lemma {:induction false} UnblockedStepUnchanged(m: MathFunctions, system: UserPvSystem, f: FileData)
    requires Sound(m)
    requires var sun := SolarPosition.GetSunPosition(m, system.gpsCoordinates, f.localDateTime);
      forall i :: 0 <= i < |system.pvModules| ==>
        && Irradiance.SunBucket(sun) in system.pvModules[i].skyline
        && !Irradiance.Shades(system.pvModules[i].skyline[Irradiance.SunBucket(sun)], sun.elevation)
    ensures CalculateTimestepOutput(m, system, f) == CalculateTimestepOutput(m, RemoveShadowing(system), f)
  {
    var sun := SolarPosition.GetSunPosition(m, system.gpsCoordinates, f.localDateTime);
    var free := RemoveShadowing(system);
    UnblockedModulesSameButBlocking(m, system, sun);
    SameBlockingSameDcPower(m, system.pvModules, free.pvModules, f, sun);
  }

  /** Where no module's obstacles block the sun, each module and its obstacle-free copy take
      the same blocking decision. */
  lemma {:induction false} UnblockedModulesSameButBlocking(m: MathFunctions, system: UserPvSystem, sun: SunPosition)
    requires Sound(m)
    requires forall i :: 0 <= i < |system.pvModules| ==>
        && Irradiance.SunBucket(sun) in system.pvModules[i].skyline
        && !Irradiance.Shades(system.pvModules[i].skyline[Irradiance.SunBucket(sun)], sun.elevation)
    requires 90.0 <= sun.azimuth <= 270.0
    ensures |RemoveShadowing(system).pvModules| == |system.pvModules|
    ensures forall i :: 0 <= i < |system.pvModules| ==>
      SameButBlocking(system.pvModules[i], RemoveShadowing(system).pvModules[i], sun)
  {
    var free := RemoveShadowing(system);
    forall i | 0 <= i < |system.pvModules| ensures SameButBlocking(system.pvModules[i], free.pvModules[i], sun) {
      Irradiance.NoShadowSkylineBlocking(m, system.pvModules[i], sun);
    }
  }

  /** The sun the model computes is never blocked by a skyline whose obstacles were
      removed: its azimuth lies in [90, 270], away from bucket 0, the one observed bucket. */
  lemma {:induction false} NoShadowNeverBlocks(m: MathFunctions, pv: Horizon.PvModule, gps: GpsCoordinates, t: Calendar.DateTime)
    requires Sound(m) && Calendar.Valid(t)
    ensures var sun := SolarPosition.GetSunPosition(m, gps, t);
      && Irradiance.SunBucket(sun) in Horizon.RemoveShadowing(pv).skyline
      && !Irradiance.Shades(Horizon.RemoveShadowing(pv).skyline[Irradiance.SunBucket(sun)], sun.elevation)
  {
    var sun := SolarPosition.GetSunPosition(m, gps, t);
    Irradiance.NoShadowSkylineBlocking(m, pv, sun);
    assert 90 <= Irradiance.SunBucket(sun);
  }
}
