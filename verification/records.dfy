/**
  The plain records of the calculation: the request (location, panels with their obstacle
  surveys, inverters), one weather sample, and the intermediate and final results.
  Doubles are `real`s and arrays are sequences.
*/
module Records {
  import opened Calendar

  datatype GpsCoordinates = GpsCoordinates(longitude: real, latitude: real)

  /** One obstacle sighting: the elevation of the horizon at an azimuth, both in degrees. */
  datatype DataPoint = DataPoint(azimuth: real, elevation: real)

  /** One survey of the horizon as seen from a panel. */
  datatype PanelObstacleData = PanelObstacleData(dataSetId: real, dataPoints: seq<DataPoint>)

  /** `panelElevation` is the tilt of the panel. */
  datatype SolarPanel = SolarPanel(
    panelId: string,
    panelDescription: string,
    panelWatts: real,
    panelAzimuth: real,
    panelElevation: real,
    panelObstacleDatasets: seq<PanelObstacleData>)

  datatype Inverter = Inverter(
    inverterId: string,
    inverterWatts: real,
    inverterName: string,
    inverterDescription: string)

  datatype UserData = UserData(
    userGpsCoords: GpsCoordinates,
    userPanels: seq<SolarPanel>,
    userInverters: seq<Inverter>)

  /** One 15-minute weather sample; irradiances in W/m², temperature in °C, wind in m/s. */
  datatype FileData = FileData(
    gpsCoordinates: GpsCoordinates,
    localDateTime: LocalDateTime,
    temperature: real,
    diffuseHorizontalIrradiance: real,
    directNormalIrradiance: real,
    globalHorizontalIrradiance: real,
    windSpeed: real)

  datatype SunPosition = SunPosition(azimuth: real, elevation: real)

  /** A Julian day number, the fraction of the day, their sum, and the time they stand for. */
  datatype Julian = Julian(day: real, dayFraction: real, dateTime: real, universalTime: DateTime)

  /** Average yearly output in kWh, with and without the horizon obstacles. */
  datatype Results = Results(calculatedOutput: int, calculatedOutputNoShadow: int)
}
