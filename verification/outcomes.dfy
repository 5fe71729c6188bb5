/** Optional values and the failures that end a yield calculation. */
module Outcomes {

  datatype Option<+T> = None | Some(value: T)

  /** The exceptions the calculation can raise, one constructor per cause. */
  datatype Failure =
    | NoInverter                          // `userInverters[0]` on an empty array
    | MissingSkylineBucket(bucket: int)   // a skyline lookup that finds no entry (null unboxing)
    | WeatherUnavailable(year: int)       // no weather file for the grid cell and year

  datatype Result<+T> = Ok(value: T) | Err(failure: Failure)
}
