/** The records the flight-log client exchanges with its store. */
module Backend {

  /** `Variant_dual_solo`. */
  datatype FlightType = Dual | Solo

  /** `Variant_day_night`. */
  datatype LandingType = Day | Night

  /** `FlightEntry`; `dateEpoch` and `landingCount` are BigInts, here unbounded integers. */
  datatype FlightEntry = FlightEntry(
    date: string,
    dateEpoch: int,
    student: string,
    instructor: string,
    aircraft: string,
    exercise: string,
    flightType: FlightType,
    takeoffTime: string,
    landingTime: string,
    totalFlightTime: string,
    landingType: LandingType,
    landingCount: int)

  /** The argument of the edit mutation: the storage key and the replacement record. */
  datatype EditRequest = EditRequest(entryId: int, updatedEntry: FlightEntry)
}
