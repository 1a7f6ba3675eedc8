/**
 * The record shapes of the weather station: one reading as received from the
 * station, the aggregate statistics computed over a window of readings, and the
 * health report. Floating-point fields are modelled as mathematical reals and
 * date-times as integer microseconds.
 */
module Models {
  import opened Wrappers

  /** A point in time, in microseconds (the resolution of a Python `datetime`). */
  type Time = int

  const Hour: Time := 3_600_000_000
  const Day: Time := 24 * Hour

  /** The measured fields of one reading (everything but the receipt timestamp). */
  datatype Measurements = Measurements(
    lat: real, lon: real,
    temp: real, humidity: real, pressure: real,
    rainIntensity: real, rainIntensityMax: real, rainAccumulated: real, rainDuration: real,
    windSpeedMin: real, windSpeedMax: real, windSpeedAvg: real,
    windDirMin: real, windDirMax: real, windDirAvg: real,
    lux: real,
    tempInt: real, humInt: real, heatingTemp: real,
    dumpingState: int,
    pm1: real, pm2: real, pm3: real)

  /**
   * One stored reading. The timestamp is optional, exactly as declared: a payload
   * that omits it gets the receipt time, but a payload may also carry an explicit
   * `null` (or its own time).
   */
  datatype Reading = Reading(data: Measurements, timestamp: Option<Time>)

  /** How the `timestamp` key appeared in a decoded payload. */
  datatype TimestampField = Omitted | Null | Given(t: Time)

  /** A decoded payload: typed fields, not yet checked against their bounds. */
  datatype Record = Record(data: Measurements, timestamp: TimestampField)

  predicate Percentage(x: real) { 0.0 <= x <= 100.0 }
  predicate Degrees(x: real) { 0.0 <= x <= 360.0 }

  /**
   * The declared field bounds: the two humidities are percentages, the three wind
   * directions are degrees, and rain, wind speed, illuminance and particulate
   * fields are non-negative. Location, temperatures, pressure, heating
   * temperature and the dumping state are unconstrained.
   */
  predicate Valid(m: Measurements) {
    && Percentage(m.humidity)
    && 0.0 <= m.rainIntensity && 0.0 <= m.rainIntensityMax
    && 0.0 <= m.rainAccumulated && 0.0 <= m.rainDuration
    && 0.0 <= m.windSpeedMin && 0.0 <= m.windSpeedMax && 0.0 <= m.windSpeedAvg
    && Degrees(m.windDirMin) && Degrees(m.windDirMax) && Degrees(m.windDirAvg)
    && 0.0 <= m.lux
    && Percentage(m.humInt)
    && 0.0 <= m.pm1 && 0.0 <= m.pm2 && 0.0 <= m.pm3
  }

  predicate AllValid(s: seq<Reading>) {
    forall i :: 0 <= i < |s| ==> Valid(s[i].data)
  }

  /**
   * Building a reading from a decoded payload: the bounds are checked (a
   * violation is a validation error and yields None) and an omitted timestamp
   * defaults to the current time `now`.
   */
  function Construct(rec: Record, now: Time): (r: Option<Reading>)
    ensures r.Some? <==> Valid(rec.data)
    ensures r.Some? ==> r.value.data == rec.data
    ensures r.Some? ==> match rec.timestamp
                        case Omitted => r.value.timestamp == Some(now)
                        case Null => r.value.timestamp == None
                        case Given(t) => r.value.timestamp == Some(t)
  {
    if !Valid(rec.data) then None
    else
      var stamp := match rec.timestamp
        case Omitted => Some(now)
        case Null => None
        case Given(t) => Some(t);
      Some(Reading(rec.data, stamp))
  }

  /**
   * Aggregate statistics. Only the count is mandatory; every other field is
   * absent unless there was at least one reading to compute it from.
   */
  datatype Stats = Stats(
    totalReadings: int,
    avgTemp: Option<real>, maxTemp: Option<real>, minTemp: Option<real>,
    avgHumidity: Option<real>,
    avgWindSpeed: Option<real>, maxWindSpeed: Option<real>,
    totalRain: Option<real>,
    firstReading: Option<Time>, lastReading: Option<Time>)

  /** Statistics carrying only a count: every optional field left at its default. */
  function CountOnly(total: int): (st: Stats)
    ensures st.totalReadings == total && OnlyCount(st)
  {
    Stats(total, None, None, None, None, None, None, None, None, None)
  }

  predicate OnlyCount(st: Stats) {
    && st.avgTemp.None? && st.maxTemp.None? && st.minTemp.None?
    && st.avgHumidity.None? && st.avgWindSpeed.None? && st.maxWindSpeed.None?
    && st.totalRain.None? && st.firstReading.None? && st.lastReading.None?
  }

  /** The health report. */
  datatype HealthCheck = HealthCheck(
    status: string,
    mqttConnected: bool,
    totalReadings: int,
    lastReadingTime: Option<Time>)
}
