/**
 * The HTTP handlers' decision logic over the store. A handler either returns a
 * value or fails with the status the framework would answer with: 404 for an
 * empty result, 422 for a query parameter outside its declared range, 500 for
 * an error raised while filtering. Transport, routing and serialisation are
 * outside the model; the current time is a parameter.
 */
module Api {
  import opened Wrappers
  import opened Models
  import opened Storage

  datatype Response<T> = Ok(value: T) | NotFound | Unprocessable | ServerError

  /** The declared range of the `limit` query parameter. */
  const MinLimit: int := 1
  const MaxLimit: int := 1000
  /** The value of `limit` when a `/readings` request leaves it out. */
  const DefaultLimit: int := 100

  /**
   * Health: "healthy" exactly when the broker connection is up, the number of
   * stored readings, and the timestamp of the newest one if there is any.
   */
  function Health(readings: seq<Reading>, connected: bool): (h: HealthCheck)
    ensures h.status == (if connected then "healthy" else "degraded")
    ensures h.mqttConnected == connected
    ensures h.totalReadings == |readings|
    ensures h.lastReadingTime == if readings == [] then None else readings[|readings| - 1].timestamp
  {
    var latest := Latest(readings, 1);
    HealthCheck(
      if connected then "healthy" else "degraded",
      connected,
      |readings|,
      if latest != [] then latest[0].timestamp else None)
  }

  /** The newest reading; NotFound when the store is empty. */
  function LatestReading(readings: seq<Reading>): (r: Response<Reading>)
    ensures r.NotFound? <==> readings == []
    ensures readings != [] ==> r == Ok(readings[|readings| - 1])
  {
    var latest := Latest(readings, 1);
    if latest == [] then NotFound else Ok(latest[0])
  }

  /** An empty list of readings becomes NotFound; a failed filter a server error. */
  function Listed(res: RangeResult): (r: Response<seq<Reading>>)
    ensures r.ServerError? <==> res.Incomparable?
    ensures res.Matched? ==> (r.NotFound? <==> res.readings == [])
    ensures r.Ok? ==> r.value != [] && res == Matched(r.value)
    ensures res.Matched? && res.readings != [] ==> r == Ok(res.readings)
  {
    match res
    case Incomparable => ServerError
    case Matched(rs) => if rs == [] then NotFound else Ok(rs)
  }

  /**
   * `/readings`: with a time bound, every stored reading in the window (the
   * limit plays no part); without one, the newest `limit`. An empty answer is
   * NotFound, a limit outside 1..1000 is rejected before anything else.
   */
  function Readings(readings: seq<Reading>, limit: int, start: Option<Time>, end: Option<Time>)
    : (r: Response<seq<Reading>>)
    ensures r.Unprocessable? <==> !(MinLimit <= limit <= MaxLimit)
    ensures MinLimit <= limit <= MaxLimit && !Bounded(start, end) ==>
      && (r.NotFound? <==> readings == [])
      && (readings != [] ==> r == Ok(readings[|readings| - Min(limit, |readings|)..]))
    ensures MinLimit <= limit <= MaxLimit && Bounded(start, end) ==>
      && (r.ServerError? <==> !AllStamped(readings))
      && (AllStamped(readings) ==> (r.NotFound? <==> Where(readings, start, end) == []))
      && (r.Ok? ==> r.value == Where(readings, start, end))
  {
    RangeMatchesWhere(readings, start, end);
    if !(MinLimit <= limit <= MaxLimit) then Unprocessable
    else if Bounded(start, end) then Listed(ByTimeRange(readings, start, end))
    else Listed(Matched(Latest(readings, limit)))
  }

  /**
   * The readings of the last `span` microseconds up to `now`, both ends
   * included: NotFound when none is in that window, a server error when some
   * stored reading has no timestamp to compare.
   */
  function Recent(readings: seq<Reading>, now: Time, span: Time): (r: Response<seq<Reading>>)
    ensures r.ServerError? <==> !AllStamped(readings)
    ensures r.NotFound? <==>
      (AllStamped(readings) && forall x :: x in readings ==> !InWindow(x, Some(now - span), Some(now)))
    ensures r.Ok? ==> r.value == Where(readings, Some(now - span), Some(now))
    ensures !r.Unprocessable?
  {
    RangeMatchesWhere(readings, Some(now - span), Some(now));
    var w := Where(readings, Some(now - span), Some(now));
    assert w != [] ==> w[0] in w;
    Listed(ByTimeRange(readings, Some(now - span), Some(now)))
  }

  /** `/readings/last-hour`: the window of the last hour up to `now`. */
  function LastHour(readings: seq<Reading>, now: Time): (r: Response<seq<Reading>>)
    ensures r.ServerError? <==> !AllStamped(readings)
    ensures r.NotFound? <==>
      (AllStamped(readings) && forall x :: x in readings ==> !InWindow(x, Some(now - Hour), Some(now)))
    ensures r.Ok? ==> r.value == Where(readings, Some(now - Hour), Some(now))
    ensures !r.Unprocessable?
    ensures r.Ok? ==> forall x :: x in r.value ==>
      x in readings && x.timestamp.Some? && now - Hour <= x.timestamp.value <= now
  {
    Recent(readings, now, Hour)
  }

  /** `/readings/last-day`: the window of the last 24 hours up to `now`. */
  function LastDay(readings: seq<Reading>, now: Time): (r: Response<seq<Reading>>)
    ensures r.ServerError? <==> !AllStamped(readings)
    ensures r.NotFound? <==>
      (AllStamped(readings) && forall x :: x in readings ==> !InWindow(x, Some(now - Day), Some(now)))
    ensures r.Ok? ==> r.value == Where(readings, Some(now - Day), Some(now))
    ensures !r.Unprocessable?
    ensures r.Ok? ==> forall x :: x in r.value ==>
      x in readings && x.timestamp.Some? && now - Day <= x.timestamp.value <= now
  {
    Recent(readings, now, Day)
  }

  /**
   * The statistics of a fresh store of the default capacity after the given
   * readings were written into it one by one: those of the newest
   * `DefaultCapacity` of them, so of all of them when they fit.
   */
  method StatsViaFreshStore(rs: seq<Reading>) returns (st: Stats)
    ensures st == ComputeStats(Written(rs, DefaultCapacity))
    ensures |rs| <= DefaultCapacity ==> st == ComputeStats(rs)
  {
    var temp := new WeatherDataStore(DefaultCapacity);
    for i := 0 to |rs|
      invariant temp.Valid() && temp.maxReadings == DefaultCapacity
      invariant temp.readings == Written(rs[..i], DefaultCapacity)
    {
      assert rs[..i + 1][..i] == rs[..i];
      temp.AddReading(rs[i]);
    }
    assert rs[..|rs|] == rs;
    st := temp.GetStats();
    WrittenKeepsNewest(rs, DefaultCapacity);
  }

  /**
   * `/stats`: without a bound, the statistics of the whole store; with one,
   * the statistics of a fresh store that received the matching readings.
   * Because the main store never holds more than the default capacity,
   * nothing is evicted on the way and the answer is the statistics of exactly
   * the matching readings.
   */
  method Statistics(store: WeatherDataStore, start: Option<Time>, end: Option<Time>)
    returns (res: Response<Stats>)
    ensures !Bounded(start, end) ==> res == Ok(ComputeStats(store.readings))
    ensures Bounded(start, end) ==> (res.ServerError? <==> !AllStamped(store.readings))
    ensures Bounded(start, end) && AllStamped(store.readings) ==>
      && (res.NotFound? <==> Where(store.readings, start, end) == [])
      && (res.Ok? ==> res.value == ComputeStats(Written(Where(store.readings, start, end), DefaultCapacity)))
    ensures Bounded(start, end) && AllStamped(store.readings) && Where(store.readings, start, end) != [] ==> res.Ok?
    ensures !res.Unprocessable?
    ensures res.Ok? && |store.readings| <= DefaultCapacity ==>
      res.value == ComputeStats(Where(store.readings, start, end))
  {
    RangeMatchesWhere(store.readings, start, end);
    if start.Some? || end.Some? {
      var range := store.GetByTimeRange(start, end);
      match range
      case Incomparable =>
        res := ServerError;
      case Matched(rs) =>
        if rs == [] {
          res := NotFound;
        } else {
          var st := StatsViaFreshStore(rs);
          res := Ok(st);
        }
    } else {
      WhereUnbounded(store.readings, start, end);
      var st := store.GetStats();
      res := Ok(st);
    }
  }

  /**
   * An empty store: health is degraded with no readings and no last time, the
   * latest reading and the default listing are NotFound, and the statistics
   * carry only a zero count.
   */
  lemma EmptyStoreAnswers()
    ensures Health([], false) == HealthCheck("degraded", false, 0, None)
    ensures LatestReading([]) == NotFound
    ensures Readings([], DefaultLimit, None, None) == NotFound
    ensures ComputeStats([]).totalReadings == 0 && OnlyCount(ComputeStats([]))
  {
  }

  /** `/readings/count`: the number of stored readings. */
  method ReadingsCount(store: WeatherDataStore) returns (total: nat)
    ensures total == |store.readings|
  {
    total := store.Count();
  }

  /** `DELETE /readings`: empties the store; the connectivity flag is untouched. */
  method ClearReadings(store: WeatherDataStore) returns (message: string)
    requires store.Valid()
    modifies store`readings
    ensures store.Valid() && store.readings == []
    ensures message == "Todas las lecturas han sido eliminadas"
  {
    store.Clear();
    message := "Todas las lecturas han sido eliminadas";
  }
}
