# Weather station backend: a Dafny model

This project models the core of a small weather-station backend. An MQTT
subscriber receives JSON readings from the station, validates them and appends
them to a bounded in-memory store, and an HTTP API answers queries over that
store: the latest readings, a time-range filter, aggregate statistics, a count,
a health report and an administrative clear.

- `models.dfy` (module `Models`): the reading record with its declared field
  bounds, the construction of a reading from a decoded payload (bounds check,
  default timestamp), and the statistics and health record shapes.
- `storage.dfy` (module `Storage`): the bounded store as a class over a
  sequence with a capacity, its deque eviction, and every query as a function
  of the contents, with the lemmas about them.
- `ingestion.dfy` (module `Ingestion`): the MQTT client's connect, disconnect
  and message callbacks as a class that keeps its `connected` flag equal to the
  store's and appends each accepted reading once.
- `api.dfy` (module `Api`): the decision logic of the HTTP handlers as
  functions of the store's contents returning a value or an error status, plus
  the statistics handler's loop over a fresh store.
- `wrappers.dfy` (module `Wrappers`): `Option`.

Modelling choices:

- Floating-point fields are mathematical reals. Timestamps are integer
  microseconds, the resolution of a Python `datetime`.
- The reading's timestamp is optional, as `models.py` declares it. A payload
  that omits it gets the receipt time; one that carries its own time keeps it;
  one that carries an explicit `null` is stored without a timestamp. When a
  time bound is given, the range filter compares every candidate reading's
  timestamp with the bound, and a missing timestamp raises a `TypeError`. The model keeps this error path
  (`RangeResult.Incomparable`) and the handlers answer it with a server error.
  So arrival order does not imply timestamp order, and the model does not
  assume it.
- The store's append follows Python's `deque(maxlen=...)`: append, then drop
  from the left while over capacity. A capacity of zero keeps the store empty.
- `get_latest(limit)` is Python's slice `[-limit:]` for every integer: a
  positive limit gives the newest `min(limit, count)`, zero gives everything,
  a negative limit drops the first `-limit`.
- Decoding the payload (UTF-8, JSON, field types and aliases) is a function
  passed to `OnMessage`; the bounds check and the default timestamp are
  modelled. The current time is a parameter wherever the code reads the clock.
- The MQTT client refers to the store through a field instead of a module-level
  global.

## Model

| member | source | states |
|---|---|---|
| Models.Construct | models.py:6-49 | a payload becomes a reading exactly when its fields satisfy the declared bounds (humidities in 0..100, wind directions in 0..360, rain, wind speed, illuminance and particulates non-negative); the measurements are kept; an omitted timestamp becomes the current time, a null one stays absent, a given one is kept |
| Models.Valid | models.py:15-46 | the reading validity predicate: both humidities in 0..100, the three wind directions in 0..360, rain, wind speed, illuminance and particulate fields non-negative, everything else unconstrained |
| Models.CountOnly | models.py:82-93 | statistics built from a count alone have every optional field absent |
| Storage.Trim | storage.py:17 | a bounded deque after an append keeps exactly the newest `min(length, capacity)` elements, in order |
| Storage.Appended | storage.py:17-24 | below capacity an append adds at the tail; at capacity exactly the oldest reading is dropped and the new one added; the length never exceeds the capacity; capacity zero stays empty |
| Storage.Written | storage.py:17-24 | the contents after any sequence of appends into an empty store never exceed the capacity |
| Storage.WrittenKeepsNewest | storage.py:17-24 | after writing M readings into an empty store of capacity N the contents are all of them when M <= N, and exactly the last N in arrival order when M > N |
| Storage.ThreeIntoTwo | storage.py:17-24 | capacity 2, A, B, C written: the store holds [B, C] |
| Storage.SliceStart | storage.py:29 | where Python starts the slice `s[i:]`: `i` itself inside 0..n, `n + i` for a negative `i` down to `-n`, clamped to 0 and to n beyond |
| Storage.Latest | storage.py:26-29 | a limit of at least 1 gives the newest `min(limit, count)` readings oldest first; a limit of 0 gives all readings; a negative limit drops the first `-limit` |
| Storage.Select | storage.py:46-48 | one list comprehension over the readings: a failure implies some reading has no timestamp; a result is never longer than its input and holds only stamped input readings that pass the comparison |
| Storage.ByTimeRange | storage.py:36-50 | the store's two-pass filter: it fails only when a bound is given; its result is never longer than the snapshot and holds only stored readings inside the window |
| Storage.Where | storage.py:36-50 | reference filter: each reading of the snapshot inside the inclusive window is kept as many times as it occurs, each reading outside is dropped, and the result is a subsequence of the snapshot (arrival order kept) |
| Storage.SelectSpec | storage.py:45-48 | one comprehension pass fails exactly when some reading has no timestamp, and otherwise keeps exactly the stamped readings passing the comparison |
| Storage.RangeMatchesWhere | storage.py:36-50 | the two-pass range filter fails exactly when a bound is given and some stored reading has no timestamp; otherwise it equals the reference filter; with neither bound it returns the whole snapshot |
| Storage.WhereUnbounded | storage.py:36-50 | with both bounds absent the filter keeps every reading |
| Storage.ReversedWindowIsEmpty | storage.py:45-48 | a start after the end matches nothing |
| Storage.Sum | storage.py:68-74 | Python's `sum`: a left-to-right running total from zero (its properties are stated by SumAtMost, SumNonNegative and MeanBetween) |
| Storage.Maximum | storage.py:69 | the maximum is an element of the column and bounds every element |
| Storage.Minimum | storage.py:70 | the minimum is an element of the column and is bounded by every element |
| Storage.MeanBetween | storage.py:68-72 | a mean lies between the minimum and the maximum |
| Storage.MeanWithin | storage.py:71 | a mean of values within an interval lies in that interval |
| Storage.SumNonNegative | storage.py:74 | a total of non-negative values is non-negative |
| Storage.ComputeStats | storage.py:52-77 | the count is the number of readings; the snapshot is empty exactly when every optional field is absent; otherwise first and last timestamps are those of the oldest and newest reading |
| Storage.StatsTemperatureOrdered | storage.py:68-70 | on a non-empty snapshot min_temp <= avg_temp <= max_temp, and every reading's temperature lies between min and max |
| Storage.StatsWindAndRain | storage.py:73-74 | the maximum wind speed is some reading's and bounds every reading's; total rain is the sum of accumulated rain |
| Storage.StatsOfOne | storage.py:60-77 | a single reading gives avg = min = max temperature, and its own humidity, wind speeds, rain and timestamp |
| Storage.StatsOfValidReadings | storage.py:71-74 | over validated readings total rain and both wind statistics are non-negative and mean humidity is within 0..100 |
| Storage.SumOfThree | storage.py:74 | the running total of three values is their sum |
| Storage.StatsScenario | storage.py:52-77 | temperatures 10, 20, 30 with rain 0, 5, 0 give count 3, mean 20, maximum 30, minimum 10, total rain 5 |
| Storage.WeatherDataStore.constructor | storage.py:11-19 | a new store is empty, has the given capacity and is not connected |
| Storage.WeatherDataStore.AddReading | storage.py:21-24 | the contents become the bounded append of the reading; the capacity invariant holds; nothing else changes |
| Storage.WeatherDataStore.GetLatest | storage.py:26-29 | returns `Latest` of the contents without changing the store |
| Storage.WeatherDataStore.GetAll | storage.py:31-34 | returns the contents without changing the store |
| Storage.WeatherDataStore.GetByTimeRange | storage.py:36-50 | returns the range filter of the contents without changing the store |
| Storage.WeatherDataStore.GetStats | storage.py:52-77 | returns the statistics of the contents without changing the store |
| Storage.WeatherDataStore.Count | storage.py:79-82 | returns the number of stored readings |
| Storage.WeatherDataStore.Clear | storage.py:84-87 | the store becomes empty; the connectivity flag and capacity are unchanged |
| Ingestion.Admit | mqtt_client.py:60-79 | a message yields a reading exactly when it decodes and its fields satisfy the bounds; the reading carries the decoded measurements and the receipt time if the payload omitted the timestamp, the payload's own time if it gave one, and no timestamp if it gave an explicit null |
| Ingestion.AppendKeepsValid | mqtt_client.py:70-73 | appending a validated reading to a store of validated readings leaves only validated readings |
| Ingestion.MqttClient.constructor | mqtt_client.py:37-39 | a new client is disconnected; it agrees with the store's flag exactly when that flag is false |
| Ingestion.MqttClient.OnConnect | mqtt_client.py:41-52 | result code 0 sets both the client's and the store's flag; any other code clears both |
| Ingestion.MqttClient.OnDisconnect | mqtt_client.py:54-58 | clears both flags whatever the result code |
| Ingestion.MqttClient.OnMessage | mqtt_client.py:60-79 | an accepted message appends its reading exactly once; a message failing decoding or validation leaves the store unchanged; a store of valid readings stays valid; the capacity invariant holds |
| Api.Health | api.py:63-74 | status is "healthy" exactly when connected, otherwise "degraded"; the count is the number of readings; the last reading time is the newest reading's timestamp, absent on an empty store |
| Api.LatestReading | api.py:77-83 | NotFound exactly on an empty store; otherwise the newest reading |
| Api.Listed | api.py:104-105 | an empty result is NotFound, a failed filter a server error, a non-empty result is returned as `Ok` of exactly those readings |
| Api.Readings | api.py:86-107 | a limit outside 1..1000 is rejected; without a bound the newest `min(limit, count)` readings, NotFound on an empty store; with a bound the reference range filter (limit ignored), NotFound when it is empty, a server error when a stored reading has no timestamp |
| Api.Recent | api.py:110-133 | the readings within [now - span, now]; NotFound exactly when none is in that window; a server error exactly when a stored reading has no timestamp |
| Api.LastHour | api.py:110-120 | the reference filter over [now - 1 hour, now]; NotFound exactly when no stored reading is in that window; a server error exactly when a stored reading has no timestamp |
| Api.LastDay | api.py:123-133 | the reference filter over [now - 24 hours, now]; NotFound exactly when no stored reading is in that window; a server error exactly when a stored reading has no timestamp |
| Api.StatsViaFreshStore | api.py:152-157 | writing readings one by one into a fresh store of capacity 1000 and asking its statistics gives the statistics of the newest 1000 of them, so of all of them when they fit |
| Api.Statistics | api.py:136-159 | without a bound the store's statistics; with one, a server error exactly when a stored reading has no timestamp, NotFound exactly when the range is empty, and otherwise `Ok` with the statistics of exactly the matching readings, since the store holds at most 1000; never a rejected request |
| Api.EmptyStoreAnswers | api.py:63-107 | on an empty store health is degraded with count 0 and no last time, latest and the listing with the default limit of 100 are NotFound, statistics carry only a zero count |
| Api.ReadingsCount | api.py:162-165 | the count endpoint returns the number of stored readings |
| Api.ClearReadings | api.py:168-173 | after the clear endpoint the store is empty; its connectivity flag is untouched |

## Left out

- Locking: each store operation runs under one lock in the code, so it is atomic; the model runs operations one at a time.
- The MQTT transport: client construction, credentials, TLS, `connect`, `disconnect`, `loop_start` (mqtt_client.py:81-122), the subscription in the connect callback, and loading the environment (mqtt_client.py:14-31).
- Payload decoding: UTF-8, `json.loads`, field presence and type coercion and the aliased field names are one abstract function; only the declared bounds and the timestamp default are modelled.
- Logging, including the log line in the message callback that reads the count; it changes nothing.
- Floating point: sums and means are exact reals, so rounding, NaN and infinities are not modelled.
- Comparison of timezone-aware with naive datetimes, which also raises in the range filter: timestamps are plain integers here.
- Query-parameter parsing: a malformed `start_time`/`end_time` is rejected by the framework before the handler runs; the model takes already-parsed optional times.
- The root endpoint (api.py:51-60), which returns constant information, and the web framework wiring, CORS and lifespan hooks (api.py:11-48, api.py:176-178).
- app.py, a standalone subscriber script that only prints.
- A negative capacity, which the deque constructor rejects: the capacity is a natural number.
- The code keeps no counter of dropped messages; it only logs them, and logging is not modelled.
- Default arguments: `get_latest` defaults to a limit of 1 (storage.py:26), but every caller passes its limit, so the model's `Latest` and `GetLatest` always take one. The `/readings` default of 100 (api.py:88) is `Api.DefaultLimit`; the handler takes `limit` explicitly, because the framework fills in the default before the handler runs.
