# Smart-home telemetry receiver: ingestion and dashboard read side

This project models the core of a small smart-home energy dashboard in Dafny.
An ESP32 device posts temperature and humidity readings to `POST /api/data`.
The endpoint decides whether the actuator should be `"ON"` or `"OFF"`. The rule
is: temperature strictly above 29, or humidity strictly above 72. The endpoint
appends a timestamped entry to a process-wide in-memory log and returns the
decision. Every five seconds a dashboard callback reads the whole log. On an
empty log it shows a "Waiting for data..." placeholder. Otherwise it plots
every entry's device state as 1 (`"ON"`) or 0, and it shows a summary of the
most recent entry.

Everything is in `app.dfy`, module `App`:

- `ControlDecision` is the threshold rule. `TemperatureLimit` and `HumidityLimit` are its constants.
- `SensorLog` is the process-wide `data_log`, a class with a `seq<Entry>` field.
  - `HandleData` is the endpoint. It appends in place.
  - `UpdateGraphs` is the dashboard callback. It reads the log and modifies nothing.
  - `Valid()` is the log invariant: every entry's device state is the rule applied to that entry's own temperature and humidity.
- `Ingest` is the reference log: the entries a sequence of posts appends, in order. `PostAll` is a client of the class that makes those posts one `HandleData` call at a time; it proves that the log ends as its old contents followed by `Ingest` of the posts, so a fresh process holds exactly `Ingest(posts)`.
- `Render` and `DeviceSeries` are the pure read side of the callback.
- `PostingScenario` is a client of the class. It proves that a scenario of two posts (25/50, then 30/50) returns "OFF" and then "ON", matches `Ingest`, and renders the series `[0, 1]` with a summary of 30 / 50 / "ON". Before any post, the same log renders the placeholder.

Temperature and humidity are `real`: they stand for the finite integers and
floats of a JSON payload. Only comparisons are used on them.

## Model

| member | source | states |
|---|---|---|
| App.ControlDecision | app.py:28 | the decision is always one of the two strings "ON" and "OFF" |
| App.ControlDecisionIff | app.py:28 | "ON" exactly when temperature > 29 or humidity > 72; "OFF" exactly when both are at or below their limits |
| App.ControlDecisionBoundary | app.py:28 | the comparisons are strict: 29/72 gives "OFF", 25/50 gives "OFF", 30/50 and 20/75 each give "ON" |
| App.ControlDecisionMonotone | app.py:28 | raising temperature or humidity never switches an "ON" decision to "OFF" |
| App.EntryFor | app.py:31-36 | the entry holds the post's timestamp, temperature and humidity, and a device state consistent with the rule on that reading |
| App.Ingest | app.py:18-37 | N posts yield a log of length N in posting order; entry i is post i's reading, its timestamp and its decision; every entry is consistent with the rule |
| App.IngestAppend | app.py:37 | one more post appends exactly its own entry and leaves all earlier entries unchanged |
| App.StateBit | app.py:96 | the plotted value is 0 or 1, and it is 1 exactly for "ON" |
| App.DeviceSeries | app.py:96 | the series has one value per log entry; value i is 1 if entry i is "ON" and 0 otherwise |
| App.SummaryOf | app.py:109-110 | the summary shows the entry's temperature, humidity and device state; for a consistent entry that state is the rule's decision on the shown reading |
| App.Render | app.py:69-112 | the placeholder "Waiting for data..." appears exactly on an empty log; otherwise the series has one value per entry, value i being 1 exactly when entry i is "ON" (it is `DeviceSeries` of the log), and the summary is the last entry's temperature, humidity and device state |
| App.SeriesFollowsRule | app.py:28-96 | on a log that keeps the invariant, series value i is 1 exactly when entry i's own temperature > 29 or humidity > 72 |
| App.RenderAfterAppend | app.py:96-110 | after an append, the view is the old series plus the new entry's bit, and the summary of the new entry |
| App.SummaryShowsLastPost | app.py:31-110 | after any non-empty run of posts, the summary shows the last post's temperature, humidity and decision |
| App.SensorLog.constructor | app.py:18 | the log starts empty and satisfies the invariant |
| App.SensorLog.HandleData | app.py:22-40 | returns the rule's decision, "ON" iff temperature > 29 or humidity > 72, else "OFF"; the log grows by exactly one entry; the old prefix is unchanged; the new last entry holds the posted temperature, the posted humidity, the supplied timestamp and the returned state; the invariant is preserved |
| App.PostAll | app.py:22-37 | posting any sequence of readings one request at a time leaves the log as its old contents followed by `Ingest` of those posts, with the invariant kept, and answers each post with the rule's decision on its reading |
| App.SensorLog.UpdateGraphs | app.py:69-112 | returns the `Render` view of the current log; modifies nothing (no `modifies` clause); each series value is 1 exactly when that entry's reading exceeds a threshold |

## Left out

- HTTP routing, `request.get_json()`, `jsonify` and the JSON response (app.py:21-23, app.py:40) are library plumbing. `HandleData` takes the two numbers and returns the state string.
- HandleData: a missing temperature, or a non-numeric one such as a string, makes the comparison at app.py:28 raise, and the source has no handling for it. A missing or non-numeric humidity raises only when temperature is at most 29. With temperature above 29, Python's `or` never compares humidity, so the entry is appended with the humidity value as received (`None` when the field is missing) (app.py:31-37), answered "ON" (app.py:40) and later rendered. JSON `true` and `false` do not raise in either field: Python compares them as 1 and 0, so the rule sees the reading 1 or 0 and the entry stores the boolean. None of these paths is represented, because `Entry` holds real readings.
- ControlDecision: non-finite floats are not modelled. Python's JSON parser accepts `NaN`, `Infinity` and `-Infinity`. A NaN field fails its comparison, so NaN gives "OFF" unless the other field exceeds its limit, although NaN is not "at or below" its limit as `ControlDecisionIff` states for reals. `Infinity` exceeds either limit and `-Infinity` does not; neither is a `real`.
- The clock read `datetime.datetime.now()` (app.py:32) is a parameter `now` of `HandleData`. Timestamps are opaque integers.
- The diagnostic `print` (app.py:39) is I/O.
- The Dash layout, the 5-second `dcc.Interval` timer, the plotly figures (both the temperature/humidity chart and the device-state chart with its x-axis of timestamps) and the pandas DataFrame (app.py:43-60, app.py:73-106) are charting libraries. The model keeps the derived 0/1 series and the summary's field values. The two empty figures of the placeholder are not modelled; only its message is.
- Render: the summary line is the last entry's fields, not the f-string of app.py:110, because Python's number formatting is library behaviour.
- The redirect page (app.py:114-123) and `server.run` (app.py:125-127) are static content and process startup.
- Concurrent access to the log by request handling and by the timer callback is not modelled. The source has no synchronisation, and each operation here runs atomically.
