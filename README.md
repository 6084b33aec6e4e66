# Weather widget reply pipeline, in Dafny

A model of the part of the sublibra WeatherWidget Android app that turns the
sensor server's reply into a reading: `DownloadWebpageTask.downloadUrl`
(one read into a 500-character buffer), `parseWeatherData` (classifying the
JSON reply and walking its `data` array), the outcome dispatch of
`doInBackground`, and the mutable `WeatherData` record they fill in.

Modules, leaf first:

- `Wrappers`: `Option`, standing for a Java reference that may be `null`.
- `JavaLang`: `int32` and `int64` as newtypes, a `double` as its 64-bit
  pattern (`Double = bv64`; temperatures are stored, never computed with),
  and two's-complement wrap-around for `long` arithmetic.
- `OrgJson`: an already-parsed JSON value (`JString`, `JLiteral` for numbers,
  booleans and `null`, `JArray`, `JObject`), the accessors `has`,
  `getString`, `getJSONArray` and `getJSONObject` (each returns a value or
  raises `JSONException`, written `None`), and `Library`, the abstract
  partial functions `new JSONObject(text)`, `Long.parseLong`,
  `Integer.parseInt` and `Double.parseDouble`.
- `Weather`: the `WeatherData` class with its constructors, getters and
  setters; `Reading` is the value an object holds at one moment. `EpochMillis`
  is the `long` product that `getLastUpdatedString` hands to `Date`.
- `Download`: `downloadUrl`. The network is abstract (`NetworkEvent`): a
  body and the number of characters the single `read` call delivered, a
  socket timeout, or any other `IOException`.
- `ReplyParser`: what `parseWeatherData` computes, as functions: the code
  before the loop (`Preamble`), one loop iteration (`EntryStep`), the loop as a
  fold over the prefixes of `data` (`Run`), the whole method (`ParseOutcome`),
  and the lemmas about it. An `Outcome` is a returned result (`None` is
  `null`) or an exception that escapes (`Uncaught`).
- `WidgetProvider`: the imperative methods. `ParseWeatherData` creates a
  `WeatherData`, updates it through its setters and may set it to `null`. It
  is proved to end exactly as `ParseOutcome` says. `DoInBackground` is proved
  to match `Classify(Fetch(event))`.
- `Corrected`: the pipeline with the three faults listed under Findings
  removed. It is proved never to fault and to agree with the code as written
  wherever that returns a non-null result.

Java's evaluation order is kept where it matters. In `wd.setTemperature(Double.parseDouble(c.getString("value")))`,
the argument is evaluated before `wd` is checked for null. So once `wd` is
`null`, a missing `value` or a number the parser rejects is raised before the
`NullPointerException`. Both `catch` handlers call `wd.setErrorMessage`. With
`wd == null` that call throws again, out of the handler, so the exception
escapes the method.

`sensorData` is a Java `String` and may be `null`, so it is an
`Option<string>`. `new String(null)` then raises the `NullPointerException`
that the second handler turns into "No response from the sensor server".

`WeatherData.java` as shown declares neither `errorMessage` nor a
one-argument constructor, but `SimpleWidgetProvider.java` calls
`getErrorMessage`, `setErrorMessage` and `new WeatherData(String)` (lines 94,
103, 117, 121, 202, 206, 209). The field `errorMessage: Option<string>`
(default `None`), `SetErrorMessage`, `GetErrorMessage` and the constructor
`WithError` are inferred from those call sites. `WithError` sets the message
and leaves every other field at its default.

The Javadoc of `parseWeatherData` (SimpleWidgetProvider.java:167) promises
"WeatherData object containing the sensor data or an error message". The
code as written does not always keep that promise, and the model follows the
code:
- an unknown entry sets the result to `null` instead of recording an error;
- a timestamp or value the number parsers reject raises a `NumberFormatException` that escapes;
- a failed download (other than a timeout) makes `doInBackground` return `null`, not an error reading.

The `Corrected` module removes exactly these three differences. Its message
for an unknown entry, "Unexpected sensor field", is this model's own
wording. Its message for a failed download reuses the log text at line 123.

## Model

| member | source | states |
|---|---|---|
| `Weather.WeatherData.constructor` | app/src/main/java/se/wtm/sublibra/weatherwidget/WeatherData.java:11-17 | a new object has temperature, humidity and lastUpdated 0 and no error message |
| `Weather.WeatherData.WithValues` | app/src/main/java/se/wtm/sublibra/weatherwidget/WeatherData.java:19-23 | the getters return exactly the humidity, temperature and timestamp passed in; no error message |
| `Weather.WeatherData.WithError` | app/src/main/java/se/wtm/sublibra/weatherwidget/SimpleWidgetProvider.java:117-121 | inferred one-argument constructor: the message is recorded, every other field keeps its default |
| `Weather.WeatherData.SetTemperature` | app/src/main/java/se/wtm/sublibra/weatherwidget/WeatherData.java:25-31 | `GetTemperature()` returns the new value afterwards; humidity, timestamp and message are unchanged |
| `Weather.WeatherData.SetHumidity` | app/src/main/java/se/wtm/sublibra/weatherwidget/WeatherData.java:33-39 | `GetHumidity()` returns the new value; every other field is unchanged |
| `Weather.WeatherData.SetLastUpdated` | app/src/main/java/se/wtm/sublibra/weatherwidget/WeatherData.java:45-57 | `GetLastUpdated()` returns the new value; every other field is unchanged |
| `Weather.WeatherData.SetErrorMessage` | app/src/main/java/se/wtm/sublibra/weatherwidget/SimpleWidgetProvider.java:202-209 | inferred setter: `GetErrorMessage()` returns the message; every other field is unchanged |
| `Weather.EpochMillis` | app/src/main/java/se/wtm/sublibra/weatherwidget/WeatherData.java:49-51 | the millisecond value is congruent to seconds times 1000 modulo 2^64, and equals it exactly when the absolute value of the seconds is at most 9223372036854775 |
| `JavaLang.Wrap64` | app/src/main/java/se/wtm/sublibra/weatherwidget/WeatherData.java:51 | a `long` product is the mathematical one modulo 2^64, and is exactly it when that fits in a `long` |
| `Download.ReadCount` | app/src/main/java/se/wtm/sublibra/weatherwidget/SimpleWidgetProvider.java:152-153 | the characters one read places in the buffer: no more than the body has, the buffer holds, or the reader delivers, and equal to one of those |
| `Download.Fetch` | app/src/main/java/se/wtm/sublibra/weatherwidget/SimpleWidgetProvider.java:136-162 | a timeout and any other I/O failure are told apart; a returned string is never null, always 500 characters: the delivered prefix of the body, then `'\u0000'` in every unfilled position |
| `Download.DownloadUrl` | app/src/main/java/se/wtm/sublibra/weatherwidget/SimpleWidgetProvider.java:137-154 | filling a fresh zeroed `char[500]` in place and returning it whole gives exactly `Fetch` |
| `ReplyParser.StopPersists` | app/src/main/java/se/wtm/sublibra/weatherwidget/SimpleWidgetProvider.java:183-199 | once an exception leaves the loop, no later element changes the outcome |
| `ReplyParser.RunAppend` | app/src/main/java/se/wtm/sublibra/weatherwidget/SimpleWidgetProvider.java:183-199 | the loop processes elements in array order: a run over `a + b` is a run over `a`, then over `b` from where `a` left the result |
| `ReplyParser.StopIsFailure` | app/src/main/java/se/wtm/sublibra/weatherwidget/SimpleWidgetProvider.java:183-210 | every exception out of the loop ends in an error message or an escaping exception, never in a clean reading |
| `ReplyParser.NullFate` | app/src/main/java/se/wtm/sublibra/weatherwidget/SimpleWidgetProvider.java:186-209 | from a `null` result the loop finishes with `null` exactly when all remaining elements are foreign entries, and otherwise an exception escapes |
| `ReplyParser.SensorRun` | app/src/main/java/se/wtm/sublibra/weatherwidget/SimpleWidgetProvider.java:183-194 | over `temp`/`humidity` entries that parse, the last `temp` entry decides the temperature and the last `humidity` entry the humidity; a field with no entry keeps its value; timestamp and message are untouched |
| `ReplyParser.ValidRunHasSensorEntries` | app/src/main/java/se/wtm/sublibra/weatherwidget/SimpleWidgetProvider.java:183-199 | a loop that ends with a non-null result saw only parsing `temp`/`humidity` entries and left timestamp and message as they were |
| `ReplyParser.NullArgumentRecovered` | app/src/main/java/se/wtm/sublibra/weatherwidget/SimpleWidgetProvider.java:170-172 | a `null` argument gives a default result with "No response from the sensor server" |
| `ReplyParser.SyntaxErrorRecovered` | app/src/main/java/se/wtm/sublibra/weatherwidget/SimpleWidgetProvider.java:172 | text that is not a JSON object gives a default result with the JSON error message |
| `ReplyParser.ServerErrorReply` | app/src/main/java/se/wtm/sublibra/weatherwidget/SimpleWidgetProvider.java:200-203 | a reply without `data` and with an `error` string gives that string as the message, with lastUpdated still 0 |
| `ReplyParser.ReplyWithoutErrorKey` | app/src/main/java/se/wtm/sublibra/weatherwidget/SimpleWidgetProvider.java:201-206 | a reply with neither `data` nor `error` gives "Could not parse the sensor reply (json)" and default fields |
| `ReplyParser.MissingTimestampRecovered` | app/src/main/java/se/wtm/sublibra/weatherwidget/SimpleWidgetProvider.java:175-176 | a reply with `data` but no readable `lastUpdated` gives the JSON message on a default result (timestamp still 0) |
| `ReplyParser.TimestampStoredBeforeData` | app/src/main/java/se/wtm/sublibra/weatherwidget/SimpleWidgetProvider.java:176-181 | when `data` is not an array, the result carries the JSON message and the timestamp already stored |
| `ReplyParser.UnparsableTimestampEscapes` | app/src/main/java/se/wtm/sublibra/weatherwidget/SimpleWidgetProvider.java:177 | a timestamp `Long.parseLong` rejects raises a `NumberFormatException` that neither handler catches |
| `ReplyParser.SensorReply` | app/src/main/java/se/wtm/sublibra/weatherwidget/SimpleWidgetProvider.java:175-199 | a reply with `data`, a parsing timestamp and only parsing `temp`/`humidity` entries gives no error, that timestamp, and the last temperature and humidity values (0 where absent) |
| `ReplyParser.ValidReadingIff` | app/src/main/java/se/wtm/sublibra/weatherwidget/SimpleWidgetProvider.java:169-212 | the result is non-null and without error exactly when the loop is reached and every element is a parsing `temp`/`humidity` entry |
| `ReplyParser.ForeignEntryOutcome` | app/src/main/java/se/wtm/sublibra/weatherwidget/SimpleWidgetProvider.java:195-197 | after an entry with any other name, `null` is returned exactly when only foreign entries follow; otherwise an exception escapes |
| `ReplyParser.UnparsableValueEscapes` | app/src/main/java/se/wtm/sublibra/weatherwidget/SimpleWidgetProvider.java:188-192 | a `temp` or `humidity` value the number parser rejects raises an escaping `NumberFormatException`, whatever follows |
| `ReplyParser.MalformedEntryKeepsEarlierFields` | app/src/main/java/se/wtm/sublibra/weatherwidget/SimpleWidgetProvider.java:184-192 | an element that is not an object or has no name, or a `temp`/`humidity` entry without a readable `value`, gives the JSON message on top of the timestamp and the values earlier entries set |
| `ReplyParser.StrayFieldCrashExample` | app/src/main/java/se/wtm/sublibra/weatherwidget/SimpleWidgetProvider.java:186-197 | a concrete reply with a `pressure` entry before `temp` makes an exception escape |
| `WidgetProvider.Handle` | app/src/main/java/se/wtm/sublibra/weatherwidget/SimpleWidgetProvider.java:204-210 | a handler records its message on the current result; on a `null` result a `NullPointerException` escapes |
| `WidgetProvider.VisitEntry` | app/src/main/java/se/wtm/sublibra/weatherwidget/SimpleWidgetProvider.java:184-198 | one loop iteration on the object ends exactly as `EntryStep` says, and the result afterwards is the same object or `null` |
| `WidgetProvider.ParseWeatherData` | app/src/main/java/se/wtm/sublibra/weatherwidget/SimpleWidgetProvider.java:169-212 | the method, mutating one `WeatherData` through its setters, ends exactly as `ParseOutcome` says |
| `WidgetProvider.DoInBackground` | app/src/main/java/se/wtm/sublibra/weatherwidget/SimpleWidgetProvider.java:110-126 | download then dispatch ends exactly as `Classify` of the download's outcome |
| `WidgetProvider.BackgroundOutcomes` | app/src/main/java/se/wtm/sublibra/weatherwidget/SimpleWidgetProvider.java:113-124 | a timeout gives "Could not contact server. Socket timeout", any other `IOException` gives `null`, a body goes to the parser |
| `WidgetProvider.InvalidResponseUnreachable` | app/src/main/java/se/wtm/sublibra/weatherwidget/SimpleWidgetProvider.java:114-117 | `downloadUrl` never returns `null`, so "Invalid response from server" can only come from a received body |
| `Corrected.FixedRunAgrees` | app/src/main/java/se/wtm/sublibra/weatherwidget/SimpleWidgetProvider.java:183-199 | the corrected loop keeps or finishes with the same reading wherever the loop as written does with a non-null one; it continues only where that does; when it stops, it records an error |
| `Corrected.DonePersists` | app/src/main/java/se/wtm/sublibra/weatherwidget/SimpleWidgetProvider.java:183-199 | once the corrected loop has finished, later elements do not change its reading |
| `Corrected.ParseReplyAgrees` | app/src/main/java/se/wtm/sublibra/weatherwidget/SimpleWidgetProvider.java:169-212 | wherever the method as written returns a non-null result, the corrected one returns the same |
| `Corrected.ParseReplyValidIff` | app/src/main/java/se/wtm/sublibra/weatherwidget/SimpleWidgetProvider.java:169-212 | the corrected result has no error exactly when the reply is well formed |
| `Corrected.StrayFieldReported` | app/src/main/java/se/wtm/sublibra/weatherwidget/SimpleWidgetProvider.java:195-197 | corrected: a foreign entry is reported as "Unexpected sensor field", keeping what earlier entries set; nothing escapes |
| `Corrected.UnparsableTimestampReported` | app/src/main/java/se/wtm/sublibra/weatherwidget/SimpleWidgetProvider.java:176-177 | corrected: a rejected timestamp gives the JSON message |
| `Corrected.UnparsableValueReported` | app/src/main/java/se/wtm/sublibra/weatherwidget/SimpleWidgetProvider.java:188-192 | corrected: a rejected sensor value gives the JSON message on top of the earlier fields |
| `Corrected.BackgroundAgrees` | app/src/main/java/se/wtm/sublibra/weatherwidget/SimpleWidgetProvider.java:122-124 | corrected: a failed download gives an error reading, and the result agrees with the code as written wherever that is non-null |

## Left out

- The widget lifecycle and rendering: `onUpdate`, the connectivity check,
  intents, `RemoteViews`, `onPreExecute` and `onPostExecute` (lines 36-107).
  The dereference at line 100 is described in the findings, not modelled.
- The `AsyncTask` split between background and UI threads; the model is sequential.
- Network I/O: the URL, `HttpURLConnection`, its 10000 ms and 15000 ms
  timeouts, the response code and closing the stream (lines 141-150, 155-161).
  Only how the download ends is modelled (`NetworkEvent`).
- UTF-8 decoding: the body is already a sequence of characters.
- Download.Fetch: the 500-character bound is counted in Unicode scalar values (a Dafny `char`), not in the UTF-16 code units of Java's `char[500]`, where a character outside the Basic Multilingual Plane takes two. When k such characters fall in the buffer, Java's string holds 500 code units but only 500 - k characters, with fewer body characters or fewer `'\u0000'` fillers; the model's string always holds 500 characters.
- Download.ReadCount: a `read` may deliver 0 characters of a non-empty body in the model, whereas `Reader.read` blocks until it delivers at least one. This only allows more cases than Java does.
- JSON text parsing and the three number parsers are abstract partial functions (`Library`).
- `OrgJson.GetString`: called on an array or object value it raises
  `JSONException`. Android's org.json would return that value's JSON text
  instead, which the model cannot render because a `map` has no key order.
- Floating point: a `double` is an uninterpreted 64-bit pattern, compared bit by bit.
- Date formatting in `getLastUpdatedString` (`SimpleDateFormat`, locale and
  time zone); only its millisecond argument (`EpochMillis`) is modelled.
- `toString` (WeatherData.java lines 59-63), which depends on `Double.toString`.
- Logging (`Log.d`); the model assumes logging never throws.
- The getters have no contracts of their own. They read one field, and the
  constructor and setter contracts are stated through them.
- `setErrorMessage(null)`: every caller passes a non-null string.

## Findings

| source | as written | input that shows it | evidently intended | confidence | as-written member | corrected member |
|---|---|---|---|---|---|---|
| app/src/main/java/se/wtm/sublibra/weatherwidget/SimpleWidgetProvider.java:195-197 | an entry with another name sets `wd = null`; a later `temp`/`humidity` entry (lines 188, 192) or either handler (lines 206, 209) then dereferences `null`, and the exception escapes the task | `{"lastUpdated":"1","data":[{"name":"pressure","value":"1013"},{"name":"temp","value":"21.5"}]}` | an unknown entry marks the reading as failed and nothing escapes | high; not executed | `ReplyParser.StrayFieldCrashExample` | `Corrected.StrayFieldReported` |
| app/src/main/java/se/wtm/sublibra/weatherwidget/SimpleWidgetProvider.java:177 | a `NumberFormatException` from `Long.parseLong` (and from the parsers at lines 188 and 192) is caught by neither handler | `{"lastUpdated":"soon","data":[]}` | the reply is reported with the JSON error message | medium; not executed | `ReplyParser.UnparsableTimestampEscapes` | `Corrected.UnparsableTimestampReported` |
| app/src/main/java/se/wtm/sublibra/weatherwidget/SimpleWidgetProvider.java:122-124 | any `IOException` other than a timeout returns `null`, which `onPostExecute` dereferences at line 100 (`result.toString()`) | an unknown host | a failed reading with a message, as for the timeout | high; not executed | `WidgetProvider.BackgroundOutcomes` | `Corrected.BackgroundAgrees` |
