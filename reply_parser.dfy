/**
 * What `parseWeatherData` computes, as functions over an already-parsed
 * reply: how each exit of its `try` block and of its two `catch` handlers
 * ends, and the loop over the `data` array as a fold over its prefixes.
 */
module ReplyParser {
  import opened Wrappers
  import opened JavaLang
  import opened OrgJson
  import opened Weather

  const JsonErrorMessage: string := "Could not parse the sensor reply (json)"
  const NoResponseMessage: string := "No response from the sensor server"

  /** An exception that no handler of `parseWeatherData` catches. */
  datatype Fault = NullPointer | NumberFormat

  /** How the method ends: returning a result (`None` is `null`) or with an escaping exception. */
  datatype Outcome = Returned(result: Option<Reading>) | Uncaught(fault: Fault)

  /** A returned, non-null result without an error message. */
  predicate ValidReading(o: Outcome) {
    o.Returned? && o.result.Some? && o.result.value.errorMessage.None?
  }

  /** A returned, non-null result carrying an error message, or an escaping exception. */
  predicate Failure(o: Outcome) {
    o.Uncaught? || (o.Returned? && o.result.Some? && o.result.value.errorMessage.Some?)
  }

  /**
   * The body of either `catch` handler: `wd.setErrorMessage(message)` on the
   * current result, which throws `NullPointerException` out of the handler
   * when the result has been set to `null`.
   */
  function Recover(wd: Option<Reading>, message: string): Outcome {
    match wd
    case None => Uncaught(NullPointer)
    case Some(r) => Returned(Some(r.(errorMessage := Some(message))))
  }

  /** The state after some iterations of the loop: still running with result `wd`, or left through an exception. */
  datatype Step = Continue(wd: Option<Reading>) | Stop(outcome: Outcome)

  function EntryName(e: JValue): Option<string> {
    if e.JObject? then GetString(e.fields, "name") else None
  }

  function EntryValue(e: JValue): Option<string> {
    if e.JObject? then GetString(e.fields, "value") else None
  }

  /**
   * One iteration of the loop on element `entry`. In `wd.setTemperature(...)`
   * Java evaluates the argument before it checks `wd` for null, so a
   * `JSONException` or `NumberFormatException` from the argument comes first.
   */
  function EntryStep(wd: Option<Reading>, entry: JValue, lib: Library): Step {
    if !entry.JObject? then Stop(Recover(wd, JsonErrorMessage))
    else
      match GetString(entry.fields, "name")
      case None => Stop(Recover(wd, JsonErrorMessage))
      case Some(name) =>
        if name == "temp" then
          match GetString(entry.fields, "value")
          case None => Stop(Recover(wd, JsonErrorMessage))
          case Some(v) =>
            match lib.parseDouble(v)
            case None => Stop(Uncaught(NumberFormat))
            case Some(d) =>
              match wd
              case None => Stop(Recover(None, NoResponseMessage))
              case Some(r) => Continue(Some(r.(temperature := d)))
        else if name == "humidity" then
          match GetString(entry.fields, "value")
          case None => Stop(Recover(wd, JsonErrorMessage))
          case Some(v) =>
            match lib.parseInt(v)
            case None => Stop(Uncaught(NumberFormat))
            case Some(h) =>
              match wd
              case None => Stop(Recover(None, NoResponseMessage))
              case Some(r) => Continue(Some(r.(humidity := h)))
        else
          Continue(None)
  }

  /** The loop run over `items` in array order, starting from result `start`. */
  function Run(start: Option<Reading>, items: seq<JValue>, lib: Library): Step
    decreases |items|
  {
    if items == [] then Continue(start)
    else
      match Run(start, items[..|items| - 1], lib)
      case Stop(o) => Stop(o)
      case Continue(wd) => EntryStep(wd, items[|items| - 1], lib)
  }

  /** Where the code before the loop leaves the method: settled already, or entering the loop. */
  datatype Prelude = Settled(outcome: Outcome) | Entries(seconds: int64, items: seq<JValue>)

  function Preamble(sensorData: Option<string>, lib: Library): Prelude {
    match sensorData
    case None => Settled(Recover(Some(DefaultReading), NoResponseMessage))
    case Some(text) =>
      match lib.parseObject(text)
      case None => Settled(Recover(Some(DefaultReading), JsonErrorMessage))
      case Some(o) =>
        if Has(o, "data") then
          match GetString(o, "lastUpdated")
          case None => Settled(Recover(Some(DefaultReading), JsonErrorMessage))
          case Some(stamp) =>
            match lib.parseLong(stamp)
            case None => Settled(Uncaught(NumberFormat))
            case Some(n) =>
              match GetJSONArray(o, "data")
              case None => Settled(Recover(Some(DefaultReading.(lastUpdated := n)), JsonErrorMessage))
              case Some(items) => Entries(n, items)
        else
          match GetString(o, "error")
          case None => Settled(Recover(Some(DefaultReading), JsonErrorMessage))
          case Some(e) => Settled(Returned(Some(DefaultReading.(errorMessage := Some(e)))))
  }

  /** The whole of `parseWeatherData` on `sensorData` (`None` is a `null` argument). */
  function ParseOutcome(sensorData: Option<string>, lib: Library): Outcome {
    match Preamble(sensorData, lib)
    case Settled(o) => o
    case Entries(n, items) =>
      match Run(Some(DefaultReading.(lastUpdated := n)), items, lib)
      case Continue(wd) => Returned(wd)
      case Stop(o) => o
  }

  /**
   * The reply `text` reaches the loop: it is an object with `data`, its
   * `lastUpdated` parses to `n`, and `data` is the array `items`.
   */
  predicate ReachesLoop(text: string, lib: Library, n: int64, items: seq<JValue>) {
    match lib.parseObject(text)
    case None => false
    case Some(o) =>
      && Has(o, "data")
      && GetString(o, "lastUpdated").Some?
      && lib.parseLong(GetString(o, "lastUpdated").value) == Some(n)
      && GetJSONArray(o, "data") == Some(items)
  }

  // ---- Entry kinds and the reference definition of "the last value" ----

  /** An entry that names `temp` or `humidity` and whose value parses. */
  predicate SensorEntry(e: JValue, lib: Library) {
    && EntryValue(e).Some?
    && ((EntryName(e) == Some("temp") && lib.parseDouble(EntryValue(e).value).Some?)
        || (EntryName(e) == Some("humidity") && lib.parseInt(EntryValue(e).value).Some?))
  }

  /** An object entry with a readable name other than `temp` and `humidity`. */
  predicate ForeignEntry(e: JValue) {
    EntryName(e).Some? && EntryName(e).value != "temp" && EntryName(e).value != "humidity"
  }

  /** The value of the last entry called `name`, if there is one. */
  function LastValue(items: seq<JValue>, name: string): Option<string>
    decreases |items|
  {
    if items == [] then None
    else if EntryName(items[|items| - 1]) == Some(name) then EntryValue(items[|items| - 1])
    else LastValue(items[..|items| - 1], name)
  }

  /** What a run over sensor entries leaves in a field: the last parsed value, else the starting one. */
  function TemperatureAfter(items: seq<JValue>, lib: Library, old_: Double): Double {
    match LastValue(items, "temp")
    case None => old_
    case Some(v) => lib.parseDouble(v).GetOr(old_)
  }

  function HumidityAfter(items: seq<JValue>, lib: Library, old_: int32): int32 {
    match LastValue(items, "humidity")
    case None => old_
    case Some(v) => lib.parseInt(v).GetOr(old_)
  }

  // ---- Lemmas about the loop ----

  /** Once an exception leaves the loop, the later elements are never looked at. */
  lemma {:induction false} StopPersists(start: Option<Reading>, items: seq<JValue>, j: nat, lib: Library)
    requires j <= |items| && Run(start, items[..j], lib).Stop?
    ensures Run(start, items, lib) == Run(start, items[..j], lib)
    decreases |items|
  {
    if j < |items| {
      var p := items[..|items| - 1];
      assert p[..j] == items[..j];
      StopPersists(start, p, j, lib);
    } else {
      assert items[..j] == items;
    }
  }

  /** Running over `a + b` is running over `a`, then over `b` from where `a` left off. */
  lemma {:induction false} RunAppend(start: Option<Reading>, a: seq<JValue>, b: seq<JValue>, lib: Library)
    ensures Run(start, a + b, lib) ==
      match Run(start, a, lib)
      case Stop(o) => Stop(o)
      case Continue(wd) => Run(wd, b, lib)
    decreases |b|
  {
    if b == [] {
      assert a + b == a;
    } else {
      var b' := b[..|b| - 1];
      assert (a + b)[..|a + b| - 1] == a + b';
      assert (a + b)[|a + b| - 1] == b[|b| - 1];
      RunAppend(start, a, b', lib);
    }
  }

  /** Every exception leaving the loop is a failure: an error message or an escaping fault. */
  lemma {:induction false} StopIsFailure(start: Option<Reading>, items: seq<JValue>, lib: Library)
    requires Run(start, items, lib).Stop?
    ensures Failure(Run(start, items, lib).outcome)
    decreases |items|
  {
    var p := items[..|items| - 1];
    if Run(start, p, lib).Stop? {
      StopIsFailure(start, p, lib);
    }
  }

  /**
   * From a `null` result the loop either finishes with `null`, exactly when
   * every remaining element is a foreign entry, or faults.
   */
  lemma {:induction false} NullFate(items: seq<JValue>, lib: Library)
    ensures Run(None, items, lib) == Continue(None)
         || (Run(None, items, lib).Stop? && Run(None, items, lib).outcome.Uncaught?)
    ensures Run(None, items, lib) == Continue(None) <==> forall k :: 0 <= k < |items| ==> ForeignEntry(items[k])
    decreases |items|
  {
    if items != [] {
      var p := items[..|items| - 1];
      NullFate(p, lib);
      assert forall k :: 0 <= k < |p| ==> p[k] == items[k];
    }
  }

  /**
   * Over sensor entries only, the loop keeps a non-null result, leaves the
   * timestamp and message alone, and the last `temp` and last `humidity`
   * entry decide their fields; a field without an entry keeps its value.
   */
  lemma {:induction false} SensorRun(r: Reading, items: seq<JValue>, lib: Library)
    requires forall k :: 0 <= k < |items| ==> SensorEntry(items[k], lib)
    ensures Run(Some(r), items, lib) ==
      Continue(Some(r.(temperature := TemperatureAfter(items, lib, r.temperature),
                       humidity := HumidityAfter(items, lib, r.humidity))))
    decreases |items|
  {
    if items != [] {
      var p := items[..|items| - 1];
      assert forall k :: 0 <= k < |p| ==> p[k] == items[k];
      SensorRun(r, p, lib);
    }
  }

  /** Conversely, a loop that ends with a non-null result has seen sensor entries only. */
  lemma {:induction false} ValidRunHasSensorEntries(r: Reading, items: seq<JValue>, lib: Library)
    requires Run(Some(r), items, lib).Continue? && Run(Some(r), items, lib).wd.Some?
    ensures forall k :: 0 <= k < |items| ==> SensorEntry(items[k], lib)
    ensures Run(Some(r), items, lib).wd.value.errorMessage == r.errorMessage
    ensures Run(Some(r), items, lib).wd.value.lastUpdated == r.lastUpdated
    decreases |items|
  {
    if items != [] {
      var p := items[..|items| - 1];
      ValidRunHasSensorEntries(r, p, lib);
      assert forall k :: 0 <= k < |p| ==> p[k] == items[k];
    }
  }

  // ---- Lemmas about parseWeatherData ----

  /** A `null` argument: `new String(null)` throws, and the second handler records it. */
  lemma NullArgumentRecovered(lib: Library)
    ensures ParseOutcome(None, lib) == Returned(Some(DefaultReading.(errorMessage := Some(NoResponseMessage))))
  {
  }

  /** Text that is not a JSON object leaves a default result with the JSON message. */
  lemma SyntaxErrorRecovered(text: string, lib: Library)
    requires lib.parseObject(text).None?
    ensures ParseOutcome(Some(text), lib) == Returned(Some(DefaultReading.(errorMessage := Some(JsonErrorMessage))))
  {
  }

  /** A reply without `data` reports the server's `error` string; the timestamp stays 0. */
  lemma ServerErrorReply(text: string, o: Fields, e: string, lib: Library)
    requires lib.parseObject(text) == Some(o) && !Has(o, "data") && GetString(o, "error") == Some(e)
    ensures ParseOutcome(Some(text), lib) == Returned(Some(Reading(0, 0, 0, Some(e))))
  {
  }

  /** A reply with neither `data` nor a readable `error` string gets the JSON message. */
  lemma ReplyWithoutErrorKey(text: string, o: Fields, lib: Library)
    requires lib.parseObject(text) == Some(o) && !Has(o, "data") && "error" !in o
    ensures ParseOutcome(Some(text), lib) == Returned(Some(Reading(0, 0, 0, Some(JsonErrorMessage))))
  {
  }

  /** A reply with `data` but no readable `lastUpdated` gets the JSON message on a default result. */
  lemma MissingTimestampRecovered(text: string, o: Fields, lib: Library)
    requires lib.parseObject(text) == Some(o) && Has(o, "data") && GetString(o, "lastUpdated").None?
    ensures ParseOutcome(Some(text), lib) == Returned(Some(Reading(0, 0, 0, Some(JsonErrorMessage))))
  {
  }

  /** The timestamp is stored before `data` is read: a bad `data` value keeps it beside the JSON message. */
  lemma TimestampStoredBeforeData(text: string, o: Fields, stamp: string, n: int64, lib: Library)
    requires lib.parseObject(text) == Some(o) && Has(o, "data")
    requires GetString(o, "lastUpdated") == Some(stamp) && lib.parseLong(stamp) == Some(n)
    requires GetJSONArray(o, "data").None?
    ensures ParseOutcome(Some(text), lib) == Returned(Some(Reading(0, 0, n, Some(JsonErrorMessage))))
  {
  }

  /** A timestamp `Long.parseLong` rejects: its `NumberFormatException` escapes both handlers. */
  lemma UnparsableTimestampEscapes(text: string, o: Fields, stamp: string, lib: Library)
    requires lib.parseObject(text) == Some(o) && Has(o, "data")
    requires GetString(o, "lastUpdated") == Some(stamp) && lib.parseLong(stamp).None?
    ensures ParseOutcome(Some(text), lib) == Uncaught(NumberFormat)
  {
  }

  /**
   * A well-formed reply: no error, the parsed timestamp, and the last `temp`
   * and last `humidity` value (0 where there is none).
   */
  lemma SensorReply(text: string, n: int64, items: seq<JValue>, lib: Library)
    requires ReachesLoop(text, lib, n, items)
    requires forall k :: 0 <= k < |items| ==> SensorEntry(items[k], lib)
    ensures ParseOutcome(Some(text), lib) ==
      Returned(Some(Reading(TemperatureAfter(items, lib, 0), HumidityAfter(items, lib, 0), n, None)))
  {
    SensorRun(DefaultReading.(lastUpdated := n), items, lib);
  }

  /** The result is a reading without error exactly when the loop is reached and sees sensor entries only. */
  lemma ValidReadingIff(sensorData: Option<string>, lib: Library)
    ensures ValidReading(ParseOutcome(sensorData, lib)) <==>
      (Preamble(sensorData, lib).Entries? &&
       forall k :: 0 <= k < |Preamble(sensorData, lib).items| ==> SensorEntry(Preamble(sensorData, lib).items[k], lib))
  {
    match Preamble(sensorData, lib)
    case Settled(o) =>
    case Entries(n, items) =>
      var start := Some(DefaultReading.(lastUpdated := n));
      if forall k :: 0 <= k < |items| ==> SensorEntry(items[k], lib) {
        SensorRun(start.value, items, lib);
      } else if Run(start, items, lib).Stop? {
        StopIsFailure(start, items, lib);
      } else if Run(start, items, lib).wd.Some? {
        ValidRunHasSensorEntries(start.value, items, lib);
      }
  }

  /**
   * An entry with any other name sets the result to `null`: it is returned
   * when only foreign entries follow; any other entry after it dereferences
   * `null` (or fails to parse first), and the exception escapes.
   */
  lemma ForeignEntryOutcome(text: string, n: int64,
                            pre: seq<JValue>, u: JValue, post: seq<JValue>, lib: Library)
    requires ReachesLoop(text, lib, n, pre + [u] + post)
    requires forall k :: 0 <= k < |pre| ==> SensorEntry(pre[k], lib)
    requires ForeignEntry(u)
    ensures ParseOutcome(Some(text), lib) == Returned(None) <==> forall k :: 0 <= k < |post| ==> ForeignEntry(post[k])
    ensures ParseOutcome(Some(text), lib) == Returned(None) || ParseOutcome(Some(text), lib).Uncaught?
  {
    var start := Some(DefaultReading.(lastUpdated := n));
    SensorRun(start.value, pre, lib);
    assert (pre + [u])[..|pre|] == pre;
    assert Run(start, pre + [u], lib) == Continue(None);
    RunAppend(start, pre + [u], post, lib);
    NullFate(post, lib);
  }

  /**
   * An entry whose value the number parser rejects, after sensor entries only:
   * the `NumberFormatException` escapes, whatever follows.
   */
  lemma UnparsableValueEscapes(text: string, n: int64,
                               pre: seq<JValue>, e: JValue, post: seq<JValue>, lib: Library)
    requires ReachesLoop(text, lib, n, pre + [e] + post)
    requires forall k :: 0 <= k < |pre| ==> SensorEntry(pre[k], lib)
    requires EntryValue(e).Some?
    requires (EntryName(e) == Some("temp") && lib.parseDouble(EntryValue(e).value).None?)
          || (EntryName(e) == Some("humidity") && lib.parseInt(EntryValue(e).value).None?)
    ensures ParseOutcome(Some(text), lib) == Uncaught(NumberFormat)
  {
    var start := Some(DefaultReading.(lastUpdated := n));
    SensorRun(start.value, pre, lib);
    assert (pre + [e])[..|pre|] == pre;
    assert Run(start, pre + [e], lib) == Stop(Uncaught(NumberFormat));
    RunAppend(start, pre + [e], post, lib);
  }

  /**
   * An element that is not an object or has no readable name, or a `temp` or
   * `humidity` entry without a readable value, after sensor entries only: the
   * JSON message is recorded on top of the fields the earlier entries and the
   * timestamp already set.
   */
  lemma MalformedEntryKeepsEarlierFields(text: string, n: int64,
                                         pre: seq<JValue>, e: JValue, post: seq<JValue>, lib: Library)
    requires ReachesLoop(text, lib, n, pre + [e] + post)
    requires forall k :: 0 <= k < |pre| ==> SensorEntry(pre[k], lib)
    requires EntryName(e).None? ||
             ((EntryName(e) == Some("temp") || EntryName(e) == Some("humidity")) && EntryValue(e).None?)
    ensures ParseOutcome(Some(text), lib) ==
      Returned(Some(Reading(TemperatureAfter(pre, lib, 0), HumidityAfter(pre, lib, 0), n, Some(JsonErrorMessage))))
  {
    var start := Some(DefaultReading.(lastUpdated := n));
    SensorRun(start.value, pre, lib);
    assert (pre + [e])[..|pre|] == pre;
    RunAppend(start, pre + [e], post, lib);
  }

  /**
   * A concrete reply with an extra sensor field ahead of the temperature:
   * `{"lastUpdated":"1","data":[{"name":"pressure","value":"1013"},{"name":"temp","value":"21.5"}]}`.
   * Whatever the number parsers make of it, an exception escapes the method.
   */
  lemma StrayFieldCrashExample(text: string, lib: Library)
    requires lib.parseObject(text) == Some(map[
      "lastUpdated" := JString("1"),
      "data" := JArray([JObject(map["name" := JString("pressure"), "value" := JString("1013")]),
                        JObject(map["name" := JString("temp"), "value" := JString("21.5")])])])
    requires lib.parseLong("1") == Some(1)
    ensures ParseOutcome(Some(text), lib).Uncaught?
  {
    var u := JObject(map["name" := JString("pressure"), "value" := JString("1013")]);
    var t := JObject(map["name" := JString("temp"), "value" := JString("21.5")]);
    var o := lib.parseObject(text).value;
    assert [u, t] == [] + [u] + [t];
    assert GetJSONArray(o, "data") == Some([] + [u] + [t]);
    assert EntryName(t) == Some("temp") && !ForeignEntry([t][0]);
    ForeignEntryOutcome(text, 1, [], u, [t], lib);
  }
}
