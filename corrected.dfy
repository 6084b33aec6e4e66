/**
 * The reply pipeline as its handlers evidently intend it: every reply ends in
 * a non-null `WeatherData`, and nothing escapes. It differs from the code as
 * written in three places only: a foreign entry records an error instead of
 * setting the result to `null`, a number the parser rejects records the
 * JSON message instead of escaping, and a failed download records an error
 * instead of returning `null`. Everywhere the code as written returns a
 * non-null result, this pipeline returns the same one.
 */
module Corrected {
  import opened Wrappers
  import opened JavaLang
  import opened OrgJson
  import opened Weather
  import opened Download
  import opened ReplyParser
  import opened WidgetProvider

  const UnexpectedFieldMessage: string := "Unexpected sensor field"
  const UnreachableServerMessage: string := "Unable to retrieve web page. URL may be invalid."

  /** The loop state: still running with a reading, or finished with one. */
  datatype Pass = Next(reading: Reading) | Done(reading: Reading)

  function Reject(r: Reading, message: string): Pass {
    Done(r.(errorMessage := Some(message)))
  }

  function FixedEntryStep(r: Reading, entry: JValue, lib: Library): Pass {
    if !entry.JObject? then Reject(r, JsonErrorMessage)
    else
      match GetString(entry.fields, "name")
      case None => Reject(r, JsonErrorMessage)
      case Some(name) =>
        if name == "temp" then
          match GetString(entry.fields, "value")
          case None => Reject(r, JsonErrorMessage)
          case Some(v) =>
            match lib.parseDouble(v)
            case None => Reject(r, JsonErrorMessage)
            case Some(d) => Next(r.(temperature := d))
        else if name == "humidity" then
          match GetString(entry.fields, "value")
          case None => Reject(r, JsonErrorMessage)
          case Some(v) =>
            match lib.parseInt(v)
            case None => Reject(r, JsonErrorMessage)
            case Some(h) => Next(r.(humidity := h))
        else
          Reject(r, UnexpectedFieldMessage)
  }

  function FixedRun(start: Reading, items: seq<JValue>, lib: Library): Pass
    decreases |items|
  {
    if items == [] then Next(start)
    else
      match FixedRun(start, items[..|items| - 1], lib)
      case Done(r) => Done(r)
      case Next(r) => FixedEntryStep(r, items[|items| - 1], lib)
  }

  /**
   * `parseWeatherData` corrected. Before the loop only the rejected timestamp
   * changes: the code as written lets its `NumberFormatException` escape.
   */
  function ParseReply(sensorData: Option<string>, lib: Library): Reading {
    match Preamble(sensorData, lib)
    case Settled(o) =>
      if o.Returned? && o.result.Some? then o.result.value
      else DefaultReading.(errorMessage := Some(JsonErrorMessage))
    case Entries(n, items) => FixedRun(DefaultReading.(lastUpdated := n), items, lib).reading
  }

  /** `doInBackground` corrected: a failed download is reported rather than returned as `null`. */
  function Background(fetched: Fetched, lib: Library): Reading {
    match fetched
    case Text(Some(body)) => ParseReply(Some(body), lib)
    case Text(None) => DefaultReading.(errorMessage := Some(InvalidResponseMessage))
    case SocketTimeoutThrown => DefaultReading.(errorMessage := Some(TimeoutMessage))
    case IOExceptionThrown => DefaultReading.(errorMessage := Some(UnreachableServerMessage))
  }

  lemma {:induction false} DonePersists(start: Reading, items: seq<JValue>, j: nat, lib: Library)
    requires j <= |items| && FixedRun(start, items[..j], lib).Done?
    ensures FixedRun(start, items, lib) == FixedRun(start, items[..j], lib)
    decreases |items|
  {
    if j < |items| {
      var p := items[..|items| - 1];
      assert p[..j] == items[..j];
      DonePersists(start, p, j, lib);
    } else {
      assert items[..j] == items;
    }
  }

  /**
   * Where the loop as written keeps a non-null result or leaves with one,
   * the corrected loop does the same; and the corrected loop only runs on
   * where the loop as written runs on with a non-null result.
   */
  lemma {:induction false} FixedRunAgrees(r: Reading, items: seq<JValue>, lib: Library)
    ensures Run(Some(r), items, lib).Continue? && Run(Some(r), items, lib).wd.Some? ==>
      FixedRun(r, items, lib) == Next(Run(Some(r), items, lib).wd.value)
    ensures Run(Some(r), items, lib).Stop? && Run(Some(r), items, lib).outcome.Returned? &&
            Run(Some(r), items, lib).outcome.result.Some? ==>
      FixedRun(r, items, lib) == Done(Run(Some(r), items, lib).outcome.result.value)
    ensures FixedRun(r, items, lib).Next? ==> Run(Some(r), items, lib) == Continue(Some(FixedRun(r, items, lib).reading))
    ensures FixedRun(r, items, lib).Done? ==> FixedRun(r, items, lib).reading.errorMessage.Some?
    decreases |items|
  {
    if items != [] {
      FixedRunAgrees(r, items[..|items| - 1], lib);
    }
  }

  /** Wherever `parseWeatherData` as written returns a non-null result, the corrected one returns it too. */
  lemma ParseReplyAgrees(sensorData: Option<string>, lib: Library)
    requires ParseOutcome(sensorData, lib).Returned? && ParseOutcome(sensorData, lib).result.Some?
    ensures ParseReply(sensorData, lib) == ParseOutcome(sensorData, lib).result.value
  {
    match Preamble(sensorData, lib)
    case Settled(o) =>
    case Entries(n, items) =>
      FixedRunAgrees(DefaultReading.(lastUpdated := n), items, lib);
  }

  /** The corrected result carries no error exactly when the reply is well formed. */
  lemma ParseReplyValidIff(sensorData: Option<string>, lib: Library)
    ensures ParseReply(sensorData, lib).errorMessage.None? <==>
      (Preamble(sensorData, lib).Entries? &&
       forall k :: 0 <= k < |Preamble(sensorData, lib).items| ==> SensorEntry(Preamble(sensorData, lib).items[k], lib))
  {
    ValidReadingIff(sensorData, lib);
    match Preamble(sensorData, lib)
    case Settled(o) =>
    case Entries(n, items) =>
      var start := DefaultReading.(lastUpdated := n);
      FixedRunAgrees(start, items, lib);
      if Run(Some(start), items, lib).Continue? && Run(Some(start), items, lib).wd.Some? {
        ValidRunHasSensorEntries(start, items, lib);
      }
  }

  /** A foreign entry after sensor entries is reported, on top of what they set; nothing faults. */
  lemma StrayFieldReported(text: string, n: int64,
                           pre: seq<JValue>, u: JValue, post: seq<JValue>, lib: Library)
    requires ReachesLoop(text, lib, n, pre + [u] + post)
    requires forall k :: 0 <= k < |pre| ==> SensorEntry(pre[k], lib)
    requires ForeignEntry(u)
    ensures ParseReply(Some(text), lib) ==
      Reading(TemperatureAfter(pre, lib, 0), HumidityAfter(pre, lib, 0), n, Some(UnexpectedFieldMessage))
  {
    var start := DefaultReading.(lastUpdated := n);
    var items := pre + [u] + post;
    SensorRun(start, pre, lib);
    FixedRunAgrees(start, pre, lib);
    assert items[..|pre| + 1][..|pre|] == pre;
    assert items[..|pre| + 1][|pre|] == u;
    DonePersists(start, items, |pre| + 1, lib);
  }

  /** A rejected timestamp is reported with the JSON message instead of escaping. */
  lemma UnparsableTimestampReported(text: string, o: Fields, stamp: string, lib: Library)
    requires lib.parseObject(text) == Some(o) && Has(o, "data")
    requires GetString(o, "lastUpdated") == Some(stamp) && lib.parseLong(stamp).None?
    ensures ParseReply(Some(text), lib) == Reading(0, 0, 0, Some(JsonErrorMessage))
  {
  }

  /** A rejected sensor value is reported with the JSON message instead of escaping. */
  lemma UnparsableValueReported(text: string, n: int64,
                                pre: seq<JValue>, e: JValue, post: seq<JValue>, lib: Library)
    requires ReachesLoop(text, lib, n, pre + [e] + post)
    requires forall k :: 0 <= k < |pre| ==> SensorEntry(pre[k], lib)
    requires EntryValue(e).Some?
    requires (EntryName(e) == Some("temp") && lib.parseDouble(EntryValue(e).value).None?)
          || (EntryName(e) == Some("humidity") && lib.parseInt(EntryValue(e).value).None?)
    ensures ParseReply(Some(text), lib) ==
      Reading(TemperatureAfter(pre, lib, 0), HumidityAfter(pre, lib, 0), n, Some(JsonErrorMessage))
  {
    var start := DefaultReading.(lastUpdated := n);
    var items := pre + [e] + post;
    SensorRun(start, pre, lib);
    FixedRunAgrees(start, pre, lib);
    assert items[..|pre| + 1][..|pre|] == pre;
    assert items[..|pre| + 1][|pre|] == e;
    DonePersists(start, items, |pre| + 1, lib);
  }

  /**
   * The corrected background step reports a failed download, and agrees with
   * the code as written wherever that returns a non-null result.
   */
  lemma BackgroundAgrees(fetched: Fetched, lib: Library)
    ensures fetched.IOExceptionThrown? ==> Background(fetched, lib) == Reading(0, 0, 0, Some(UnreachableServerMessage))
    ensures Classify(fetched, lib).Returned? && Classify(fetched, lib).result.Some? ==>
      Background(fetched, lib) == Classify(fetched, lib).result.value
  {
    if fetched.Text? && fetched.body.Some? && Classify(fetched, lib).Returned? && Classify(fetched, lib).result.Some? {
      ParseReplyAgrees(fetched.body, lib);
    }
  }
}
