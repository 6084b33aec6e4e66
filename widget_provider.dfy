/**
 * The background half of `DownloadWebpageTask`: `parseWeatherData`, which
 * updates a `WeatherData` object step by step, and `doInBackground`, which
 * maps the outcome of the download to a result.
 */
module WidgetProvider {
  import opened Wrappers
  import opened JavaLang
  import opened OrgJson
  import opened Weather
  import opened Download
  import opened ReplyParser

  const InvalidResponseMessage: string := "Invalid response from server"
  const TimeoutMessage: string := "Could not contact server. Socket timeout"

  /** How a method of the task ends: returning a reference (possibly `null`) or throwing. */
  datatype Exit = Normal(wd: WeatherData?) | Thrown(fault: Fault)

  /** The result of `wd` as it stands, `None` for `null`. */
  function State(wd: WeatherData?): Option<Reading>
    reads wd
  {
    if wd == null then None else Some(wd.Snapshot())
  }

  /** What a caller observes of an exit. */
  function Observed(e: Exit): Outcome
    reads if e.Normal? then e.wd else null
  {
    match e
    case Normal(wd) => Returned(State(wd))
    case Thrown(f) => Uncaught(f)
  }

  /** The body of a `catch` handler of `parseWeatherData`. */
  method Handle(wd: WeatherData?, message: string) returns (exit: Exit)
    modifies wd
    ensures Observed(exit) == Recover(old(State(wd)), message)
  {
    if wd == null {
      exit := Thrown(NullPointer);
    } else {
      wd.SetErrorMessage(message);
      exit := Normal(wd);
    }
  }

  /**
   * One iteration of the loop over `data`, on its element `i`: the result
   * afterwards (`null` after a foreign entry), or the exit when an exception
   * leaves the loop.
   */
  method VisitEntry(wd: WeatherData?, data: seq<JValue>, i: nat, lib: Library)
    returns (next: WeatherData?, exit: Option<Exit>)
    requires i < |data|
    modifies wd
    ensures next == null || next == wd
    ensures exit.None? ==> EntryStep(old(State(wd)), data[i], lib) == Continue(State(next))
    ensures exit.Some? ==> EntryStep(old(State(wd)), data[i], lib) == Stop(Observed(exit.value))
  {
    next := wd;
    var c := GetJSONObject(data, i);
    if c.None? {
      var e := Handle(wd, JsonErrorMessage);
      return next, Some(e);
    }
    var name := GetString(c.value, "name");
    if name.None? {
      var e := Handle(wd, JsonErrorMessage);
      return next, Some(e);
    }
    if name.value == "temp" {
      var value := GetString(c.value, "value");
      if value.None? {
        var e := Handle(wd, JsonErrorMessage);
        return next, Some(e);
      }
      var t := lib.parseDouble(value.value);
      if t.None? {
        return next, Some(Thrown(NumberFormat));
      }
      if wd == null {
        // the NullPointerException is caught, and its handler dereferences null again
        var e := Handle(wd, NoResponseMessage);
        return next, Some(e);
      }
      wd.SetTemperature(t.value);
    } else if name.value == "humidity" {
      var value := GetString(c.value, "value");
      if value.None? {
        var e := Handle(wd, JsonErrorMessage);
        return next, Some(e);
      }
      var h := lib.parseInt(value.value);
      if h.None? {
        return next, Some(Thrown(NumberFormat));
      }
      if wd == null {
        var e := Handle(wd, NoResponseMessage);
        return next, Some(e);
      }
      wd.SetHumidity(h.value);
    } else {
      next := null;
    }
    exit := None;
  }

  method ParseWeatherData(sensorData: Option<string>, lib: Library) returns (exit: Exit)
    ensures Observed(exit) == ParseOutcome(sensorData, lib)
  {
    var wd: WeatherData? := new WeatherData();
    if sensorData.None? {
      exit := Handle(wd, NoResponseMessage);
      return;
    }
    var parsed := lib.parseObject(sensorData.value);
    if parsed.None? {
      exit := Handle(wd, JsonErrorMessage);
      return;
    }
    var jsonObj := parsed.value;
    if Has(jsonObj, "data") {
      var lastUpdateDate := GetString(jsonObj, "lastUpdated");
      if lastUpdateDate.None? {
        exit := Handle(wd, JsonErrorMessage);
        return;
      }
      var seconds := lib.parseLong(lastUpdateDate.value);
      if seconds.None? {
        return Thrown(NumberFormat);
      }
      wd.SetLastUpdated(seconds.value);
      var data := GetJSONArray(jsonObj, "data");
      if data.None? {
        exit := Handle(wd, JsonErrorMessage);
        return;
      }
      var items := data.value;
      ghost var start := State(wd);
      var i := 0;
      while i < |items|
        invariant 0 <= i <= |items|
        invariant wd != null ==> fresh(wd)
        invariant Run(start, items[..i], lib) == Continue(State(wd))
      {
        assert items[..i + 1][..i] == items[..i];
        var stop: Option<Exit>;
        wd, stop := VisitEntry(wd, items, i, lib);
        if stop.Some? {
          StopPersists(start, items, i + 1, lib);
          return stop.value;
        }
        i := i + 1;
      }
      assert items[..|items|] == items;
    } else {
      var error := GetString(jsonObj, "error");
      if error.None? {
        exit := Handle(wd, JsonErrorMessage);
        return;
      }
      wd.SetErrorMessage(error.value);
    }
    exit := Normal(wd);
  }

  /**
   * `doInBackground` once the download has ended: a returned body is parsed,
   * a `null` body and a timeout become error results, any other
   * `IOException` becomes `null`. Exceptions escaping `parseWeatherData` are
   * runtime exceptions, which the `IOException` handlers do not catch.
   */
  function Classify(fetched: Fetched, lib: Library): Outcome {
    match fetched
    case Text(Some(body)) => ParseOutcome(Some(body), lib)
    case Text(None) => Returned(Some(DefaultReading.(errorMessage := Some(InvalidResponseMessage))))
    case SocketTimeoutThrown => Returned(Some(DefaultReading.(errorMessage := Some(TimeoutMessage))))
    case IOExceptionThrown => Returned(None)
  }

  method DoInBackground(event: NetworkEvent, lib: Library) returns (exit: Exit)
    ensures Observed(exit) == Classify(Fetch(event), lib)
  {
    var sensorData := DownloadUrl(event);
    if sensorData.Text? {
      if sensorData.body.Some? {
        exit := ParseWeatherData(sensorData.body, lib);
      } else {
        var wd := new WeatherData.WithError(InvalidResponseMessage);
        exit := Normal(wd);
      }
    } else if sensorData.SocketTimeoutThrown? {
      var wd := new WeatherData.WithError(TimeoutMessage);
      exit := Normal(wd);
    } else {
      exit := Normal(null);
    }
  }

  /** The three outcomes of the download, each with its own result; a body goes to the parser. */
  lemma BackgroundOutcomes(event: NetworkEvent, lib: Library)
    ensures event.TimedOut? ==> Classify(Fetch(event), lib) == Returned(Some(Reading(0, 0, 0, Some(TimeoutMessage))))
    ensures event.Failed? ==> Classify(Fetch(event), lib) == Returned(None)
    ensures event.Received? ==> Classify(Fetch(event), lib) == ParseOutcome(Fetch(event).body, lib)
  {
  }

  /**
   * `downloadUrl` never returns `null`, so the "Invalid response from server"
   * result is never produced by a null body; only a server `error` string
   * equal to it could produce that message.
   */
  lemma InvalidResponseUnreachable(event: NetworkEvent, lib: Library)
    ensures Fetch(event) != Text(None)
    ensures Classify(Fetch(event), lib) == Returned(Some(DefaultReading.(errorMessage := Some(InvalidResponseMessage))))
      ==> event.Received?
  {
  }
}
