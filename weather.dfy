/**
 * The `WeatherData` record: a mutable object holding one sensor reading, or
 * the message that says why there is none.
 */
module Weather {
  import opened Wrappers
  import opened JavaLang

  /** The value held by a `WeatherData` object at one moment. */
  datatype Reading = Reading(
    temperature: Double,
    humidity: int32,
    lastUpdated: int64,
    errorMessage: Option<string>)

  /** What a freshly constructed object holds: every field at its default. */
  const DefaultReading: Reading := Reading(0, 0, 0, None)

  class WeatherData {
    var temperature: Double
    var humidity: int32
    var lastUpdated: int64
    /** Not declared in `WeatherData.java`; its existence is inferred from its callers (see README). */
    var errorMessage: Option<string>

    /** The abstract value of this object. */
    function Snapshot(): Reading
      reads this
    {
      Reading(temperature, humidity, lastUpdated, errorMessage)
    }

    constructor ()
      ensures Snapshot() == DefaultReading
      ensures GetLastUpdated() == 0 && GetTemperature() == 0 && GetHumidity() == 0
      ensures GetErrorMessage() == None
    {
      temperature, humidity, lastUpdated, errorMessage := 0, 0, 0, None;
    }

    constructor WithValues(humidity: int32, temperature: Double, lastUpdated: int64)
      ensures GetHumidity() == humidity && GetTemperature() == temperature
      ensures GetLastUpdated() == lastUpdated && GetErrorMessage() == None
    {
      this.humidity := humidity;
      this.temperature := temperature;
      this.lastUpdated := lastUpdated;
      this.errorMessage := None;
    }

    /** The one-argument constructor the provider calls; every other field keeps its default. */
    constructor WithError(message: string)
      ensures Snapshot() == DefaultReading.(errorMessage := Some(message))
    {
      temperature, humidity, lastUpdated := 0, 0, 0;
      errorMessage := Some(message);
    }

    function GetTemperature(): Double
      reads this
    {
      temperature
    }

    function GetHumidity(): int32
      reads this
    {
      humidity
    }

    function GetLastUpdated(): int64
      reads this
    {
      lastUpdated
    }

    /** `None` is Java's `null`: no error was recorded. */
    function GetErrorMessage(): Option<string>
      reads this
    {
      errorMessage
    }

    method SetTemperature(temperature: Double)
      modifies this
      ensures GetTemperature() == temperature
      ensures Snapshot() == old(Snapshot()).(temperature := temperature)
    {
      this.temperature := temperature;
    }

    method SetHumidity(humidity: int32)
      modifies this
      ensures GetHumidity() == humidity
      ensures Snapshot() == old(Snapshot()).(humidity := humidity)
    {
      this.humidity := humidity;
    }

    method SetLastUpdated(lastUpdated: int64)
      modifies this
      ensures GetLastUpdated() == lastUpdated
      ensures Snapshot() == old(Snapshot()).(lastUpdated := lastUpdated)
    {
      this.lastUpdated := lastUpdated;
    }

    method SetErrorMessage(message: string)
      modifies this
      ensures GetErrorMessage() == Some(message)
      ensures Snapshot() == old(Snapshot()).(errorMessage := Some(message))
    {
      this.errorMessage := Some(message);
    }
  }

  /** The largest number of seconds whose millisecond count still fits a `long`. */
  const MaxExactSeconds: int := 9223372036854775

  /**
   * The argument `getLastUpdatedString` gives to `Date`: the stored seconds
   * times 1000 as a `long` product, which wraps around on overflow.
   */
  function EpochMillis(seconds: int64): (ms: int64)
    ensures (ms as int - seconds as int * 1000) % TwoTo64 == 0
    ensures ms as int == seconds as int * 1000 <==> -MaxExactSeconds <= seconds as int <= MaxExactSeconds
  {
    Wrap64(seconds as int * 1000)
  }
}
