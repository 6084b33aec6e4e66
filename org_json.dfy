/**
 * The org.json values and accessors the widget uses, over an already-parsed
 * value. Every accessor either returns a value or raises `JSONException`,
 * written here as `None`. The text parser and the number parsers of the Java
 * platform are abstract partial functions collected in `Library`.
 */
module OrgJson {
  import opened Wrappers
  import opened JavaLang

  datatype JValue =
    | JString(s: string)
      /** A number, `true`, `false` or `null`; `text` is what `getString` coerces it to. */
    | JLiteral(text: string)
    | JArray(items: seq<JValue>)
    | JObject(fields: map<string, JValue>)

  type Fields = map<string, JValue>

  /** `JSONObject.has(name)`: the key is mapped (to any value, `null` included). */
  predicate Has(o: Fields, name: string) {
    name in o
  }

  /**
   * `JSONObject.getString(name)`: a string value as it is, a scalar literal
   * coerced to its text; a missing key or an array or object value raises.
   */
  function GetString(o: Fields, name: string): Option<string> {
    if name !in o then None
    else match o[name]
      case JString(s) => Some(s)
      case JLiteral(t) => Some(t)
      case _ => None
  }

  /** `JSONObject.getJSONArray(name)`: raises unless the value is an array. */
  function GetJSONArray(o: Fields, name: string): Option<seq<JValue>> {
    if name in o && o[name].JArray? then Some(o[name].items) else None
  }

  /** `JSONArray.getJSONObject(i)` for an index below `length()`: raises unless the element is an object. */
  function GetJSONObject(a: seq<JValue>, i: nat): Option<Fields>
    requires i < |a|
  {
    if a[i].JObject? then Some(a[i].fields) else None
  }

  /**
   * The foreign parsers: `new JSONObject(text)` (`None` is a `JSONException`)
   * and `Long.parseLong`, `Integer.parseInt`, `Double.parseDouble` (`None` is a
   * `NumberFormatException`).
   */
  datatype Library = Library(
    parseObject: string -> Option<Fields>,
    parseLong: string -> Option<int64>,
    parseInt: string -> Option<int32>,
    parseDouble: string -> Option<Double>)
}
