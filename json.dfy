/**
 * JSON-like values as the HTTP layer sees them: request parts, response
 * bodies and log records. Numbers are integers; a `Date` stays a date until it
 * is written out.
 */
module Json {
  import opened Wrappers
  import opened Calendar

  datatype Json =
    | JNull
    | JBool(b: bool)
    | JNum(n: int)
    | JStr(s: string)
    | JArray(items: seq<Json>)
    | JObject(fields: map<string, Json>)
    | JDate(d: Date)

  /**
   * How many keys `Object.keys` lists for a value other than null: the keys
   * of an object, the indices of an array or a string, and none for numbers,
   * booleans and dates.
   */
  function OwnKeyCount(v: Json): nat
    requires v != JNull
  {
    match v
    case JObject(fields) => |fields|
    case JArray(items) => |items|
    case JStr(s) => |s|
    case JBool(_) => 0
    case JNum(_) => 0
    case JDate(_) => 0
  }

  /**
   * `isEmptyObject`: false for `undefined` (`None`), otherwise whether
   * `Object.keys` lists nothing. `Object.keys(null)` throws, so null is not a
   * valid argument.
   */
  function IsEmptyObject(obj: Option<Json>): (r: bool)
    requires obj != Some(JNull)
    ensures obj.None? ==> !r
    ensures obj.Some? && obj.value.JObject? ==> (r <==> obj.value.fields == map[])
    ensures r ==> obj.Some? && obj.value != JNull && OwnKeyCount(obj.value) == 0
  {
    match obj
    case None => false
    case Some(v) => OwnKeyCount(v) == 0
  }

  /** An object with at least one key is never empty. */
  lemma NonEmptyObjectIsNotEmpty(fields: map<string, Json>, k: string)
    requires k in fields
    ensures !IsEmptyObject(Some(JObject(fields)))
  {
  }
}
