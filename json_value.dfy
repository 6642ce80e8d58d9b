/** The decoded JSON value that `json.loads` hands to the core.

    The decoder itself is not part of this model: both core files take its
    output as an input. Objects keep their members in insertion order (the
    order of Python's `dict.items()`), arrays keep their elements in order.
 */
module JsonValue {

  datatype Option<+T> = None | Some(value: T)

  /** A decoded JSON value. Numbers are kept as integers; Python floats are
      not modelled. */
  datatype Json =
    | JObject(members: seq<(string, Json)>)
    | JArray(items: seq<Json>)
    | JString(text: string)
    | JNumber(number: int)
    | JBool(flag: bool)
    | JNull

  /** Neither a dict nor a list: the values that end the recursion of both
      `build_tree` and `find_path`. */
  predicate IsScalar(j: Json) {
    !j.JObject? && !j.JArray?
  }

  /** A decoded dict never repeats a key: `json.loads` keeps the last of
      duplicated keys. This holds at every level of a decoded value. */
  predicate UniqueKeys(j: Json)
    decreases j
  {
    match j
    case JObject(ms) =>
      (forall a, b :: 0 <= a < b < |ms| ==> ms[a].0 != ms[b].0) &&
      (forall i :: 0 <= i < |ms| ==> UniqueKeys(ms[i].1))
    case JArray(items) =>
      forall i :: 0 <= i < |items| ==> UniqueKeys(items[i])
    case _ => true
  }
}
