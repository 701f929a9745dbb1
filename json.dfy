/** JSON values as the backend receives them once a payload or request body
    has been decoded, and Python's `None` as an Option. */
module Json {

  /** Python's `None` (None) or a present value (Some). */
  datatype Option<T> = None | Some(value: T) {
    /** The value, or `default` when there is none. */
    function GetOr(default: T): T {
      match this
      case Some(v) => v
      case None => default
    }
  }

  /** A decoded JSON value. Numbers are kept as reals, because Python compares
      `1`, `1.0` and `True` equal and the backend only copies numbers. Arrays
      and objects nested inside a payload are never looked into by the
      backend, so they are a single case. */
  datatype Value =
    | JNull
    | JBool(b: bool)
    | JNum(x: real)
    | JStr(s: string)
    | JCompound

  /** A decoded JSON object: what `json.loads` or `request.get_json()` give
      back when the text is an object. */
  type Object = map<string, Value>

  /** Python's `dict.get(key, default)`. */
  function Get(o: Object, key: string, default: Value): (r: Value)
    ensures key in o ==> r == o[key]
    ensures key !in o ==> r == default
  {
    if key in o then o[key] else default
  }

  /** Python's `dict.get(key)` read as "given": absent and JSON null are both
      `None` to the caller. */
  function Given(o: Object, key: string): (r: Option<Value>)
    ensures r.Some? <==> key in o && o[key] != JNull
    ensures r.Some? ==> r.value == o[key]
  {
    if key in o && o[key] != JNull then Some(o[key]) else None
  }
}
