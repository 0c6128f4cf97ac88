/**
 * The two JavaScript value rules the converter relies on for the string
 * fields of a decoded instruction: truthiness (used by `a && b || c`) and
 * the stringification done by a template literal `${x}`.
 *
 * A payload field is `None` when the JSON object has no such key (the
 * script then reads `undefined`) and `Some(s)` when it holds the string `s`.
 */
module JsValues {

  datatype Option<+T> = None | Some(value: T)

  /** JavaScript truthiness of a possibly absent string: only a present,
      non-empty string is truthy. */
  predicate Truthy(v: Option<string>)
  {
    v.Some? && v.value != ""
  }

  /** What `${v}` produces: the string itself, or "undefined" when absent. */
  function Show(v: Option<string>): (r: string)
    ensures v.Some? ==> r == v.value
    ensures v.None? ==> r == "undefined"
  {
    match v
    case Some(s) => s
    case None => "undefined"
  }

}
