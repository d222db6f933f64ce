/**
  Vocabulary shared by every module: optional values, JavaScript's view of
  a request field (absent, empty or filled) and the outcome of `Number(x)`.
 */
module Common {

  /** A value that may be missing (JavaScript `undefined` or `null`). */
  datatype Option<+T> = None | Some(value: T)

  /** A request field is truthy when it is present and not the empty string. */
  predicate Filled(field: Option<string>) {
    field.Some? && field.value != ""
  }

  /** JavaScript's `field || fallback` for a string-valued field. */
  function OrElse(field: Option<string>, fallback: string): string {
    if Filled(field) then field.value else fallback
  }

  /** A possibly absent string field used in string concatenation: an absent one reads `"undefined"`. */
  function JsString(field: Option<string>): string {
    if field.Some? then field.value else "undefined"
  }

  /**
    The result of JavaScript's `Number(x)` as far as comparisons with integer
    ids are concerned: either an integral value, or something (NaN, a
    fraction, an infinity) that is `===` to no integer.
   */
  datatype Numeric = Whole(n: int) | NotWhole

  /** `Number(x) === id` */
  predicate NumberIs(x: Numeric, id: int) {
    x == Whole(id)
  }
}
