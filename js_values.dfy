/**
 * The few pieces of JavaScript value semantics that the menu code relies on:
 * reading a property of an object literal (which yields `undefined` when the
 * key is absent), the nullish-coalescing operator `??`, and the truthiness
 * test behind `||` when it is applied to strings.
 */
module JsValues {

  /** A JavaScript value that may be `undefined` (or `null`). */
  datatype Option<T> = None | Some(value: T)

  /** `table[key]` on an object literal whose values are strings. */
  function Get(table: map<string, string>, key: string): (v: Option<string>)
    ensures v.Some? <==> key in table
    ensures v.Some? ==> v.value == table[key]
  {
    if key in table then Some(table[key]) else None
  }

  /**
   * `v ?? fallback`: only a missing value is replaced; a present empty
   * string is kept.
   */
  function Coalesce(v: Option<string>, fallback: string): (r: string)
  {
    match v
    case Some(s) => s
    case None => fallback
  }

  /** A string value is truthy when it is defined and not empty. */
  predicate Truthy(v: Option<string>): (truthy: bool)
  {
    v.Some? && v.value != ""
  }
}
