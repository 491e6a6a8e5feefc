/** Value conventions the components rely on: optional record fields, results
    with an error side, and JavaScript's `||` default operator, which treats
    0, '' and false exactly like a missing field. */
module Js {

  /** A record field that may be absent (`undefined` in the source). */
  datatype Option<+T> = None | Some(value: T)

  datatype Result<+T, +E> = Ok(value: T) | Err(error: E)

  /** `x || d` on a numeric field. */
  function OrNum(x: Option<real>, d: real): real {
    if x.Some? && x.value != 0.0 then x.value else d
  }

  /** `x || d` on an integer field. */
  function OrInt(x: Option<int>, d: int): int {
    if x.Some? && x.value != 0 then x.value else d
  }

  /** `x || d` on a string field. */
  function OrStr(x: Option<string>, d: string): string {
    if x.Some? && x.value != "" then x.value else d
  }

  /** `x || d` on a boolean field. */
  function OrBool(x: Option<bool>, d: bool): bool {
    if x.Some? && x.value then true else d
  }

  /** A string field used as a condition (`if (x)`, `!x`). */
  predicate Truthy(x: Option<string>) {
    x.Some? && x.value != ""
  }
}
