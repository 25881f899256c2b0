/** Option values for the JavaScript values that may be `null` or `undefined`. */
module Wrappers {

  datatype Option<+T> = None | Some(value: T) {

    /** The value, or `default` when there is none. */
    function GetOr(default: T): T {
      match this
      case Some(v) => v
      case None => default
    }
  }

  /** `x || 0` on a numeric SQL result: a missing value counts as zero. */
  function OrZero(x: Option<int>): int {
    x.GetOr(0)
  }

  /** JavaScript truthiness of an optional string: absent and `''` are falsy. */
  predicate Truthy(s: Option<string>) {
    s.Some? && s.value != ""
  }

  /** JavaScript truthiness of an optional number: absent and `0` are falsy. */
  predicate TruthyInt(x: Option<int>) {
    x.Some? && x.value != 0
  }

  /** A request field that should hold an array: falsy (absent, `null`, `0`, `''`),
      present but not an array, or an array. */
  datatype ArrayField<+T> = Falsy | NotArray | Array(elems: seq<T>)
}
