/** Small shared vocabulary: optional values, results, the 32-bit integer range
    and the real-number helpers the scoring formula uses. */
module Base {

  /** Rust's `Option<T>`. */
  datatype Option<+T> = None | Some(value: T) {

    /** `unwrap_or`: the carried value, or `default` when absent. */
    function GetOr(default: T): T {
      match this
      case Some(v) => v
      case None => default
    }

    /** `or`: this option when present, `other` otherwise. */
    function Or(other: Option<T>): Option<T> {
      match this
      case Some(_) => this
      case None => other
    }
  }

  /** Either a value or an error. */
  datatype Result<+T, +E> = Ok(value: T) | Err(error: E)

  /** Rust's `i32`. */
  type Int32 = x: int | -0x8000_0000 <= x < 0x8000_0000

  function MaxReal(a: real, b: real): real {
    if a < b then b else a
  }

  function MinNat(a: nat, b: nat): nat {
    if a < b then a else b
  }
}
