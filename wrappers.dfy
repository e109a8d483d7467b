/** Optional values and results with an error message, the shapes the
    repository's `T | null` returns and thrown `Error`s take in this model. */
module Wrappers {

  /** `T | null`: a value that may be absent. */
  datatype Option<+T> = None | Some(value: T) {

    /** The value, or `default` when absent (`value ?? default`). */
    function GetOr(default: T): T {
      if Some? then value else default
    }
  }

  /** A completed call: either a value, or the message of the error it threw. */
  datatype Result<+T> = Ok(value: T) | Err(message: string)
}

/** Byte values, as Node's `Buffer` holds them. */
module Bytes {

  type byte = x: int | 0 <= x < 256
}
