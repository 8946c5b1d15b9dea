/** Small value types shared by every module of the converter model. */
module Common {

  /** A value that may be absent: JavaScript's `null` / `undefined` for an optional field. */
  datatype Option<+T> = None | Some(value: T)

  /** A computation that either yields a value or fails with a human-readable message. */
  datatype Result<+T> = Ok(value: T) | Err(error: string)

  /** One octet of a file or of an encoded chunk. */
  newtype byte = b: int | 0 <= b < 256

  /** The last element of a non-empty sequence (`Array.prototype.pop`'s return value). */
  function Last<T>(xs: seq<T>): T
    requires |xs| > 0
  {
    xs[|xs| - 1]
  }
}
