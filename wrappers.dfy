/** Optional values and results with an error, used wherever the scripts return `null`,
    throw, or reject a promise. */
module Wrappers {

  /** A value that may be absent: `null` (or `undefined`) in the scripts. */
  datatype Option<+T> = None | Some(value: T)

  /** The outcome of an operation that may raise an error carrying a message. */
  datatype Result<+T> = Ok(value: T) | Err(message: string)

  /** An environment variable the scripts accept: present and not empty, which is when
      `!process.env.X` is false. */
  predicate IsSet(v: Option<string>)
  {
    v.Some? && v.value != ""
  }
}
