/** The failures that reach a caller of the library. */
module Errors {
  import opened Wrappers

  datatype Error =
    /** `git` exited with a non-zero status (the `code` of the thrown error; null when killed by a signal). */
    | ProcessFailed(code: Option<int>)
    /** A requested key that is not in the attribute table: the source throws a TypeError while building the format string. */
    | UnknownAttribute(name: string)
    /** A record with fewer unit-separated fields than the attribute walk consumes. */
    | ShortRecord
}
