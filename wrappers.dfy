/** Ruby's `nil` next to a value, as an Option. */
module Wrappers {

  datatype Option<+T> = None | Some(value: T)

  /** The string Ruby interpolates for an optional string: `"#{nil}"` is empty. */
  function Text(o: Option<string>): (s: string)
    ensures o.None? ==> s == ""
    ensures o.Some? ==> s == o.value
  {
    match o
    case None => ""
    case Some(v) => v
  }
}
