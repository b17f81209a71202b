/** An optional value, as Python code expresses with a missing dictionary key or `None`. */
module Wrappers {

  datatype Option<+T> = None | Some(value: T)

  /** `d.get(key, default)`: the value when present, the default otherwise. */
  function GetOr<T>(o: Option<T>, default: T): (r: T)
    ensures o.Some? ==> r == o.value
    ensures o.None? ==> r == default
  {
    match o
    case Some(v) => v
    case None => default
  }
}
