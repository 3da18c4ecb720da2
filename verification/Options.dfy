/** A value that may be missing: the NULL and ERROR results of the kernel's functions. */
module Options {

  datatype Option<+T> = None | Some(value: T)

  /** The value that is there, as a set. */
  function Just<T(==)>(o: Option<T>): set<T> {
    if o.Some? then {o.value} else {}
  }
}
