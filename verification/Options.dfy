/** The absent/present wrapper used for JSON lookups, optional request fields and database NULLs. */
module Options {
  datatype Option<+T> = None | Some(value: T)

  /** The first of the two that is present. */
  function Or<T>(a: Option<T>, b: Option<T>): Option<T> {
    if a.Some? then a else b
  }
}
