/** A value that may be absent: a nullable column, a lookup that found no row,
    or a computation that raised. */
module Options {
  datatype Option<+T> = None | Some(value: T)

  /** The value given, or the one to fall back on. */
  function Or<T>(given: Option<T>, stored: T): T {
    if given.Some? then given.value else stored
  }
}
