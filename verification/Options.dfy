module Options {
  datatype Option<+T> = None | Some(value: T)

  /** The first one that is there. */
  function Or<T>(a: Option<T>, b: Option<T>): Option<T> { if a.Some? then a else b }
}
