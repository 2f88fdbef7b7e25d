/** A value that may be absent: Python's `None`, a lookup that finds nothing, or a foreign call that gives no result. */
module Options {

  datatype Option<+T> = None | Some(value: T)
}
