/** A value that may be missing: a failed parse, an entity with nothing to draw. */
module Optional {
  datatype Option<T> = None | Some(value: T)
}
