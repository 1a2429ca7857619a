/** A value that may be missing: a null pointer, or an allocation or a conversion that failed. */
module Optional {
  datatype Option<+T> = None | Some(value: T)
}
