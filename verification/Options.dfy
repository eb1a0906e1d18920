/** Nullable pointers of the original. */
module Options {
  datatype Option<+T> = None | Some(value: T)
}
