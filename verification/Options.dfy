/** Values that may be absent, shared by every module. */
module Options {
  datatype Option<+T> = None | Some(value: T)
}
