/** `Option`, for a map lookup or a channel slot. */
module Options {
  datatype Option<+T> = None | Some(value: T)
}
