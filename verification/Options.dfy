/** A small option type shared by the protocol models. */
module Options {
  datatype Option<+T> = None | Some(value: T)
}
