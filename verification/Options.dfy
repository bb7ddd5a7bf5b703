/** The optional values the relay and the publisher pass around. */
module Options {
  datatype Option<+T> = None | Some(value: T)
}
