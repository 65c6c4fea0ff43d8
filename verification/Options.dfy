/** The usual optional value: used for results that the program may not have, and for calls that may throw. */
module Options {
  datatype Option<+T> = None | Some(value: T)
}
