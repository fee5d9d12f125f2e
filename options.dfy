/** The Option type used for "no action" and "attribute absent" results. */
module Options {
  datatype Option<+T> = None | Some(value: T)
}
