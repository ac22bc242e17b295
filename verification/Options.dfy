/** The optional value the other modules use for nullable columns and absent results. */
module Options {
  datatype Option<+T> = None | Some(value: T)
}
