/** The optional value used for "FirstOrDefault"-style searches that may find nothing. */
module Options {
  datatype Option<+T> = None | Some(value: T)
}
