/** A value that may be missing: what the source writes as None, or as a key that is not in a dictionary. */
module Options {

  datatype Option<+T> = None | Some(value: T)
}
