/** A value that may be missing: what the source returns as `Option`, and as `Result` where only the
    fact of an error matters. */
module Options {
  datatype Option<+T> = None | Some(value: T)
}
