/** A value that may be missing, for the e-mail body that is only built when there is something to report. */
module Options {
  datatype Option<T> = None | Some(value: T)
}
