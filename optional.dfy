/** The Option type shared by the modules of this model. */
module Optional {

  /** A value that may be absent: a failed parse, a missing file, a failed remote call. */
  datatype Option<+T> = None | Some(value: T)
}
