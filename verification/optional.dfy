/** A value that may be missing, standing for JavaScript's `undefined`. */
module Optional {

  datatype Option<+T> = None | Some(value: T)
}
