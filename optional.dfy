/** A value that may be absent: the model of Python's `None` for a timestamp not yet recorded. */
module Optional {

  datatype Option<+T> = None | Some(value: T)

}
