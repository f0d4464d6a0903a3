/** A value that may be absent: a missing URL parameter, a resolved section
    that may be null, an optional field of a log line. */
module Optional {
  datatype Option<+T> = None | Some(value: T)
}
