/** A value that may be missing: what the datastore returns where the
    handlers receive a row or `null`. */
module Optional {

  datatype Option<T> = None | Some(value: T)
}
