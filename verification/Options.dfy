// A value that may be absent: the source's nil results and (value, ok) pairs.
module Options {

  datatype Option<T> = None | Some(value: T)
}
