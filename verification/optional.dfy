/** An optional value, for results the scripts leave undefined or skip. */
module Optional {

  datatype Option<T> = None | Some(value: T)
}
