/** The optional value that Rust spells Option<T>. */
module Options {

  datatype Option<+T> = None | Some(value: T)
}
