/** An optional value, standing in for Rust's `Option<T>`. */
module Options {

  datatype Option<+T> = None | Some(value: T)

}
