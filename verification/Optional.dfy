/** A value the store may lack. */
module Optional {
  datatype Option<T> = None | Some(value: T)
}
