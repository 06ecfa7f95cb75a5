/** An optional value, shared by both stemmers. */
module Optional {
  datatype Option<T> = None | Some(value: T)
}
