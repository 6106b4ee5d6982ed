/** The nullable column and the `undefined` of the source. */
module Optional {
  datatype Option<+T> = None | Some(value: T)
}
