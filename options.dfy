/** The absent-or-present value that stands in for a C# null reference. */
module Options {
  datatype Option<T> = None | Some(value: T)
}
