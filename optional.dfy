/** A value that may be absent: the nullable pointers and `char?` / `int?`
    variables of the matchers. */
module Optional {
  datatype Option<T> = None | Some(value: T)
}
