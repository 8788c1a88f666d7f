/** The "value or None" shape that Python's dict.get and the query lookup return. */
module Optional {

  datatype Option<+T> = None | Some(value: T)
}
