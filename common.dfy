/** The optional value used wherever the generator may find nothing. */
module Optional {

  datatype Option<+T> = None | Some(value: T)
}
