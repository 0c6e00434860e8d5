/** The value-or-nothing wrapper used where the source works with a reference that may be null. */
module Optional {

  datatype Option<+T> = None | Some(value: T)

}
