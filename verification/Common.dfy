/** Datatypes that every model of the kernel core shares. */
module Common {
  datatype Option<+T> = None | Some(value: T)
}
