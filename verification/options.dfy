/** Types shared by the modules of this project. */
module Options {
  datatype Option<+T> = None | Some(value: T)

  type Byte = bv8
}
