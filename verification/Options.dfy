/** An optional value. None also stands for the program ending with an error message. */
module Options {
  datatype Option<+T> = None | Some(value: T)
}
