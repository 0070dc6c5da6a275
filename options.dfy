/** The optional value the model uses for "no result", an unknown device and absent attributes. */
module Options {

  datatype Option<+T> = None | Some(value: T)
}
