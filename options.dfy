/** A value that may be absent: the model of a C# nullable delegate parameter. */
module Options {

  datatype Option<+T> = None | Some(value: T)
}
