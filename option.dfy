// The optional result the model uses wherever the source returns a success flag
// next to an out-parameter that is only meaningful on success.
module Optional {

  datatype Option<+T> = None | Some(value: T)
}
