/** A value or its absence: Go's nil pointers, comma-ok results and errors whose text does not matter. */
module Options {

  datatype Option<+T> = None | Some(value: T)
}
