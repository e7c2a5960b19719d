/** Definitions that several modules share. */
module Common {

  datatype Option<+T> = None | Some(value: T)

  type byte = x: nat | x < 256
}
