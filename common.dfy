/** Small shared vocabulary: an optional value, as Go's "value or nil". */
module Common {

  datatype Option<+T> = None | Some(value: T)

  /** One byte, as Go's `byte`. */
  type Byte = bv8
}
