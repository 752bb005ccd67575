/** Vocabulary shared by the models: optional values and the bytes of streams. */
module Common {

  datatype Option<+T> = None | Some(value: T)

  /** A byte on a stream, as a number; bytes that are combined by XOR are `bv8`, in `Addresses`. */
  type Byte = b: int | 0 <= b < 256

  function Min(a: nat, b: nat): nat {
    if a <= b then a else b
  }
}
