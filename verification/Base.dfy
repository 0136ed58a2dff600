/** Shared vocabulary: octets, optional values and the error codes of the original. */
module Base {

  type byte = bv8

  datatype Option<+T> = None | Some(value: T)

  /** The members of TinyError that the modelled code can return. */
  datatype TinyError = Timeout | DataTooLarge | InvalidData | Busy | WrongCrc | UnknownPeer

  datatype Result<+T> = Ok(value: T) | Err(error: TinyError)

  datatype Unit = Unit

  // ----- Octets as numbers -----

  function Number(b: byte): nat { b as nat }

  function Plus(x: byte, y: byte): byte { x + y }

  lemma PlusOne(x: byte)
    ensures Number(Plus(x, 1)) == if Number(x) == 255 then 0 else Number(x) + 1
  {}
}
