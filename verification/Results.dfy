// Results and errors of the generated decoders.
module Results {
  import opened GoInts

  // Errors of the generated decoders. Overrun(end) is not a Go error: it says that a
  // length-delimited or skipped record claims to end at offset `end`, past the input, and
  // Settle turns it into the Go error, which depends on where the record sits in the buffer.
  datatype Error =
    | IntOverflow
    | UnexpectedEOF
    | InvalidLength
    | EndGroupForNonGroup
    | IllegalTag(fieldNum: int32, wire: uint64)
    | WrongWireType(field: nat, wireType: nat)
    | UnexpectedEndOfGroup
    | IllegalWireType(wireType: nat)
    | Overrun(end: nat)

  datatype Result<+T> = Ok(value: T) | Err(error: Error)

  datatype Option<+T> = None | Some(value: T)
}
