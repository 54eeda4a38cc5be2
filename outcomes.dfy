/** The ways a decode or a simulation step can fail.  Every one of them is a
    Go panic in the source (a failed type switch, an index or slice out of
    range, or an explicit panic call); the run is abandoned when one occurs. */
module Outcomes {
  import opened Bits

  datatype Fault =
    | Unimplemented(b1: u8, b2: u8)    // no opcode pattern matches the first two bytes
    | IllegalInstruction               // segment-register move with bit 5 of byte 2 set
    | UnsupportedKind                  // a decoder that has no case for the classified family
    | Truncated                        // the instruction needs bytes past the end of the buffer
    | UnsizedMemory                    // a memory operand without a byte/word size mark
    | AddressOutOfRange(offset: int)   // an effective address outside the 1 MiB memory
    | BadOperand                       // an operand of a kind the operation cannot use
    | OutOfFuel                        // the step budget of a simulation ran out
    | NoText                           // an operand the text renderer has no entry or form for

  /** A value or the fault that prevented computing it; usable with `:-`. */
  datatype Result<+T> = Ok(value: T) | Err(fault: Fault) {
    predicate IsFailure() { Err? }

    function PropagateFailure<U>(): Result<U>
      requires Err?
    {
      Err(fault)
    }

    function Extract(): T
      requires Ok?
    {
      value
    }
  }
}
