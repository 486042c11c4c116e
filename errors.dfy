/** The one failure of the disassembler and the wrappers its routines return
    (src/errors.rs). A failed decode records the opcode byte that started the
    instruction and a diagnostic message. */
module Errors {

  datatype Option<+T> = None | Some(value: T)

  /** The error of a failed decode: the leading byte and a diagnostic. */
  datatype Failed = Failed(byte1: bv8, message: string)

  /** `DecodeResult<T>` of the source. */
  datatype Result<+T> = Ok(value: T) | Err(error: Failed)
}
