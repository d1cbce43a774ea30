/** The interpreter's error type and the two wrappers every operation returns. */
module Errors {

  /** An interpreter error. `Message` is the one variant the error type declares;
      `ExecutionOutOfBounds` is the variant `step` returns when the instruction
      pointer has run past the bytecode; `Panic` stands for a Rust panic raised by
      i32 overflow checks (a debug build), carrying the panic's own message. */
  datatype VmError =
    | Message(msg: string)
    | ExecutionOutOfBounds
    | Panic(msg: string)

  datatype Result<T> = Ok(value: T) | Err(error: VmError)

  datatype Option<T> = None | Some(value: T)
}
