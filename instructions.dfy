/** The instruction set (`OpCode`). `SendMessage` and `ReceiveMessage` are not part
    of this model: they wait on an asynchronous channel. */
module Instructions {
  import opened Values

  datatype OpCode =
    // Variables
    | StoreVar(index: nat)
    | LoadVar(index: nat)
    // Stack
    | PushConst(constant: Value)
    | Pop
    | Dup
    | Swap
    // Arithmetic
    | Add
    | Sub
    | Mul
    | Div
    | Mod
    | Neg
    | Exp
    // Control flow
    | Jump(target: nat)
    | JumpIfFalse(target: nat)
    | Call(addr: nat)
    | Return
    // Actors
    | SpawnActor(entry: nat)
    // Supervisor
    | SpawnSupervisor(entry: nat)
    | SetStrategy(strategy: nat)
    | RestartChild(child: nat)

  /** The opcodes that pass two operands through `binary_op`. */
  predicate IsBinary(op: OpCode) {
    op.Add? || op.Sub? || op.Mul? || op.Div? || op.Mod? || op.Exp?
  }

  /** The opcodes that assign the instruction pointer. */
  predicate IsControl(op: OpCode) {
    op.Jump? || op.JumpIfFalse? || op.Call? || op.Return?
  }

  /** The opcodes that move values between the stack and the local slots. */
  predicate IsStackOp(op: OpCode) {
    op.PushConst? || op.Pop? || op.Dup? || op.Swap? || op.StoreVar? || op.LoadVar?
  }

  /** The opcodes that allocate a new VM on the heap. */
  predicate IsSpawn(op: OpCode) {
    op.SpawnActor? || op.SpawnSupervisor?
  }
}
