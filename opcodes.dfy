/** What each opcode does to an execution context and the heap, as a function of
    their values. `Execution.ExecutionContext.Execute` carries these effects out in
    place and is proved to agree with `Effect`. */
module Opcodes {
  import opened Errors
  import opened Values
  import opened Instructions
  import opened Heaps

  /** The value of an `ExecutionContext`: operand stack (top last), local slots,
      instruction pointer, return addresses (innermost last) and the bytecode. */
  datatype Context = Context(
    stack: seq<Value>,
    locals: map<nat, Value>,
    ip: nat,
    callStack: seq<nat>,
    bytecode: seq<OpCode>)

  /** The context `ExecutionContext::new(bytecode)` builds. */
  function NewContext(bytecode: seq<OpCode>): Context {
    Context([], map[], 0, [], bytecode)
  }

  /** The context and heap after an instruction, and what the instruction returned. */
  datatype Outcome = Outcome(ctx: Context, heap: HeapState, result: Result<()>)

  /** A stack after a helper, and what the helper returned. */
  datatype StackOutcome = StackOutcome(stack: seq<Value>, result: Result<()>)

  /** Decimal digits of `n`, as `format!("{}", n)` writes them. */
  function NatToString(n: nat): string
    decreases n
  {
    var digit := "0123456789"[n % 10];
    if n < 10 then [digit] else NatToString(n / 10) + [digit]
  }

  /** `y as u32`: the two's-complement bits of an i32 read as unsigned. */
  function AsU32(y: I32): nat {
    if y < 0 then (y as int) + 0x1_0000_0000 else y
  }

  function Pow(x: int, e: nat): int
    decreases e
  {
    if e == 0 then 1 else x * Pow(x, e - 1)
  }

  /** The closure of `Neg`. */
  function Negate(v: Value): (r: Result<Value>)
    ensures v.Integer? && v.i != I32_MIN ==> r == Ok(Integer(-v.i))
    ensures v.Integer? && v.i == I32_MIN ==> r == Err(Panic("attempt to negate with overflow"))
    ensures v.Float? ==> r == Ok(Float)
    ensures !v.Integer? && !v.Float? ==> r == Err(Message("Cannot negate non-numeric value"))
  {
    match v
    case Integer(i) => Checked(-(i as int), "attempt to negate with overflow")
    case Float => Ok(Float)
    case _ => Err(Message("Cannot negate non-numeric value"))
  }

  /** The closure of `Mod`: Integers only; the remainder of the truncated quotient. */
  function Modulo(a: Value, b: Value): (r: Result<Value>)
    ensures BothInteger(a, b) && b.i == 0 ==> r == Err(Message("Modulo by zero"))
    ensures BothInteger(a, b) && b.i != 0 && !(a.i == I32_MIN && b.i == -1) ==>
              IsTruncQuotient(a.i, b.i, TruncDiv(a.i, b.i)) &&
              r == Ok(Integer(a.i - b.i * TruncDiv(a.i, b.i)))
    ensures BothInteger(a, b) && a.i == I32_MIN && b.i == -1 ==>
              r == Err(Panic("attempt to calculate the remainder with overflow"))
    ensures !BothInteger(a, b) ==> r == Err(Message("Type mismatch for Mod"))
  {
    match (a, b)
    case (Integer(x), Integer(y)) =>
      if y == 0 then Err(Message("Modulo by zero"))
      else if x == I32_MIN && y == -1 then Err(Panic("attempt to calculate the remainder with overflow"))
      else
        TruncDivCorrect(x, y);
        Ok(Integer(TruncRem(x, y)))
    case _ => Err(Message("Type mismatch for Mod"))
  }

  /** The closure of `Exp`: `x.pow(y as u32)` on Integers, which panics exactly
      when the power leaves the i32 range; `powf` on Floats. */
  function Power(a: Value, b: Value): (r: Result<Value>)
    ensures BothInteger(a, b) && InI32(Pow(a.i, AsU32(b.i))) ==> r == Ok(Integer(Pow(a.i, AsU32(b.i))))
    ensures BothInteger(a, b) && !InI32(Pow(a.i, AsU32(b.i))) ==> r == Err(Panic("attempt to multiply with overflow"))
    ensures BothFloat(a, b) ==> r == Ok(Float)
    ensures !BothInteger(a, b) && !BothFloat(a, b) ==> r == Err(Message("Type mismatch for Exp"))
  {
    match (a, b)
    case (Integer(x), Integer(y)) => Checked(Pow(x, AsU32(y)), "attempt to multiply with overflow")
    case (Float, Float) => Ok(Float)
    case _ => Err(Message("Type mismatch for Exp"))
  }

  /** For a base of magnitude at least 2 the power outgrows its exponent. */
  lemma {:induction false} PowGrows(x: int, e: nat)
    requires Abs(x) >= 2
    ensures Abs(Pow(x, e)) >= e + 1
  {
    if e > 0 {
      PowGrows(x, e - 1);
      AbsMul(x, Pow(x, e - 1));
      MulMonotone(Abs(Pow(x, e - 1)), 2, Abs(x));
    }
  }

  /** A negative exponent is cast to at least 2^31, so `Exp` on any base other
      than -1, 0 and 1 panics. */
  lemma NegativeExponentOverflows(x: I32, y: I32)
    requires y < 0 && Abs(x) >= 2
    ensures Power(Integer(x), Integer(y)) == Err(Panic("attempt to multiply with overflow"))
  {
    var e := AsU32(y);
    assert e >= 0x8000_0000;
    PowGrows(x, e);
    assert !InI32(Pow(x, e));
  }

  /** `unary_op`: pop one value, apply `f`, push its result. When `f` fails the
      operand stays popped. */
  function UnaryOp(stack: seq<Value>, f: Value -> Result<Value>): StackOutcome {
    if stack == [] then StackOutcome(stack, Err(Message("Stack underflow for unary operation")))
    else
      var v, rest := stack[|stack| - 1], stack[..|stack| - 1];
      match f(v)
      case Ok(w) => StackOutcome(rest + [w], Ok(()))
      case Err(e) => StackOutcome(rest, Err(e))
  }

  /** `binary_op`: with fewer than two values nothing is popped; otherwise pop `b`
      (the top) and then `a`, and push `f(a, b)`. When `f` fails both stay popped. */
  function BinaryOp(stack: seq<Value>, f: (Value, Value) -> Result<Value>): StackOutcome {
    if |stack| < 2 then StackOutcome(stack, Err(Message("Stack underflow for binary operation")))
    else
      var b, a, rest := stack[|stack| - 1], stack[|stack| - 2], stack[..|stack| - 2];
      match f(a, b)
      case Ok(v) => StackOutcome(rest + [v], Ok(()))
      case Err(e) => StackOutcome(rest, Err(e))
  }

  /** The value function each binary opcode hands to `binary_op`. */
  function BinaryFn(op: OpCode): (Value, Value) -> Result<Value>
    requires IsBinary(op)
  {
    match op
    case Add => Values.Add
    case Sub => Values.Sub
    case Mul => Values.Mul
    case Div => Values.Div
    case Mod => Modulo
    case Exp => Power
  }

  function WithStack(c: Context, h: HeapState, s: StackOutcome): Outcome {
    Outcome(c.(stack := s.stack), h, s.result)
  }

  /** `SetStrategy` and `RestartChild`: pop a value; when it is a reference to a
      supervisor, push it back (the call on that supervisor changes nothing). */
  function SupervisorOp(c: Context, h: HeapState, underflow: string): Outcome {
    if c.stack == [] then Outcome(c, h, Err(Message(underflow)))
    else
      var v, rest := c.stack[|c.stack| - 1], c.stack[..|c.stack| - 1];
      if v.Reference? && Lookup(h, v.addr).Some? && Lookup(h, v.addr).value.Supervisor? then
        Outcome(c.(stack := rest + [Reference(v.addr)]), h, Ok(()))
      else
        Outcome(c.(stack := rest), h, Err(Message("Invalid supervisor reference")))
  }

  /** The heap object a spawn opcode stores: a new VM over the same bytecode,
      started at the opcode's entry point. */
  function SpawnedObject(op: OpCode, c: Context): HeapObject
    requires IsSpawn(op)
  {
    if op.SpawnActor? then Actor(VmImage(c.bytecode, op.entry))
    else Supervisor(VmImage(c.bytecode, op.entry))
  }

  /** `OpCode::execute`. The `ip` it sees has already been advanced past `op`. */
  function Effect(op: OpCode, c: Context, h: HeapState): Outcome {
    var n := |c.stack|;
    match op
    case Add => WithStack(c, h, BinaryOp(c.stack, Values.Add))
    case Sub => WithStack(c, h, BinaryOp(c.stack, Values.Sub))
    case Mul => WithStack(c, h, BinaryOp(c.stack, Values.Mul))
    case Div => WithStack(c, h, BinaryOp(c.stack, Values.Div))
    case Neg => WithStack(c, h, UnaryOp(c.stack, Negate))
    case PushConst(v) => Outcome(c.(stack := c.stack + [v]), h, Ok(()))
    case Pop =>
      if n == 0 then Outcome(c, h, Err(Message("Stack underflow")))
      else Outcome(c.(stack := c.stack[..n - 1]), h, Ok(()))
    case Dup =>
      if n == 0 then Outcome(c, h, Err(Message("Stack underflow")))
      else Outcome(c.(stack := c.stack + [c.stack[n - 1]]), h, Ok(()))
    case Swap =>
      if n < 2 then Outcome(c, h, Err(Message("Stack underflow for Swap")))
      else Outcome(c.(stack := c.stack[..n - 2] + [c.stack[n - 1], c.stack[n - 2]]), h, Ok(()))
    case StoreVar(i) =>
      if n == 0 then Outcome(c, h, Err(Message("Stack underflow for StoreVar")))
      else Outcome(c.(stack := c.stack[..n - 1], locals := c.locals[i := c.stack[n - 1]]), h, Ok(()))
    case LoadVar(i) =>
      if i in c.locals then Outcome(c.(stack := c.stack + [c.locals[i]]), h, Ok(()))
      else Outcome(c, h, Err(Message("Variable at index " + NatToString(i) + " not found")))
    case Mod => WithStack(c, h, BinaryOp(c.stack, Modulo))
    case Exp => WithStack(c, h, BinaryOp(c.stack, Power))
    case Jump(t) => Outcome(c.(ip := t), h, Ok(()))
    case JumpIfFalse(t) =>
      if n == 0 then Outcome(c, h, Ok(()))
      else if c.stack[n - 1] == Boolean(false) then Outcome(c.(stack := c.stack[..n - 1], ip := t), h, Ok(()))
      else Outcome(c.(stack := c.stack[..n - 1]), h, Ok(()))
    case Call(a) => Outcome(c.(callStack := c.callStack + [c.ip], ip := a), h, Ok(()))
    case Return =>
      var m := |c.callStack|;
      if m == 0 then Outcome(c, h, Err(Message("Call stack underflow on Return")))
      else Outcome(c.(ip := c.callStack[m - 1], callStack := c.callStack[..m - 1]), h, Ok(()))
    case SpawnActor(_) =>
      var al := Alloc(h, SpawnedObject(op, c));
      Outcome(c.(stack := c.stack + [Reference(al.address)]), al.heap, Ok(()))
    case SpawnSupervisor(_) =>
      var al := Alloc(h, SpawnedObject(op, c));
      Outcome(c.(stack := c.stack + [Reference(al.address)]), al.heap, Ok(()))
    case SetStrategy(_) => SupervisorOp(c, h, "Stack underflow for SetStrategy")
    case RestartChild(_) => SupervisorOp(c, h, "Stack underflow for RestartChild")
  }

  // ---- Properties of the opcodes ----

  /** A binary opcode on fewer than two values fails and changes nothing. */
  lemma BinaryUnderflow(op: OpCode, c: Context, h: HeapState)
    requires IsBinary(op) && |c.stack| < 2
    ensures Effect(op, c, h) == Outcome(c, h, Err(Message("Stack underflow for binary operation")))
  {
  }

  /** A binary opcode on `s + [a, b]` leaves `s + [f(a, b)]`, or just `s` when `f`
      fails; `b` is the second operand. Nothing but the stack changes. */
  lemma BinaryOnTop(op: OpCode, c: Context, h: HeapState, s: seq<Value>, a: Value, b: Value)
    requires IsBinary(op) && c.stack == s + [a, b]
    ensures BinaryFn(op)(a, b).Ok? ==>
              Effect(op, c, h) == Outcome(c.(stack := s + [BinaryFn(op)(a, b).value]), h, Ok(()))
    ensures BinaryFn(op)(a, b).Err? ==>
              Effect(op, c, h) == Outcome(c.(stack := s), h, Err(BinaryFn(op)(a, b).error))
  {
    assert c.stack[..|c.stack| - 2] == s;
  }

  /** `PushConst x; PushConst y` then a binary opcode applies the operation to `x`
      and `y`, in that order: the stack gains the result, or is back as it was when
      the operation fails, and nothing else changes. */
  lemma BinaryAfterTwoPushes(op: OpCode, c: Context, h: HeapState, x: Value, y: Value)
    requires IsBinary(op)
    ensures var c2 := Effect(PushConst(y), Effect(PushConst(x), c, h).ctx, h).ctx;
            var f := BinaryFn(op)(x, y);
            Effect(op, c2, h) ==
              (if f.Ok? then Outcome(c.(stack := c.stack + [f.value]), h, Ok(()))
               else Outcome(c, h, Err(f.error)))
  {
    var c2 := Effect(PushConst(y), Effect(PushConst(x), c, h).ctx, h).ctx;
    assert c2.stack == c.stack + [x, y];
    BinaryOnTop(op, c2, h, c.stack, x, y);
  }

  /** `Neg` on `s + [v]` leaves `s + [-v]`, or `s` when `v` cannot be negated. */
  lemma NegOnTop(c: Context, h: HeapState, s: seq<Value>, v: Value)
    requires c.stack == s + [v]
    ensures Negate(v).Ok? ==> Effect(Neg, c, h) == Outcome(c.(stack := s + [Negate(v).value]), h, Ok(()))
    ensures Negate(v).Err? ==> Effect(Neg, c, h) == Outcome(c.(stack := s), h, Err(Negate(v).error))
  {
    assert c.stack[..|c.stack| - 1] == s;
  }

  /** `Neg` on an empty stack fails and changes nothing. */
  lemma NegUnderflow(c: Context, h: HeapState)
    requires c.stack == []
    ensures Effect(Neg, c, h) == Outcome(c, h, Err(Message("Stack underflow for unary operation")))
  {
  }

  /** `Pop` and `Dup` need one value and `Swap` two; short of that they fail and
      change nothing. */
  lemma StackUnderflows(c: Context, h: HeapState)
    ensures c.stack == [] ==> Effect(Pop, c, h) == Outcome(c, h, Err(Message("Stack underflow")))
    ensures c.stack == [] ==> Effect(Dup, c, h) == Outcome(c, h, Err(Message("Stack underflow")))
    ensures |c.stack| < 2 ==> Effect(Swap, c, h) == Outcome(c, h, Err(Message("Stack underflow for Swap")))
  {
  }

  /** On `s + [v]`, `Pop` leaves `s` and `Dup` leaves `s + [v, v]`. */
  lemma PopDupOnTop(c: Context, h: HeapState, s: seq<Value>, v: Value)
    requires c.stack == s + [v]
    ensures Effect(Pop, c, h) == Outcome(c.(stack := s), h, Ok(()))
    ensures Effect(Dup, c, h) == Outcome(c.(stack := s + [v, v]), h, Ok(()))
  {
    assert c.stack[..|c.stack| - 1] == s;
  }

  /** `Swap` exchanges the top two values and nothing else. */
  lemma SwapOnTop(c: Context, h: HeapState, s: seq<Value>, a: Value, b: Value)
    requires c.stack == s + [a, b]
    ensures Effect(Swap, c, h) == Outcome(c.(stack := s + [b, a]), h, Ok(()))
  {
    assert c.stack[..|c.stack| - 2] == s;
  }

  /** Two `Swap`s in a row give back the context they started from. */
  lemma SwapTwice(c: Context, h: HeapState)
    requires |c.stack| >= 2
    ensures Effect(Swap, Effect(Swap, c, h).ctx, h) == Outcome(c, h, Ok(()))
  {
    var n := |c.stack|;
    var s, a, b := c.stack[..n - 2], c.stack[n - 2], c.stack[n - 1];
    assert c.stack == s + [a, b];
    SwapOnTop(c, h, s, a, b);
    SwapOnTop(c.(stack := s + [b, a]), h, s, b, a);
  }

  /** `StoreVar(i)` moves the top value into slot `i`, and a following `LoadVar(i)`
      pushes it back. */
  lemma StoreThenLoad(c: Context, h: HeapState, s: seq<Value>, v: Value, i: nat)
    requires c.stack == s + [v]
    ensures Effect(StoreVar(i), c, h) == Outcome(c.(stack := s, locals := c.locals[i := v]), h, Ok(()))
    ensures Effect(LoadVar(i), Effect(StoreVar(i), c, h).ctx, h)
            == Outcome(c.(locals := c.locals[i := v]), h, Ok(()))
  {
    assert c.stack[..|c.stack| - 1] == s;
  }

  /** `StoreVar` on an empty stack, and `LoadVar` of a slot never stored, fail and
      change nothing. */
  lemma VariableErrors(c: Context, h: HeapState, i: nat)
    ensures c.stack == [] ==> Effect(StoreVar(i), c, h) == Outcome(c, h, Err(Message("Stack underflow for StoreVar")))
    ensures i !in c.locals ==>
              Effect(LoadVar(i), c, h) == Outcome(c, h, Err(Message("Variable at index " + NatToString(i) + " not found")))
  {
  }

  /** `JumpIfFalse(t)` always succeeds and pops one value when there is one; it
      jumps to `t` exactly when that value is `Boolean(false)`. */
  lemma JumpIfFalseBehaviour(c: Context, h: HeapState, t: nat)
    ensures Effect(JumpIfFalse(t), c, h).result == Ok(())
    ensures Effect(JumpIfFalse(t), c, h).heap == h
    ensures Effect(JumpIfFalse(t), c, h).ctx.stack == (if c.stack == [] then [] else c.stack[..|c.stack| - 1])
    ensures Effect(JumpIfFalse(t), c, h).ctx.ip ==
              (if c.stack != [] && c.stack[|c.stack| - 1] == Boolean(false) then t else c.ip)
    ensures Effect(JumpIfFalse(t), c, h).ctx.locals == c.locals
    ensures Effect(JumpIfFalse(t), c, h).ctx.callStack == c.callStack
  {
  }

  /** `Call(t)` records the current `ip` and jumps; a `Return` right after restores
      the context exactly. */
  lemma CallThenReturn(c: Context, h: HeapState, t: nat)
    ensures Effect(Call(t), c, h) == Outcome(c.(callStack := c.callStack + [c.ip], ip := t), h, Ok(()))
    ensures Effect(Return, Effect(Call(t), c, h).ctx, h) == Outcome(c, h, Ok(()))
  {
    assert (c.callStack + [c.ip])[..|c.callStack|] == c.callStack;
  }

  /** `Return` with no return address fails and changes nothing. */
  lemma ReturnUnderflow(c: Context, h: HeapState)
    requires c.callStack == []
    ensures Effect(Return, c, h) == Outcome(c, h, Err(Message("Call stack underflow on Return")))
  {
  }

  /** `SpawnActor(e)` and `SpawnSupervisor(e)` store a new VM over the same bytecode,
      started at `e`, at a fresh address, and push a reference to it. */
  lemma SpawnAllocates(c: Context, h: HeapState, e: nat)
    requires h.Valid()
    ensures h.nextAddress !in h.objects
    ensures Effect(SpawnActor(e), c, h) ==
              Outcome(c.(stack := c.stack + [Reference(h.nextAddress)]),
                      Alloc(h, Actor(VmImage(c.bytecode, e))).heap, Ok(()))
    ensures Effect(SpawnSupervisor(e), c, h) ==
              Outcome(c.(stack := c.stack + [Reference(h.nextAddress)]),
                      Alloc(h, Supervisor(VmImage(c.bytecode, e))).heap, Ok(()))
  {
  }

  /** `SetStrategy` and `RestartChild` succeed, changing nothing, exactly when the
      top value refers to a supervisor; otherwise the value stays popped. */
  lemma SupervisorOps(op: OpCode, c: Context, h: HeapState, s: seq<Value>, v: Value)
    requires (op.SetStrategy? || op.RestartChild?) && c.stack == s + [v]
    ensures v.Reference? && v.addr in h.objects && h.objects[v.addr].Supervisor? ==>
              Effect(op, c, h) == Outcome(c, h, Ok(()))
    ensures !(v.Reference? && v.addr in h.objects && h.objects[v.addr].Supervisor?) ==>
              Effect(op, c, h) == Outcome(c.(stack := s), h, Err(Message("Invalid supervisor reference")))
  {
    assert c.stack[..|c.stack| - 1] == s;
  }

  /** `SetStrategy` and `RestartChild` on an empty stack report their own underflow
      message and change nothing. */
  lemma SupervisorUnderflow(c: Context, h: HeapState, strategy: nat, child: nat)
    requires c.stack == []
    ensures Effect(SetStrategy(strategy), c, h) ==
              Outcome(c, h, Err(Message("Stack underflow for SetStrategy")))
    ensures Effect(RestartChild(child), c, h) ==
              Outcome(c, h, Err(Message("Stack underflow for RestartChild")))
  {
  }

  /** No opcode changes the bytecode, and every opcode keeps the heap valid. */
  lemma EffectFrame(op: OpCode, c: Context, h: HeapState)
    ensures Effect(op, c, h).ctx.bytecode == c.bytecode
    ensures h.Valid() ==> Effect(op, c, h).heap.Valid()
  {
    if IsSpawn(op) && h.Valid() {
      AllocFresh(h, SpawnedObject(op, c));
    }
  }

  /** No opcode removes or rewrites a heap entry: only the two spawns change the
      heap, and they add one entry at a fresh address. */
  lemma EffectKeepsHeapEntries(op: OpCode, c: Context, h: HeapState, a: nat)
    requires h.Valid() && a in h.objects
    ensures Lookup(Effect(op, c, h).heap, a) == Lookup(h, a)
  {
    if IsSpawn(op) {
      AllocKeepsOthers(h, SpawnedObject(op, c), a);
    }
  }

  /** Only `Jump`, `JumpIfFalse`, `Call` and `Return` touch `ip` or the call stack. */
  lemma EffectKeepsIp(op: OpCode, c: Context, h: HeapState)
    requires !IsControl(op)
    ensures Effect(op, c, h).ctx.ip == c.ip
    ensures Effect(op, c, h).ctx.callStack == c.callStack
  {
  }
}
