/** The execution context: operand stack, locals, instruction pointer, call stack
    and bytecode, updated in place by `Execute` (the dispatcher `OpCode::execute`)
    and `Step`. `Execute` lives here rather than beside `OpCode`, because a module
    cannot import the module that imports it. */
module Execution {
  import opened Errors
  import opened Values
  import opened Instructions
  import opened Heaps
  import opened Opcodes

  /** `ExecutionContext::step` on values: out of bounds is an error that changes
      nothing; otherwise advance `ip` past the fetched opcode, then run it. */
  function StepEffect(c: Context, h: HeapState): Outcome {
    if c.ip >= |c.bytecode| then Outcome(c, h, Err(ExecutionOutOfBounds))
    else Effect(c.bytecode[c.ip], c.(ip := c.ip + 1), h)
  }

  class ExecutionContext {
    var stack: seq<Value>
    var locals: map<nat, Value>
    var ip: nat
    var callStack: seq<nat>
    var bytecode: seq<OpCode>

    function View(): Context
      reads this
    {
      Context(stack, locals, ip, callStack, bytecode)
    }

    /** `ExecutionContext::new`: everything empty, `ip` at 0, over `bytecode`. */
    constructor (bytecode: seq<OpCode>)
      ensures View() == NewContext(bytecode)
      ensures stack == [] && locals == map[] && ip == 0 && callStack == [] && this.bytecode == bytecode
    {
      stack := [];
      locals := map[];
      ip := 0;
      callStack := [];
      this.bytecode := bytecode;
    }

    /** `ExecutionContext::ip`. */
    function Ip(): nat
      reads this
    {
      ip
    }

    /** `ExecutionContext::set_ip`: a following `Ip()` reads back `value`. */
    method SetIp(value: nat)
      modifies this
      ensures Ip() == value
      ensures View() == old(View()).(ip := value)
    {
      ip := value;
    }

    /** `unary_op` on this context's stack. */
    method ApplyUnary(f: Value -> Result<Value>) returns (r: Result<()>)
      modifies this
      ensures StackOutcome(stack, r) == UnaryOp(old(stack), f)
      ensures View() == old(View()).(stack := stack)
    {
      if stack == [] {
        return Err(Message("Stack underflow for unary operation"));
      }
      var v := stack[|stack| - 1];
      stack := stack[..|stack| - 1];
      var res := f(v);
      if res.Err? {
        return Err(res.error);
      }
      stack := stack + [res.value];
      r := Ok(());
    }

    /** `binary_op` on this context's stack. */
    method ApplyBinary(f: (Value, Value) -> Result<Value>) returns (r: Result<()>)
      modifies this
      ensures StackOutcome(stack, r) == BinaryOp(old(stack), f)
      ensures View() == old(View()).(stack := stack)
    {
      if |stack| < 2 {
        return Err(Message("Stack underflow for binary operation"));
      }
      var b := stack[|stack| - 1];
      stack := stack[..|stack| - 1];
      var a := stack[|stack| - 1];
      stack := stack[..|stack| - 1];
      var res := f(a, b);
      if res.Err? {
        return Err(res.error);
      }
      stack := stack + [res.value];
      r := Ok(());
    }

    /** The supervisor opcodes: pop a reference, look it up, push it back. */
    method ApplySupervisor(heap: Heap, underflow: string) returns (r: Result<()>)
      modifies this
      ensures Outcome(View(), heap.View(), r) == SupervisorOp(old(View()), heap.View(), underflow)
    {
      if stack == [] {
        return Err(Message(underflow));
      }
      var supRef := stack[|stack| - 1];
      stack := stack[..|stack| - 1];
      if supRef.Reference? {
        var obj := heap.GetMut(supRef.addr);
        if obj.Some? && obj.value.Supervisor? {
          stack := stack + [Reference(supRef.addr)];
          return Ok(());
        }
      }
      r := Err(Message("Invalid supervisor reference"));
    }

    /** The arms of `OpCode::execute` that go through `unary_op` and `binary_op`. */
    method ExecuteArithmetic(op: OpCode, ghost h: HeapState) returns (r: Result<()>)
      requires IsBinary(op) || op.Neg?
      modifies this
      ensures Outcome(View(), h, r) == Effect(op, old(View()), h)
    {
      match op {
        case Add => r := ApplyBinary(Values.Add);
        case Sub => r := ApplyBinary(Values.Sub);
        case Mul => r := ApplyBinary(Values.Mul);
        case Div => r := ApplyBinary(Values.Div);
        case Mod => r := ApplyBinary(Modulo);
        case Exp => r := ApplyBinary(Power);
        case Neg => r := ApplyUnary(Negate);
      }
    }

    /** The arms of `OpCode::execute` for the stack and the local slots. */
    method ExecuteStackOp(op: OpCode, ghost h: HeapState) returns (r: Result<()>)
      requires IsStackOp(op)
      modifies this
      ensures Outcome(View(), h, r) == Effect(op, old(View()), h)
    {
      var n := |stack|;
      match op {
        case PushConst(v) =>
          stack := stack + [v];
          r := Ok(());
        case Pop =>
          if n == 0 {
            r := Err(Message("Stack underflow"));
          } else {
            stack := stack[..n - 1];
            r := Ok(());
          }
        case Dup =>
          if n == 0 {
            r := Err(Message("Stack underflow"));
          } else {
            stack := stack + [stack[n - 1]];
            r := Ok(());
          }
        case Swap =>
          if n < 2 {
            r := Err(Message("Stack underflow for Swap"));
          } else {
            stack := stack[..n - 2] + [stack[n - 1], stack[n - 2]];
            r := Ok(());
          }
        case StoreVar(index) =>
          if n == 0 {
            r := Err(Message("Stack underflow for StoreVar"));
          } else {
            var value := stack[n - 1];
            stack := stack[..n - 1];
            locals := locals[index := value];
            r := Ok(());
          }
        case LoadVar(index) =>
          if index in locals {
            stack := stack + [locals[index]];
            r := Ok(());
          } else {
            r := Err(Message("Variable at index " + NatToString(index) + " not found"));
          }
      }
    }

    /** The control-flow arms of `OpCode::execute`. */
    method ExecuteControl(op: OpCode, ghost h: HeapState) returns (r: Result<()>)
      requires IsControl(op)
      modifies this
      ensures Outcome(View(), h, r) == Effect(op, old(View()), h)
    {
      match op {
        case Jump(target) =>
          ip := target;
          r := Ok(());
        case JumpIfFalse(target) =>
          var n := |stack|;
          if n > 0 {
            var v := stack[n - 1];
            stack := stack[..n - 1];
            if v == Boolean(false) {
              ip := target;
            }
          }
          r := Ok(());
        case Call(addr) =>
          callStack := callStack + [ip];
          ip := addr;
          r := Ok(());
        case Return =>
          if callStack == [] {
            r := Err(Message("Call stack underflow on Return"));
          } else {
            ip := callStack[|callStack| - 1];
            callStack := callStack[..|callStack| - 1];
            r := Ok(());
          }
      }
    }

    /** The `SpawnActor` and `SpawnSupervisor` arms of `OpCode::execute`. */
    method ExecuteSpawn(op: OpCode, heap: Heap) returns (r: Result<()>)
      requires IsSpawn(op) && heap.Valid()
      modifies this, heap
      ensures heap.Valid()
      ensures Outcome(View(), heap.View(), r) == Effect(op, old(View()), old(heap.View()))
    {
      var address := heap.Allocate(SpawnedObject(op, View()));
      stack := stack + [Reference(address)];
      r := Ok(());
    }

    /** `OpCode::execute`: carry out `op` on this context and `heap`. */
    method Execute(op: OpCode, heap: Heap) returns (r: Result<()>)
      requires heap.Valid()
      modifies this, heap
      ensures heap.Valid()
      ensures Outcome(View(), heap.View(), r) == Effect(op, old(View()), old(heap.View()))
    {
      if IsBinary(op) || op.Neg? {
        r := ExecuteArithmetic(op, heap.View());
      } else if IsStackOp(op) {
        r := ExecuteStackOp(op, heap.View());
      } else if IsControl(op) {
        r := ExecuteControl(op, heap.View());
      } else if IsSpawn(op) {
        r := ExecuteSpawn(op, heap);
      } else if op.SetStrategy? {
        r := ApplySupervisor(heap, "Stack underflow for SetStrategy");
      } else {
        r := ApplySupervisor(heap, "Stack underflow for RestartChild");
      }
    }

    /** `ExecutionContext::step`. */
    method Step(heap: Heap) returns (r: Result<()>)
      requires heap.Valid()
      modifies this, heap
      ensures heap.Valid()
      ensures Outcome(View(), heap.View(), r) == StepEffect(old(View()), old(heap.View()))
    {
      if ip >= |bytecode| {
        return Err(ExecutionOutOfBounds);
      }
      ghost var before, heapBefore := View(), heap.View();
      var opcode := bytecode[ip];
      ip := ip + 1;
      assert StepEffect(before, heapBefore) == Effect(opcode, View(), heapBefore);
      r := Execute(opcode, heap);
    }
  }

  // ---- Properties of a step ----

  /** A step with `ip` past the bytecode is `ExecutionOutOfBounds` and changes nothing. */
  lemma StepOutOfBounds(c: Context, h: HeapState)
    requires c.ip >= |c.bytecode|
    ensures StepEffect(c, h) == Outcome(c, h, Err(ExecutionOutOfBounds))
  {
  }

  /** A step runs the opcode at the old `ip` with `ip` already advanced, so every
      opcode other than the control-flow ones ends one past where it started. */
  lemma StepAdvancesIp(c: Context, h: HeapState)
    requires c.ip < |c.bytecode| && !IsControl(c.bytecode[c.ip])
    ensures StepEffect(c, h).ctx.ip == c.ip + 1
    ensures StepEffect(c, h).ctx.callStack == c.callStack
  {
    EffectKeepsIp(c.bytecode[c.ip], c.(ip := c.ip + 1), h);
  }

  /** A step never changes the bytecode and keeps the heap valid. */
  lemma StepFrame(c: Context, h: HeapState)
    ensures StepEffect(c, h).ctx.bytecode == c.bytecode
    ensures h.Valid() ==> StepEffect(c, h).heap.Valid()
  {
    if c.ip < |c.bytecode| {
      var op, c1 := c.bytecode[c.ip], c.(ip := c.ip + 1);
      assert StepEffect(c, h) == Effect(op, c1, h);
      EffectFrame(op, c1, h);
    }
  }

  /** A stepped `Call(t)` records the address just after itself and jumps to `t`. */
  lemma StepCallRecordsReturn(c: Context, h: HeapState, t: nat)
    requires c.ip < |c.bytecode| && c.bytecode[c.ip] == Call(t)
    ensures StepEffect(c, h) == Outcome(c.(ip := t, callStack := c.callStack + [c.ip + 1]), h, Ok(()))
  {
  }

  /** A `Call(t)` reached by stepping records the address just after it, so a
      `Return` at `t` resumes right after the `Call` with the call stack as before. */
  lemma StepCallThenReturn(c: Context, h: HeapState, t: nat)
    requires c.ip < |c.bytecode| && c.bytecode[c.ip] == Call(t)
    requires t < |c.bytecode| && c.bytecode[t] == Return
    ensures StepEffect(c, h).ctx.callStack == c.callStack + [c.ip + 1]
    ensures StepEffect(c, h).ctx.ip == t
    ensures StepEffect(StepEffect(c, h).ctx, h) == Outcome(c.(ip := c.ip + 1), h, Ok(()))
  {
    CallThenReturn(c.(ip := c.ip + 1), h, t);
    var c1 := StepEffect(c, h).ctx;
    assert c1 == c.(ip := t, callStack := c.callStack + [c.ip + 1]);
    assert StepEffect(c1, h) == Effect(Return, c1.(ip := t + 1), h);
  }
}
