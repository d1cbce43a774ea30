/** The VM: an execution context, a heap and the bytecode, with the run loop.
    The mailbox, the supervisor channel and the backend are not part of this model. */
module Vm {
  import opened Errors
  import opened Values
  import opened Instructions
  import opened Heaps
  import opened Opcodes
  import opened Execution

  /** How a run ends: `Finished` with what `run` returns, or `OutOfFuel` when the
      step bound given to the model ran out first. */
  datatype RunResult = Finished(result: Result<()>) | OutOfFuel

  datatype Final = Final(ctx: Context, heap: HeapState, result: RunResult)

  /** The `while ip < len { step }` loop over a step function `step`, stopping at
      the first failing step, and taking at most `fuel` steps. */
  function RunWith(step: (Context, HeapState) -> Outcome, c: Context, h: HeapState, fuel: nat): Final
    decreases fuel
  {
    if c.ip >= |c.bytecode| then Final(c, h, Finished(Ok(())))
    else if fuel == 0 then Final(c, h, OutOfFuel)
    else
      var o := step(c, h);
      if o.result.Err? then Final(o.ctx, o.heap, Finished(o.result))
      else RunWith(step, o.ctx, o.heap, fuel - 1)
  }

  /** The loop of `VM::run`, stepping with `ExecutionContext::step`. */
  function RunLoop(c: Context, h: HeapState, fuel: nat): Final {
    RunWith(StepEffect, c, h, fuel)
  }

  /** `VM::run` on values: empty bytecode is refused before any step. */
  function RunVm(c: Context, h: HeapState, fuel: nat): Final {
    if |c.bytecode| == 0 then Final(c, h, Finished(Err(Message("No bytecode to execute"))))
    else RunLoop(c, h, fuel)
  }

  class VM {
    var execution: ExecutionContext
    var heap: Heap
    var bytecode: seq<OpCode>

    ghost predicate Valid()
      reads this, execution, heap
    {
      execution.bytecode == bytecode && heap.Valid()
    }

    /** `VM::new`: a fresh context at `ip` 0 over the same bytecode, and an empty heap. */
    constructor (bytecode: seq<OpCode>)
      ensures Valid() && fresh(execution) && fresh(heap)
      ensures this.bytecode == bytecode
      ensures execution.View() == NewContext(bytecode)
      ensures heap.View() == EmptyHeap
    {
      execution := new ExecutionContext(bytecode);
      heap := new Heap();
      this.bytecode := bytecode;
    }

    /** `VM::stack`. */
    function Stack(): (s: seq<Value>)
      reads this, execution
      ensures s == execution.View().stack
    {
      execution.stack
    }

    /** `VM::run`, taking at most `fuel` steps. */
    method Run(fuel: nat) returns (r: RunResult)
      requires Valid()
      modifies execution, heap
      ensures Valid()
      ensures Final(execution.View(), heap.View(), r) == RunVm(old(execution.View()), old(heap.View()), fuel)
    {
      if |bytecode| == 0 {
        return Finished(Err(Message("No bytecode to execute")));
      }
      r := RunSteps(fuel);
    }

    /** The `while` loop of `VM::run`: step until `ip` leaves the bytecode or a step fails. */
    method RunSteps(fuel: nat) returns (r: RunResult)
      requires Valid()
      modifies execution, heap
      ensures Valid()
      ensures Final(execution.View(), heap.View(), r) == RunLoop(old(execution.View()), old(heap.View()), fuel)
    {
      var left := fuel;
      while execution.ip < |bytecode|
        invariant Valid()
        invariant RunLoop(execution.View(), heap.View(), left) == RunLoop(old(execution.View()), old(heap.View()), fuel)
        decreases left
      {
        if left == 0 {
          return OutOfFuel;
        }
        var res := StepOnce(left);
        if res.Err? {
          return Finished(res);
        }
        left := left - 1;
      }
      r := Finished(Ok(()));
    }

    /** One turn of the loop: a step, and what is left of the run after it. */
    method StepOnce(left: nat) returns (res: Result<()>)
      requires Valid() && execution.ip < |bytecode| && left > 0
      modifies execution, heap
      ensures Valid()
      ensures res.Err? ==>
                Final(execution.View(), heap.View(), Finished(res)) == RunLoop(old(execution.View()), old(heap.View()), left)
      ensures res.Ok? ==>
                RunLoop(execution.View(), heap.View(), left - 1) == RunLoop(old(execution.View()), old(heap.View()), left)
    {
      ghost var before, heapBefore := execution.View(), heap.View();
      res := execution.Step(heap);
      StepFrame(before, heapBefore);
      if res.Err? {
        RunStopsAtFirstError(StepEffect, before, heapBefore, left);
      } else {
        RunContinuesAfterOkStep(StepEffect, before, heapBefore, left);
      }
    }

    /** `VM::set_strategy`: only logs, so no state changes. */
    method SetStrategy(strategy: nat)
      ensures unchanged(this) && unchanged(execution) && unchanged(heap)
    {
    }

    /** `VM::restart_child`: only logs, so no state changes. */
    method RestartChild(child: nat)
      ensures unchanged(this) && unchanged(execution) && unchanged(heap)
    {
    }
  }

  // ---- Properties of a run ----

  /** A step function that never changes the bytecode. */
  ghost predicate KeepsBytecode(step: (Context, HeapState) -> Outcome) {
    forall c: Context, h: HeapState :: step(c, h).ctx.bytecode == c.bytecode
  }

  /** `ExecutionContext::step` never changes the bytecode. */
  lemma StepKeepsBytecode()
    ensures KeepsBytecode(StepEffect)
  {
    forall c: Context, h: HeapState
      ensures StepEffect(c, h).ctx.bytecode == c.bytecode
    {
      StepFrame(c, h);
    }
  }

  /** A run that finishes without error has moved `ip` past the end of the
      bytecode, which a step that keeps the bytecode leaves as it was. */
  lemma {:induction false} RunOkEndsPastBytecode(step: (Context, HeapState) -> Outcome, c: Context, h: HeapState, fuel: nat)
    requires KeepsBytecode(step)
    requires RunWith(step, c, h, fuel).result == Finished(Ok(()))
    ensures RunWith(step, c, h, fuel).ctx.ip >= |c.bytecode|
    ensures RunWith(step, c, h, fuel).ctx.bytecode == c.bytecode
    decreases fuel
  {
    if c.ip < |c.bytecode| && fuel > 0 {
      var o := step(c, h);
      assert o.ctx.bytecode == c.bytecode;
      RunOkEndsPastBytecode(step, o.ctx, o.heap, fuel - 1);
    }
  }

  /** A run of `VM::run` that returns `Ok` ends with `ip` past its unchanged bytecode. */
  lemma RunLoopOkEndsPastBytecode(c: Context, h: HeapState, fuel: nat)
    requires RunLoop(c, h, fuel).result == Finished(Ok(()))
    ensures RunLoop(c, h, fuel).ctx.ip >= |c.bytecode|
    ensures RunLoop(c, h, fuel).ctx.bytecode == c.bytecode
  {
    StepKeepsBytecode();
    RunOkEndsPastBytecode(StepEffect, c, h, fuel);
  }

  /** The run stops at the first step that fails and returns that step's error. */
  lemma RunStopsAtFirstError(step: (Context, HeapState) -> Outcome, c: Context, h: HeapState, fuel: nat)
    requires fuel > 0 && c.ip < |c.bytecode| && step(c, h).result.Err?
    ensures RunWith(step, c, h, fuel) == Final(step(c, h).ctx, step(c, h).heap, Finished(step(c, h).result))
  {
  }

  /** A step that succeeds lets the run go on from the new state with one step less. */
  lemma RunContinuesAfterOkStep(step: (Context, HeapState) -> Outcome, c: Context, h: HeapState, fuel: nat)
    requires fuel > 0 && c.ip < |c.bytecode| && step(c, h).result.Ok?
    ensures RunWith(step, c, h, fuel) == RunWith(step, step(c, h).ctx, step(c, h).heap, fuel - 1)
  {
  }

  /** Fuel only bounds the run: once a run has finished, more fuel changes nothing. */
  lemma {:induction false} RunFuelIrrelevant(step: (Context, HeapState) -> Outcome, c: Context, h: HeapState, fuel: nat, more: nat)
    requires RunWith(step, c, h, fuel).result.Finished?
    ensures RunWith(step, c, h, fuel + more) == RunWith(step, c, h, fuel)
    decreases fuel
  {
    if c.ip < |c.bytecode| && fuel > 0 {
      var o := step(c, h);
      if o.result.Ok? {
        RunFuelIrrelevant(step, o.ctx, o.heap, fuel - 1, more);
        assert fuel + more - 1 == fuel - 1 + more;
      }
    }
  }

  /** The run of a fresh VM over `code`, with an empty heap. */
  function Fresh(code: seq<OpCode>, fuel: nat): Final {
    RunVm(NewContext(code), EmptyHeap, fuel)
  }

  /** Empty bytecode is refused without a step. */
  lemma RunEmptyBytecode(fuel: nat)
    ensures Fresh([], fuel) == Final(NewContext([]), EmptyHeap, Finished(Err(Message("No bytecode to execute"))))
  {
  }

  /** `PushConst 5; PushConst 3; Add` finishes with `Integer(8)` on top of the stack. */
  lemma AddProgram(fuel: nat)
    requires fuel >= 3
    ensures Fresh([PushConst(Integer(5)), PushConst(Integer(3)), OpCode.Add], fuel).result == Finished(Ok(()))
    ensures Fresh([PushConst(Integer(5)), PushConst(Integer(3)), OpCode.Add], fuel).ctx.stack == [Integer(8)]
  {
    var code := [PushConst(Integer(5)), PushConst(Integer(3)), OpCode.Add];
    var c0 := NewContext(code);
    var c1 := c0.(stack := [Integer(5)], ip := 1);
    var c2 := c1.(stack := [Integer(5), Integer(3)], ip := 2);
    var c3 := c2.(stack := [Integer(8)], ip := 3);
    assert StepEffect(c0, EmptyHeap) == Outcome(c1, EmptyHeap, Ok(()));
    RunContinuesAfterOkStep(StepEffect, c0, EmptyHeap, fuel);
    assert StepEffect(c1, EmptyHeap) == Outcome(c2, EmptyHeap, Ok(()));
    RunContinuesAfterOkStep(StepEffect, c1, EmptyHeap, fuel - 1);
    BinaryOnTop(OpCode.Add, c2.(ip := 3), EmptyHeap, [], Integer(5), Integer(3));
    assert StepEffect(c2, EmptyHeap) == Outcome(c3, EmptyHeap, Ok(()));
    RunContinuesAfterOkStep(StepEffect, c2, EmptyHeap, fuel - 2);
  }

  /** `PushConst 4; PushConst 0; Div` stops with "Division by zero" and both
      operands popped. */
  lemma DivByZeroProgram(fuel: nat)
    requires fuel >= 3
    ensures Fresh([PushConst(Integer(4)), PushConst(Integer(0)), OpCode.Div], fuel).result
            == Finished(Err(Message("Division by zero")))
    ensures Fresh([PushConst(Integer(4)), PushConst(Integer(0)), OpCode.Div], fuel).ctx.stack == []
  {
    var code := [PushConst(Integer(4)), PushConst(Integer(0)), OpCode.Div];
    var c0 := NewContext(code);
    var c1 := c0.(stack := [Integer(4)], ip := 1);
    var c2 := c1.(stack := [Integer(4), Integer(0)], ip := 2);
    assert StepEffect(c0, EmptyHeap) == Outcome(c1, EmptyHeap, Ok(()));
    RunContinuesAfterOkStep(StepEffect, c0, EmptyHeap, fuel);
    assert StepEffect(c1, EmptyHeap) == Outcome(c2, EmptyHeap, Ok(()));
    RunContinuesAfterOkStep(StepEffect, c1, EmptyHeap, fuel - 1);
    BinaryOnTop(OpCode.Div, c2.(ip := 3), EmptyHeap, [], Integer(4), Integer(0));
    RunStopsAtFirstError(StepEffect, c2, EmptyHeap, fuel - 2);
  }

  /** `Pop` on an empty stack, and `PushConst 1; Swap`, stop with their underflow errors. */
  lemma UnderflowPrograms(fuel: nat)
    requires fuel >= 2
    ensures Fresh([Pop], fuel).result == Finished(Err(Message("Stack underflow")))
    ensures Fresh([PushConst(Integer(1)), Swap], fuel).result == Finished(Err(Message("Stack underflow for Swap")))
  {
    var code := [PushConst(Integer(1)), Swap];
    var c1 := NewContext(code).(stack := [Integer(1)], ip := 1);
    assert StepEffect(NewContext(code), EmptyHeap) == Outcome(c1, EmptyHeap, Ok(()));
    RunContinuesAfterOkStep(StepEffect, NewContext(code), EmptyHeap, fuel);
  }

  /** `Jump` and `Call` past the end of the bytecode end the run normally: the loop
      test fails before `step` could report `ExecutionOutOfBounds`. */
  lemma JumpPastEndFinishes(t: nat, fuel: nat)
    requires t >= 1 && fuel >= 1
    ensures Fresh([Jump(t)], fuel) == Final(NewContext([Jump(t)]).(ip := t), EmptyHeap, Finished(Ok(())))
    ensures Fresh([Call(t)], fuel) == Final(NewContext([Call(t)]).(ip := t, callStack := [1]), EmptyHeap, Finished(Ok(())))
  {
    var j := NewContext([Jump(t)]);
    assert StepEffect(j, EmptyHeap) == Outcome(j.(ip := t), EmptyHeap, Ok(()));
    RunContinuesAfterOkStep(StepEffect, j, EmptyHeap, fuel);
    var k := NewContext([Call(t)]);
    assert StepEffect(k, EmptyHeap) == Outcome(k.(ip := t, callStack := [1]), EmptyHeap, Ok(()));
    RunContinuesAfterOkStep(StepEffect, k, EmptyHeap, fuel);
  }

  /** A taken `JumpIfFalse` past the end ends the run normally too. */
  lemma JumpIfFalsePastEndFinishes(t: nat, fuel: nat)
    requires t >= 2 && fuel >= 2
    ensures Fresh([PushConst(Boolean(false)), JumpIfFalse(t)], fuel).result == Finished(Ok(()))
    ensures Fresh([PushConst(Boolean(false)), JumpIfFalse(t)], fuel).ctx.ip == t
  {
    var code := [PushConst(Boolean(false)), JumpIfFalse(t)];
    var b0 := NewContext(code);
    var b1 := b0.(stack := [Boolean(false)], ip := 1);
    assert StepEffect(b0, EmptyHeap) == Outcome(b1, EmptyHeap, Ok(()));
    RunContinuesAfterOkStep(StepEffect, b0, EmptyHeap, fuel);
    assert StepEffect(b1, EmptyHeap) == Outcome(b1.(stack := [], ip := t), EmptyHeap, Ok(()));
    RunContinuesAfterOkStep(StepEffect, b1, EmptyHeap, fuel - 1);
  }

  /** A lone `SpawnActor(t)` or `SpawnSupervisor(t)` finishes normally whatever `t`
      is: the entry point only goes into the spawned VM, whose loop never runs. */
  lemma SpawnFinishes(t: nat, fuel: nat)
    requires fuel >= 1
    ensures Fresh([SpawnActor(t)], fuel).result == Finished(Ok(()))
    ensures Fresh([SpawnSupervisor(t)], fuel).result == Finished(Ok(()))
  {
    var a := NewContext([SpawnActor(t)]);
    assert StepEffect(a, EmptyHeap).ctx.ip == 1 by { StepAdvancesIp(a, EmptyHeap); }
    RunContinuesAfterOkStep(StepEffect, a, EmptyHeap, fuel);
    var u := NewContext([SpawnSupervisor(t)]);
    assert StepEffect(u, EmptyHeap).ctx.ip == 1 by { StepAdvancesIp(u, EmptyHeap); }
    RunContinuesAfterOkStep(StepEffect, u, EmptyHeap, fuel);
  }

  /** `Jump(0)` as the whole program never leaves the loop: every step succeeds and
      leaves the context as it was, so no amount of fuel finishes the run. */
  lemma {:induction false} JumpToSelfRunsForever(fuel: nat)
    ensures RunLoop(NewContext([Jump(0)]), EmptyHeap, fuel).result == OutOfFuel
    ensures Fresh([Jump(0)], fuel).result == OutOfFuel
    decreases fuel
  {
    var c0 := NewContext([Jump(0)]);
    if fuel > 0 {
      assert StepEffect(c0, EmptyHeap) == Outcome(c0, EmptyHeap, Ok(()));
      JumpToSelfRunsForever(fuel - 1);
    }
  }

  /** The crate's own arithmetic test: build a VM over `PushConst 5; PushConst 3; Add`,
      run it, and read the last value of its stack. */
  method BasicArithmetic() returns (r: RunResult, top: Option<Value>)
    ensures r == Finished(Ok(()))
    ensures top == Some(Integer(8))
  {
    var code := [PushConst(Integer(5)), PushConst(Integer(3)), OpCode.Add];
    var vm := new VM(code);
    r := vm.Run(3);
    AddProgram(3);
    var s := vm.Stack();
    top := if s == [] then None else Some(s[|s| - 1]);
  }
}
