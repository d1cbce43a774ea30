# raft-vm interpreter core in Dafny

raft-vm is a stack-based virtual machine written in Rust. A program is a sequence of
opcodes. Each VM owns three things:

- an **execution context**: operand stack, numbered local slots, instruction pointer,
  call stack of return addresses, and the bytecode;
- a **heap**: an arena of objects keyed by address, with a counter for the next
  address;
- the **bytecode**.

`VM::run` steps the context until the instruction pointer leaves the bytecode or a
step fails. `ExecutionContext::step` fetches the opcode at `ip`, advances `ip` by
one, and then runs the opcode, so a jump overrides that advance.
`OpCode::execute` does the work of each opcode, through two helpers: `unary_op` and
`binary_op`. The arithmetic itself is `Value::add`/`sub`/`mul`/`div`, together with
closures for `Neg`, `Mod` and `Exp`.

This project models that core. It has two layers:

- **Pure specification functions** in `Values`, `Opcodes`, `Execution` and `Vm`:
  - `Effect`: what one opcode does to a `Context` value and a `HeapState` value;
  - `StepEffect`: what one step does;
  - `RunWith`: the run loop over any step function; `RunLoop` and `RunVm`: what a
    run of `VM::run` does.
- **Imperative classes** that mirror the Rust structs and update their fields in
  place:
  - `Heaps.Heap`;
  - `Execution.ExecutionContext` (which holds the dispatcher `Execute`);
  - `Vm.VM`.

  Each method is proved to agree with the specification function for it. Lemmas state
  what the source promises about the functions: stack discipline, error cases,
  round trips (Swap twice, StoreVar then LoadVar, Call then Return), the heap frame,
  and how a run ends.

Modules and files:

| file | module | models |
|---|---|---|
| errors.dfy | `Errors` | `VmError`, and the `Result`/`Option` wrappers |
| value.dfy | `Values` | i32, `Value`, the four arithmetic methods, truncating division |
| instructions.dfy | `Instructions` | the `OpCode` enum |
| heap.dfy | `Heaps` | `HeapObject`, `Heap` |
| opcodes.dfy | `Opcodes` | `unary_op`, `binary_op`, the opcode closures, the semantics of `execute` |
| execution.dfy | `Execution` | `ExecutionContext`, `execute`, `step` |
| vm.dfy | `Vm` | `VM`, `run`, `stack`, `set_strategy`, `restart_child` |

`OpCode::execute` is the method `Execution.ExecutionContext.Execute`. It is not
placed beside `OpCode`, because the opcode module would then have to import the
context module, and the context module imports the opcode module.

Modelling decisions:

- **Integers.** `i32` is the subset type `I32`. Integer overflow is what a debug build
  of the crate does: a panic. The model returns it as the error value
  `VmError.Panic(msg)`, where `msg` is Rust's own panic message. Rust's `/` and `%`
  round toward zero; `TruncDiv` and `TruncRem` write this out, because Dafny's
  operators are Euclidean.
- **`Exp`.** `x.pow(y as u32)` reinterprets a negative `y` as `y + 2^32`. Rust's
  `i32::pow` squares the base only while exponent bits remain, so every
  intermediate product is at most the final power in magnitude, and it panics
  exactly when the final power leaves the i32 range. `Opcodes.Power` states exactly
  that.
- **`ExecutionOutOfBounds`.** `step` returns `VmError::ExecutionOutOfBounds`
  (src/vm/execution.rs:39), but src/vm/error.rs declares only `Message`. The model
  follows `step` and adds the variant.
- **Spawned VMs.** `VM::new` is called with two arguments at src/vm/opcodes.rs:188,
  but declared with three (src/vm/vm.rs:22-26). `HeapObject::Actor` and
  `HeapObject::Supervisor` are declared with one field (src/vm/heap.rs:30-31), but
  the opcodes use three: `Actor(vm, tx, 1)` is built at src/vm/opcodes.rs:190 and
  `Supervisor(vm, tx, 1)` at :220, and the patterns `Actor(_actor_vm, sender, _)`
  at :204 and `Supervisor(vm, _, _)` at :230 and :248 match three fields.
  Both spawn arms also call `vm.set_ip(...)` on the new `VM` (src/vm/opcodes.rs:189
  and :219), but `VM` declares no such method (src/vm/vm.rs:21-70). The model reads
  the call as setting the starting `ip` of the spawned VM's context. It follows the
  declarations: an `Actor` or `Supervisor` object holds one VM, given as its
  bytecode and starting `ip` (`Heaps.VmImage`).
- **`run`'s error type.** `VM::run` is declared to return `Result<(), String>`
  (src/vm/vm.rs:42), but it returns `step`'s `VmError` unchanged (src/vm/vm.rs:51),
  which does not convert to `String`. The model's `Vm.VM.Run` returns the
  `VmError`.
- **Code versus tests.** Where the crate's tests expect something the code does not
  do, the model follows the code:
  - tests/vm_errors.rs:34-90 expects `ExecutionOutOfBounds` after a jump, call or
    spawn past the end. In the code, the loop test in `run` (src/vm/vm.rs:48) stops
    first, so the run returns `Ok` (`Vm.JumpPastEndFinishes`,
    `Vm.JumpIfFalsePastEndFinishes`, `Vm.SpawnFinishes`).
  - tests/jump_if_false.rs:8-29 expects `JumpIfFalse` to fail on a non-Boolean or an
    empty stack. In the code it never fails: it pops the value when there is one,
    and jumps only on `Boolean(false)` (`Opcodes.JumpIfFalseBehaviour`).

## Model

| member | source | states |
|---|---|---|
| Values.TruncDiv | src/vm/value.rs:47 | Rust's `/` on integers, rounding toward zero. Its meaning comes from the lemmas that cite it: `Values.TruncDivCorrect` ties it to the independent predicate `IsTruncQuotient`, and `Values.TruncQuotientUnique` shows that predicate has one solution. |
| Values.TruncRem | src/vm/opcodes.rs:142 | Rust's `%` on integers: the remainder of `TruncDiv`, with the dividend's sign. Its meaning comes from `Opcodes.Modulo`'s contract and `Values.TruncDivCorrect`. |
| Values.Checked | src/vm/value.rs:16-38 | The overflow check a debug build makes on `a + b`, `a - b` and `a * b`: the exact value when it fits i32, and otherwise the given overflow panic, both directions. `Values.Add`, `Values.Sub`, `Values.Mul`, `Opcodes.Negate` and `Opcodes.Power` are stated through it. |
| Values.Add | src/vm/value.rs:16-22 | Two Integers give their sum when it fits i32, and otherwise the add-overflow panic. Two Floats give a Float. Any other pair is "Type mismatch for Add". |
| Values.Sub | src/vm/value.rs:24-30 | Same case split as Add, for the difference and the subtract-overflow panic. The mismatch error is "Type mismatch for Sub". |
| Values.Mul | src/vm/value.rs:32-38 | Same case split as Add, for the product and the multiply-overflow panic. The mismatch error is "Type mismatch for Mul". |
| Values.Div | src/vm/value.rs:40-63 | An Integer divisor of 0 gives "Division by zero". Otherwise the result is an Integer satisfying the independent truncated-quotient predicate. `I32_MIN / -1` gives the divide-overflow panic. Two Floats give a Float. Any other pair is "Type mismatch for Div". |
| Values.TruncDivCorrect | src/vm/value.rs:47 | For every non-zero divisor, `TruncDiv` is a quotient rounded toward zero. Its remainder is smaller than the divisor in magnitude, and is zero or has the dividend's sign. |
| Values.TruncQuotientUnique | src/vm/value.rs:47 | At most one quotient satisfies the truncation predicate, so the predicate fixes Rust's `/` completely. |
| Values.TruncDivInRange | src/vm/value.rs:47 | The truncated quotient of two i32 values fits i32, except for `I32_MIN / -1`. |
| Values.AddMulCommutative | src/vm/value.rs:16-38 | `add` and `mul` give the same result, value or error, for either operand order. |
| Values.ArithmeticNeedsMatchingNumbers | src/vm/value.rs:16-63 | Each operation reports its type-mismatch error if and only if its operands are neither both Integer nor both Float. There is no Integer-to-Float promotion. |
| Heaps.IsAlive | src/vm/heap.rs:73-75 | `HeapObject::is_alive`, which accepts every object. `Heaps.Collect` is stated against it, and `Heaps.CollectIsIdentity` shows that collection therefore removes nothing. |
| Heaps.Alloc | src/vm/heap.rs:42-48 | `Heap::allocate` on values. Its meaning comes from the lemmas that cite it: `Heaps.AllocFresh`, `Heaps.AllocThenLookup`, `Heaps.AllocKeepsOthers` and `Heaps.AllocIncreasing`. `Heaps.Heap.Allocate` is proved equal to it. |
| Heaps.Lookup | src/vm/heap.rs:50-57 | The lookup finds an object exactly when the address is stored, and then returns the stored object. |
| Heaps.Collect | src/vm/heap.rs:67-69 | Collection keeps exactly the objects `is_alive` accepts, unchanged, and leaves the address counter alone. |
| Heaps.EmptyHeapValid | src/vm/heap.rs:35-40 | A new heap holds nothing, is valid, and finds nothing at address 0. |
| Heaps.AllocFresh | src/vm/heap.rs:42-48 | `allocate` returns the old counter, which was not stored yet. It bumps the counter by one and keeps the heap valid. |
| Heaps.AllocThenLookup | src/vm/heap.rs:42-57 | The object just allocated is found at the returned address. |
| Heaps.AllocKeepsOthers | src/vm/heap.rs:42-48 | `allocate` leaves every earlier entry as it was. |
| Heaps.AllocIncreasing | src/vm/heap.rs:42-48 | Consecutive allocations return strictly increasing addresses. |
| Heaps.CollectOnlyRemoves | src/vm/heap.rs:67-69 | Collection never adds an address, and keeps the heap valid. |
| Heaps.CollectIsIdentity | src/vm/heap.rs:67-76 | With the placeholder `is_alive`, collection leaves the heap exactly as it was. |
| Heaps.Heap.constructor | src/vm/heap.rs:35-40 | The new heap is the empty, valid heap. |
| Heaps.Heap.Allocate | src/vm/heap.rs:42-48 | Updates the map and counter in place, as `Alloc` specifies. Returns the old counter, which was not stored, and keeps the heap valid. |
| Heaps.Heap.Get | src/vm/heap.rs:50-57 | Some stored object exactly when the address is in the map, and then the stored object. |
| Heaps.Heap.GetMut | src/vm/heap.rs:63-65 | Finds the same object as `get`. |
| Heaps.Heap.CollectGarbage | src/vm/heap.rs:67-69 | Replaces the map in place with the one `Collect` specifies, and keeps the heap valid. |
| Opcodes.NewContext | src/vm/execution.rs:22-30 | `ExecutionContext::new` on values: empty stack, locals and call stack, `ip` 0, over the given bytecode. `Execution.ExecutionContext.constructor` and `Vm.VM.constructor` are proved to build it. |
| Opcodes.NatToString | src/vm/opcodes.rs:134 | `format!("{}", index)`: the decimal digits of the index, most significant first. It builds the message `Opcodes.VariableErrors` states for a missing local. |
| Opcodes.AsU32 | src/vm/opcodes.rs:148 | `y as u32`: the two's-complement bits of an i32 read as unsigned, so a negative `y` becomes `y + 2^32`. `Opcodes.Power` and `Opcodes.NegativeExponentOverflows` are stated through it. |
| Opcodes.Pow | src/vm/opcodes.rs:148 | The mathematical power `i32::pow` computes before its overflow check. `Opcodes.PowGrows` bounds it, and `Opcodes.Power` panics exactly when it leaves i32. |
| Opcodes.UnaryOp | src/vm/opcodes.rs:10-22 | `unary_op` on values: pop one value, apply the function, and push its result, or fail with its error or with the unary underflow error. Its meaning comes from `Opcodes.NegOnTop`, `Opcodes.NegUnderflow` and `Execution.ExecutionContext.ApplyUnary`. |
| Opcodes.BinaryOp | src/vm/opcodes.rs:24-37 | `binary_op` on values: pop `b`, then `a`, and push `f(a, b)`, or fail with its error or with the binary underflow error. Its meaning comes from `Opcodes.BinaryOnTop`, `Opcodes.BinaryUnderflow` and `Execution.ExecutionContext.ApplyBinary`. |
| Opcodes.SupervisorOp | src/vm/opcodes.rs:224-258 | The `SetStrategy` and `RestartChild` arms on values: the underflow error on an empty stack, and otherwise pop a value and push it back when it refers to a supervisor, or fail with "Invalid supervisor reference". `Opcodes.SupervisorUnderflow` and `Opcodes.SupervisorOps` state its cases, and `Execution.ExecutionContext.ApplySupervisor` is proved equal to it. |
| Opcodes.SpawnedObject | src/vm/opcodes.rs:186-223 | The object the two spawn arms store: an `Actor` or a `Supervisor` holding a new VM over the same bytecode, started at the entry point. `Opcodes.SpawnAllocates` states what it builds. |
| Opcodes.Effect | src/vm/opcodes.rs:78-261 | `OpCode::execute` on values: the context, heap and result after one opcode, with `ip` already advanced. Its meaning comes from the per-opcode lemmas below, from `Opcodes.EffectFrame` and `Opcodes.EffectKeepsHeapEntries`, and from `Execution.ExecutionContext.Execute`, which is proved equal to it. |
| Opcodes.Negate | src/vm/opcodes.rs:89-93 | An Integer is negated, and `I32_MIN` gives the negate-overflow panic. A Float stays a Float. Anything else is "Cannot negate non-numeric value". |
| Opcodes.Modulo | src/vm/opcodes.rs:137-146 | A zero divisor gives "Modulo by zero". Otherwise the result is the remainder of the truncated quotient, which is zero or has the dividend's sign. `I32_MIN % -1` gives the remainder-overflow panic. Anything but two Integers is "Type mismatch for Mod". |
| Opcodes.Power | src/vm/opcodes.rs:147-151 | Two Integers give `x` to the power `y as u32` when that fits i32, and otherwise the multiply-overflow panic. Two Floats give a Float. Any other pair is "Type mismatch for Exp". |
| Opcodes.PowGrows | src/vm/opcodes.rs:148 | For a base of magnitude at least 2, the power's magnitude exceeds its exponent. |
| Opcodes.NegativeExponentOverflows | src/vm/opcodes.rs:148 | A negative exponent becomes at least 2^31 under the cast, so `Exp` panics for every base other than -1, 0 and 1. |
| Opcodes.BinaryUnderflow | src/vm/opcodes.rs:24-31 | A binary opcode on fewer than two values fails with "Stack underflow for binary operation" and changes nothing. |
| Opcodes.BinaryOnTop | src/vm/opcodes.rs:24-37 | Each binary opcode on `s + [a, b]` applies its operation to `(a, b)`, in that order. It leaves `s + [result]`, or `s` and the operation's error. Only the stack changes. |
| Opcodes.BinaryAfterTwoPushes | src/vm/opcodes.rs:85-97 | On any stack, pushing `x` and then `y` and running a binary opcode computes `f(x, y)`, with the first push as the left operand. The whole outcome is the old context with `f(x, y)` pushed and `Ok`, or, when `f` fails, the old context unchanged with `f`'s error. |
| Opcodes.NegOnTop | src/vm/opcodes.rs:10-22 | `Neg` on `s + [v]` leaves `s + [negation]`, or `s` and the negation's error. The failed operand stays popped. |
| Opcodes.NegUnderflow | src/vm/opcodes.rs:10-22 | `Neg` on an empty stack fails with "Stack underflow for unary operation" and changes nothing. |
| Opcodes.StackUnderflows | src/vm/opcodes.rs:98-120 | `Pop` and `Dup` on an empty stack fail with "Stack underflow", and `Swap` on fewer than two values fails with "Stack underflow for Swap". None of these changes anything. |
| Opcodes.PopDupOnTop | src/vm/opcodes.rs:98-112 | On `s + [v]`, `Pop` leaves `s` and `Dup` leaves `s + [v, v]`. |
| Opcodes.SwapOnTop | src/vm/opcodes.rs:113-120 | `Swap` on `s + [a, b]` leaves `s + [b, a]`, and nothing else changes. |
| Opcodes.SwapTwice | src/vm/opcodes.rs:113-120 | Two `Swap`s restore the original context. |
| Opcodes.StoreThenLoad | src/vm/opcodes.rs:121-136 | `StoreVar(i)` moves the top value into slot `i`, and a following `LoadVar(i)` pushes it back. |
| Opcodes.VariableErrors | src/vm/opcodes.rs:121-136 | `StoreVar` on an empty stack, and `LoadVar` of a slot never stored, fail with the source's messages and change nothing. The `LoadVar` message includes the index in decimal. |
| Opcodes.JumpIfFalseBehaviour | src/vm/opcodes.rs:156-161 | `JumpIfFalse(t)` always succeeds and pops one value when there is one. It jumps to `t` exactly when that value is `Boolean(false)`. The locals, call stack and heap stay as they were. |
| Opcodes.CallThenReturn | src/vm/opcodes.rs:162-174 | `Call(t)` pushes the current `ip` and jumps to `t`. A `Return` right after it restores the context exactly. |
| Opcodes.ReturnUnderflow | src/vm/opcodes.rs:167-174 | `Return` with an empty call stack fails with "Call stack underflow on Return" and changes nothing. |
| Opcodes.SpawnAllocates | src/vm/opcodes.rs:186-193 | `SpawnActor(e)`, and likewise `SpawnSupervisor(e)` (lines 216-223), stores a VM over the same bytecode started at `e`. It goes at the next, unused address, and a reference to it is pushed. |
| Opcodes.SupervisorUnderflow | src/vm/opcodes.rs:224-246 | On an empty stack, `SetStrategy` fails with "Stack underflow for SetStrategy" and `RestartChild` with "Stack underflow for RestartChild". Neither changes anything. |
| Opcodes.SupervisorOps | src/vm/opcodes.rs:224-258 | `SetStrategy` and `RestartChild` leave everything unchanged exactly when the popped value refers to a supervisor. Otherwise the value stays popped, with "Invalid supervisor reference". |
| Opcodes.EffectFrame | src/vm/opcodes.rs:78-261 | No opcode changes the bytecode, and every opcode keeps a valid heap valid. |
| Opcodes.EffectKeepsHeapEntries | src/vm/opcodes.rs:78-261 | No opcode removes or rewrites an entry of a valid heap: every stored address is found with the same object afterwards. |
| Opcodes.EffectKeepsIp | src/vm/opcodes.rs:84-261 | Only `Jump`, `JumpIfFalse`, `Call` and `Return` change `ip` or the call stack. |
| Execution.StepEffect | src/vm/execution.rs:32-47 | `ExecutionContext::step` on values: the bounds check, then `Effect` with `ip` advanced. Its meaning comes from `Execution.StepOutOfBounds`, `Execution.StepAdvancesIp`, `Execution.StepFrame` and `Execution.StepCallRecordsReturn`. `Execution.ExecutionContext.Step` is proved equal to it. |
| Execution.ExecutionContext.Ip | src/vm/execution.rs:49-51 | `ExecutionContext::ip`: reads the instruction pointer. `Execution.ExecutionContext.SetIp` states that it reads back the value just set. |
| Execution.ExecutionContext.constructor | src/vm/execution.rs:22-30 | Empty stack, locals and call stack, `ip` 0, and the given bytecode. |
| Execution.ExecutionContext.SetIp | src/vm/execution.rs:49-55 | A following `ip()` reads back the value set, and nothing else changes. |
| Execution.ExecutionContext.ApplyUnary | src/vm/opcodes.rs:10-22 | Updates the stack in place as `UnaryOp` specifies, and touches no other field. |
| Execution.ExecutionContext.ApplyBinary | src/vm/opcodes.rs:24-37 | Updates the stack in place as `BinaryOp` specifies, and touches no other field. |
| Execution.ExecutionContext.ApplySupervisor | src/vm/opcodes.rs:224-258 | Carries out the supervisor opcodes in place, as `SupervisorOp` specifies. |
| Execution.ExecutionContext.ExecuteArithmetic | src/vm/opcodes.rs:85-151 | The `Add`, `Sub`, `Mul`, `Div`, `Mod`, `Exp` and `Neg` arms update the context in place as `Effect` specifies. |
| Execution.ExecutionContext.ExecuteStackOp | src/vm/opcodes.rs:94-136 | The `PushConst`, `Pop`, `Dup`, `Swap`, `StoreVar` and `LoadVar` arms update the context in place as `Effect` specifies. |
| Execution.ExecutionContext.ExecuteControl | src/vm/opcodes.rs:152-174 | The `Jump`, `JumpIfFalse`, `Call` and `Return` arms update the context in place as `Effect` specifies. |
| Execution.ExecutionContext.ExecuteSpawn | src/vm/opcodes.rs:186-223 | The two spawn arms allocate on the heap and push the reference as `Effect` specifies, keeping the heap valid. |
| Execution.ExecutionContext.Execute | src/vm/opcodes.rs:78-261 | For all 21 modelled opcodes, the new context, heap and result are those `Effect` gives for the old ones. The heap stays valid. |
| Execution.ExecutionContext.Step | src/vm/execution.rs:32-47 | The new context, heap and result are those `StepEffect` gives: out of bounds is `ExecutionOutOfBounds`; otherwise the opcode runs after `ip` is advanced. |
| Execution.StepOutOfBounds | src/vm/execution.rs:37-40 | A step with `ip` past the bytecode returns `ExecutionOutOfBounds` and changes nothing. |
| Execution.StepAdvancesIp | src/vm/execution.rs:42-46 | A step over any opcode other than the four control-flow ones moves `ip` forward by exactly one, and keeps the call stack. |
| Execution.StepFrame | src/vm/execution.rs:42-46 | A step never changes the bytecode, and keeps a valid heap valid. |
| Execution.StepCallRecordsReturn | src/vm/execution.rs:42-46 | Stepping a `Call(t)` succeeds. It jumps to `t` and pushes the address just after the `Call`, whatever the bytecode holds at `t`. Nothing else changes. |
| Execution.StepCallThenReturn | src/vm/execution.rs:42-46 | A stepped `Call(t)` records the address after itself. A `Return` at `t` then resumes right after the `Call`, with the call stack as before. |
| Vm.RunWith | src/vm/vm.rs:48-55 | The loop of `VM::run` over any step function, with a step bound: it stops with `Ok` when `ip` leaves the bytecode and with the first error. Its meaning comes from `Vm.RunStopsAtFirstError`, `Vm.RunContinuesAfterOkStep`, `Vm.RunOkEndsPastBytecode` and `Vm.RunFuelIrrelevant`. |
| Vm.RunLoop | src/vm/vm.rs:48-55 | `Vm.RunWith` over `StepEffect`, the loop `VM::run` runs. `Vm.VM.RunSteps` is proved equal to it. |
| Vm.RunVm | src/vm/vm.rs:42-56 | `VM::run` on values: "No bytecode to execute" on empty bytecode, and otherwise `Vm.RunLoop`. `Vm.VM.Run` is proved equal to it, and `Vm.RunEmptyBytecode` states the empty case. |
| Vm.VM.constructor | src/vm/vm.rs:22-40 | A fresh context over the bytecode, with `ip` 0, and an empty heap. |
| Vm.VM.Stack | src/vm/vm.rs:58-61 | The execution context's operand stack. |
| Vm.VM.Run | src/vm/vm.rs:42-56 | The context, heap and result after the run are those `RunVm` gives. Empty bytecode is refused; otherwise the loop runs. |
| Vm.VM.RunSteps | src/vm/vm.rs:48-55 | The `while` loop leaves the context, heap and result that `RunLoop` gives. It steps while `ip` is inside the bytecode, and stops at the first error. |
| Vm.VM.StepOnce | src/vm/vm.rs:49-52 | One turn of the loop: after a failing step, the run is over with that error. After a successful step, the rest of the run is the run from the new state with one step less. |
| Vm.VM.SetStrategy | src/vm/vm.rs:63-65 | Changes no state; in the source it only logs. |
| Vm.VM.RestartChild | src/vm/vm.rs:67-69 | Changes no state; in the source it only logs. |
| Vm.StepKeepsBytecode | src/vm/execution.rs:32-47 | No step, from any context and heap, changes the bytecode. |
| Vm.RunOkEndsPastBytecode | src/vm/vm.rs:48-55 | For any step function that keeps the bytecode, a run that returns `Ok` has left `ip` at or past the end of the bytecode, and the bytecode is unchanged. |
| Vm.RunLoopOkEndsPastBytecode | src/vm/vm.rs:48-55 | The same for the loop of `VM::run`: a run that returns `Ok` ends with `ip` past its unchanged bytecode. |
| Vm.RunStopsAtFirstError | src/vm/vm.rs:49-52 | For any step function, the run returns the first failing step's error, in the state that step left. |
| Vm.RunContinuesAfterOkStep | src/vm/vm.rs:48-53 | For any step function, after a successful step the run goes on from the state that step left. |
| Vm.RunFuelIrrelevant | src/vm/vm.rs:48-55 | For any step function, once a run has finished, more fuel gives the same outcome. The fuel bound only cuts off runs that go on for ever. |
| Vm.RunEmptyBytecode | src/vm/vm.rs:43-46 | Empty bytecode is refused with "No bytecode to execute" before any step. |
| Vm.AddProgram | src/vm/vm.rs:77-89 | `PushConst 5; PushConst 3; Add` finishes with `Ok` and the stack `[Integer(8)]`. |
| Vm.DivByZeroProgram | tests/vm_errors.rs:3-13 | `PushConst 4; PushConst 0; Div` stops with "Division by zero", with both operands popped. |
| Vm.UnderflowPrograms | tests/vm_errors.rs:15-32 | `Pop` alone stops with "Stack underflow". `PushConst 1; Swap` stops with "Stack underflow for Swap". |
| Vm.JumpPastEndFinishes | src/vm/vm.rs:48 | `Jump(t)` or `Call(t)` to `t` past the end of the bytecode ends the run with `Ok`, at `ip` = `t`. |
| Vm.JumpIfFalsePastEndFinishes | src/vm/vm.rs:48 | A taken `JumpIfFalse` past the end ends the run with `Ok`. |
| Vm.SpawnFinishes | src/vm/vm.rs:48 | A lone `SpawnActor(t)` or `SpawnSupervisor(t)` finishes with `Ok`, whatever `t` is. |
| Vm.JumpToSelfRunsForever | src/vm/vm.rs:48-53 | `Jump(0)` as the whole program never finishes, for any amount of fuel. |
| Vm.BasicArithmetic | src/vm/mod.rs:25-37 | Building a VM over `PushConst 5; PushConst 3; Add` and running it returns `Ok`, and the top of its stack is `Integer(8)`. |

## Left out

- `SendMessage` and `ReceiveMessage` (src/vm/opcodes.rs:175-184, 194-215) are not modelled: they await an asynchronous tokio channel. The `OpCode` datatype omits them.
- The mailbox parameter of `step` and `execute` is not modelled, nor are the `mailbox`, `supervisor` and `backend` fields of `VM`. They are channel ends and a backend handle that no modelled opcode uses.
- Float arithmetic is not modelled. A `Float` is a tag without its `f64` value, so two Floats combine to a Float.
- Values.Div: does not detect the Float divisor `0.0` (src/vm/value.rs:51-53), because a Float carries no value. `Float / Float` is always `Ok(Float)`.
- Values.Add: models integer overflow as a debug build does, as the `Panic` error value. A release build wraps around instead, and a real panic unwinds rather than returning. The same holds for Values.Sub, Values.Mul, Opcodes.Negate and Opcodes.Power. Values.Div and Opcodes.Modulo are not affected by the build: Rust checks `i32::MIN / -1` (src/vm/value.rs:47) and `i32::MIN % -1` (src/vm/opcodes.rs:142) in every build, so both always panic, as the model says. Only the unwinding is outside the model for them.
- `usize` addresses, indices and the instruction pointer are unbounded `nat`. Overflow of the `next_address` counter is not modelled.
- `Heap::is_alive` (src/vm/heap.rs:59-61) is not modelled: it is an unused placeholder that returns `true`. `HeapObject::is_alive` is `Heaps.IsAlive`.
- `ExecutionContext::locals` and `locals_mut` (src/vm/execution.rs:57-63) are not modelled: they are plain accessors, which the model replaces with direct field access.
- Heaps.Heap.GetMut: returns the object rather than a mutable borrow into the heap. Its only callers pass the object to `set_strategy`/`restart_child`, which change nothing.
- The function pointer of a `NativeFunction` heap object is not modelled. The object keeps its name and arity.
- Reference counts on actor objects (tests/reference_counts.rs and tests/jump_if_false.rs:31-83) are not modelled. They are not part of the declared `HeapObject`.
- Vm.VM.Run: takes a step bound (`fuel`) and may return `OutOfFuel`, where the source can loop for ever. `Vm.RunFuelIrrelevant` shows that the bound does not change any run that finishes.
- Logging calls are not modelled: they have no effect on state.
- The compiler, the command-line front end and the actor runtime (src/compiler.rs, src/main.rs, src/runtime.rs, src/lib.rs) are not part of this model.
