/** The fetch/decode/dispatch loop: one instruction as a transition on
    `(ip, stack, globals)`, and a fuel-bounded run of the loop.

    The loop has no terminal state of its own: it leaves only through
    `kReturn` (a `Halt`) or a trap. Nothing bounds how long a program runs, so
    `Run` takes an explicit instruction budget. */
module Interpreter {
  import opened Slots
  import opened Outcomes
  import opened Bytecode
  import opened Host
  import opened StackOps

  datatype State = State(ip: nat, stack: Stack, globals: seq<Value>)

  /** The outcome of one instruction that did not trap. */
  datatype Transition = Continue(next: State) | Halt(final: State)

  /** Continues at `ip` with the stack an operation produced, the globals
      unchanged. */
  function Resume(ip: nat, st: Result<Stack>, globals: seq<Value>): Result<Transition> {
    var stack :- st;
    Ok(Continue(State(ip, stack, globals)))
  }

  /** `kBranch`, whose 16-bit target starts at `at`. */
  function BranchAt(code: seq<Byte>, at: nat, s: State): Result<Transition> {
    var target :- Read16(code, at);
    Ok(Continue(s.(ip := target)))
  }

  /** `kConditionalBranch`, whose 16-bit target starts at `at`: the top slot
      is always popped, and the target taken only when it reads true. */
  function ConditionalBranchAt(p: Platform, code: seq<Byte>, at: nat, s: State): Result<Transition> {
    var target :- Read16(code, at);
    if |s.stack| == 0 then Err(StackUnderflow)
    else
      var ip := if p.bools.get(Top(s.stack)) then target else at + 2;
      Ok(Continue(State(ip, StackOps.Pop(s.stack), s.globals)))
  }

  /** Executes the instruction at `s.ip`. */
  function Step(p: Platform, code: seq<Byte>, s: State): Result<Transition> {
    var opcode :- Read8(code, s.ip);
    var ip, st, globals := s.ip + 1, s.stack, s.globals;
    match p.decode(opcode)
    case Binary(op) => Resume(ip, BinaryTop(p, op, st), globals)
    case Convert(c) => Resume(ip, MapTop(st, 1, ConversionOf(p.float, c)), globals)
    case Branch => BranchAt(code, ip, s)
    case ConditionalBranch => ConditionalBranchAt(p, code, ip, s)
    case DebugPrint => Resume(ip, Drop(st, 1), globals)
    case Dup => Resume(ip, StackOps.Dup(st), globals)
    case DupDown =>
      var count :- Read8(code, ip);
      Resume(ip + 1, StackOps.DupDown(st, count), globals)
    case Load => Resume(ip, StackOps.Load(st), globals)
    case LoadGlobal =>
      var index :- Read8(code, ip);
      Resume(ip + 1, StackOps.LoadGlobal(st, globals, index), globals)
    case LoadSwizzle =>
      if |st| == 0 then Err(StackUnderflow)
      else
        var count :- Read8(code, ip);
        var offsets :- ReadBytes(code, ip + 1, count);
        Resume(ip + 1 + count, StackOps.LoadSwizzle(st, offsets), globals)
    case Not => Resume(ip, MapTop(st, 1, v => p.bools.assign(v, !p.bools.get(v))), globals)
    case NegateF => Resume(ip, MapTop(st, 1, p.float.negate), globals)
    case NegateS => Resume(ip, NegateTop(st), globals)
    case Nop => Ok(Continue(s.(ip := ip)))
    case Pop =>
      var count :- Read8(code, ip);
      Resume(ip + 1, Drop(st, count), globals)
    case PushImmediate =>
      var immediate :- Read32(code, ip);
      Ok(Continue(State(ip + 4, st + [immediate], globals)))
    case Return =>
      var count :- Read8(code, ip);
      var final :- ReturnTop(st, count);
      Ok(Halt(State(ip + 1, final, globals)))
    case Store => Resume(ip, StackOps.Store(st), globals)
    case StoreGlobal =>
      var after :- StackOps.StoreGlobal(st, globals);
      Ok(Continue(State(ip, after.0, after.1)))
    case StoreSwizzle =>
      var count :- Read8(code, ip);
      var offsets :- ReadBytes(code, ip + 1, count);
      Resume(ip + 1 + count, StackOps.StoreSwizzle(st, offsets), globals)
    case Swizzle =>
      var source :- Read8(code, ip);
      var count :- Read8(code, ip + 1);
      var indices :- ReadBytes(code, ip + 2, count);
      Resume(ip + 2 + count, StackOps.Swizzle(st, source, indices), globals)
    case Vector =>
      var count :- Read8(code, ip);
      var sub :- Read8(code, ip + 1);
      VectorStep(p, code, ip + 2, count, p.decode(sub), s)
    case _ => Err(Unsupported)
  }

  /** `kVector`: the sub-instruction `sub` applied across `count` lanes, with
      its own operands starting at `ip`. */
  function VectorStep(p: Platform, code: seq<Byte>, ip: nat, count: nat, sub: Opcode, s: State): Result<Transition> {
    var st, globals := s.stack, s.globals;
    match sub
    case Binary(op) => Resume(ip, VectorBinary(p, op, count, st), globals)
    case Branch => BranchAt(code, ip, s)
    case ConditionalBranch => ConditionalBranchAt(p, code, ip, s)
    case Convert(c) => Resume(ip, MapTop(st, count, ConversionOf(p.float, c)), globals)
    case Load => Resume(ip, VectorLoad(st, count), globals)
    case LoadGlobal =>
      var index :- Read8(code, ip);
      Resume(ip + 1, StackOps.LoadGlobal(st, globals, index), globals)
    case Store => Resume(ip, VectorStore(st, count), globals)
    case _ => Err(Unsupported)
  }

  /** How a bounded run of the loop ended. */
  datatype Execution =
    | Halted(final: State)
    | Faulted(trap: Trap, at: State)
    | OutOfFuel(last: State)

  /** Runs at most `fuel` steps of the transition function `step` from `s`. */
  function Loop(step: State -> Result<Transition>, s: State, fuel: nat): Execution
    decreases fuel
  {
    if fuel == 0 then OutOfFuel(s)
    else
      match step(s)
      case Err(trap) => Faulted(trap, s)
      case Ok(Halt(final)) => Halted(final)
      case Ok(Continue(next)) => Loop(step, next, fuel - 1)
  }

  /** Runs at most `fuel` instructions of `code` from `s`. */
  function Run(p: Platform, code: seq<Byte>, s: State, fuel: nat): Execution {
    Loop(t => Step(p, code, t), s, fuel)
  }
}
