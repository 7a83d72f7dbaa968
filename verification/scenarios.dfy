/** Worked examples on a sample platform: a numbering of the opcodes, a float
    unit that is never consulted, and a boolean view that reads any nonzero
    slot as true. */
module Scenarios {
  import opened Slots
  import opened Outcomes
  import opened Bytecode
  import opened Host
  import opened Arith
  import StackOps
  import StackLaws
  import opened Interpreter
  import opened Driver

  const NOP: Byte := 0
  const PUSH: Byte := 1
  const ADD: Byte := 2
  const RETURN: Byte := 3
  const VECTOR: Byte := 4
  const SWIZZLE: Byte := 5
  const STORE: Byte := 6
  const GREATER: Byte := 7
  const BRANCH_IF: Byte := 8
  const POP: Byte := 9

  function SampleDecode(b: Byte): Opcode {
    if b == NOP then Nop
    else if b == PUSH then PushImmediate
    else if b == ADD then Binary(AddI)
    else if b == RETURN then Return
    else if b == VECTOR then Vector
    else if b == SWIZZLE then Swizzle
    else if b == STORE then Store
    else if b == GREATER then Binary(CompareSGT)
    else if b == BRANCH_IF then ConditionalBranch
    else if b == POP then Pop
    else Unassigned
  }

  function SampleFloats(): FloatUnit {
    FloatUnit((a, b) => 0, (a, b) => 0, (a, b) => 0, (a, b) => 0, a => 0,
              (a, b) => false, (a, b) => false, (a, b) => false, a => 0, a => 0, a => 0)
  }

  function SampleBools(): (view: BoolView)
    ensures Sound(view)
  {
    BoolView(v => v != 0, b => if b then 1 else 0, (v, b) => if b then 1 else 0)
  }

  function Sample(): Platform {
    Platform(SampleDecode, SampleFloats(), SampleBools())
  }

  /** `push 2; push 3; addi; return 1`, with `nop` padding so that each
      immediate starts on a multiple of four. */
  const ADD_TWO_AND_THREE: seq<Byte> :=
    [NOP, NOP, NOP, PUSH, 2, 0, 0, 0,
     NOP, NOP, NOP, PUSH, 3, 0, 0, 0,
     ADD, RETURN, 1]

  /** One step that continues costs one unit of fuel. */
  lemma RunContinues(p: Platform, code: seq<Byte>, s: State, next: State, fuel: nat)
    requires fuel > 0 && Step(p, code, s) == Ok(Continue(next))
    ensures Run(p, code, s, fuel) == Run(p, code, next, fuel - 1)
  {
  }

  /** `kNop` at `at` costs one unit of fuel and changes nothing else. */
  lemma NopRun(code: seq<Byte>, at: nat, st: seq<Value>, globals: seq<Value>, fuel: nat)
    requires at < |code| && code[at] == NOP && fuel > 0
    ensures Run(Sample(), code, State(at, st, globals), fuel) == Run(Sample(), code, State(at + 1, st, globals), fuel - 1)
  {
    assert Sample().decode(code[at]) == Nop;
    RunContinues(Sample(), code, State(at, st, globals), State(at + 1, st, globals), fuel);
  }

  /** `kPushImmediate` at `at`, its immediate `v` in the aligned word after. */
  lemma PushRun(code: seq<Byte>, at: nat, v: Value, st: seq<Value>, globals: seq<Value>, fuel: nat)
    requires (at + 1) % 4 == 0 && at + 5 <= |code| && fuel > 0
    requires code[at] == PUSH && code[at + 1 .. at + 5] == Encode32(v)
    ensures Run(Sample(), code, State(at, st, globals), fuel) == Run(Sample(), code, State(at + 5, st + [v], globals), fuel - 1)
  {
    assert Sample().decode(code[at]) == PushImmediate;
    Read32Encode32(code, at + 1, v);
    RunContinues(Sample(), code, State(at, st, globals), State(at + 5, st + [v], globals), fuel);
  }

  /** A `kNop` and then a `kPushImmediate` of `v`. */
  lemma NopPushRun(code: seq<Byte>, at: nat, v: Value, st: seq<Value>, globals: seq<Value>, fuel: nat)
    requires (at + 2) % 4 == 0 && at + 6 <= |code| && fuel >= 2
    requires code[at] == NOP && code[at + 1] == PUSH && code[at + 2 .. at + 6] == Encode32(v)
    ensures Run(Sample(), code, State(at, st, globals), fuel) == Run(Sample(), code, State(at + 6, st + [v], globals), fuel - 2)
  {
    NopRun(code, at, st, globals, fuel);
    PushRun(code, at + 1, v, st, globals, fuel - 1);
  }

  /** Two `kNop`s and then a `kPushImmediate` of `v`. */
  lemma NopNopPushRun(code: seq<Byte>, at: nat, v: Value, st: seq<Value>, globals: seq<Value>, fuel: nat)
    requires (at + 3) % 4 == 0 && at + 7 <= |code| && fuel >= 3
    requires code[at] == NOP && code[at + 1] == NOP && code[at + 2] == PUSH
    requires code[at + 3 .. at + 7] == Encode32(v)
    ensures Run(Sample(), code, State(at, st, globals), fuel) == Run(Sample(), code, State(at + 7, st + [v], globals), fuel - 3)
  {
    NopRun(code, at, st, globals, fuel);
    NopPushRun(code, at + 1, v, st, globals, fuel - 1);
  }

  /** Three `kNop`s and then a `kPushImmediate` of `v`: four instructions
      that push `v`. */
  lemma PaddedPushRun(code: seq<Byte>, at: nat, v: Value, st: seq<Value>, globals: seq<Value>, fuel: nat)
    requires at % 4 == 0 && at + 8 <= |code| && fuel >= 4
    requires code[at] == NOP && code[at + 1] == NOP && code[at + 2] == NOP
    requires code[at + 3] == PUSH && code[at + 4 .. at + 8] == Encode32(v)
    ensures Run(Sample(), code, State(at, st, globals), fuel) == Run(Sample(), code, State(at + 8, st + [v], globals), fuel - 4)
  {
    NopRun(code, at, st, globals, fuel);
    NopNopPushRun(code, at + 1, v, st, globals, fuel - 1);
  }

  /** `addi` at 16 on `[2, 3]`. */
  lemma AddStep(code: seq<Byte>)
    requires |code| == 19 && code[16] == ADD
    ensures Step(Sample(), code, State(16, [2, 3], [])) == Ok(Continue(State(17, [5], [])))
  {
    var two: StackOps.Stack := [2, 3];
    assert Sample().decode(code[16]) == Binary(AddI);
    assert ApplyBinary(Sample(), AddI, 2, 3) == Ok(5);
    assert two[..0] == [] && StackOps.Top(two) == 3 && two[0] == 2;
    assert two[..0] + [5] == [5];
    assert StackOps.BinaryTop(Sample(), AddI, two) == Ok([5]);
  }

  /** `return 1` at 17 on a one-slot stack. */
  lemma ReturnStep(code: seq<Byte>, v: Value)
    requires |code| == 19 && code[17] == RETURN && code[18] == 1
    ensures Step(Sample(), code, State(17, [v], [])) == Ok(Halt(State(19, [v], [])))
  {
    var one: StackOps.Stack := [v];
    assert Sample().decode(code[17]) == Return && Read8(code, 18) == Ok(1);
    assert one[0..] + one[1..] == [v];
    assert StackOps.ReturnTop(one, 1) == Ok([v]);
  }

  /** The tail `addi; return 1` of the program below, from `[2, 3]`. */
  lemma AddThenReturn(code: seq<Byte>, fuel: nat)
    requires fuel >= 2 && |code| == 19 && code[16] == ADD && code[17] == RETURN && code[18] == 1
    ensures Run(Sample(), code, State(16, [2, 3], []), fuel) == Halted(State(19, [5], []))
  {
    AddStep(code);
    RunContinues(Sample(), code, State(16, [2, 3], []), State(17, [5], []), fuel);
    ReturnStep(code, 5);
  }

  /** The program from its second push on, with 2 on the stack. */
  lemma AddTwoAndThreeFromSecondPush(code: seq<Byte>, fuel: nat)
    requires fuel >= 6 && code == ADD_TWO_AND_THREE
    ensures Run(Sample(), code, State(8, [2], []), fuel) == Halted(State(19, [5], []))
  {
    assert code[12..16] == Encode32(3) && [2] + [3] == [2, 3];
    assert code[16] == ADD && code[17] == RETURN && code[18] == 1;
    PaddedPushRun(code, 8, 3, [2], [], fuel);
    AddThenReturn(code, fuel - 4);
  }

  /** Given fuel for its ten instructions, the program halts with 5 at the
      bottom of the stack. */
  lemma AddTwoAndThree(code: seq<Byte>, fuel: nat)
    requires fuel >= 10 && code == ADD_TWO_AND_THREE
    ensures Run(Sample(), code, State(0, [], []), fuel) == Halted(State(19, [5], []))
  {
    assert code[4..8] == Encode32(2) && [] + [2] == [2];
    PaddedPushRun(code, 0, 2, [], [], fuel);
    AddTwoAndThreeFromSecondPush(code, fuel - 4);
  }

  /** The two lanes of `[1, 2] + [10, 20]`. */
  lemma AddLanes()
    ensures StackOps.Lanes(StackOps.LaneOp(Sample(), AddI), [1, 2], [10, 20]) == Ok([11, 22])
  {
    var f := StackOps.LaneOp(Sample(), AddI);
    var ls, rs: seq<Value> := [1, 2], [10, 20];
    assert f(1, 10) == Ok(11) && f(2, 20) == Ok(22);
    assert ls[..1] == [1] && rs[..1] == [10] && ls[..1][..0] == [] && rs[..1][..0] == [];
    assert [] + [11] == [11] && [11] + [22] == [11, 22];
    assert StackOps.Lanes(f, ls[..1], rs[..1]) == Ok([11]);
  }

  /** Two-lane `addi` on `[1, 2, 10, 20]`. */
  lemma VectorAddLanes()
    ensures StackOps.VectorBinary(Sample(), AddI, 2, [1, 2, 10, 20]) == Ok([11, 22])
  {
    var st: StackOps.Stack := [1, 2, 10, 20];
    assert st[..0] == [] && st[0..2] == [1, 2] && st[2..] == [10, 20];
    AddLanes();
    assert st[..0] + [11, 22] == [11, 22];
  }

  /** `vector 2, addi` on `[1, 2, 10, 20]` leaves `[11, 22]`. */
  lemma VectorAdd()
    ensures Step(Sample(), [VECTOR, 2, ADD], State(0, [1, 2, 10, 20], [])) ==
              Ok(Continue(State(3, [11, 22], [])))
  {
    assert Sample().decode(VECTOR) == Vector && Sample().decode(ADD) == Binary(AddI);
    VectorAddLanes();
  }

  /** `swizzle 4, 2, [3, 0]` on `[a, b, c, d]` leaves `[d, a]` and continues
      after the index bytes. */
  lemma SwizzleReorders(a: Value, b: Value, c: Value, d: Value)
    ensures Step(Sample(), [SWIZZLE, 4, 2, 3, 0], State(0, [a, b, c, d], [])) ==
              Ok(Continue(State(5, [d, a], [])))
  {
    StackLaws.SwizzleExample(a, b, c, d);
    var code: seq<Byte> := [SWIZZLE, 4, 2, 3, 0];
    assert Sample().decode(code[0]) == Swizzle;
    assert code[3..5] == [3, 0];
  }

  /** A byte-sized immediate is its own low byte followed by three zeros. */
  lemma SmallImmediate(v: Byte)
    ensures Encode32(v) == [v, 0, 0, 0]
  {
  }

  /** `push target; push 7; store; return 0`: stores 7 to address `target`. */
  function StoreSeven(target: Byte): seq<Byte> {
    [NOP, NOP, NOP, PUSH, target, 0, 0, 0,
     NOP, NOP, NOP, PUSH, 7, 0, 0, 0,
     STORE, RETURN, 0]
  }

  /** `store` at 16 on `[x, y, target, 7]`. */
  lemma StoreStep(code: seq<Byte>, x: Value, y: Value, target: Byte)
    requires |code| == 19 && code[16] == STORE && target < 2
    ensures Step(Sample(), code, State(16, [x, y, target, 7], [])) ==
              Ok(Continue(State(17, [x, y][target := 7], [])))
  {
    var full: StackOps.Stack := [x, y, target, 7];
    assert Sample().decode(code[16]) == Store;
    assert StackOps.Top(full) == 7 && Signed(full[2]) == target;
    assert full[..2] == [x, y];
    assert StackOps.Store(full) == Ok([x, y][target := 7]);
  }

  /** `return 0` at 17 on `[u, w]`. */
  lemma ReturnNothingStep(code: seq<Byte>, u: Value, w: Value)
    requires |code| == 19 && code[17] == RETURN && code[18] == 0
    ensures Step(Sample(), code, State(17, [u, w], [])) == Ok(Halt(State(19, [u, w], [])))
  {
    var done: StackOps.Stack := [u, w];
    assert Sample().decode(code[17]) == Return && Read8(code, 18) == Ok(0);
    assert done[2..] + done[0..] == done;
    assert StackOps.ReturnTop(done, 0) == Ok(done);
  }

  /** The tail `store; return 0` of the body below. */
  lemma StoreThenReturn(code: seq<Byte>, x: Value, y: Value, target: Byte, fuel: nat)
    requires fuel >= 2 && |code| == 19 && code[16] == STORE && code[17] == RETURN && code[18] == 0
    requires target < 2
    ensures Run(Sample(), code, State(16, [x, y, target, 7], []), fuel) ==
              Halted(State(19, [x, y][target := 7], []))
  {
    var after := [x, y][target := 7];
    StoreStep(code, x, y, target);
    RunContinues(Sample(), code, State(16, [x, y, target, 7], []), State(17, after, []), fuel);
    assert after == [after[0], after[1]];
    ReturnNothingStep(code, after[0], after[1]);
  }

  /** The body from its second push on, with `target` pushed above `[x, y]`. */
  lemma StoreSevenFromSecondPush(code: seq<Byte>, x: Value, y: Value, target: Byte, fuel: nat)
    requires fuel >= 6 && target < 2 && code == StoreSeven(target)
    ensures Run(Sample(), code, State(8, [x, y, target], []), fuel) ==
              Halted(State(19, [x, y][target := 7], []))
  {
    assert code[12..16] == Encode32(7) && [x, y, target] + [7] == [x, y, target, 7];
    assert code[16] == STORE && code[17] == RETURN && code[18] == 0;
    PaddedPushRun(code, 8, 7, [x, y, target], [], fuel);
    StoreThenReturn(code, x, y, target, fuel - 4);
  }

  /** On `[x, y]` the body halts with 7 at address `target`. */
  lemma StoreSevenRuns(code: seq<Byte>, x: Value, y: Value, target: Byte, fuel: nat)
    requires fuel >= 10 && target < 2 && code == StoreSeven(target)
    ensures Run(Sample(), code, State(0, [x, y], []), fuel) ==
              Halted(State(19, [x, y][target := 7], []))
  {
    SmallImmediate(target);
    assert code[4..8] == [target, 0, 0, 0] == Encode32(target);
    assert [x, y] + [target] == [x, y, target];
    PaddedPushRun(code, 0, target, [x, y], [], fuel);
    StoreSevenFromSecondPush(code, x, y, target, fuel - 4);
  }

  /** A function with one two-slot `out` parameter running that body with
      target 0: the caller's first argument becomes 7, the second keeps the
      value the stack held. */
  lemma OutParameterCopied(x: Value, y: Value)
    ensures var f := Function(2, 0, StoreSeven(0), Program(0, []), [Driver.Parameter(2, 1, true)]);
            Invoke(Sample(), f, [x, y], [], 10) == Returned([7, y], [7, y])
  {
    var params := [Driver.Parameter(2, 1, true)];
    var f := Function(2, 0, StoreSeven(0), Program(0, []), params);
    var args, done: seq<Value> := [x, y], [7, y];
    assert Fill(0) == [] && args[..2] + [] == args;
    assert InitialState(f, args, []) == Ok(State(0, args, []));
    StoreSevenRuns(StoreSeven(0), x, y, 0, 10);
    assert args[0 := 7] == done;
    assert params[0].Width() == 2 && params[1..] == [];
    assert args[..0] + done[0..2] + args[2..] == done;
    assert CopyOut(args, done, params, 0) == Ok(done);
  }

  /** An `in` parameter and then an `out` parameter, one slot each, with the
      body storing 7 to address 1: the out-copy skips the `in` slot, so the
      caller's first argument is kept and the second becomes 7. */
  lemma OutParameterAfterInParameter(x: Value, y: Value)
    ensures var params := [Driver.Parameter(1, 1, false), Driver.Parameter(1, 1, true)];
            var f := Function(2, 0, StoreSeven(1), Program(0, []), params);
            Invoke(Sample(), f, [x, y], [], 10) == Returned([x, 7], [x, 7])
  {
    var params := [Driver.Parameter(1, 1, false), Driver.Parameter(1, 1, true)];
    var f := Function(2, 0, StoreSeven(1), Program(0, []), params);
    var args, done: seq<Value> := [x, y], [x, 7];
    assert Fill(0) == [] && args[..2] + [] == args;
    assert InitialState(f, args, []) == Ok(State(0, args, []));
    StoreSevenRuns(StoreSeven(1), x, y, 1, 10);
    assert args[1 := 7] == done;
    var tail := params[1..];
    assert params[0].Width() == 1 && !params[0].isOut && tail == [Driver.Parameter(1, 1, true)];
    assert tail[0].Width() == 1 && tail[1..] == [];
    assert args[..1] + done[1..2] + args[2..] == done;
    assert CopyOut(args, done, tail, 1) == Ok(done);
    assert CopyOut(args, done, params, 0) == Ok(done);
  }

  /** `a > b ? a : b` on the two parameter slots `[a, b]`: copy both
      operands, compare them, and on true drop `b` and return `a`; otherwise
      return `b`. The `nop` aligns the branch target. */
  const MAX_OF_TWO: seq<Byte> :=
    [SWIZZLE, 2, 4, 0, 1, 0, 1,
     GREATER,
     NOP, BRANCH_IF, 14, 0,
     RETURN, 1,
     POP, 1,
     RETURN, 1]

  /** `swizzle 2, 4, [0, 1, 0, 1]` copies both slots of `[a, b]`. */
  lemma CopyBothLanes(a: Value, b: Value)
    ensures StackOps.Swizzle([a, b], 2, [0, 1, 0, 1]) == Ok([a, b, a, b])
  {
    var st: StackOps.Stack := [a, b];
    var indices: seq<Byte> := [0, 1, 0, 1];
    assert !exists k :: 0 <= k < |indices| && indices[k] >= 2;
    var lanes := st[2 - 2..];
    assert seq(|indices|, k requires 0 <= k < |indices| => lanes[indices[k]]) == [a, b, a, b];
    assert st[..2 - 2] + [a, b, a, b] == [a, b, a, b];
  }

  /** The `swizzle` at 0 on `[a, b]`. */
  lemma CopyOperandsStep(code: seq<Byte>, indices: seq<Byte>, a: Value, b: Value)
    requires |code| >= 7 && code[0] == SWIZZLE && code[1] == 2 && code[2] == 4
    requires indices == [0, 1, 0, 1] && code[3..7] == indices
    ensures Step(Sample(), code, State(0, [a, b], [])) == Ok(Continue(State(7, [a, b, a, b], [])))
  {
    assert Sample().decode(code[0]) == Swizzle;
    assert Read8(code, 1) == Ok(2) && Read8(code, 2) == Ok(4);
    assert ReadBytes(code, 3, 4) == Ok(indices);
    CopyBothLanes(a, b);
    assert StackOps.Swizzle([a, b], 2, indices) == Ok([a, b, a, b]);
  }

  /** `greater` at 7 on `[a, b, a, b]`: the signed comparison, as 1 or 0. */
  lemma CompareStep(code: seq<Byte>, a: Value, b: Value)
    requires code == MAX_OF_TWO
    ensures Step(Sample(), code, State(7, [a, b, a, b], [])) ==
              Ok(Continue(State(8, [a, b, if Signed(a) > Signed(b) then 1 else 0], [])))
  {
    var st: StackOps.Stack := [a, b, a, b];
    var c: Value := if Signed(a) > Signed(b) then 1 else 0;
    assert Sample().decode(code[7]) == Binary(CompareSGT);
    assert ApplyBinary(Sample(), CompareSGT, a, b) == Ok(c);
    assert StackOps.Top(st) == b && st[|st| - 2] == a && st[..|st| - 2] == [a, b];
    assert st[..|st| - 2] + [c] == [a, b, c];
    assert StackOps.BinaryTop(Sample(), CompareSGT, st) == Ok([a, b, c]);
  }

  /** `conditionalbranch 14` at 9 on `[a, b, c]`: pops `c` and jumps when it
      is nonzero. */
  lemma BranchIfStep(code: seq<Byte>, a: Value, b: Value, c: Value)
    requires code == MAX_OF_TWO
    ensures Step(Sample(), code, State(9, [a, b, c], [])) ==
              Ok(Continue(State(if c != 0 then 14 else 12, [a, b], [])))
  {
    var st: StackOps.Stack := [a, b, c];
    assert Sample().decode(code[9]) == ConditionalBranch;
    assert code[10..12] == Encode16(14);
    Read16Encode16(code, 10, 14);
    assert Sample().bools.get(StackOps.Top(st)) == (c != 0);
    assert StackOps.Pop(st) == [a, b];
  }

  /** `return 1` at 12 on `[a, b]`: `b` is moved to address 0. */
  lemma ReturnSecondStep(code: seq<Byte>, a: Value, b: Value)
    requires code == MAX_OF_TWO
    ensures Step(Sample(), code, State(12, [a, b], [])) == Ok(Halt(State(14, [b, b], [])))
  {
    var st: StackOps.Stack := [a, b];
    assert Sample().decode(code[12]) == Return && Read8(code, 13) == Ok(1);
    assert st[1..] + st[1..] == [b, b];
  }

  /** `pop 1` at 14 and `return 1` at 16 on `[a, b]` leave `a` alone. */
  lemma DropThenReturn(code: seq<Byte>, a: Value, b: Value, fuel: nat)
    requires code == MAX_OF_TWO && fuel >= 2
    ensures Run(Sample(), code, State(14, [a, b], []), fuel) == Halted(State(18, [a], []))
  {
    var st: StackOps.Stack := [a, b];
    assert Sample().decode(code[14]) == Pop && Read8(code, 15) == Ok(1);
    assert st[..1] == [a];
    RunContinues(Sample(), code, State(14, st, []), State(16, [a], []), fuel);
    var one: StackOps.Stack := [a];
    assert Sample().decode(code[16]) == Return && Read8(code, 17) == Ok(1);
    assert one[0..] + one[1..] == [a];
  }

  /** From the branch on: the taken branch leaves `[a]`, the other `[b, b]`. */
  lemma MaxFromBranch(code: seq<Byte>, a: Value, b: Value, c: Value, fuel: nat)
    requires code == MAX_OF_TWO && fuel >= 3
    ensures Run(Sample(), code, State(9, [a, b, c], []), fuel) ==
              Halted(if c != 0 then State(18, [a], []) else State(14, [b, b], []))
  {
    BranchIfStep(code, a, b, c);
    RunContinues(Sample(), code, State(9, [a, b, c], []), State(if c != 0 then 14 else 12, [a, b], []), fuel);
    if c != 0 {
      DropThenReturn(code, a, b, fuel - 1);
    } else {
      ReturnSecondStep(code, a, b);
    }
  }

  /** From the `nop` on, with the comparison's result `c` on top. */
  lemma MaxFromNop(code: seq<Byte>, a: Value, b: Value, c: Value, fuel: nat)
    requires code == MAX_OF_TWO && fuel >= 4
    ensures Run(Sample(), code, State(8, [a, b, c], []), fuel) ==
              Halted(if c != 0 then State(18, [a], []) else State(14, [b, b], []))
  {
    NopRun(code, 8, [a, b, c], [], fuel);
    MaxFromBranch(code, a, b, c, fuel - 1);
  }

  /** From the comparison on. */
  lemma MaxFromCompare(code: seq<Byte>, a: Value, b: Value, fuel: nat)
    requires code == MAX_OF_TWO && fuel >= 5
    ensures Run(Sample(), code, State(7, [a, b, a, b], []), fuel) ==
              Halted(if Signed(a) > Signed(b) then State(18, [a], []) else State(14, [b, b], []))
  {
    var c: Value := if Signed(a) > Signed(b) then 1 else 0;
    CompareStep(code, a, b);
    RunContinues(Sample(), code, State(7, [a, b, a, b], []), State(8, [a, b, c], []), fuel);
    MaxFromNop(code, a, b, c, fuel - 1);
  }

  /** Given fuel for its six instructions, the program halts with the
      signed maximum of `a` and `b` at address 0. */
  lemma MaxOfTwoRuns(code: seq<Byte>, a: Value, b: Value, fuel: nat)
    requires code == MAX_OF_TWO && fuel >= 6
    ensures Run(Sample(), code, State(0, [a, b], []), fuel) ==
              Halted(if Signed(a) > Signed(b) then State(18, [a], []) else State(14, [b, b], []))
    ensures var r := Run(Sample(), code, State(0, [a, b], []), fuel);
            r.Halted? && r.final.stack[0] == (if Signed(a) > Signed(b) then a else b)
  {
    var indices: seq<Byte> := [0, 1, 0, 1];
    assert code[3..7] == indices;
    CopyOperandsStep(code, indices, a, b);
    RunContinues(Sample(), code, State(0, [a, b], []), State(7, [a, b, a, b], []), fuel);
    MaxFromCompare(code, a, b, fuel - 1);
  }

  /** The maximum of the arguments 3 and 7 is 7, returned at address 0; the
      arguments, neither of them `out`, are handed back unchanged. */
  lemma MaxOfThreeAndSeven()
    ensures var params := [Driver.Parameter(1, 1, false), Driver.Parameter(1, 1, false)];
            var f := Function(2, 0, MAX_OF_TWO, Program(0, []), params);
            Invoke(Sample(), f, [3, 7], [], 6) == Returned([3, 7], [7, 7])
  {
    var params := [Driver.Parameter(1, 1, false), Driver.Parameter(1, 1, false)];
    var f := Function(2, 0, MAX_OF_TWO, Program(0, []), params);
    var args: seq<Value> := [3, 7];
    assert Fill(0) == [] && args[..2] + [] == args;
    assert InitialState(f, args, []) == Ok(State(0, args, []));
    MaxOfTwoRuns(MAX_OF_TWO, 3, 7, 6);
    assert Signed(3) == 3 && Signed(7) == 7;
    assert params[1..][1..] == [];
    assert CopyOut(args, [7, 7], params, 0) == Ok(args);
  }

  /** `push 7; return 1`: returns 7. */
  const RETURN_SEVEN: seq<Byte> := [NOP, NOP, NOP, PUSH, 7, 0, 0, 0, RETURN, 1]

  /** `return 1` at 8 on `[x, 7]`. */
  lemma ReturnSevenStep(code: seq<Byte>, x: Value)
    requires code == RETURN_SEVEN
    ensures Step(Sample(), code, State(8, [x, 7], [])) == Ok(Halt(State(10, [7, 7], [])))
  {
    var st: StackOps.Stack := [x, 7];
    assert Sample().decode(code[8]) == Return && Read8(code, 9) == Ok(1);
    assert st[1..] + st[1..] == [7, 7];
  }

  /** On `[x]` the body halts with `[7, 7]`: the pushed 7 was moved to
      address 0, over `x`. */
  lemma ReturnSevenRuns(code: seq<Byte>, x: Value, fuel: nat)
    requires code == RETURN_SEVEN && fuel >= 5
    ensures Run(Sample(), code, State(0, [x], []), fuel) == Halted(State(10, [7, 7], []))
  {
    assert code[4..8] == Encode32(7) && [x] + [7] == [x, 7];
    PaddedPushRun(code, 0, 7, [x], [], fuel);
    ReturnSevenStep(code, x);
  }

  /** The returned 7 lands in the `out` parameter's slot: whatever the caller
      passed, and whatever the body left there, the caller reads back 7. */
  lemma ReturnValueReachesOutParameter(x: Value)
    ensures var f := Function(1, 0, RETURN_SEVEN, Program(0, []), [Driver.Parameter(1, 1, true)]);
            Invoke(Sample(), f, [x], [], 5) == Returned([7], [7, 7])
  {
    var params := [Driver.Parameter(1, 1, true)];
    var f := Function(1, 0, RETURN_SEVEN, Program(0, []), params);
    var args: seq<Value> := [x];
    assert Fill(0) == [] && args[..1] + [] == args;
    assert InitialState(f, args, []) == Ok(State(0, args, []));
    ReturnSevenRuns(RETURN_SEVEN, x, 5);
    assert params[0].Width() == 1 && params[1..] == [];
    var done: seq<Value> := [7, 7];
    assert args[..0] + done[0..1] + args[1..] == [7];
    assert CopyOut(args, done, params, 0) == Ok([7]);
  }

  /** Two inputs naming the same global: the first input is the one left
      there. */
  lemma RepeatedInputSlot(a: Value, b: Value)
    ensures SeedInputs(Fill(2), [1, 1], [a, b]) == Ok([UNINITIALIZED, a])
  {
    var slots: seq<int> := [1, 1];
    var blank: seq<Value> := [UNINITIALIZED, UNINITIALIZED];
    assert Fill(2) == blank;
    assert slots[..1] == [1] && slots[..1][..0] == [];
    assert blank[1 := b][1 := a] == [UNINITIALIZED, a];
    assert SeedInputs(blank[1 := b][1 := a], [], [a, b]) == Ok([UNINITIALIZED, a]);
    assert SeedInputs(blank[1 := b], [1], [a, b]) == Ok([UNINITIALIZED, a]);
  }
}
