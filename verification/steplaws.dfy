/** Properties of single instructions as the dispatch loop executes them, and
    of bounded runs. */
module StepLaws {
  import opened Slots
  import opened Outcomes
  import opened Bytecode
  import opened Host
  import opened Arith
  import StackOps
  import StackLaws
  import opened Interpreter

  /** The byte at `ip` is an opcode that decodes to `op`. */
  predicate At(p: Platform, code: seq<Byte>, ip: nat, op: Opcode) {
    ip < |code| && p.decode(code[ip]) == op
  }

  /** The state an instruction that did not trap leaves behind. */
  function After(t: Transition): State {
    match t
    case Continue(next) => next
    case Halt(final) => final
  }

  /** A scalar binary instruction on `[.., a, b]` yields `[.., a op b]`: the
      depth drops by one, every slot below `a` is unchanged, and it traps
      exactly when `a op b` is undefined. */
  lemma ScalarBinaryStep(p: Platform, code: seq<Byte>, s: State, op: BinaryOp)
    requires At(p, code, s.ip, Binary(op)) && |s.stack| >= 2
    ensures var n := |s.stack|;
            var v := ApplyBinary(p, op, s.stack[n - 2], s.stack[n - 1]);
            && (Step(p, code, s).Ok? <==> v.Ok?)
            && (v.Ok? ==> Step(p, code, s).value.Continue?)
    ensures var n, r := |s.stack|, Step(p, code, s);
            r.Ok? ==>
              var next := After(r.value);
              && next.ip == s.ip + 1 && next.globals == s.globals
              && |next.stack| == n - 1
              && next.stack[..n - 2] == s.stack[..n - 2]
              && next.stack[n - 2] == ApplyBinary(p, op, s.stack[n - 2], s.stack[n - 1]).value
  {
  }

  /** The vector forms of the instructions that ignore the lane count, and
      the one-lane vector forms of binary instructions, conversions and
      `load`, are the scalar instruction found two bytes further on. */
  lemma VectorFormIsScalar(p: Platform, code: seq<Byte>, s: State)
    requires At(p, code, s.ip, Vector) && s.ip + 2 < |code|
    requires var count, sub := code[s.ip + 1], p.decode(code[s.ip + 2]);
             || sub.Branch? || sub.ConditionalBranch? || sub.LoadGlobal?
             || (count == 1 && (sub.Binary? || sub.Convert? || sub.Load?))
    ensures Step(p, code, s) == Step(p, code, s.(ip := s.ip + 2))
  {
    var sub, st := p.decode(code[s.ip + 2]), s.stack;
    if code[s.ip + 1] == 1 {
      match sub {
        case Binary(op) => StackLaws.VectorBinaryOfOne(p, op, st);
        case Load =>
          if |st| > 0 {
            StackLaws.VectorLoadReads(st, 1);
            var rest, base := StackOps.Pop(st), Signed(StackOps.Top(st));
            if 0 <= base < |rest| {
              assert rest[base..base + 1] == [rest[base]];
            }
          }
        case _ =>
      }
    }
  }

  /** The one-lane vector `store` is not the scalar one: it writes the same
      slot but keeps the address slot on the stack. */
  lemma VectorStoreOfOneKeepsAddress(st: StackOps.Stack)
    requires |st| >= 2 && 0 <= Signed(st[|st| - 2]) < |st| - 2
    ensures StackOps.Store(st).Ok? && StackOps.VectorStore(st, 1).Ok?
    ensures StackOps.VectorStore(st, 1).value == StackOps.Store(st).value + [st[|st| - 2]]
  {
    var n, target := |st|, Signed(st[|st| - 2]);
    StackLaws.VectorStoreWrites(st, 1);
    assert st[..target] + st[n - 1..] + st[target + 1 .. n - 1]
        == st[..n - 2][target := st[n - 1]] + [st[n - 2]];
  }

  /** `kReturn` is the only instruction that halts the loop. */
  lemma HaltsOnlyOnReturn(p: Platform, code: seq<Byte>, s: State)
    requires Step(p, code, s).Ok? && Step(p, code, s).value.Halt?
    ensures At(p, code, s.ip, Return)
  {
  }

  /** `kReturn` halts with the stack at the depth it had, the former top
      `count` slots now at addresses `0..count-1` and every slot above them
      unchanged. */
  lemma ReturnHalts(p: Platform, code: seq<Byte>, s: State)
    requires At(p, code, s.ip, Return) && s.ip + 1 < |code| && code[s.ip + 1] <= |s.stack|
    ensures Step(p, code, s).Ok? && Step(p, code, s).value.Halt?
    ensures var count, n, final := code[s.ip + 1], |s.stack|, Step(p, code, s).value.final;
            && final.ip == s.ip + 2 && final.globals == s.globals
            && |final.stack| == n
            && (forall i :: 0 <= i < count ==> final.stack[i] == s.stack[n - count + i])
            && (forall i :: count <= i < n ==> final.stack[i] == s.stack[i])
  {
    StackLaws.ReturnTopPlacement(s.stack, code[s.ip + 1]);
  }

  /** The globals change only through `kStoreGlobal`. */
  lemma GlobalsOnlyThroughStoreGlobal(p: Platform, code: seq<Byte>, s: State)
    requires Step(p, code, s).Ok? && !At(p, code, s.ip, StoreGlobal)
    ensures After(Step(p, code, s).value).globals == s.globals
  {
  }

  /** `kStoreGlobal` pops the value and then the index, and writes only that
      global. */
  lemma StoreGlobalStep(p: Platform, code: seq<Byte>, s: State)
    requires At(p, code, s.ip, StoreGlobal) && |s.stack| >= 2
    requires 0 <= Signed(s.stack[|s.stack| - 2]) < |s.globals|
    ensures var n := |s.stack|;
            Step(p, code, s) ==
              Ok(Continue(State(s.ip + 1, s.stack[..n - 2], s.globals[Signed(s.stack[n - 2]) := s.stack[n - 1]])))
  {
  }

  /** The opcodes the dispatch has no case for: a plain opcode without an
      execution case, or a `kVector` whose sub-instruction has no vector
      case. */
  predicate NoCase(op: Opcode, sub: Opcode) {
    || op.AndB? || op.AndI? || op.OrB? || op.OrI? || op.Parameter? || op.Unassigned?
    || (op.Vector? && !(sub.Binary? || sub.Branch? || sub.ConditionalBranch? || sub.Convert?
                        || sub.Load? || sub.LoadGlobal? || sub.Store?))
  }

  /** An instruction without a case is refused as unsupported. */
  lemma NoCaseIsUnsupported(p: Platform, code: seq<Byte>, s: State)
    requires s.ip + 2 < |code| && NoCase(p.decode(code[s.ip]), p.decode(code[s.ip + 2]))
    ensures Step(p, code, s) == Err(Unsupported)
  {
  }

  /** `kVector` refuses as unsupported only a sub-instruction without a
      vector case. */
  lemma VectorUnsupportedOnlyWithoutCase(p: Platform, code: seq<Byte>, ip: nat, count: nat, sub: Opcode, s: State)
    requires VectorStep(p, code, ip, count, sub, s) == Err(Unsupported)
    ensures !(sub.Binary? || sub.Branch? || sub.ConditionalBranch? || sub.Convert?
              || sub.Load? || sub.LoadGlobal? || sub.Store?)
  {
    if sub.Binary? {
      StackLaws.VectorBinaryTraps(p, sub.op, count, s.stack);
    }
  }

  /** The instructions from `kBinary` to `kLoadSwizzle` in the dispatch
      never refuse as unsupported. */
  lemma FirstCasesNeverUnsupported(p: Platform, code: seq<Byte>, s: State)
    requires s.ip < |code|
    requires var op := p.decode(code[s.ip]);
             || op.Binary? || op.Convert? || op.Branch? || op.ConditionalBranch? || op.DebugPrint?
             || op.Dup? || op.DupDown? || op.Load? || op.LoadGlobal? || op.LoadSwizzle?
    ensures Step(p, code, s) != Err(Unsupported)
  {
  }

  /** Nor do the instructions from `kNot` to `kSwizzle`. */
  lemma LastCasesNeverUnsupported(p: Platform, code: seq<Byte>, s: State)
    requires s.ip < |code|
    requires var op := p.decode(code[s.ip]);
             || op.Not? || op.NegateF? || op.NegateS? || op.Nop? || op.Pop? || op.PushImmediate?
             || op.Return? || op.Store? || op.StoreGlobal? || op.StoreSwizzle? || op.Swizzle?
    ensures Step(p, code, s) != Err(Unsupported)
  {
  }

  /** Nothing else is refused for that reason. */
  lemma UnsupportedOnlyWithoutCase(p: Platform, code: seq<Byte>, s: State)
    requires s.ip + 2 < |code| && Step(p, code, s) == Err(Unsupported)
    ensures NoCase(p.decode(code[s.ip]), p.decode(code[s.ip + 2]))
  {
    var op := p.decode(code[s.ip]);
    if op.Vector? {
      VectorUnsupportedOnlyWithoutCase(p, code, s.ip + 3, code[s.ip + 1], p.decode(code[s.ip + 2]), s);
    } else if
      || op.Binary? || op.Convert? || op.Branch? || op.ConditionalBranch? || op.DebugPrint?
      || op.Dup? || op.DupDown? || op.Load? || op.LoadGlobal? || op.LoadSwizzle?
    {
      FirstCasesNeverUnsupported(p, code, s);
    } else if
      || op.Not? || op.NegateF? || op.NegateS? || op.Nop? || op.Pop? || op.PushImmediate?
      || op.Return? || op.Store? || op.StoreGlobal? || op.StoreSwizzle? || op.Swizzle?
    {
      LastCasesNeverUnsupported(p, code, s);
    }
  }

  /** So `Unsupported` arises exactly from an instruction without a case. */
  lemma UnsupportedExactly(p: Platform, code: seq<Byte>, s: State)
    requires s.ip + 2 < |code|
    ensures Step(p, code, s) == Err(Unsupported) <==> NoCase(p.decode(code[s.ip]), p.decode(code[s.ip + 2]))
  {
    if Step(p, code, s) == Err(Unsupported) {
      UnsupportedOnlyWithoutCase(p, code, s);
    }
    if NoCase(p.decode(code[s.ip]), p.decode(code[s.ip + 2])) {
      NoCaseIsUnsupported(p, code, s);
    }
  }

  /** `kNop` only moves on to the next instruction. */
  lemma NopContinues(p: Platform, code: seq<Byte>, s: State)
    requires At(p, code, s.ip, Nop)
    ensures Step(p, code, s) == Ok(Continue(s.(ip := s.ip + 1)))
  {
  }

  /** `kBranch` jumps to the 16-bit target encoded after it, leaving stack
      and globals alone. */
  lemma BranchJumps(p: Platform, code: seq<Byte>, s: State, target: nat)
    requires At(p, code, s.ip, Branch) && (s.ip + 1) % 2 == 0 && target < 0x1_0000
    requires s.ip + 3 <= |code| && code[s.ip + 1 .. s.ip + 3] == Encode16(target)
    ensures Step(p, code, s) == Ok(Continue(s.(ip := target)))
  {
    Read16Encode16(code, s.ip + 1, target);
  }

  /** `kConditionalBranch` always pops exactly one slot, and jumps to the
      encoded target exactly when that slot reads true. */
  lemma ConditionalBranchPopsOne(p: Platform, code: seq<Byte>, s: State, target: nat)
    requires At(p, code, s.ip, ConditionalBranch) && (s.ip + 1) % 2 == 0 && target < 0x1_0000
    requires s.ip + 3 <= |code| && code[s.ip + 1 .. s.ip + 3] == Encode16(target)
    requires |s.stack| > 0
    ensures var top := s.stack[|s.stack| - 1];
            Step(p, code, s) ==
              Ok(Continue(State(if p.bools.get(top) then target else s.ip + 3,
                                s.stack[..|s.stack| - 1], s.globals)))
  {
    Read16Encode16(code, s.ip + 1, target);
  }

  /** `kPushImmediate` pushes exactly the 32-bit value encoded after it. */
  lemma PushImmediatePushes(p: Platform, code: seq<Byte>, s: State, v: Value)
    requires At(p, code, s.ip, PushImmediate) && (s.ip + 1) % 4 == 0
    requires s.ip + 5 <= |code| && code[s.ip + 1 .. s.ip + 5] == Encode32(v)
    ensures Step(p, code, s) == Ok(Continue(State(s.ip + 5, s.stack + [v], s.globals)))
  {
    Read32Encode32(code, s.ip + 1, v);
  }

  /** The swizzle instructions continue after their inline offset or index
      bytes. */
  lemma SwizzlesSkipTheirBytes(p: Platform, code: seq<Byte>, s: State)
    requires Step(p, code, s).Ok?
    requires At(p, code, s.ip, LoadSwizzle) || At(p, code, s.ip, StoreSwizzle) || At(p, code, s.ip, Swizzle)
    ensures Step(p, code, s).value.Continue?
    ensures var next := Step(p, code, s).value.next;
            if At(p, code, s.ip, Swizzle) then next.ip == s.ip + 3 + code[s.ip + 2]
            else next.ip == s.ip + 2 + code[s.ip + 1]
  {
  }

  /** Under a sound boolean view, `kNot` flips the truth of the top slot and
      touches nothing else; so two of them restore its truth. */
  lemma NotFlips(p: Platform, code: seq<Byte>, s: State)
    requires Sound(p.bools) && At(p, code, s.ip, Not) && |s.stack| > 0
    ensures Step(p, code, s).Ok? && Step(p, code, s).value.Continue?
    ensures var n, next := |s.stack|, Step(p, code, s).value.next;
            && next.ip == s.ip + 1 && next.globals == s.globals
            && |next.stack| == n && next.stack[..n - 1] == s.stack[..n - 1]
            && p.bools.get(next.stack[n - 1]) == !p.bools.get(s.stack[n - 1])
  {
  }

  /** A run that stops within `a` steps ignores further fuel, and one that
      runs out continues from where it stopped. */
  lemma {:induction false} LoopSplits(step: State -> Result<Transition>, s: State, a: nat, b: nat)
    ensures !Loop(step, s, a).OutOfFuel? ==> Loop(step, s, a + b) == Loop(step, s, a)
    ensures Loop(step, s, a).OutOfFuel? ==> Loop(step, s, a + b) == Loop(step, Loop(step, s, a).last, b)
    decreases a
  {
    if a > 0 {
      var r := step(s);
      if r.Ok? && r.value.Continue? {
        LoopSplits(step, r.value.next, a - 1, b);
        assert a + b - 1 == (a - 1) + b;
      }
    }
  }

  /** Once a run of the interpreter halts or faults, more fuel changes
      nothing; a run that runs out of fuel can be resumed from its last
      state. */
  lemma RunMonotone(p: Platform, code: seq<Byte>, s: State, fuel: nat, extra: nat)
    ensures !Run(p, code, s, fuel).OutOfFuel? ==> Run(p, code, s, fuel + extra) == Run(p, code, s, fuel)
    ensures Run(p, code, s, fuel).OutOfFuel? ==>
              Run(p, code, s, fuel + extra) == Run(p, code, Run(p, code, s, fuel).last, extra)
  {
    LoopSplits(t => Step(p, code, t), s, fuel, extra);
  }
}
