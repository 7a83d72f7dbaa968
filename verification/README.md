# SkSL byte-code interpreter, modelled in Dafny

This project models the stack machine that runs compiled SkSL byte code
(`src/sksl/SkSLInterpreter.cpp`). The model has three parts.

- **The invocation driver**, `Interpreter::run(f, args, inputs)`, is modelled in module `Driver`.
  - It pushes the parameters and one `0xDEADBEEF` slot per local.
  - It fills the globals with the same sentinel, then writes the inputs to their global slots.
  - It runs the body, then copies every `out` parameter's slots from the final stack back into the argument array.
- **The fetch/decode/dispatch loop**, `Interpreter::run()`, is modelled in module `Interpreter`.
  - The state is `(ip, stack, globals)`.
  - `Step` executes one instruction. It returns `Continue`, `Halt` (only `kReturn`) or a trap.
  - `Run` executes at most `fuel` instructions, because nothing bounds how long a program runs.
  - `READ8`, `READ16` and `READ32` are modelled in `Bytecode`, with their alignment checks.
- **The `kVector` wrapper** applies a sub-instruction across `count` lanes. It is modelled in `Interpreter.VectorStep`.
  - `VECTOR_BINARY_OP` is `StackOps.LaneWise`.
  - Its three buffer loops are in `Loops`.

## Slots and modules

A slot is a 32-bit word, modelled as an unsigned integer `Value` in `0 .. 2^32-1`. The instructions read a slot in three ways:

- **As `int32_t`:** two's complement, `Slots.Signed`.
- **As `uint32_t`:** the value itself.
- **As `float` or `bool`:** through the platform.

Module `Host` gathers what the interpreter takes from outside this file:

- the numbering of the opcodes, a `decode` function;
- the IEEE-754 operations, as uninterpreted functions;
- the layout of the `bool` member of the slot union.

The only fact assumed of the boolean view is `Sound`: a bool written into a slot reads back as that bool.

Every `SkASSERT` and every undefined integer or memory operation becomes an explicit trap (module `Outcomes`). This covers:

- out-of-range stack, global and code addresses;
- misaligned operands;
- opcodes without an execution case;
- a lane count beyond a fixed buffer;
- signed overflow, division by zero and `INT_MIN / -1`.

| module | what it holds |
|---|---|
| `Slots` | the slot type, signed view, wrap-around, C++ truncating `/` and `%` |
| `Bytecode` | opcodes, `READ8`/`READ16`/`READ32`, the operand encodings |
| `Host` | the platform: opcode decoding, float unit, boolean view |
| `Arith` | the scalar operator of each `BINARY_OP` instance |
| `StackOps` | each instruction's effect on the stack and globals, in closed form |
| `StackLaws` | properties of those effects |
| `Loops` | the in-place loops of the source, proved equal to the closed forms |
| `Interpreter` | `Step`, `VectorStep`, `Loop`, `Run` |
| `StepLaws` | properties of single steps and of bounded runs |
| `Driver` | `Interpreter::run(f, args, inputs)` |
| `Findings` | `kStoreSwizzle` as written, next to the corrected instruction |
| `Scenarios` | small programs run on a sample platform |

## Notes on the code

- The `kSwizzle` buffer is `Value vec[4]` (line 383), while the vector binary instructions use a 16-lane buffer. A swizzle of more than four slots traps.
- The driver pushes `fParameterCount` slots (lines 40-42), while the out-copy walks the declared parameters by `columns * rows` (lines 53-63). The model keeps the two independent: `Function.parameterCount` and `Function.parameters`.
- The input loop runs from the last input down (lines 49-51), so when two inputs name the same global, the one with the lowest index is left there (`Driver.SeedInputsFirstWins`, `Scenarios.RepeatedInputSlot`).

## Model

| member | source | states |
|---|---|---|
| Slots.Signed | src/sksl/SkSLInterpreter.cpp:235 | the `fSigned` view lies in the int32 range, is negative exactly when the top bit is set, and is congruent to the slot modulo 2^32 |
| Slots.FromSigned | src/sksl/SkSLInterpreter.cpp:205 | storing a representable signed result and reading it back as signed gives that result |
| Slots.SignedRoundTrip | src/sksl/SkSLInterpreter.cpp:205 | reading a slot as signed and storing it back gives the same slot, so the signed view loses nothing |
| Slots.Wrap | src/sksl/SkSLInterpreter.cpp:319 | unsigned arithmetic keeps the result modulo 2^32 |
| Slots.FromSignedIsWrap | src/sksl/SkSLInterpreter.cpp:205 | storing a representable signed value is the same as wrapping it modulo 2^32 |
| Slots.TruncDiv | src/sksl/SkSLInterpreter.cpp:268 | the C++ quotient never exceeds the dividend in magnitude, and is zero or has the sign of the exact quotient |
| Slots.TruncRem | src/sksl/SkSLInterpreter.cpp:346 | the C++ remainder is smaller than the divisor in magnitude, and is zero or has the dividend's sign |
| Slots.TruncDivRem | src/sksl/SkSLInterpreter.cpp:346 | `a - (a / b) * b` is smaller than `b` in magnitude and zero or of the sign of `a`, which is the C++ characterisation of truncating division |
| Slots.TruncDivOddInDividend | src/sksl/SkSLInterpreter.cpp:268 | negating the dividend negates both quotient and remainder, unlike floor or Euclidean division |
| Slots.QuotientOverflowsOnlyAtMinByMinusOne | src/sksl/SkSLInterpreter.cpp:268 | a signed 32-bit quotient fails to fit in 32 bits exactly for `INT_MIN / -1` |
| Bytecode.Read8 | src/sksl/SkSLInterpreter.cpp:72 | an operand byte is read exactly when it lies inside the code, and is that byte; otherwise the step traps with `CodeOverrun` |
| Bytecode.ReadBytes | src/sksl/SkSLInterpreter.cpp:312-315 | the inline offset bytes a swizzle reads in place exist exactly when they lie inside the code, and byte i is the code byte at `at + i` |
| Bytecode.Read16 | src/sksl/SkSLInterpreter.cpp:74-77 | a branch target is below 2^16 |
| Bytecode.Read16Encode16 | src/sksl/SkSLInterpreter.cpp:74-77 | reading a target written little-endian gives that target when the position is even, and traps as misaligned otherwise |
| Bytecode.Read16Decodes | src/sksl/SkSLInterpreter.cpp:74-77 | a successful read was aligned and in bounds, and the two bytes are the little-endian encoding of what it returned |
| Bytecode.Read32Encode32 | src/sksl/SkSLInterpreter.cpp:79-82 | reading an aligned immediate written little-endian gives back that 32-bit value |
| Bytecode.Read32Decodes | src/sksl/SkSLInterpreter.cpp:79-82 | a successful read was aligned and in bounds, and the four bytes are the little-endian encoding of what it returned |
| Arith.SignedResult | src/sksl/SkSLInterpreter.cpp:235 | a signed result is stored exactly when it fits in 32 bits, and the stored slot reads back as it; otherwise the trap is `UndefinedArithmetic` |
| Arith.ApplyBinary | src/sksl/SkSLInterpreter.cpp:201-207 | a binary operator fails only with `UndefinedArithmetic` |
| Arith.OnlyIntegerArithmeticTraps | src/sksl/SkSLInterpreter.cpp:240-255 | every comparison and every float operation produces a slot; only signed add, subtract and multiply, and signed or unsigned divide and remainder, can be undefined |
| Arith.ProductOfViewsCongruent | src/sksl/SkSLInterpreter.cpp:318-319 | the products of the signed views and of the unsigned views of two slots agree modulo 2^32 |
| Arith.SignedArithmeticIsModular | src/sksl/SkSLInterpreter.cpp:318 | signed add, subtract and multiply are defined exactly when the exact result fits in 32 bits, and then give the same bits as wrap-around arithmetic on the unsigned views |
| Arith.SignedDivisionDefinedness | src/sksl/SkSLInterpreter.cpp:346 | signed `/` and `%` are undefined exactly for a zero divisor and for `INT_MIN / -1`; otherwise `(a / b) * b + a % b == a` |
| Arith.UnsignedDivisionDefinedness | src/sksl/SkSLInterpreter.cpp:269 | unsigned `/` (here) and `%` (the same macro at line 347) are undefined exactly for a zero divisor; otherwise they give the natural quotient `q` and remainder `m` of the two slots, with `q * b + m == a` and `m < b` |
| Arith.UnsignedOrderReadsTopBitAsMagnitude | src/sksl/SkSLInterpreter.cpp:244-245 | for distinct slots, the unsigned and signed `>` agree exactly when both slots have the same top bit |
| StackOps.Lanes | src/sksl/SkSLInterpreter.cpp:217-219 | a lane-wise result has one lane per operand pair |
| StackOps.PushEach | src/sksl/SkSLInterpreter.cpp:311-314 | the push loop fails only with `BadStackIndex`, and on success grows the stack by one slot per offset, leaving the old stack as a prefix |
| StackOps.StoreEach | src/sksl/SkSLInterpreter.cpp:372-375 | the store loop fails only with `BadStackIndex`, and on success shrinks the stack by one slot per offset |
| StackLaws.PushEachDefined | src/sksl/SkSLInterpreter.cpp:311-314 | the push loop succeeds exactly when each address is inside the stack as it has grown by the time that address is read |
| StackLaws.PushEachReads | src/sksl/SkSLInterpreter.cpp:311-314 | when every address is inside the original stack, the loop pushes the slots at `base + off[i]` in ascending i |
| StackLaws.LoadSwizzleReads | src/sksl/SkSLInterpreter.cpp:308-317 | `loadswizzle` pops the base and pushes `stack[base + off[i]]` for ascending i |
| StackLaws.VectorLoadReads | src/sksl/SkSLInterpreter.cpp:448-455 | the vector `load` succeeds exactly when no lanes are asked for or the base is inside the stack; with the whole range inside, it pushes the `count` slots from the base in order |
| StackLaws.StoreEachFrame | src/sksl/SkSLInterpreter.cpp:372-375 | with all targets below the values being stored, the store loop succeeds and leaves every untargeted slot as it was |
| StackLaws.StoreEachWritesAt | src/sksl/SkSLInterpreter.cpp:372-375 | with distinct targets, offset i receives the i-th of the stored values |
| StackLaws.StoreEachWrites | src/sksl/SkSLInterpreter.cpp:372-375 | with distinct targets, each offset receives its value and every other slot is unchanged |
| StackLaws.StoreSwizzleWrites | src/sksl/SkSLInterpreter.cpp:369-379 | `storeswizzle` reads its base at depth `count + 1`, writes the i-th popped value to `base + off[i]`, and drops the base as well, so the depth falls by `count + 1` |
| StackLaws.StoreSwizzleKeeps | src/sksl/SkSLInterpreter.cpp:369-379 | `storeswizzle` leaves every slot it does not target unchanged |
| StackLaws.VectorStoreSlot | src/sksl/SkSLInterpreter.cpp:467-474 | after the vector `store`, slot j holds the matching stored value if j is in `base .. base+count-1`, and its old value otherwise |
| StackLaws.VectorStoreWrites | src/sksl/SkSLInterpreter.cpp:467-474 | the vector `store` writes the top `count` values to `base..base+count-1` in order, and leaves the base slot on the stack |
| StackLaws.StoreThenLoad | src/sksl/SkSLInterpreter.cpp:355-361 | `store` pops the value and then the address, sets that slot, and drops the depth by two; a following `load` of the address pushes the stored value |
| StackLaws.DupThenPop | src/sksl/SkSLInterpreter.cpp:271-273 | `dup` followed by popping one slot restores the stack |
| StackLaws.DropTwice | src/sksl/SkSLInterpreter.cpp:338-341 | `pop a` followed by `pop b` is `pop (a + b)` |
| StackLaws.MapTopRewrites | src/sksl/SkSLInterpreter.cpp:281-330 | the conversions, `not` and `negatef` succeed exactly when the stack holds the slots they rewrite; they keep the depth and every slot below, and replace each rewritten slot `v` with its image `f(v)` |
| StackLaws.MapTopComposes | src/sksl/SkSLInterpreter.cpp:427-447 | two in-place rewrites of the same top slots are one rewrite with the composed function |
| StackLaws.NegateTopExactly | src/sksl/SkSLInterpreter.cpp:331-335 | `negates` traps exactly when the top slot holds INT_MIN; otherwise it replaces the top slot with its two's-complement negation and keeps the rest; an empty stack underflows |
| StackLaws.NegateTwice | src/sksl/SkSLInterpreter.cpp:331-335 | negating twice restores the stack |
| StackLaws.StoreGlobalThenLoadGlobal | src/sksl/SkSLInterpreter.cpp:362-368 | global read-after-write: `storeglobal` pops the value and then the index and writes only that global; `loadglobal` then pushes the stored value from that index and the old value from any other |
| StackLaws.LanesDefined | src/sksl/SkSLInterpreter.cpp:217-219 | the lane-wise operation succeeds exactly when every lane's operation is defined |
| StackLaws.LanesValues | src/sksl/SkSLInterpreter.cpp:217-219 | lane i of the result is the left operand i combined with the right operand i |
| StackLaws.LanesTrapAt | src/sksl/SkSLInterpreter.cpp:217-219 | the trap reported is that of the highest undefined lane, since the loop runs from the last lane down |
| StackLaws.LanesTrap | src/sksl/SkSLInterpreter.cpp:217-219 | every lane-wise failure is the failure of some lane |
| StackLaws.VectorBinaryTraps | src/sksl/SkSLInterpreter.cpp:211-224 | a vector binary instruction can only overflow its 16-lane buffer, underflow the stack, or hit undefined arithmetic |
| StackLaws.LaneWiseDefined | src/sksl/SkSLInterpreter.cpp:211-224 | within the buffer size and stack depth, the vector binary op succeeds exactly when every lane is defined |
| StackLaws.LaneWiseValues | src/sksl/SkSLInterpreter.cpp:211-224 | on `[.., l0..l(N-1), r0..r(N-1)]` it yields `[.., l0 op r0, .., l(N-1) op r(N-1)]`, lanes in original order, with the depth down by N and the slots below unchanged |
| StackLaws.VectorBinaryOfOne | src/sksl/SkSLInterpreter.cpp:211-224 | the one-lane vector form of a binary instruction is the scalar `BINARY_OP` |
| StackLaws.ReturnTopPlacement | src/sksl/SkSLInterpreter.cpp:348-354 | `return(c)` keeps the depth, puts the former top c slots at addresses `0..c-1` and leaves the rest |
| StackLaws.SwizzleExample | src/sksl/SkSLInterpreter.cpp:382-391 | `swizzle(4, 2, [3, 0])` on `[a, b, c, d]` leaves `[d, a]` |
| Loops.DupDownByInsertion | src/sksl/SkSLInterpreter.cpp:274-280 | the insertion loop turns `[.., X, v1..vc]` into `[.., v1..vc, X, v1..vc]` |
| Loops.ReturnByCopy | src/sksl/SkSLInterpreter.cpp:348-354 | the ascending in-place copy of `kReturn` produces the intended placement even when source and destination overlap |
| Loops.ConvertInPlace | src/sksl/SkSLInterpreter.cpp:427-447 | the vector conversions' in-place loop, top slot first, computes the closed-form rewrite of the top `count` slots |
| Loops.PopRepeatedly | src/sksl/SkSLInterpreter.cpp:338-341 | popping one slot at a time `count` times is `pop count`, including the underflow when the stack runs out |
| Loops.PopOperands | src/sksl/SkSLInterpreter.cpp:213-216 | the first vector loop moves the top `count` slots into the buffer in stack order and pops them |
| Loops.CombineLanes | src/sksl/SkSLInterpreter.cpp:217-219 | the second vector loop computes the lane-wise result, or the trap of the first undefined lane it meets, and pops the left operands |
| Loops.PushLanes | src/sksl/SkSLInterpreter.cpp:220-222 | the third vector loop pushes the lanes back in order |
| Loops.LaneWiseByBuffer | src/sksl/SkSLInterpreter.cpp:211-224 | the three loops of `VECTOR_BINARY_OP` together compute the lane-wise closed form |
| Loops.SwizzleByBuffer | src/sksl/SkSLInterpreter.cpp:382-391 | popping into the four-slot buffer and pushing the named lanes gives the swizzle's closed form, with index bytes read in list order |
| StepLaws.ScalarBinaryStep | src/sksl/SkSLInterpreter.cpp:201-207 | on `[.., a, b]` a binary instruction yields `[.., a op b]`: depth down by one, slots below `a` unchanged, and a trap exactly when `a op b` is undefined |
| StepLaws.VectorFormIsScalar | src/sksl/SkSLInterpreter.cpp:392-461 | the vector `branch`, `conditionalbranch` and `loadglobal` ignore the lane count, and with one lane the vector binary, conversion and `load` forms equal the scalar instruction |
| StepLaws.VectorStoreOfOneKeepsAddress | src/sksl/SkSLInterpreter.cpp:467-474 | the one-lane vector `store` writes the same slot as the scalar `store`, but leaves the address slot on the stack |
| StepLaws.HaltsOnlyOnReturn | src/sksl/SkSLInterpreter.cpp:348-354 | only `kReturn` halts the loop |
| StepLaws.ReturnHalts | src/sksl/SkSLInterpreter.cpp:348-354 | `return(c)` halts with the depth unchanged, the former top c slots at `0..c-1`, the rest and the globals unchanged |
| StepLaws.GlobalsOnlyThroughStoreGlobal | src/sksl/SkSLInterpreter.cpp:362-368 | no instruction but `kStoreGlobal` changes the globals |
| StepLaws.StoreGlobalStep | src/sksl/SkSLInterpreter.cpp:362-368 | `storeglobal` pops the value and then the index, and writes only that global |
| StepLaws.NoCaseIsUnsupported | src/sksl/SkSLInterpreter.cpp:483-485 | an opcode without an execution case, such as `kAndB`, `kOrI` or `kParameter`, or a vector sub-instruction without one, is refused |
| StepLaws.VectorUnsupportedOnlyWithoutCase | src/sksl/SkSLInterpreter.cpp:477-479 | the vector sub-dispatch refuses only sub-instructions it has no case for |
| StepLaws.FirstCasesNeverUnsupported | src/sksl/SkSLInterpreter.cpp:235-317 | the cases from the binary instructions to `kLoadSwizzle` never refuse as unsupported |
| StepLaws.LastCasesNeverUnsupported | src/sksl/SkSLInterpreter.cpp:321-391 | the cases from `kNot` to `kSwizzle` never refuse as unsupported |
| StepLaws.UnsupportedOnlyWithoutCase | src/sksl/SkSLInterpreter.cpp:483-485 | a refusal as unsupported means the opcode has no case |
| StepLaws.UnsupportedExactly | src/sksl/SkSLInterpreter.cpp:483-485 | a step is refused as unsupported exactly when its opcode, or its vector sub-instruction, has no case |
| StepLaws.NopContinues | src/sksl/SkSLInterpreter.cpp:336-337 | `kNop` only advances the instruction pointer |
| StepLaws.BranchJumps | src/sksl/SkSLInterpreter.cpp:237-239 | `branch` jumps to its encoded 16-bit target whatever the stack holds |
| StepLaws.ConditionalBranchPopsOne | src/sksl/SkSLInterpreter.cpp:256-262 | `conditionalbranch` always pops exactly one slot, and jumps to its target exactly when that slot reads true |
| StepLaws.PushImmediatePushes | src/sksl/SkSLInterpreter.cpp:343-345 | `pushimmediate` pushes exactly the aligned 32-bit value encoded after it |
| StepLaws.SwizzlesSkipTheirBytes | src/sksl/SkSLInterpreter.cpp:308-391 | the three swizzle instructions continue just after their inline offset or index bytes |
| StepLaws.NotFlips | src/sksl/SkSLInterpreter.cpp:321-325 | under a sound boolean view, `kNot` flips the truth of the top slot and leaves everything else |
| StepLaws.LoopSplits | src/sksl/SkSLInterpreter.cpp:229-490 | a bounded run that stops ignores further fuel, and one that runs out resumes from its last state |
| StepLaws.RunMonotone | src/sksl/SkSLInterpreter.cpp:229-490 | once a run of the interpreter halts or traps, more fuel does not change the outcome |
| Driver.SeedInputs | src/sksl/SkSLInterpreter.cpp:49-51 | seeding the inputs keeps the global count, and fails only for an input slot outside the globals |
| Driver.CopyOut | src/sksl/SkSLInterpreter.cpp:53-63 | the out-copy keeps the length of the argument array, and fails only when it would read past the final stack |
| Driver.Invoke | src/sksl/SkSLInterpreter.cpp:32-65 | an invocation that returns gives back an argument array of the caller's length |
| Driver.SeedInputsDefined | src/sksl/SkSLInterpreter.cpp:49-51 | seeding succeeds exactly when every input slot names a global |
| Driver.SeedInputsFrame | src/sksl/SkSLInterpreter.cpp:46-51 | globals that no input names keep their value |
| Driver.SeedInputsFirstWins | src/sksl/SkSLInterpreter.cpp:49-51 | since the loop runs from the last input down, a repeated slot holds the input with the lowest index |
| Driver.InitialStateShape | src/sksl/SkSLInterpreter.cpp:40-51 | the body starts at ip 0 with `args[0..paramCount)` then `localCount` sentinels, and with `globalCount` globals that hold the sentinel except at input slots, where each holds its first input |
| Driver.CopyOutDefined | src/sksl/SkSLInterpreter.cpp:53-63 | the out-copy succeeds exactly when every out-parameter slot lies inside the final stack |
| Driver.CopyOutWrites | src/sksl/SkSLInterpreter.cpp:53-63 | out-parameter positions take the final stack's slots at the same offset, the running offset advancing past every parameter, and all other entries keep their values |
| Driver.InvokeCopiesOutParameters | src/sksl/SkSLInterpreter.cpp:32-65 | after a returning invocation, only out-parameter positions of `args` are overwritten, each from the same position of the final stack |
| Findings.StoreEachAsWritten | src/sksl/SkSLInterpreter.cpp:372-375 | the lane loop as written, which checks the address before the pop, shrinks the stack by one slot per offset |
| Findings.StoreSwizzleLosesValue | src/sksl/SkSLInterpreter.cpp:369-379 | on `[x, 0, v]` with offset `[2]` the as-written check passes and the instruction leaves `[x]`, with `v` written nowhere, while the corrected instruction refuses the address |
| Findings.AsWrittenAgreesWhereCorrectAccepts | src/sksl/SkSLInterpreter.cpp:372-375 | wherever the corrected loop succeeds, the as-written loop computes the same stack |
| Findings.StoreSwizzleAgreesWhereCorrectAccepts | src/sksl/SkSLInterpreter.cpp:369-379 | the two `storeswizzle` variants differ only on addresses the corrected check refuses |
| Findings.ReturnOverwritesOutParameter | src/sksl/SkSLInterpreter.cpp:348-354 | after `return count`, an `out` parameter slot `j` below `count` is handed back holding the j-th returned value, not the value the body left in that parameter |
| Findings.CopyOutBeforeReturn | src/sksl/SkSLInterpreter.cpp:53-63 | the corrected out-copy, taken from the stack as `kReturn` finds it, keeps the arguments' length and yields exactly `count` returned values |
| Findings.OutParameterKeepsBodyValue | src/sksl/SkSLInterpreter.cpp:53-63 | with the corrected out-copy every `out` slot holds the body's value for it, every other argument is kept, and the returned values are the top `count` slots |
| Scenarios.AddTwoAndThree | src/sksl/SkSLInterpreter.cpp:226-354 | `push 2; push 3; addi; return 1`, padded with `nop`s for alignment, halts with 5 at address 0 |
| Scenarios.VectorAdd | src/sksl/SkSLInterpreter.cpp:392-396 | `vector 2, addi` on `[1, 2, 10, 20]` leaves `[11, 22]` |
| Scenarios.SwizzleReorders | src/sksl/SkSLInterpreter.cpp:382-391 | `swizzle 4, 2, [3, 0]` on `[a, b, c, d]` leaves `[d, a]` and continues after its index bytes |
| Scenarios.StoreSevenRuns | src/sksl/SkSLInterpreter.cpp:336-361 | `push t; push 7; store; return 0` on `[x, y]`, for `t` 0 or 1, halts with 7 at address `t` and the other slot kept |
| Scenarios.OutParameterCopied | src/sksl/SkSLInterpreter.cpp:53-63 | a function with one two-slot `out` parameter running that body with `t = 0` hands `[7, y]` back to the caller |
| Scenarios.OutParameterAfterInParameter | src/sksl/SkSLInterpreter.cpp:53-63 | with a one-slot `in` parameter before a one-slot `out` parameter and `t = 1`, the out-copy starts at offset 1: the caller gets `[x, 7]` |
| Scenarios.MaxOfTwoRuns | src/sksl/SkSLInterpreter.cpp:256-262 | `a > b ? a : b` through `compares sgt` and `conditionalbranch` halts with the signed maximum of `a` and `b` at address 0, along the taken or the fallen-through path |
| Scenarios.MaxOfThreeAndSeven | src/sksl/SkSLInterpreter.cpp:32-65 | invoking that function on the arguments 3 and 7 returns 7 at address 0 and hands both arguments back unchanged |
| Scenarios.ReturnValueReachesOutParameter | src/sksl/SkSLInterpreter.cpp:348-354 | a body `push 7; return 1` with one one-slot `out` parameter hands 7 back in that parameter, whatever the caller passed |
| Scenarios.RepeatedInputSlot | src/sksl/SkSLInterpreter.cpp:49-51 | when two inputs name the same global, the first input is the one left there |

## Left out

- Float semantics: `fAdd`, `fDivide`, the float comparisons, `negatef` and the three conversions are uninterpreted functions of the platform. For the conversions and `negatef`, the model proves which slots they rewrite and that each is rewritten by the platform's function (`StackLaws.MapTopRewrites`), but not the float values.
- `kFloatToInt` (lines 281-285 and 427-433) on NaN, an infinity or a float whose truncation does not fit in an int is undefined in C++. The model does not trap there: it returns whatever the platform's `toSigned` gives, since the float values themselves are not modelled.
- Opcode numbers: the `ByteCodeInstruction` enumeration is declared in a header that is not part of this model. The model decodes bytes through a platform function, and `Opcode.Unassigned` stands for a byte no instruction is numbered with.
- The `Value` union and `Value(bool)`: their header is not part of this model. The boolean view is abstract, and the one fact assumed of it is that a bool written into a slot reads back unchanged.
- `disassemble`, `dumpStack`, `value_string`, the `TRACE` blocks and the `printf` of `kDebugPrint` and of the `default` cases are diagnostics. `kDebugPrint` is modelled as popping one slot.
- `CallbackCtx` is raster-pipeline glue.
- `src/image/SkImage_Raster.cpp` is not part of this model.
- Termination: nothing in the source bounds a run, so `Run` and `Invoke` take an instruction budget, and `Exhausted` reports a budget that ran out.
- The `default` cases print and, in a release build, carry on with the next byte. The model follows the debug build's `SkASSERT(false)` and traps with `Unsupported`.
- Every `SkASSERT` bounds check becomes a trap, and so does every access the source leaves undefined:
  - code read past its end (`CodeOverrun`);
  - a popped, negative or too-large stack address (`StackUnderflow`, `BadStackIndex`), where the source asserts only the upper bound;
  - a global index (`BadGlobalIndex`);
  - a vector binary instruction with more than 16 lanes, or a swizzle of more than 4 slots (`BufferOverflow`).
- A swizzle index at or above the number of slots popped would read a buffer lane the pops never filled, whose value is indeterminate in C++. The model refuses it with `BufferOverflow` rather than inventing a value.
- `READ16` and `READ32` assume a little-endian host, as the pointer casts do on the platforms the source targets. A misaligned operand traps with `Misaligned`.
- The stack is unbounded, as `std::vector` grows, and memory exhaustion is not modelled.
- `Invoke` requires the caller's `args` and `inputs` to hold every slot it reads or writes, since the source indexes the raw C arrays without checking.
- `Invoke` returns the final stack in place of the `fStack.data()` pointer.

## Findings

| source | as written | input that shows it | evidently intended | confidence | as-written member | corrected member |
|---|---|---|---|---|---|---|
| src/sksl/SkSLInterpreter.cpp:369-379 | `kStoreSwizzle` checks `target + offset < size` before popping the value, then writes into the stack after the pop, so an address equal to the new size passes the check. Since C++17 the `pop()` on the right is sequenced before the subscript on the left; before C++17 their order is unspecified | stack `[x, 0, v]`, `storeswizzle` with count 1 and offset `[2]`: the check passes, the store goes to the slot just popped, and the instruction leaves `[x]` with `v` lost | the address is checked against the stack the value is written into, so the store is refused | not executed | Findings.StoreSwizzleLosesValue | StackLaws.StoreSwizzleWrites |
| src/sksl/SkSLInterpreter.cpp:348-354 | `kReturn` copies the returned slots to addresses `0..count-1`, where the parameters live, and `run` then copies each `out` parameter from `fStack[offset]` (lines 53-63) | a function with one one-slot `out` parameter whose body is `push 7; return 1`, called with `[x]`: the caller gets 7 in the `out` parameter although the body never wrote it (`Scenarios.ReturnValueReachesOutParameter`) | each `out` parameter receives the value the body left in it, with the returned values kept apart | not executed; medium, since the code generator may never emit both | Findings.ReturnOverwritesOutParameter | Findings.OutParameterKeepsBodyValue |

`Driver.Invoke` uses the corrected `kStoreSwizzle`. For the second row it keeps the code's order: the caller reads the returned values from the bottom of that same stack (the `fStack.data()` that `run` returns), so the corrected out-copy, which needs the stack as `kReturn` finds it, is stated on its own in `Findings.CopyOutBeforeReturn`.
