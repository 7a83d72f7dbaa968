/** The byte-code: the instruction set and the inline operand encodings.

    An instruction is a one-byte opcode followed by its operands: counts and
    indices are one byte, branch targets two bytes aligned on two, immediates
    four bytes aligned on four, all little-endian. The numeric value of each
    opcode is not part of this model; a platform supplies the byte-to-opcode
    decoding (module Host). */
module Bytecode {
  import opened Slots
  import opened Outcomes

  /** The instructions of the form `a = a op b` on the two top slots. */
  datatype BinaryOp =
    | AddI | AddF
    | CompareIEQ | CompareFEQ | CompareINEQ | CompareFNEQ
    | CompareSGT | CompareUGT | CompareFGT
    | CompareSGTEQ | CompareUGTEQ | CompareFGTEQ
    | CompareSLT | CompareULT | CompareFLT
    | CompareSLTEQ | CompareULTEQ | CompareFLTEQ
    | DivideS | DivideU | DivideF
    | MultiplyS | MultiplyU | MultiplyF
    | RemainderS | RemainderU
    | SubtractI | SubtractF
  {
    predicate IsComparison() {
      CompareIEQ? || CompareFEQ? || CompareINEQ? || CompareFNEQ? ||
      CompareSGT? || CompareUGT? || CompareFGT? ||
      CompareSGTEQ? || CompareUGTEQ? || CompareFGTEQ? ||
      CompareSLT? || CompareULT? || CompareFLT? ||
      CompareSLTEQ? || CompareULTEQ? || CompareFLTEQ?
    }

    predicate IsFloat() {
      AddF? || CompareFEQ? || CompareFNEQ? || CompareFGT? || CompareFGTEQ? ||
      CompareFLT? || CompareFLTEQ? || DivideF? || MultiplyF? || SubtractF?
    }
  }

  /** The instructions that rewrite the top slot from one view to another. */
  datatype Conversion = FloatToInt | SignedToFloat | UnsignedToFloat

  datatype Opcode =
    | Binary(op: BinaryOp)
    | Convert(conversion: Conversion)
    | Branch | ConditionalBranch | DebugPrint | Dup | DupDown
    | Load | LoadGlobal | LoadSwizzle
    | Not | NegateF | NegateS | Nop | Pop | PushImmediate | Return
    | Store | StoreGlobal | StoreSwizzle | Swizzle | Vector
    // named by the instruction set but given no execution case
    | AndB | AndI | OrB | OrI | Parameter
    // a byte value no instruction is numbered with
    | Unassigned

  /** `READ8`: the byte at `at`. */
  function Read8(code: seq<Byte>, at: nat): (r: Result<Byte>)
    ensures r.Ok? <==> at < |code|
    ensures r.Ok? ==> r.value == code[at]
    ensures r.Err? ==> r.trap == CodeOverrun
  {
    if at < |code| then Ok(code[at]) else Err(CodeOverrun)
  }

  /** The `count` bytes from `at` on, read in place by the swizzle instructions. */
  function ReadBytes(code: seq<Byte>, at: nat, count: nat): (r: Result<seq<Byte>>)
    ensures r.Ok? <==> at + count <= |code|
    ensures r.Ok? ==> |r.value| == count && forall i :: 0 <= i < count ==> r.value[i] == code[at + i]
  {
    if at + count <= |code| then Ok(code[at..at + count]) else Err(CodeOverrun)
  }

  /** `READ16`: an aligned little-endian 16-bit branch target. */
  function Read16(code: seq<Byte>, at: nat): (r: Result<nat>)
    ensures r.Ok? ==> r.value < 0x1_0000
  {
    if at % 2 != 0 then Err(Misaligned)
    else if at + 2 > |code| then Err(CodeOverrun)
    else Ok(code[at] as int + 0x100 * code[at + 1] as int)
  }

  /** `READ32`: an aligned little-endian 32-bit immediate. */
  function Read32(code: seq<Byte>, at: nat): (r: Result<Value>)
  {
    if at % 4 != 0 then Err(Misaligned)
    else if at + 4 > |code| then Err(CodeOverrun)
    else Ok(code[at] as int + 0x100 * code[at + 1] as int
            + 0x1_0000 * code[at + 2] as int + 0x100_0000 * code[at + 3] as int)
  }

  /** How a code generator lays down a 16-bit operand. */
  function Encode16(x: nat): (bytes: seq<Byte>)
    requires x < 0x1_0000
    ensures |bytes| == 2
  {
    [x % 0x100, x / 0x100]
  }

  /** How a code generator lays down a 32-bit operand. */
  function Encode32(v: Value): (bytes: seq<Byte>)
    ensures |bytes| == 4
  {
    [v % 0x100, (v / 0x100) % 0x100, (v / 0x1_0000) % 0x100, v / 0x100_0000]
  }

  /** An aligned 16-bit operand decodes to exactly the target that was
      encoded there, and any other placement is refused. */
  lemma Read16Encode16(code: seq<Byte>, at: nat, x: nat)
    requires x < 0x1_0000
    requires at + 2 <= |code| && code[at..at + 2] == Encode16(x)
    ensures Read16(code, at) == (if at % 2 == 0 then Ok(x) else Err(Misaligned))
  {
    assert code[at] == x % 0x100 && code[at + 1] == x / 0x100;
  }

  /** Conversely every successful 16-bit read is the encoding of its result,
      so the decoding loses no information. */
  lemma Read16Decodes(code: seq<Byte>, at: nat)
    requires Read16(code, at).Ok?
    ensures at % 2 == 0 && at + 2 <= |code|
    ensures code[at..at + 2] == Encode16(Read16(code, at).value)
  {
    var x := Read16(code, at).value;
    assert x == code[at] as int + 0x100 * code[at + 1] as int;
    assert x % 0x100 == code[at] && x / 0x100 == code[at + 1];
  }

  /** Division by `d` splits `lo + d * hi` back into its two parts. */
  lemma DivModSplit(lo: int, hi: int, d: int)
    requires 0 <= lo < d && 0 <= hi
    ensures (lo + d * hi) / d == hi && (lo + d * hi) % d == lo
  {
    var x := lo + d * hi;
    var q, r := x / d, x % d;
    assert x == d * q + r && 0 <= r < d;
    if q > hi {
      assert d * q >= d * (hi + 1) by { MulGrows(d, q, hi + 1); }
    } else if q < hi {
      assert d * hi >= d * (q + 1) by { MulGrows(d, hi, q + 1); }
    }
  }

  /** An aligned 32-bit operand decodes to exactly the immediate that was
      encoded there. */
  lemma Read32Encode32(code: seq<Byte>, at: nat, v: Value)
    requires at % 4 == 0
    requires at + 4 <= |code| && code[at..at + 4] == Encode32(v)
    ensures Read32(code, at) == Ok(v)
  {
    assert code[at] == v % 0x100;
    assert code[at + 1] == (v / 0x100) % 0x100;
    assert code[at + 2] == (v / 0x1_0000) % 0x100;
    assert code[at + 3] == v / 0x100_0000;
    var b0, b1, b2, b3 := v % 0x100, (v / 0x100) % 0x100, (v / 0x1_0000) % 0x100, v / 0x100_0000;
    assert v == b0 + 0x100 * (v / 0x100);
    assert v / 0x100 == b1 + 0x100 * (v / 0x1_0000);
    assert v / 0x1_0000 == b2 + 0x100 * b3;
  }

  /** Every successful 32-bit read is the encoding of its result. */
  lemma Read32Decodes(code: seq<Byte>, at: nat)
    requires Read32(code, at).Ok?
    ensures at % 4 == 0 && at + 4 <= |code|
    ensures code[at..at + 4] == Encode32(Read32(code, at).value)
  {
    var v := Read32(code, at).value;
    var b0: int, b1: int, b2: int, b3: int := code[at], code[at + 1], code[at + 2], code[at + 3];
    var h2 := b2 + 0x100 * b3;
    var h1 := b1 + 0x100 * h2;
    assert v == b0 + 0x100 * h1;
    DivModSplit(b0, h1, 0x100);
    DivModSplit(b1, h2, 0x100);
    DivModSplit(b2, b3, 0x100);
    DivModSplit(b0 + 0x100 * b1, h2, 0x1_0000);
    DivModSplit(b0 + 0x100 * b1 + 0x1_0000 * b2, b3, 0x100_0000);
  }
}
