/** The scalar operator each `BINARY_OP` instruction applies to its two
    operands, as C++ evaluates it on the `int32_t`, `uint32_t`, `float` or
    `bool` member of the slot union.

    Signed overflow, division by zero and `INT_MIN / -1` are undefined in C++;
    here they yield the `UndefinedArithmetic` trap. Unsigned arithmetic wraps
    modulo 2^32. Float operations are the platform's. */
module Arith {
  import opened Slots
  import opened Outcomes
  import opened Bytecode
  import opened Host

  /** Stores a signed result, or traps when it does not fit in 32 bits. */
  function SignedResult(i: int): (r: Result<Value>)
    ensures r.Ok? <==> IsInt32(i)
    ensures r.Ok? ==> Signed(r.value) == i
    ensures r.Err? ==> r.trap == UndefinedArithmetic
  {
    if IsInt32(i) then Ok(FromSigned(i)) else Err(UndefinedArithmetic)
  }

  /** `a op b` for the left operand `a` and the right operand `b`. */
  function ApplyBinary(p: Platform, op: BinaryOp, a: Value, b: Value): (r: Result<Value>)
    ensures r.Err? ==> r.trap == UndefinedArithmetic
  {
    var x, y := Signed(a), Signed(b);
    var f, make := p.float, p.bools.make;
    match op
    case AddI => SignedResult(x + y)
    case AddF => Ok(f.add(a, b))
    case CompareIEQ => Ok(make(x == y))
    case CompareFEQ => Ok(make(f.equal(a, b)))
    case CompareINEQ => Ok(make(x != y))
    case CompareFNEQ => Ok(make(!f.equal(a, b)))
    case CompareSGT => Ok(make(x > y))
    case CompareUGT => Ok(make(a > b))
    case CompareFGT => Ok(make(f.less(b, a)))
    case CompareSGTEQ => Ok(make(x >= y))
    case CompareUGTEQ => Ok(make(a >= b))
    case CompareFGTEQ => Ok(make(f.lessEqual(b, a)))
    case CompareSLT => Ok(make(x < y))
    case CompareULT => Ok(make(a < b))
    case CompareFLT => Ok(make(f.less(a, b)))
    case CompareSLTEQ => Ok(make(x <= y))
    case CompareULTEQ => Ok(make(a <= b))
    case CompareFLTEQ => Ok(make(f.lessEqual(a, b)))
    case DivideS => if y == 0 then Err(UndefinedArithmetic) else SignedResult(TruncDiv(x, y))
    case DivideU => if b == 0 then Err(UndefinedArithmetic) else NatDivision(a, b); Ok(a / b)
    case DivideF => Ok(f.divide(a, b))
    case MultiplyS => SignedResult(x * y)
    case MultiplyU => Ok(Wrap(a * b))
    case MultiplyF => Ok(f.multiply(a, b))
    case RemainderS =>
      if y == 0 || !IsInt32(TruncDiv(x, y)) then Err(UndefinedArithmetic)
      else Ok(FromSigned(TruncRem(x, y)))
    case RemainderU => if b == 0 then Err(UndefinedArithmetic) else NatDivision(a, b); Ok(a % b)
    case SubtractI => SignedResult(x - y)
    case SubtractF => Ok(f.subtract(a, b))
  }

  /** Only the integer arithmetic can trap: every comparison and every float
      operation produces a slot. */
  lemma OnlyIntegerArithmeticTraps(p: Platform, op: BinaryOp, a: Value, b: Value)
    ensures ApplyBinary(p, op, a, b).Err? ==>
              op.AddI? || op.SubtractI? || op.MultiplyS? || op.DivideS? || op.DivideU?
              || op.RemainderS? || op.RemainderU?
    ensures op.IsFloat() || op.IsComparison() ==> ApplyBinary(p, op, a, b).Ok?
  {
  }

  lemma ModOfShift(j: int, t: int)
    ensures (j + t * TWO_32) % TWO_32 == j % TWO_32
  {
  }

  /** The signed and unsigned views of two slots have congruent products. */
  lemma ProductOfViewsCongruent(a: Value, b: Value)
    ensures Wrap(Signed(a) * Signed(b)) == Wrap(a * b)
  {
    var x, y := Signed(a), Signed(b);
    var ka: int := if a < 0x8000_0000 then 0 else 1;
    var kb: int := if b < 0x8000_0000 then 0 else 1;
    assert a == x + ka * TWO_32 && b == y + kb * TWO_32;
    var t := x * kb + ka * y + ka * kb * TWO_32;
    assert a * b == x * y + t * TWO_32 by {
      assert a * b == (x + ka * TWO_32) * (y + kb * TWO_32);
    }
    ModOfShift(x * y, t);
  }

  /** The signed and unsigned views of two slots have congruent sums and
      differences. */
  lemma SumAndDifferenceOfViewsCongruent(a: Value, b: Value)
    ensures Wrap(Signed(a) + Signed(b)) == Wrap(a + b)
    ensures Wrap(Signed(a) - Signed(b)) == Wrap(a - b)
  {
    var x, y := Signed(a), Signed(b);
    var ka: int := if a < 0x8000_0000 then 0 else 1;
    var kb: int := if b < 0x8000_0000 then 0 else 1;
    assert a == x + ka * TWO_32 && b == y + kb * TWO_32;
    ModOfShift(x + y, ka + kb);
    ModOfShift(x - y, ka - kb);
  }

  /** Signed addition, subtraction and multiplication are defined exactly
      when the exact result fits in 32 bits, and then they produce the same
      bits as the machine's modular arithmetic on the unsigned views. */
  lemma SignedArithmeticIsModular(p: Platform, op: BinaryOp, a: Value, b: Value)
    requires op.AddI? || op.SubtractI? || op.MultiplyS?
    ensures var x, y := Signed(a), Signed(b);
            var exact := if op.AddI? then x + y else if op.SubtractI? then x - y else x * y;
            ApplyBinary(p, op, a, b).Ok? <==> IsInt32(exact)
    ensures ApplyBinary(p, op, a, b).Ok? ==>
              ApplyBinary(p, op, a, b).value ==
                Wrap(if op.AddI? then a + b else if op.SubtractI? then a - b else a * b)
  {
    var x, y := Signed(a), Signed(b);
    if op.AddI? {
      if IsInt32(x + y) {
        FromSignedIsWrap(x + y);
        SumAndDifferenceOfViewsCongruent(a, b);
      }
    } else if op.SubtractI? {
      if IsInt32(x - y) {
        FromSignedIsWrap(x - y);
        SumAndDifferenceOfViewsCongruent(a, b);
      }
    } else {
      if IsInt32(x * y) {
        FromSignedIsWrap(x * y);
        ProductOfViewsCongruent(a, b);
      }
    }
  }

  /** Signed division and remainder are undefined exactly for a zero divisor
      and for INT_MIN / -1; otherwise they satisfy the C++ identity
      `(a / b) * b + a % b == a` on the signed views. */
  lemma SignedDivisionDefinedness(p: Platform, a: Value, b: Value)
    ensures var x, y := Signed(a), Signed(b);
            var undefined := y == 0 || (x == INT_MIN && y == -1);
            && (ApplyBinary(p, DivideS, a, b).Err? <==> undefined)
            && (ApplyBinary(p, RemainderS, a, b).Err? <==> undefined)
    ensures ApplyBinary(p, DivideS, a, b).Ok? ==>
              Signed(ApplyBinary(p, DivideS, a, b).value) * Signed(b)
                + Signed(ApplyBinary(p, RemainderS, a, b).value) == Signed(a)
  {
    var x, y := Signed(a), Signed(b);
    if y != 0 {
      QuotientOverflowsOnlyAtMinByMinusOne(x, y);
    }
  }

  /** Unsigned `/` and `%` are undefined only for a zero divisor; otherwise
      they are the quotient and remainder of the two slots read as naturals. */
  lemma UnsignedDivisionDefinedness(p: Platform, a: Value, b: Value)
    ensures ApplyBinary(p, DivideU, a, b).Err? <==> b == 0
    ensures ApplyBinary(p, RemainderU, a, b).Err? <==> b == 0
    ensures b != 0 ==>
              var q, m := ApplyBinary(p, DivideU, a, b).value, ApplyBinary(p, RemainderU, a, b).value;
              q * b + m == a && m < b
  {
  }

  /** The unsigned comparisons read the top bit as magnitude: for distinct
      slots, `>` on the unsigned and on the signed views agree exactly when
      both slots have the same top bit. */
  lemma UnsignedOrderReadsTopBitAsMagnitude(a: Value, b: Value)
    requires a != b
    ensures (a > b) == (Signed(a) > Signed(b)) <==> ((a < 0x8000_0000) == (b < 0x8000_0000))
  {
  }
}
