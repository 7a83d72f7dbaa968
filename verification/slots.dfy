/** The 32-bit value slot and the integer views the interpreter reads it through.

    A slot is an uninterpreted 32-bit word. Opcodes read it as a signed or an
    unsigned 32-bit integer (this module), as a float or as a bool (the
    platform's views, see module Host). */
module Slots {

  const TWO_32: int := 0x1_0000_0000
  const INT_MIN: int := -0x8000_0000
  const INT_MAX: int := 0x7FFF_FFFF

  /** One slot, read as its unsigned value. */
  type Value = v: int | 0 <= v < 0x1_0000_0000

  /** One byte of byte-code. */
  type Byte = b: int | 0 <= b < 0x100

  /** The sentinel every local and every non-input global starts as: the bits
      of `(int) 0xDEADBEEF`. */
  const UNINITIALIZED: Value := 0xDEAD_BEEF

  predicate IsInt32(i: int) {
    INT_MIN <= i <= INT_MAX
  }

  /** The `fSigned` view: two's complement. */
  function Signed(v: Value): (i: int)
    ensures IsInt32(i)
    ensures (i < 0) <==> (v >= 0x8000_0000)
    ensures (i - v) % TWO_32 == 0
  {
    if v < 0x8000_0000 then v else v - TWO_32
  }

  /** The slot a signed 32-bit integer is stored as (`Value(int32_t)`). */
  function FromSigned(i: int): (v: Value)
    requires IsInt32(i)
    ensures Signed(v) == i
  {
    if i >= 0 then i else i + TWO_32
  }

  /** Reading a slot as signed and storing it back is the identity, so the
      signed view loses nothing. */
  lemma SignedRoundTrip(v: Value)
    ensures FromSigned(Signed(v)) == v
  {
  }

  /** Two's complement wrap-around: the slot holding `i` modulo 2^32. */
  function Wrap(i: int): (v: Value)
    ensures (v - i) % TWO_32 == 0
  {
    i % TWO_32
  }

  /** Storing a representable signed result is the same as wrapping it, so a
      defined signed operation agrees with the machine's modular one. */
  lemma FromSignedIsWrap(i: int)
    requires IsInt32(i)
    ensures FromSigned(i) == Wrap(i)
  {
  }

  function Abs(i: int): nat {
    if i < 0 then -i else i
  }

  /** Euclidean division of naturals, with the facts the proofs below use. */
  lemma NatDivision(x: nat, y: nat)
    requires y > 0
    ensures x == (x / y) * y + x % y
    ensures 0 <= x % y < y
    ensures 0 <= x / y <= x
  {
    MulGrows(x / y, y, 1);
  }

  lemma MulGrows(m: nat, y: nat, k: nat)
    requires y >= k
    ensures m * y >= m * k
  {
    assert m * y == m * (y - k) + m * k;
  }

  lemma MulNegation(x: int, y: int)
    ensures (-x) * y == -(x * y)
    ensures x * (-y) == -(x * y)
    ensures (-x) * (-y) == x * y
  {
  }

  /** C++ `/` on signed integers: the algebraic quotient with its fractional
      part discarded (truncation toward zero), unlike Dafny's Euclidean `/`. */
  function TruncDiv(a: int, b: int): (q: int)
    requires b != 0
    ensures Abs(q) <= Abs(a)
    ensures q == 0 || ((q < 0) <==> ((a < 0) != (b < 0)))
  {
    NatDivision(Abs(a), Abs(b));
    var m := Abs(a) / Abs(b);
    if (a < 0) == (b < 0) then m else -m
  }

  /** C++ `%` on signed integers, defined by `(a / b) * b + a % b == a`. */
  function TruncRem(a: int, b: int): (r: int)
    requires b != 0
    ensures Abs(r) < Abs(b)
    ensures r == 0 || ((r < 0) <==> (a < 0))
  {
    TruncDivRem(a, b);
    a - TruncDiv(a, b) * b
  }

  /** The C++ characterisation of signed division: the remainder left by the
      truncated quotient is smaller than the divisor in magnitude and takes
      the sign of the dividend. */
  lemma TruncDivRem(a: int, b: int)
    requires b != 0
    ensures Abs(a - TruncDiv(a, b) * b) < Abs(b)
    ensures a - TruncDiv(a, b) * b == 0 || ((a - TruncDiv(a, b) * b < 0) <==> (a < 0))
  {
    var m := Abs(a) / Abs(b);
    var k := Abs(a) % Abs(b);
    NatDivision(Abs(a), Abs(b));
    var p := m * Abs(b);
    assert Abs(a) == p + k;
    var q := TruncDiv(a, b);
    MulNegation(m, Abs(b));
    if a >= 0 && b > 0 {
      assert q * b == p;
    } else if a >= 0 {
      var nb: int := -(Abs(b) as int);
      assert q * b == (-m) * nb;
      assert q * b == p;
    } else if b > 0 {
      assert q * b == (-m) * Abs(b);
      assert q * b == -p;
    } else {
      var nb: int := -(Abs(b) as int);
      assert q * b == m * nb;
      assert q * b == -p;
    }
  }

  /** Truncation is symmetric under negating the dividend, which is what
      distinguishes it from floor and Euclidean division. */
  lemma TruncDivOddInDividend(a: int, b: int)
    requires b != 0
    ensures TruncDiv(-a, b) == -TruncDiv(a, b)
    ensures TruncRem(-a, b) == -TruncRem(a, b)
  {
  }

  /** The only signed 32-bit division whose quotient is not representable is
      INT_MIN / -1, which C++ leaves undefined (and with it INT_MIN % -1). */
  lemma QuotientOverflowsOnlyAtMinByMinusOne(a: int, b: int)
    requires IsInt32(a) && IsInt32(b) && b != 0
    ensures !IsInt32(TruncDiv(a, b)) <==> (a == INT_MIN && b == -1)
  {
    var m := Abs(a) / Abs(b);
    NatDivision(Abs(a), Abs(b));
    assert Abs(TruncDiv(a, b)) == m;
    if Abs(b) >= 2 {
      MulGrows(m, Abs(b), 2);
      assert m * 2 <= Abs(a) <= 0x8000_0000;
      assert IsInt32(TruncDiv(a, b)) && b != -1;
    } else {
      assert m == Abs(a);
      assert TruncDiv(a, b) == if b == 1 then a else -a;
    }
  }
}
