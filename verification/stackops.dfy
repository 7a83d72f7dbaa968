/** What each instruction does to the operand/locals stack and the global
    table, apart from the instruction pointer.

    The stack is a sequence whose last element is the top. Absolute stack
    addresses count from the bottom, so the parameters and locals the driver
    pushes first are addressed 0, 1, 2, ... */
module StackOps {
  import opened Slots
  import opened Outcomes
  import opened Bytecode
  import opened Host
  import opened Arith

  type Stack = seq<Value>

  /** The capacity of the `result` buffer of `VECTOR_BINARY_OP`. */
  const VECTOR_MAX: nat := 16

  /** The capacity of the `vec` buffer of `kSwizzle`. */
  const SWIZZLE_MAX: nat := 4

  function Top(st: Stack): Value
    requires |st| > 0
  {
    st[|st| - 1]
  }

  function Pop(st: Stack): Stack
    requires |st| > 0
  {
    st[..|st| - 1]
  }

  /** 0, 1, ..., n - 1: the offsets a vector load or store walks. */
  function Iota(n: nat): (s: seq<int>)
    ensures |s| == n && forall i :: 0 <= i < n ==> s[i] == i
  {
    seq(n, i => i)
  }

  /** `BINARY_OP`: pop the right operand `b`, then replace the new top `a`
      with `a op b`. */
  function BinaryTop(p: Platform, op: BinaryOp, st: Stack): Result<Stack> {
    if |st| < 2 then Err(StackUnderflow)
    else
      var v :- ApplyBinary(p, op, st[|st| - 2], Top(st));
      Ok(st[..|st| - 2] + [v])
  }

  /** One lane of a vector binary instruction. */
  function LaneOp(p: Platform, op: BinaryOp): (Value, Value) -> Result<Value> {
    (a, b) => ApplyBinary(p, op, a, b)
  }

  /** The lane-wise form of the operator `f`, lane by lane from the last,
      as the instruction's loop runs. That lane i of the result is
      `f(ls[i], rs[i])`, and that a trap is always the trap of one of the
      lanes, is proved in module StackLaws. */
  function Lanes(f: (Value, Value) -> Result<Value>, ls: seq<Value>, rs: seq<Value>): (r: Result<seq<Value>>)
    requires |ls| == |rs|
    ensures r.Ok? ==> |r.value| == |ls|
    decreases |ls|
  {
    if ls == [] then Ok([])
    else
      var k := |ls| - 1;
      var last :- f(ls[k], rs[k]);
      var front :- Lanes(f, ls[..k], rs[..k]);
      Ok(front + [last])
  }

  /** `VECTOR_BINARY_OP` over `count` lanes with the lane operator `f`: the
      top `count` slots are the right operands, the `count` below them the
      left operands. */
  function LaneWise(f: (Value, Value) -> Result<Value>, count: nat, st: Stack): Result<Stack> {
    if count > VECTOR_MAX then Err(BufferOverflow)
    else if |st| < 2 * count then Err(StackUnderflow)
    else
      var n := |st|;
      var lanes :- Lanes(f, st[n - 2 * count .. n - count], st[n - count..]);
      Ok(st[..n - 2 * count] + lanes)
  }

  /** The vector form of the binary instruction `op`. */
  function VectorBinary(p: Platform, op: BinaryOp, count: nat, st: Stack): Result<Stack> {
    LaneWise(LaneOp(p, op), count, st)
  }

  /** `kDup`. */
  function Dup(st: Stack): Result<Stack> {
    if |st| == 0 then Err(StackUnderflow) else Ok(st + [Top(st)])
  }

  /** Pops `count` slots: `kPop`, and `kDebugPrint` with a count of one. */
  function Drop(st: Stack, count: nat): Result<Stack> {
    if |st| < count then Err(StackUnderflow) else Ok(st[..|st| - count])
  }

  /** Rewrites each of the top `count` slots in place with `f`: the
      conversions, `kNot` and `kNegateF`. */
  function MapTop(st: Stack, count: nat, f: Value -> Value): Result<Stack> {
    if |st| < count then Err(StackUnderflow)
    else Ok(st[..|st| - count] + seq(count, i requires 0 <= i < count => f(st[|st| - count + i])))
  }

  /** `kNegateS`; negating INT_MIN overflows. */
  function NegateTop(st: Stack): Result<Stack> {
    if |st| == 0 then Err(StackUnderflow)
    else
      var v :- SignedResult(-Signed(Top(st)));
      Ok(Pop(st) + [v])
  }

  /** `kDupDown`: on `[.., X, v1..vc]` yields `[.., v1..vc, X, v1..vc]`. */
  function DupDown(st: Stack, count: nat): Result<Stack> {
    if count == 0 then Ok(st)
    else if |st| < count + 1 then Err(StackUnderflow)
    else
      var n := |st|;
      Ok(st[..n - count - 1] + st[n - count..] + st[n - count - 1..])
  }

  /** `kLoad`: pop an absolute address, push the slot it names. */
  function Load(st: Stack): Result<Stack> {
    if |st| == 0 then Err(StackUnderflow)
    else
      var rest, target := Pop(st), Signed(Top(st));
      if 0 <= target < |rest| then Ok(rest + [rest[target]]) else Err(BadStackIndex)
  }

  /** `kStore`: pop the value, then the address, and write the value there. */
  function Store(st: Stack): Result<Stack> {
    if |st| < 2 then Err(StackUnderflow)
    else
      var value, target, rest := Top(st), Signed(st[|st| - 2]), st[..|st| - 2];
      if 0 <= target < |rest| then Ok(rest[target := value]) else Err(BadStackIndex)
  }

  /** `kLoadGlobal`: push the global named by an immediate index. */
  function LoadGlobal(st: Stack, globals: seq<Value>, index: nat): Result<Stack> {
    if index < |globals| then Ok(st + [globals[index]]) else Err(BadGlobalIndex)
  }

  /** `kStoreGlobal`: pop the value, then a computed global index, and write
      the value there. Yields the new stack and the new globals. */
  function StoreGlobal(st: Stack, globals: seq<Value>): Result<(Stack, seq<Value>)> {
    if |st| < 2 then Err(StackUnderflow)
    else
      var value, target := Top(st), Signed(st[|st| - 2]);
      if 0 <= target < |globals| then Ok((st[..|st| - 2], globals[target := value]))
      else Err(BadGlobalIndex)
  }

  /** Pushes the slot at `base + offsets[i]` for ascending i, each address
      taken against the stack as it has grown so far: the loops of
      `kLoadSwizzle` and of the vector `kLoad`. */
  function PushEach(st: Stack, base: int, offsets: seq<int>): (r: Result<Stack>)
    ensures r.Err? ==> r.trap == BadStackIndex
    ensures r.Ok? ==> |r.value| == |st| + |offsets| && r.value[..|st|] == st
    decreases |offsets|
  {
    if offsets == [] then Ok(st)
    else
      var at := base + offsets[0];
      if 0 <= at < |st| then
        var r :- PushEach(st + [st[at]], base, offsets[1..]);
        assert r[..|st|] == (r[..|st| + 1])[..|st|];
        Ok(r)
      else Err(BadStackIndex)
  }

  /** `kLoadSwizzle`: pop the base address, then push the slots at the base
      plus each offset byte. */
  function LoadSwizzle(st: Stack, offsets: seq<Byte>): Result<Stack> {
    if |st| == 0 then Err(StackUnderflow) else PushEach(Pop(st), Signed(Top(st)), offsets)
  }

  /** The vector `kLoad`: pop the base address, then push `count` consecutive
      slots from it. */
  function VectorLoad(st: Stack, count: nat): Result<Stack> {
    if |st| == 0 then Err(StackUnderflow) else PushEach(Pop(st), Signed(Top(st)), Iota(count))
  }

  /** Pops one value per offset, last offset first, and writes it to the slot
      at `base + offset`, the address taken against the stack after the pop:
      the loops of `kStoreSwizzle` and of the vector `kStore`. */
  function StoreEach(st: Stack, base: int, offsets: seq<int>): (r: Result<Stack>)
    requires |offsets| <= |st|
    ensures r.Err? ==> r.trap == BadStackIndex
    ensures r.Ok? ==> |r.value| == |st| - |offsets|
    decreases |offsets|
  {
    if offsets == [] then Ok(st)
    else
      var k := |offsets| - 1;
      var rest := Pop(st);
      var at := base + offsets[k];
      if 0 <= at < |rest| then StoreEach(rest[at := Top(st)], base, offsets[..k])
      else Err(BadStackIndex)
  }

  /** `kStoreSwizzle`: the base address sits just below the `count` values;
      store the values through the offsets, then pop the base. */
  function StoreSwizzle(st: Stack, offsets: seq<Byte>): Result<Stack> {
    var count := |offsets|;
    if |st| < count + 1 then Err(StackUnderflow)
    else
      var rest :- StoreEach(st, Signed(st[|st| - count - 1]), offsets);
      Ok(Pop(rest))
  }

  /** The vector `kStore`: store the top `count` values to `count` consecutive
      slots from the base address below them; the base slot stays. */
  function VectorStore(st: Stack, count: nat): Result<Stack> {
    if |st| < count + 1 then Err(StackUnderflow)
    else StoreEach(st, Signed(st[|st| - count - 1]), Iota(count))
  }

  /** `kSwizzle`: pop `source` slots into the four-lane buffer, then push the
      buffer lanes named by `indices` in list order. Selecting a lane beyond
      the four the buffer holds, or one the pops did not fill, is refused. */
  function Swizzle(st: Stack, source: nat, indices: seq<Byte>): Result<Stack> {
    if source > SWIZZLE_MAX then Err(BufferOverflow)
    else if |st| < source then Err(StackUnderflow)
    else if exists k :: 0 <= k < |indices| && indices[k] >= source then Err(BufferOverflow)
    else
      var n := |st|;
      var lanes := st[n - source..];
      Ok(st[..n - source] + seq(|indices|, k requires 0 <= k < |indices| => lanes[indices[k]]))
  }

  /** `kReturn`: the top `count` slots are copied down to addresses
      `0..count-1`; the stack keeps its depth. */
  function ReturnTop(st: Stack, count: nat): Result<Stack> {
    if |st| < count then Err(StackUnderflow) else Ok(st[|st| - count..] + st[count..])
  }
}
