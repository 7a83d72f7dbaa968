/** The in-place loops by which the interpreter carries out the multi-slot
    instructions, each shown to compute the closed form of module StackOps.
    The stack is again a sequence whose last element is the top; `Top`/`Pop`
    and appending stand for the source's `POP()` and `PUSH()`, and a local
    sequence of fixed length stands for each fixed-size C array. */
module Loops {
  import opened Slots
  import opened Outcomes
  import opened Host
  import opened Arith
  import opened StackOps
  import Bytecode
  import StackLaws

  /** `kDupDown`: for each of the `count` top values, deepest copy last,
      insert a copy of the value `count + 1` slots down, shifting the rest
      up by one. */
  method DupDownByInsertion(st: Stack, count: nat) returns (r: Stack)
    requires count == 0 || |st| >= count + 1
    ensures DupDown(st, count) == Ok(r)
  {
    r := st;
    var n := |st|;
    var i := 0;
    while i < count
      invariant 0 <= i <= count
      invariant count == 0 ==> r == st
      invariant count > 0 ==> r == st[..n - count - 1] + st[n - i..] + st[n - count - 1..]
    {
      var at := |r| - i - count - 1;
      r := r[..at] + [r[|r| - i - 1]] + r[at..];
      i := i + 1;
    }
  }

  /** `kReturn`: copy the top `count` slots to addresses `0..count-1` in
      ascending order. The copy never reads a slot it has already
      overwritten, since every source address is at least its destination. */
  method ReturnByCopy(st: Stack, count: nat) returns (r: Stack)
    requires count <= |st|
    ensures ReturnTop(st, count) == Ok(r)
  {
    r := st;
    var n := |st|;
    var i := 0;
    while i < count
      invariant 0 <= i <= count && |r| == n
      invariant forall j :: 0 <= j < i ==> r[j] == st[n - count + j]
      invariant forall j :: i <= j < n ==> r[j] == st[j]
    {
      r := r[i := r[n - count + i]];
      i := i + 1;
    }
    ghost var expected := st[n - count..] + st[count..];
    assert |expected| == n;
    assert forall j :: 0 <= j < n ==> r[j] == expected[j];
    assert expected == r;
  }

  /** The vector conversions: for ascending i, rewrite the slot `i` below
      the top in place, so the top slot is converted first. */
  method ConvertInPlace(st: Stack, count: nat, f: Value -> Value) returns (r: Stack)
    requires count <= |st|
    ensures MapTop(st, count, f) == Ok(r)
  {
    r := st;
    var n := |st|;
    var i := 0;
    while i < count
      invariant 0 <= i <= count && |r| == n
      invariant forall j :: 0 <= j < n - i ==> r[j] == st[j]
      invariant forall j :: n - i <= j < n ==> r[j] == f(st[j])
    {
      r := r[n - i - 1 := f(r[n - i - 1])];
      i := i + 1;
    }
    StackLaws.MapTopRewrites(st, count, f);
    ghost var expected := MapTop(st, count, f).value;
    assert forall j :: 0 <= j < n ==> r[j] == expected[j];
    assert expected == r;
  }

  /** `kPop`: pop one slot at a time, counting `count` down to zero. */
  method PopRepeatedly(st: Stack, count: nat) returns (r: Result<Stack>)
    ensures Drop(st, count) == r
  {
    var s := st;
    var i := count;
    while i > 0
      invariant 0 <= i <= count && count - i <= |st|
      invariant s == st[..|st| - (count - i)]
    {
      if |s| == 0 {
        return Err(StackUnderflow);
      }
      s := Pop(s);
      i := i - 1;
    }
    return Ok(s);
  }

  /** The first loop of `VECTOR_BINARY_OP`: pop the `count` right operands
      into the 16-slot buffer, the top slot into the last lane. */
  method PopOperands(st: Stack, count: nat) returns (buffer: seq<Value>, rest: Stack)
    requires count <= VECTOR_MAX && count <= |st|
    ensures |buffer| == VECTOR_MAX
    ensures rest == st[..|st| - count] && buffer[..count] == st[|st| - count..]
  {
    var n := |st|;
    buffer := seq(VECTOR_MAX, _ => 0);
    rest := st;
    var i: int := count - 1;
    while i >= 0
      invariant -1 <= i < count && |buffer| == VECTOR_MAX
      invariant rest == st[..n - count + i + 1]
      invariant forall j :: i < j < count ==> buffer[j] == st[n - count + j]
    {
      buffer := buffer[i := Top(rest)];
      rest := Pop(rest);
      i := i - 1;
    }
  }

  /** The second loop of `VECTOR_BINARY_OP`: from the last lane down, pop a
      left operand and overwrite its buffer lane with `left op right`; `f`
      is the lane operator. */
  method CombineLanes(f: (Value, Value) -> Result<Value>, st: Stack, buffer: seq<Value>, count: nat)
    returns (r: Result<seq<Value>>, rest: Stack)
    requires count <= |buffer| && count <= |st|
    ensures r == Lanes(f, st[|st| - count..], buffer[..count])
    ensures r.Ok? ==> rest == st[..|st| - count]
  {
    var n := |st|;
    ghost var ls, rs := st[n - count..], buffer[..count];
    var result := buffer;
    rest := st;
    var i: int := count - 1;
    while i >= 0
      invariant -1 <= i < count && |result| == |buffer|
      invariant rest == st[..n - count + i + 1]
      invariant forall j :: 0 <= j <= i ==> result[j] == rs[j]
      invariant forall j :: i < j < count ==> f(ls[j], rs[j]).Ok? && result[j] == f(ls[j], rs[j]).value
    {
      var lane := f(Top(rest), result[i]);
      if lane.Err? {
        StackLaws.LanesTrapAt(f, ls, rs, i);
        return Err(lane.trap), rest;
      }
      result := result[i := lane.value];
      rest := Pop(rest);
      i := i - 1;
    }
    StackLaws.LanesDefined(f, ls, rs);
    StackLaws.LanesValues(f, ls, rs);
    ghost var expected := Lanes(f, ls, rs).value;
    assert |expected| == count == |result[..count]|;
    assert forall j :: 0 <= j < count ==> result[..count][j] == expected[j];
    assert expected == result[..count];
    r := Ok(result[..count]);
  }

  /** The last loop of `VECTOR_BINARY_OP`: push the lanes back in order. */
  method PushLanes(st: Stack, lanes: seq<Value>) returns (r: Stack)
    ensures r == st + lanes
  {
    r := st;
    var i := 0;
    while i < |lanes|
      invariant 0 <= i <= |lanes|
      invariant r == st + lanes[..i]
    {
      r := r + [lanes[i]];
      i := i + 1;
    }
    assert lanes[..|lanes|] == lanes;
  }

  /** `VECTOR_BINARY_OP` through its three loops. */
  method LaneWiseByBuffer(f: (Value, Value) -> Result<Value>, count: nat, st: Stack) returns (r: Result<Stack>)
    requires count <= VECTOR_MAX && 2 * count <= |st|
    ensures r == LaneWise(f, count, st)
  {
    var n := |st|;
    var buffer, below := PopOperands(st, count);
    var lanes, rest := CombineLanes(f, below, buffer, count);
    assert below[|below| - count..] == st[n - 2 * count .. n - count];
    if lanes.Err? {
      return Err(lanes.trap);
    }
    assert rest == st[..n - 2 * count];
    var stack := PushLanes(rest, lanes.value);
    r := Ok(stack);
  }

  /** `kSwizzle`: pop `source` slots into the four-slot buffer, then push the
      buffer slot each index byte names, the index bytes read in order while
      the loop counter counts down. */
  method SwizzleByBuffer(st: Stack, source: nat, indices: seq<Byte>) returns (r: Stack)
    requires source <= SWIZZLE_MAX && source <= |st|
    requires forall k :: 0 <= k < |indices| ==> indices[k] < source
    ensures Swizzle(st, source, indices) == Ok(r)
  {
    var n := |st|;
    var lanes := st[n - source..];
    var vec: seq<Value> := seq(SWIZZLE_MAX, _ => 0);
    r := st;
    var i: int := source - 1;
    while i >= 0
      invariant -1 <= i < source && |vec| == SWIZZLE_MAX
      invariant r == st[..n - source + i + 1]
      invariant forall j :: i < j < source ==> vec[j] == lanes[j]
    {
      vec := vec[i := Top(r)];
      r := Pop(r);
      i := i - 1;
    }
    var pushed := seq(|indices|, k requires 0 <= k < |indices| => lanes[indices[k]]);
    var k := 0;
    i := |indices| - 1;
    while i >= 0
      invariant -1 <= i < |indices| && k == |indices| - 1 - i
      invariant r == st[..n - source] + pushed[..k]
    {
      r := r + [vec[indices[k]]];
      k := k + 1;
      i := i - 1;
    }
    assert pushed[..|indices|] == pushed;
  }
}
