/** Two places where the source loses a value.

    `kStoreSwizzle` as the source writes it. Each lane's address is checked
    against the depth of the stack before the lane's value is popped, but the
    write goes to the stack after the pop. An address equal to the popped
    depth therefore passes the check yet names no slot: the value is written
    past the end of the stack, or into the slot just vacated, and is lost.

    Module StackOps holds the corrected instruction, which checks the address
    against the stack after the pop; this module shows where the two differ
    and that they agree everywhere else.

    `kReturn` moves the returned slots to the bottom of the stack, where the
    parameters live, and the driver then copies the `out` parameters from
    that same stack: an `out` parameter in the bottom slots receives a
    returned value instead of the one the body left there. */
module Findings {
  import opened Slots
  import opened Outcomes
  import opened StackOps
  import StackLaws
  import Driver

  /** The lane loop as written: check, pop, then write if the address still
      names a slot, losing the value otherwise. */
  function StoreEachAsWritten(st: Stack, base: int, offsets: seq<int>): (r: Result<Stack>)
    requires |offsets| <= |st|
    ensures r.Ok? ==> |r.value| == |st| - |offsets|
    decreases |offsets|
  {
    if offsets == [] then Ok(st)
    else
      var k := |offsets| - 1;
      var at := base + offsets[k];
      if 0 <= at < |st| then
        var rest := Pop(st);
        StoreEachAsWritten(if at < |rest| then rest[at := Top(st)] else rest, base, offsets[..k])
      else Err(BadStackIndex)
  }

  function StoreSwizzleAsWritten(st: Stack, offsets: seq<Byte>): Result<Stack> {
    var count := |offsets|;
    if |st| < count + 1 then Err(StackUnderflow)
    else
      var rest :- StoreEachAsWritten(st, Signed(st[|st| - count - 1]), offsets);
      Ok(Pop(rest))
  }

  /** On `[x, 0, v]`, `storeswizzle 1, [2]` names the slot `v` occupies. The
      as-written check passes, since the stack still holds three slots, but
      after the pop that slot is gone: the instruction leaves `[x]` and `v`
      is written nowhere. The corrected instruction refuses the address. */
  lemma StoreSwizzleLosesValue(x: Value, v: Value)
    ensures StoreSwizzleAsWritten([x, 0, v], [2]) == Ok([x])
    ensures StackOps.StoreSwizzle([x, 0, v], [2]) == Err(BadStackIndex)
  {
    var st: Stack := [x, 0, v];
    assert Signed(st[1]) == 0;
    var offsets: seq<int> := [2];
    assert offsets[..0] == [] && Pop(st) == [x, 0] && Pop([x, 0]) == [x];
    assert StoreEachAsWritten(st, 0, offsets) == StoreEachAsWritten([x, 0], 0, []);
  }

  /** Wherever the corrected lane loop accepts, the as-written one computes
      the same stack: the two differ only on the addresses the corrected
      check refuses. */
  lemma {:induction false} AsWrittenAgreesWhereCorrectAccepts(st: Stack, base: int, offsets: seq<int>)
    requires |offsets| <= |st|
    requires StoreEach(st, base, offsets).Ok?
    ensures StoreEachAsWritten(st, base, offsets) == StoreEach(st, base, offsets)
    decreases |offsets|
  {
    if offsets != [] {
      var k := |offsets| - 1;
      var rest := Pop(st);
      var at := base + offsets[k];
      AsWrittenAgreesWhereCorrectAccepts(rest[at := Top(st)], base, offsets[..k]);
    }
  }

  /** The same for the whole instruction. */
  lemma StoreSwizzleAgreesWhereCorrectAccepts(st: Stack, offsets: seq<Byte>)
    requires StackOps.StoreSwizzle(st, offsets).Ok?
    ensures StoreSwizzleAsWritten(st, offsets) == StackOps.StoreSwizzle(st, offsets)
  {
    AsWrittenAgreesWhereCorrectAccepts(st, Signed(st[|st| - |offsets| - 1]), offsets);
  }

  /** The driver as written, after `return count`: whenever an `out`
      parameter's slot `j` lies below `count`, the caller receives the j-th
      returned value there, not the value `st[j]` the body left in that
      parameter. */
  lemma ReturnOverwritesOutParameter(st: Stack, count: nat, args: seq<Value>, params: seq<Driver.Parameter>, j: nat)
    requires count <= |st| && Driver.TotalWidth(params) <= |args|
    requires Driver.CopyOut(args, ReturnTop(st, count).value, params, 0).Ok?
    requires j < count && j < |args| && Driver.OutSlot(params, 0, j)
    ensures Driver.CopyOut(args, ReturnTop(st, count).value, params, 0).value[j] == st[|st| - count + j]
  {
    StackLaws.ReturnTopPlacement(st, count);
    Driver.CopyOutWrites(args, ReturnTop(st, count).value, params, 0);
  }

  /** The corrected driver: the `out` parameters are copied from the stack
      as `kReturn` finds it, and the returned values are handed back apart
      from it, as the top `count` slots. */
  function CopyOutBeforeReturn(args: seq<Value>, st: Stack, params: seq<Driver.Parameter>, count: nat)
    : (r: Result<(seq<Value>, seq<Value>)>)
    requires Driver.TotalWidth(params) <= |args|
    ensures r.Ok? ==> |r.value.0| == |args| && |r.value.1| == count
  {
    if |st| < count then Err(StackUnderflow)
    else
      var copied :- Driver.CopyOut(args, st, params, 0);
      Ok((copied, st[|st| - count..]))
  }

  /** With the corrected driver every `out` parameter receives the value the
      body left in its own slot, every other argument is kept, and the
      returned values are the top `count` slots, whatever their overlap. */
  lemma OutParameterKeepsBodyValue(args: seq<Value>, st: Stack, params: seq<Driver.Parameter>, count: nat)
    requires Driver.TotalWidth(params) <= |args|
    requires CopyOutBeforeReturn(args, st, params, count).Ok?
    ensures var (copied, returned) := CopyOutBeforeReturn(args, st, params, count).value;
            && (forall j :: 0 <= j < |args| && Driver.OutSlot(params, 0, j) ==> j < |st| && copied[j] == st[j])
            && (forall j :: 0 <= j < |args| && !Driver.OutSlot(params, 0, j) ==> copied[j] == args[j])
            && (forall i :: 0 <= i < count ==> returned[i] == st[|st| - count + i])
  {
    Driver.CopyOutWrites(args, st, params, 0);
  }
}
