/** Properties of the stack operations: what each addressing loop reads and
    writes, read-after-write, and how the lane-wise forms relate to the
    scalar ones. */
module StackLaws {
  import opened Slots
  import opened Outcomes
  import Bytecode
  import opened Host
  import opened Arith
  import opened StackOps

  /** The slots `st[base + offsets[i]]`, in offset order. */
  function Gather(st: Stack, base: int, offsets: seq<int>): (g: seq<Value>)
    requires forall i :: 0 <= i < |offsets| ==> 0 <= base + offsets[i] < |st|
    ensures |g| == |offsets|
  {
    seq(|offsets|, i requires 0 <= i < |offsets| => st[base + offsets[i]])
  }

  /** The load loops succeed exactly when each address lies inside the stack
      as it stands when that address is used: the i-th push sees the original
      slots plus the i slots pushed before it. */
  lemma {:induction false} PushEachDefined(st: Stack, base: int, offsets: seq<int>)
    ensures PushEach(st, base, offsets).Ok? <==>
              forall i :: 0 <= i < |offsets| ==> 0 <= base + offsets[i] < |st| + i
    decreases |offsets|
  {
    if offsets != [] {
      var at := base + offsets[0];
      var tail := offsets[1..];
      assert forall i :: 1 <= i < |offsets| ==> offsets[i] == tail[i - 1];
      if 0 <= at < |st| {
        PushEachDefined(st + [st[at]], base, tail);
        if PushEach(st, base, offsets).Ok? {
          forall i | 0 <= i < |offsets|
            ensures 0 <= base + offsets[i] < |st| + i
          {
            if i > 0 {
              assert 0 <= base + tail[i - 1] < |st| + 1 + (i - 1);
            }
          }
        }
      }
    }
  }

  /** When every address names one of the original slots, the load loops push
      exactly those slots in offset order, below which the stack is unchanged. */
  lemma {:induction false} PushEachReads(st: Stack, base: int, offsets: seq<int>)
    requires forall i :: 0 <= i < |offsets| ==> 0 <= base + offsets[i] < |st|
    ensures PushEach(st, base, offsets) == Ok(st + Gather(st, base, offsets))
    decreases |offsets|
  {
    if offsets != [] {
      var at := base + offsets[0];
      var grown := st + [st[at]];
      var tail := offsets[1..];
      assert forall i :: 0 <= i < |tail| ==> tail[i] == offsets[i + 1];
      PushEachReads(grown, base, tail);
      assert PushEach(st, base, offsets) == PushEach(grown, base, tail);
      assert Gather(grown, base, tail) == Gather(st, base, offsets)[1..];
      assert grown + Gather(grown, base, tail) == st + Gather(st, base, offsets);
    } else {
      assert st + Gather(st, base, offsets) == st;
    }
  }

  /** `kLoadSwizzle` pops the base address and pushes `stack[base + off[i]]`
      for ascending i. */
  lemma LoadSwizzleReads(st: Stack, offsets: seq<Byte>)
    requires |st| > 0
    requires forall i :: 0 <= i < |offsets| ==> 0 <= Signed(Top(st)) + offsets[i] < |st| - 1
    ensures LoadSwizzle(st, offsets) == Ok(Pop(st) + Gather(Pop(st), Signed(Top(st)), offsets))
  {
    PushEachReads(Pop(st), Signed(Top(st)), offsets);
  }

  /** The vector `kLoad` succeeds exactly when the base address names a slot
      below it (or nothing is loaded): later lanes may read slots the earlier
      lanes pushed. When the lanes stay inside the original stack it pushes
      `count` consecutive slots from the base. */
  lemma VectorLoadReads(st: Stack, count: nat)
    requires |st| > 0
    ensures var base := Signed(Top(st));
            VectorLoad(st, count).Ok? <==> count == 0 || 0 <= base < |st| - 1
    ensures var base := Signed(Top(st));
            0 <= base && base + count <= |st| - 1 ==>
              VectorLoad(st, count) == Ok(Pop(st) + Pop(st)[base..base + count])
  {
    var base, rest := Signed(Top(st)), Pop(st);
    PushEachDefined(rest, base, Iota(count));
    if count > 0 && VectorLoad(st, count).Ok? {
      assert 0 <= base + Iota(count)[0] < |rest| + 0;
    }
    if 0 <= base && base + count <= |rest| {
      PushEachReads(rest, base, Iota(count));
      assert Gather(rest, base, Iota(count)) == rest[base..base + count];
    }
  }

  /** Is slot `j` one of the store loop's targets? */
  ghost predicate Targeted(base: int, offsets: seq<int>, j: int) {
    exists k :: 0 <= k < |offsets| && base + offsets[k] == j
  }

  ghost predicate Distinct(offsets: seq<int>) {
    forall k, l :: 0 <= k < l < |offsets| ==> offsets[k] != offsets[l]
  }

  /** The store loops succeed when every target lies below the values being
      stored, and then leave every slot they do not target as it was. */
  lemma {:induction false} StoreEachFrame(st: Stack, base: int, offsets: seq<int>)
    requires |offsets| <= |st|
    requires forall k :: 0 <= k < |offsets| ==> 0 <= base + offsets[k] < |st| - |offsets|
    ensures StoreEach(st, base, offsets).Ok?
    ensures var r := StoreEach(st, base, offsets).value;
            forall j :: 0 <= j < |r| && !Targeted(base, offsets, j) ==> r[j] == st[j]
    decreases |offsets|
  {
    if offsets != [] {
      var k := |offsets| - 1;
      var rest := Pop(st);
      var at := base + offsets[k];
      var written := rest[at := Top(st)];
      var front := offsets[..k];
      assert forall i :: 0 <= i < k ==> front[i] == offsets[i];
      StoreEachFrame(written, base, front);
      var r := StoreEach(written, base, front).value;
      forall j | 0 <= j < |r| && !Targeted(base, offsets, j)
        ensures r[j] == st[j]
      {
        assert j != at;
      }
    }
  }

  /** With distinct targets, the i-th of the stored values ends up at
      `base + offsets[i]`: no later store overwrites it. */
  lemma {:induction false} StoreEachWritesAt(st: Stack, base: int, offsets: seq<int>, i: nat)
    requires |offsets| <= |st|
    requires forall k :: 0 <= k < |offsets| ==> 0 <= base + offsets[k] < |st| - |offsets|
    requires Distinct(offsets)
    requires i < |offsets|
    ensures StoreEach(st, base, offsets).Ok?
    ensures StoreEach(st, base, offsets).value[base + offsets[i]] == st[|st| - |offsets| + i]
    decreases |offsets|
  {
    var c := |offsets|;
    var k := c - 1;
    var rest := Pop(st);
    var at := base + offsets[k];
    var written := rest[at := Top(st)];
    var front := offsets[..k];
    assert forall l :: 0 <= l < k ==> front[l] == offsets[l];
    assert StoreEach(st, base, offsets) == StoreEach(written, base, front);
    if i < k {
      StoreEachWritesAt(written, base, front, i);
      assert written[|st| - c + i] == st[|st| - c + i];
    } else {
      assert !Targeted(base, front, at) by {
        forall l | 0 <= l < k ensures base + front[l] != at {
          assert offsets[l] != offsets[k];
        }
      }
      StoreEachFrame(written, base, front);
    }
  }

  /** The store loops, on distinct targets below the values being stored,
      write the k-th of the top values to `base + offsets[k]` and leave every
      other remaining slot as it was. */
  lemma StoreEachWrites(st: Stack, base: int, offsets: seq<int>)
    requires |offsets| <= |st|
    requires forall k :: 0 <= k < |offsets| ==> 0 <= base + offsets[k] < |st| - |offsets|
    requires Distinct(offsets)
    ensures StoreEach(st, base, offsets).Ok?
    ensures var r := StoreEach(st, base, offsets).value;
            forall k :: 0 <= k < |offsets| ==> r[base + offsets[k]] == st[|st| - |offsets| + k]
    ensures var r := StoreEach(st, base, offsets).value;
            forall j :: 0 <= j < |r| && !Targeted(base, offsets, j) ==> r[j] == st[j]
  {
    StoreEachFrame(st, base, offsets);
    forall k | 0 <= k < |offsets|
      ensures StoreEach(st, base, offsets).value[base + offsets[k]] == st[|st| - |offsets| + k]
    {
      StoreEachWritesAt(st, base, offsets, k);
    }
  }

  /** `kStoreSwizzle` writes the k-th of the top `count` values to
      `base + off[k]`, then drops the base: net depth falls by `count + 1`. */
  lemma StoreSwizzleWrites(st: Stack, offsets: seq<Byte>)
    requires |st| >= |offsets| + 1
    requires var base := Signed(st[|st| - |offsets| - 1]);
             forall k :: 0 <= k < |offsets| ==> 0 <= base + offsets[k] < |st| - |offsets| - 1
    requires Distinct(offsets)
    ensures StoreSwizzle(st, offsets).Ok?
    ensures |StoreSwizzle(st, offsets).value| == |st| - |offsets| - 1
    ensures var base, r := Signed(st[|st| - |offsets| - 1]), StoreSwizzle(st, offsets).value;
            forall k :: 0 <= k < |offsets| ==> r[base + offsets[k]] == st[|st| - |offsets| + k]
  {
    var base, c := Signed(st[|st| - |offsets| - 1]), |offsets|;
    var offs: seq<int> := offsets;
    assert StoreEach(st, base, offs).Ok? by {
      StoreEachFrame(st, base, offs);
    }
    var stored := StoreEach(st, base, offs).value;
    var r := Pop(stored);
    assert StoreSwizzle(st, offsets) == Ok(r);
    forall k | 0 <= k < c
      ensures r[base + offsets[k]] == st[|st| - c + k]
    {
      StoreEachWritesAt(st, base, offs, k);
      assert r[base + offs[k]] == stored[base + offs[k]];
    }
  }

  /** Every slot below the base that no offset names keeps its value. */
  lemma StoreSwizzleKeeps(st: Stack, offsets: seq<Byte>)
    requires |st| >= |offsets| + 1
    requires var base := Signed(st[|st| - |offsets| - 1]);
             forall k :: 0 <= k < |offsets| ==> 0 <= base + offsets[k] < |st| - |offsets| - 1
    ensures StoreSwizzle(st, offsets).Ok?
    ensures var base, r := Signed(st[|st| - |offsets| - 1]), StoreSwizzle(st, offsets).value;
            forall j :: 0 <= j < |r| && !Targeted(base, offsets, j) ==> r[j] == st[j]
  {
    var base := Signed(st[|st| - |offsets| - 1]);
    var offs: seq<int> := offsets;
    StoreEachFrame(st, base, offs);
    var stored := StoreEach(st, base, offs).value;
    var r := Pop(stored);
    assert StoreSwizzle(st, offsets) == Ok(r);
    forall j | 0 <= j < |r| && !Targeted(base, offsets, j)
      ensures r[j] == st[j]
    {
      assert r[j] == stored[j];
    }
  }

  /** One slot of the vector `kStore`'s result: a stored value inside the
      `count` slots from the base, the old slot elsewhere. */
  lemma VectorStoreSlot(st: Stack, base: int, count: nat, j: nat)
    requires |st| >= count + 1 && base == Signed(st[|st| - count - 1])
    requires 0 <= base && base + count <= |st| - count
    requires j < |st| - count
    ensures VectorStore(st, count).Ok?
    ensures VectorStore(st, count).value[j] ==
              if base <= j < base + count then st[|st| - count + (j - base)] else st[j]
  {
    var offsets := Iota(count);
    assert Distinct(offsets);
    StoreEachFrame(st, base, offsets);
    if base <= j < base + count {
      StoreEachWritesAt(st, base, offsets, j - base);
    } else {
      assert !Targeted(base, offsets, j);
    }
  }

  /** The vector `kStore` writes the top `count` values, in order, to the
      `count` slots from the base address, and keeps the base slot on the
      stack: only the values are popped. */
  lemma VectorStoreWrites(st: Stack, count: nat)
    requires |st| >= count + 1
    requires var base := Signed(st[|st| - count - 1]);
             0 <= base && base + count <= |st| - count
    ensures var base, n := Signed(st[|st| - count - 1]), |st|;
            VectorStore(st, count) == Ok(st[..base] + st[n - count..] + st[base + count .. n - count])
  {
    var base, n := Signed(st[|st| - count - 1]), |st|;
    var low, values, high := st[..base], st[n - count..], st[base + count .. n - count];
    var expected := low + values + high;
    VectorStoreSlot(st, base, count, 0);
    var r := VectorStore(st, count).value;
    assert |r| == |expected|;
    forall j | 0 <= j < |r|
      ensures r[j] == expected[j]
    {
      VectorStoreSlot(st, base, count, j);
      if j < base {
        assert expected[j] == low[j];
      } else if j < base + count {
        assert expected[j] == values[j - base];
      } else {
        assert expected[j] == high[j - base - count];
      }
    }
    assert r == expected;
  }

  /** Read-after-write: `store` pops the value and then the address and
      writes the slot, with net depth -2; a following `load` of that address
      pushes the stored value. */
  lemma StoreThenLoad(rest: Stack, target: int, v: Value)
    requires 0 <= target < |rest| && target <= INT_MAX
    ensures Store(rest + [FromSigned(target), v]) == Ok(rest[target := v])
    ensures Load(rest[target := v] + [FromSigned(target)]) == Ok(rest[target := v] + [v])
  {
  }

  /** `dup` followed by a one-slot `pop` leaves the stack as it was. */
  lemma DupThenPop(st: Stack)
    requires |st| > 0
    ensures Dup(st).Ok? && Drop(Dup(st).value, 1) == Ok(st)
  {
  }

  /** Two pops in a row are one pop of their combined count. */
  lemma DropTwice(st: Stack, first: nat, second: nat)
    requires first + second <= |st|
    ensures Drop(st, first).Ok? && Drop(Drop(st, first).value, second) == Drop(st, first + second)
  {
    assert st[..|st| - first][..|st| - first - second] == st[..|st| - first - second];
  }

  /** The in-place rewrites (the conversions, `not`, `negatef`) succeed
      exactly when the stack holds `count` slots; they keep the depth and
      every slot below the top `count`, and replace each of the top `count`
      slots `v` by `f(v)`. */
  lemma MapTopRewrites(st: Stack, count: nat, f: Value -> Value)
    ensures MapTop(st, count, f).Ok? <==> count <= |st|
    ensures MapTop(st, count, f).Err? ==> MapTop(st, count, f).trap == StackUnderflow
    ensures MapTop(st, count, f).Ok? ==>
              var r := MapTop(st, count, f).value;
              && |r| == |st|
              && r[..|st| - count] == st[..|st| - count]
              && forall j :: |st| - count <= j < |st| ==> r[j] == f(st[j])
  {
  }

  /** Rewriting the top slots with `f` and then with `g` is one rewrite with
      their composition `h`. */
  lemma MapTopComposes(st: Stack, count: nat, f: Value -> Value, g: Value -> Value, h: Value -> Value)
    requires count <= |st|
    requires forall v :: h(v) == g(f(v))
    ensures MapTop(st, count, f).Ok?
    ensures MapTop(MapTop(st, count, f).value, count, g) == MapTop(st, count, h)
  {
    var n := |st|;
    MapTopRewrites(st, count, f);
    var once := MapTop(st, count, f).value;
    MapTopRewrites(once, count, g);
    MapTopRewrites(st, count, h);
    var twice := MapTop(once, count, g).value;
    var direct := MapTop(st, count, h).value;
    forall j | 0 <= j < n
      ensures twice[j] == direct[j]
    {
      if j < n - count {
        assert twice[j] == twice[..n - count][j] && direct[j] == direct[..n - count][j];
        assert once[j] == once[..n - count][j];
      }
    }
    assert twice == direct;
  }

  /** `negates` on a non-empty stack traps exactly when the top slot holds
      INT_MIN, whose negation no int32 holds; otherwise the top slot is
      replaced by its negation. An empty stack underflows. */
  lemma NegateTopExactly(st: Stack)
    ensures |st| == 0 ==> NegateTop(st) == Err(StackUnderflow)
    ensures |st| > 0 ==> (NegateTop(st).Err? <==> Signed(Top(st)) == INT_MIN)
    ensures |st| > 0 && NegateTop(st).Err? ==> NegateTop(st).trap == UndefinedArithmetic
    ensures |st| > 0 && NegateTop(st).Ok? ==>
              NegateTop(st).value == Pop(st) + [FromSigned(-Signed(Top(st)))]
  {
    if |st| > 0 {
      var r := SignedResult(-Signed(Top(st)));
      if r.Ok? {
        SignedRoundTrip(r.value);
      }
    }
  }

  /** Negating twice restores the stack. */
  lemma NegateTwice(st: Stack)
    requires NegateTop(st).Ok?
    ensures NegateTop(NegateTop(st).value) == Ok(st)
  {
    NegateTopExactly(st);
    var once := NegateTop(st).value;
    var v := Signed(Top(st));
    assert Top(once) == FromSigned(-v) && Pop(once) == Pop(st);
    NegateTopExactly(once);
    assert Signed(Top(once)) == -v;
    SignedRoundTrip(Top(st));
    assert Pop(st) + [Top(st)] == st;
  }

  /** Read-after-write for globals: `storeglobal` pops the value and then
      the index and writes that global only; a following `loadglobal` pushes
      the stored value from that index and the old value from any other. */
  lemma StoreGlobalThenLoadGlobal(rest: Stack, globals: seq<Value>, target: nat, v: Value, index: nat)
    requires target < |globals| && target <= INT_MAX && index < |globals|
    ensures StoreGlobal(rest + [FromSigned(target), v], globals) == Ok((rest, globals[target := v]))
    ensures LoadGlobal(rest, globals[target := v], index) ==
              Ok(rest + [if index == target then v else globals[index]])
  {
    var st := rest + [FromSigned(target), v];
    assert st[..|st| - 2] == rest;
  }

  /** Every lane's operation `f(ls[i], rs[i])` is defined. */
  ghost predicate EveryLaneDefined(f: (Value, Value) -> Result<Value>, ls: seq<Value>, rs: seq<Value>)
    requires |ls| == |rs|
  {
    forall i :: 0 <= i < |ls| ==> f(ls[i], rs[i]).Ok?
  }

  /** The lanes are defined exactly when every lane's operation is. */
  lemma {:induction false} LanesDefined(f: (Value, Value) -> Result<Value>, ls: seq<Value>, rs: seq<Value>)
    requires |ls| == |rs|
    ensures Lanes(f, ls, rs).Ok? <==> EveryLaneDefined(f, ls, rs)
    decreases |ls|
  {
    if ls != [] {
      var k := |ls| - 1;
      LanesDefined(f, ls[..k], rs[..k]);
      assert forall i :: 0 <= i < k ==> ls[i] == ls[..k][i] && rs[i] == rs[..k][i];
    }
  }

  /** Lane i of the result is `f(ls[i], rs[i])`. */
  lemma {:induction false} LanesValues(f: (Value, Value) -> Result<Value>, ls: seq<Value>, rs: seq<Value>)
    requires |ls| == |rs| && Lanes(f, ls, rs).Ok?
    ensures forall i :: 0 <= i < |ls| ==> f(ls[i], rs[i]).Ok? && Lanes(f, ls, rs).value[i] == f(ls[i], rs[i]).value
    decreases |ls|
  {
    if ls != [] {
      var k := |ls| - 1;
      LanesValues(f, ls[..k], rs[..k]);
      assert forall i :: 0 <= i < k ==> ls[i] == ls[..k][i] && rs[i] == rs[..k][i];
    }
  }

  /** Counting down from the last lane, the first lane whose operation traps
      decides the trap. */
  lemma {:induction false} LanesTrapAt(f: (Value, Value) -> Result<Value>, ls: seq<Value>, rs: seq<Value>, i: nat)
    requires |ls| == |rs| && i < |ls| && f(ls[i], rs[i]).Err?
    requires forall j :: i < j < |ls| ==> f(ls[j], rs[j]).Ok?
    ensures Lanes(f, ls, rs) == Err(f(ls[i], rs[i]).trap)
    decreases |ls|
  {
    var k := |ls| - 1;
    if i < k {
      assert forall j :: 0 <= j < k ==> ls[j] == ls[..k][j] && rs[j] == rs[..k][j];
      LanesTrapAt(f, ls[..k], rs[..k], i);
    }
  }

  /** A trap of the lanes is the trap of one lane's operation. */
  lemma {:induction false} LanesTrap(f: (Value, Value) -> Result<Value>, ls: seq<Value>, rs: seq<Value>)
    requires |ls| == |rs| && Lanes(f, ls, rs).Err?
    ensures exists i :: 0 <= i < |ls| && f(ls[i], rs[i]) == Err(Lanes(f, ls, rs).trap)
    decreases |ls|
  {
    var k := |ls| - 1;
    if f(ls[k], rs[k]).Ok? {
      LanesTrap(f, ls[..k], rs[..k]);
      var i :| 0 <= i < k && f(ls[..k][i], rs[..k][i]) == Err(Lanes(f, ls[..k], rs[..k]).trap);
      assert ls[..k][i] == ls[i] && rs[..k][i] == rs[i];
    }
  }

  /** The vector binary instruction traps only for too many lanes, too
      shallow a stack, or an undefined lane. */
  lemma VectorBinaryTraps(p: Platform, op: Bytecode.BinaryOp, count: nat, st: Stack)
    requires VectorBinary(p, op, count, st).Err?
    ensures VectorBinary(p, op, count, st).trap in {BufferOverflow, StackUnderflow, UndefinedArithmetic}
  {
    var n := |st|;
    if count <= VECTOR_MAX && 2 * count <= n {
      LanesTrap(LaneOp(p, op), st[n - 2 * count .. n - count], st[n - count..]);
    }
  }

  /** A lane-wise instruction on `[.., l0..l(N-1), r0..r(N-1)]` traps exactly
      when some lane's operation `f(li, ri)` is undefined. */
  lemma LaneWiseDefined(f: (Value, Value) -> Result<Value>, count: nat, st: Stack)
    requires count <= VECTOR_MAX && 2 * count <= |st|
    ensures var n := |st|;
            LaneWise(f, count, st).Ok? <==> EveryLaneDefined(f, st[n - 2 * count .. n - count], st[n - count..])
  {
    var n := |st|;
    LanesDefined(f, st[n - 2 * count .. n - count], st[n - count..]);
  }

  /** Otherwise it yields `[.., f(l0, r0), .., f(l(N-1), r(N-1))]`, depth
      down by N and every slot below the operands unchanged. */
  lemma LaneWiseValues(f: (Value, Value) -> Result<Value>, count: nat, st: Stack)
    requires count <= VECTOR_MAX && 2 * count <= |st|
    requires LaneWise(f, count, st).Ok?
    ensures var n, r := |st|, LaneWise(f, count, st).value;
            var ls, rs := st[n - 2 * count .. n - count], st[n - count..];
            && |r| == n - count
            && r[..n - 2 * count] == st[..n - 2 * count]
            && forall i :: 0 <= i < count ==> f(ls[i], rs[i]).Ok? && r[n - 2 * count + i] == f(ls[i], rs[i]).value
  {
    var n := |st|;
    var ls, rs := st[n - 2 * count .. n - count], st[n - count..];
    var lanes := Lanes(f, ls, rs).value;
    var prefix := st[..n - 2 * count];
    var r := prefix + lanes;
    assert LaneWise(f, count, st) == Ok(r);
    assert r[..n - 2 * count] == prefix;
    forall i | 0 <= i < count
      ensures f(ls[i], rs[i]).Ok? && r[n - 2 * count + i] == f(ls[i], rs[i]).value
    {
      LanesValues(f, ls, rs);
      assert r[|prefix| + i] == lanes[i];
    }
  }

  /** With one lane the vector form of a binary instruction is the scalar one. */
  lemma VectorBinaryOfOne(p: Platform, op: Bytecode.BinaryOp, st: Stack)
    ensures VectorBinary(p, op, 1, st) == BinaryTop(p, op, st)
  {
    if |st| >= 2 {
      var n := |st|;
      var ls, rs := st[n - 2 .. n - 1], st[n - 1..];
      assert ls == [st[n - 2]] && rs == [Top(st)];
      assert Lanes(LaneOp(p, op), ls[..0], rs[..0]) == Ok([]);
      var lane := ApplyBinary(p, op, st[n - 2], Top(st));
      assert ls[0] == st[n - 2] && rs[0] == Top(st);
      if lane.Ok? {
        assert [] + [lane.value] == [lane.value];
        assert Lanes(LaneOp(p, op), ls, rs) == Ok([lane.value]);
      }
    }
  }

  /** `kReturn` leaves the former top `count` slots at addresses `0..count-1`
      whatever the depth, and keeps every slot above them. */
  lemma ReturnTopPlacement(st: Stack, count: nat)
    requires count <= |st|
    ensures ReturnTop(st, count).Ok?
    ensures var r := ReturnTop(st, count).value;
            |r| == |st| && (forall i :: 0 <= i < count ==> r[i] == st[|st| - count + i]) &&
            (forall i :: count <= i < |st| ==> r[i] == st[i])
  {
  }

  /** `swizzle 4, 2, [3, 0]` pops `[a, b, c, d]` and pushes `[d, a]`: the last
      slot, then the first. */
  lemma SwizzleExample(a: Value, b: Value, c: Value, d: Value)
    ensures Swizzle([a, b, c, d], 4, [3, 0]) == Ok([d, a])
  {
    var indices: seq<Byte> := [3, 0];
    assert !exists k :: 0 <= k < |indices| && indices[k] >= 4;
    var st := [a, b, c, d];
    var lanes := st[4 - 4..];
    var pushed := seq(|indices|, k requires 0 <= k < |indices| => lanes[indices[k]]);
    assert pushed == [d, a];
    assert st[..4 - 4] + pushed == [d, a];
  }
}
