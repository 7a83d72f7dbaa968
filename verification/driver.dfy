/** `Interpreter::run(f, args, inputs)`: seeds the stack and the globals,
    runs the function body, and copies the `out` parameters back into the
    caller's argument array. */
module Driver {
  import opened Slots
  import opened Outcomes
  import opened Bytecode
  import opened Host
  import opened Interpreter

  /** A declared parameter: its type's shape and whether it is `out`. */
  datatype Parameter = Parameter(columns: nat, rows: nat, isOut: bool) {
    /** The number of slots the parameter occupies. */
    function Width(): nat { columns * rows }
  }

  /** The program a function belongs to: its global count and the global
      slot each of its inputs is written to. */
  datatype Program = Program(globalCount: nat, inputSlots: seq<int>)

  /** A compiled function. `parameterCount` is the slot count the driver
      pushes; `parameters` are the declarations the out-copy walks. */
  datatype Function = Function(
    parameterCount: nat,
    localCount: nat,
    code: seq<Byte>,
    owner: Program,
    parameters: seq<Parameter>)

  /** How an invocation ended. */
  datatype Invocation =
    | Returned(args: seq<Value>, stack: seq<Value>)
    | Trapped(trap: Trap)
    | Exhausted(last: State)

  /** `n` slots holding the sentinel. */
  function Fill(n: nat): (r: seq<Value>)
    ensures |r| == n && forall i :: 0 <= i < n ==> r[i] == UNINITIALIZED
  {
    seq(n, _ => UNINITIALIZED)
  }

  /** The slots all parameters together occupy. */
  function TotalWidth(params: seq<Parameter>): nat {
    if params == [] then 0 else params[0].Width() + TotalWidth(params[1..])
  }

  /** Writes `inputs[i]` to global `slots[i]` for i from the last input down
      to the first, so that where a slot repeats the earliest input is the
      one left there. A slot outside the globals is refused. */
  function SeedInputs(globals: seq<Value>, slots: seq<int>, inputs: seq<Value>): (r: Result<seq<Value>>)
    requires |inputs| >= |slots|
    ensures r.Ok? ==> |r.value| == |globals|
    ensures r.Err? ==> r.trap == BadGlobalIndex
    decreases |slots|
  {
    if slots == [] then Ok(globals)
    else
      var k := |slots| - 1;
      if 0 <= slots[k] < |globals| then SeedInputs(globals[slots[k] := inputs[k]], slots[..k], inputs)
      else Err(BadGlobalIndex)
  }

  /** Copies, for each `out` parameter, its slots from the final stack into
      the argument array; the offset advances past every parameter, `out` or
      not. An offset beyond the final stack is refused. */
  function CopyOut(args: seq<Value>, stack: seq<Value>, params: seq<Parameter>, start: nat): (r: Result<seq<Value>>)
    requires start + TotalWidth(params) <= |args|
    ensures r.Ok? ==> |r.value| == |args|
    ensures r.Err? ==> r.trap == BadStackIndex
    decreases |params|
  {
    if params == [] then Ok(args)
    else
      var p, end := params[0], start + params[0].Width();
      if p.isOut && start < end then
        if end > |stack| then Err(BadStackIndex)
        else CopyOut(args[..start] + stack[start..end] + args[end..], stack, params[1..], end)
      else CopyOut(args, stack, params[1..], end)
  }

  /** The stack the body starts with: the parameters from `args`, then one
      sentinel slot per local. */
  function InitialStack(f: Function, args: seq<Value>): seq<Value>
    requires |args| >= f.parameterCount
  {
    args[..f.parameterCount] + Fill(f.localCount)
  }

  /** The state the body starts in, or the trap that seeding the inputs
      raises. */
  function InitialState(f: Function, args: seq<Value>, inputs: seq<Value>): Result<State>
    requires |args| >= f.parameterCount && |inputs| >= |f.owner.inputSlots|
  {
    var globals :- SeedInputs(Fill(f.owner.globalCount), f.owner.inputSlots, inputs);
    Ok(State(0, InitialStack(f, args), globals))
  }

  /** Invokes `f` with at most `fuel` instructions. The caller's arrays must
      hold every parameter slot and every input. */
  function Invoke(p: Platform, f: Function, args: seq<Value>, inputs: seq<Value>, fuel: nat): (r: Invocation)
    requires |args| >= f.parameterCount && |args| >= TotalWidth(f.parameters)
    requires |inputs| >= |f.owner.inputSlots|
    ensures r.Returned? ==> |r.args| == |args|
  {
    match InitialState(f, args, inputs)
    case Err(trap) => Trapped(trap)
    case Ok(initial) =>
      match Run(p, f.code, initial, fuel)
      case Faulted(trap, _) => Trapped(trap)
      case OutOfFuel(last) => Exhausted(last)
      case Halted(final) =>
        match CopyOut(args, final.stack, f.parameters, 0)
        case Err(trap) => Trapped(trap)
        case Ok(copied) => Returned(copied, final.stack)
  }

  /** Input `i` is the first to name its global slot. */
  ghost predicate FirstToName(slots: seq<int>, i: int)
    requires 0 <= i < |slots|
  {
    forall j :: 0 <= j < i ==> slots[j] != slots[i]
  }

  /** Seeding succeeds exactly when every input slot names a global. */
  lemma {:induction false} SeedInputsDefined(globals: seq<Value>, slots: seq<int>, inputs: seq<Value>)
    requires |inputs| >= |slots|
    ensures SeedInputs(globals, slots, inputs).Ok? <==> forall i :: 0 <= i < |slots| ==> 0 <= slots[i] < |globals|
    decreases |slots|
  {
    if slots != [] {
      var k := |slots| - 1;
      assert forall i :: 0 <= i < k ==> slots[..k][i] == slots[i];
      if 0 <= slots[k] < |globals| {
        SeedInputsDefined(globals[slots[k] := inputs[k]], slots[..k], inputs);
      }
    }
  }

  /** Seeding leaves every global that no input names as it was. */
  lemma {:induction false} SeedInputsFrame(globals: seq<Value>, slots: seq<int>, inputs: seq<Value>)
    requires |inputs| >= |slots|
    requires SeedInputs(globals, slots, inputs).Ok?
    ensures forall g :: 0 <= g < |globals| && g !in slots ==> SeedInputs(globals, slots, inputs).value[g] == globals[g]
    decreases |slots|
  {
    if slots != [] {
      var k := |slots| - 1;
      var seeded := globals[slots[k] := inputs[k]];
      SeedInputsFrame(seeded, slots[..k], inputs);
      forall g | 0 <= g < |globals| && g !in slots
        ensures SeedInputs(globals, slots, inputs).value[g] == globals[g]
      {
        assert g != slots[k] && g !in slots[..k];
      }
    }
  }

  /** Where input slots repeat, the earliest input wins: the loop runs from
      the last input down to the first. */
  lemma {:induction false} SeedInputsFirstWins(globals: seq<Value>, slots: seq<int>, inputs: seq<Value>, i: nat)
    requires |inputs| >= |slots| && i < |slots|
    requires forall i :: 0 <= i < |slots| ==> 0 <= slots[i] < |globals|
    requires FirstToName(slots, i)
    ensures SeedInputs(globals, slots, inputs).Ok?
    ensures SeedInputs(globals, slots, inputs).value[slots[i]] == inputs[i]
    decreases |slots|
  {
    SeedInputsDefined(globals, slots, inputs);
    var k := |slots| - 1;
    var front := slots[..k];
    var seeded := globals[slots[k] := inputs[k]];
    if i < k {
      assert FirstToName(front, i) by {
        forall j | 0 <= j < i ensures front[j] != front[i] {
          assert front[j] == slots[j] && front[i] == slots[i];
        }
      }
      SeedInputsFirstWins(seeded, front, inputs, i);
    } else {
      SeedInputsFrame(seeded, front, inputs);
      assert slots[k] !in front;
    }
  }

  /** The initial state: the parameters from `args` below one sentinel per
      local; globals all the sentinel except the input slots, each holding
      the earliest input that names it. */
  lemma InitialStateShape(f: Function, args: seq<Value>, inputs: seq<Value>)
    requires |args| >= f.parameterCount && |inputs| >= |f.owner.inputSlots|
    requires forall i :: 0 <= i < |f.owner.inputSlots| ==> 0 <= f.owner.inputSlots[i] < f.owner.globalCount
    ensures InitialState(f, args, inputs).Ok?
    ensures var s, pc := InitialState(f, args, inputs).value, f.parameterCount;
            && s.ip == 0
            && |s.stack| == pc + f.localCount
            && s.stack[..pc] == args[..pc]
            && (forall i :: pc <= i < |s.stack| ==> s.stack[i] == UNINITIALIZED)
            && |s.globals| == f.owner.globalCount
            && (forall g :: 0 <= g < |s.globals| && g !in f.owner.inputSlots ==> s.globals[g] == UNINITIALIZED)
            && (forall i :: 0 <= i < |f.owner.inputSlots| && FirstToName(f.owner.inputSlots, i) ==>
                  s.globals[f.owner.inputSlots[i]] == inputs[i])
  {
    var slots, blank := f.owner.inputSlots, Fill(f.owner.globalCount);
    SeedInputsDefined(blank, slots, inputs);
    SeedInputsFrame(blank, slots, inputs);
    forall i | 0 <= i < |slots| && FirstToName(slots, i)
      ensures SeedInputs(blank, slots, inputs).value[slots[i]] == inputs[i]
    {
      SeedInputsFirstWins(blank, slots, inputs, i);
    }
    var s := InitialState(f, args, inputs).value;
    assert s.stack == args[..f.parameterCount] + Fill(f.localCount);
  }

  /** Slot `j` belongs to an `out` parameter when the parameters are laid out
      from `start`, each after all the ones before it. */
  ghost predicate OutSlot(params: seq<Parameter>, start: int, j: int) {
    exists k :: 0 <= k < |params| && params[k].isOut &&
      start + TotalWidth(params[..k]) <= j < start + TotalWidth(params[..k]) + params[k].Width()
  }

  lemma TotalWidthOfPrefix(params: seq<Parameter>, k: nat)
    requires 0 < k <= |params|
    ensures TotalWidth(params[..k]) == params[0].Width() + TotalWidth(params[1..][..k - 1])
  {
    assert params[..k][1..] == params[1..][..k - 1];
  }

  /** Laying out the parameters after the first one. */
  lemma OutSlotOfTail(params: seq<Parameter>, start: int, j: int)
    requires params != []
    ensures OutSlot(params, start, j) <==>
              || (params[0].isOut && start <= j < start + params[0].Width())
              || OutSlot(params[1..], start + params[0].Width(), j)
  {
    var w := params[0].Width();
    assert TotalWidth(params[..0]) == 0 by { assert params[..0] == []; }
    if OutSlot(params, start, j) {
      var k :| 0 <= k < |params| && params[k].isOut &&
        start + TotalWidth(params[..k]) <= j < start + TotalWidth(params[..k]) + params[k].Width();
      if k > 0 {
        TotalWidthOfPrefix(params, k);
        assert params[1..][k - 1] == params[k];
      }
    }
    if OutSlot(params[1..], start + w, j) {
      var k :| 0 <= k < |params[1..]| && params[1..][k].isOut &&
        start + w + TotalWidth(params[1..][..k]) <= j < start + w + TotalWidth(params[1..][..k]) + params[1..][k].Width();
      TotalWidthOfPrefix(params, k + 1);
    }
  }

  /** The out-copy succeeds exactly when every `out` parameter slot lies
      within the final stack. */
  lemma {:induction false} CopyOutDefined(args: seq<Value>, stack: seq<Value>, params: seq<Parameter>, start: nat)
    requires start + TotalWidth(params) <= |args|
    ensures CopyOut(args, stack, params, start).Ok? <==> forall j :: OutSlot(params, start, j) ==> j < |stack|
    decreases |params|
  {
    if params != [] {
      var p, end := params[0], start + params[0].Width();
      var next := if p.isOut && start < end && end <= |stack| then args[..start] + stack[start..end] + args[end..] else args;
      CopyOutDefined(next, stack, params[1..], end);
      forall j ensures OutSlot(params, start, j) <==>
                         (p.isOut && start <= j < end) || OutSlot(params[1..], end, j) {
        OutSlotOfTail(params, start, j);
      }
      if p.isOut && start < end && end > |stack| {
        assert OutSlot(params, start, end - 1);
      }
    }
  }

  /** The out-copy overwrites exactly the `out` parameters' slots with the
      final stack's slots at the same offsets and keeps every other entry of
      `args`. */
  lemma {:induction false} CopyOutWrites(args: seq<Value>, stack: seq<Value>, params: seq<Parameter>, start: nat)
    requires start + TotalWidth(params) <= |args|
    requires CopyOut(args, stack, params, start).Ok?
    ensures var r := CopyOut(args, stack, params, start).value;
            forall j :: 0 <= j < |args| && OutSlot(params, start, j) ==> j < |stack| && r[j] == stack[j]
    ensures var r := CopyOut(args, stack, params, start).value;
            forall j :: 0 <= j < |args| && !OutSlot(params, start, j) ==> r[j] == args[j]
    decreases |params|
  {
    CopyOutDefined(args, stack, params, start);
    if params != [] {
      var p, end := params[0], start + params[0].Width();
      var next := if p.isOut && start < end then args[..start] + stack[start..end] + args[end..] else args;
      CopyOutWrites(next, stack, params[1..], end);
      forall j | 0 <= j < |args|
        ensures OutSlot(params, start, j) ==> j < |stack| && CopyOut(args, stack, params, start).value[j] == stack[j]
        ensures !OutSlot(params, start, j) ==> CopyOut(args, stack, params, start).value[j] == args[j]
      {
        OutSlotOfTail(params, start, j);
        if OutSlot(params[1..], end, j) {
          var k :| 0 <= k < |params[1..]| && params[1..][k].isOut &&
            end + TotalWidth(params[1..][..k]) <= j < end + TotalWidth(params[1..][..k]) + params[1..][k].Width();
          assert !(start <= j < end);
        }
      }
    }
  }

  /** A returned invocation changes `args` only at `out` parameter slots,
      and those hold the final stack's slots at the same offsets. */
  lemma InvokeCopiesOutParameters(p: Platform, f: Function, args: seq<Value>, inputs: seq<Value>, fuel: nat)
    requires |args| >= f.parameterCount && |args| >= TotalWidth(f.parameters)
    requires |inputs| >= |f.owner.inputSlots|
    requires Invoke(p, f, args, inputs, fuel).Returned?
    ensures var r := Invoke(p, f, args, inputs, fuel);
            && (forall j :: 0 <= j < |args| && OutSlot(f.parameters, 0, j) ==> j < |r.stack| && r.args[j] == r.stack[j])
            && (forall j :: 0 <= j < |args| && !OutSlot(f.parameters, 0, j) ==> r.args[j] == args[j])
  {
    var initial := InitialState(f, args, inputs).value;
    var final := Run(p, f.code, initial, fuel).final;
    CopyOutWrites(args, final.stack, f.parameters, 0);
  }
}
