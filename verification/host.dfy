/** What the interpreter takes from its surroundings rather than defining
    itself: the numbering of the opcodes, the IEEE-754 float operations the
    hardware performs, and the layout of the `bool` member of the slot union.

    Each is a parameter of the model. Float operations and the boolean view are
    left uninterpreted; the only fact the model assumes of the boolean view is
    that reading back a written bool gives that bool (`Sound`). */
module Host {
  import opened Slots
  import opened Bytecode

  /** The float view of a slot: IEEE-754 single precision arithmetic and the
      C casts between float and integer, as the hardware performs them. */
  datatype FloatUnit = FloatUnit(
    add: (Value, Value) -> Value,
    subtract: (Value, Value) -> Value,
    multiply: (Value, Value) -> Value,
    divide: (Value, Value) -> Value,
    negate: Value -> Value,
    equal: (Value, Value) -> bool,
    less: (Value, Value) -> bool,
    lessEqual: (Value, Value) -> bool,
    toSigned: Value -> Value,      // `fSigned = (int) fFloat`
    fromSigned: Value -> Value,    // `fFloat = (float) fSigned`
    fromUnsigned: Value -> Value)  // `fFloat = (float) fUnsigned`

  /** The `fBool` view of a slot: reading it, the slot `Value(bool)` builds,
      and assigning `fBool` inside an existing slot. */
  datatype BoolView = BoolView(
    get: Value -> bool,
    make: bool -> Value,
    assign: (Value, bool) -> Value)

  /** Writing a bool and reading it back gives that bool. */
  ghost predicate Sound(view: BoolView) {
    && (forall b: bool :: view.get(view.make(b)) == b)
    && (forall v: Value, b: bool :: view.get(view.assign(v, b)) == b)
  }

  datatype Platform = Platform(decode: Byte -> Opcode, float: FloatUnit, bools: BoolView)

  /** The float operation each float conversion opcode applies to the top slot. */
  function ConversionOf(unit: FloatUnit, c: Conversion): Value -> Value {
    match c
    case FloatToInt => unit.toSigned
    case SignedToFloat => unit.fromSigned
    case UnsignedToFloat => unit.fromUnsigned
  }
}
