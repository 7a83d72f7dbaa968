/** Outcomes of the interpreter's partial operations.

    Every bounds check of the interpreter is a debug-only assertion and every
    arithmetic fault is undefined behaviour in C++. Here each of them is an
    explicit, always-checked trap that ends the invocation. */
module Outcomes {

  /** Why a step or an invocation cannot continue. */
  datatype Trap =
    | CodeOverrun          // an opcode or operand byte lies past the end of the code
    | Misaligned           // a 16-bit or 32-bit operand does not start on its alignment
    | Unsupported          // the opcode has no execution case
    | StackUnderflow       // a pop, a top access or a fixed-depth read on too shallow a stack
    | BadStackIndex        // a computed stack address outside the live stack
    | BadGlobalIndex       // a global address outside the global table
    | BufferOverflow       // a lane count or swizzle lane outside its fixed-size buffer
    | UndefinedArithmetic  // signed overflow, division by zero, INT_MIN / -1

  /** Either a value or the trap that prevented computing it; usable with `:-`. */
  datatype Result<+T> = Ok(value: T) | Err(trap: Trap) {

    predicate IsFailure() {
      Err?
    }

    function PropagateFailure<U>(): Result<U>
      requires Err?
    {
      Err(trap)
    }

    function Extract(): T
      requires Ok?
    {
      value
    }
  }
}
