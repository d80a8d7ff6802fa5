/** The stack machine's instruction: a one-byte opcode and a 32-bit operand
    word shared by every operand interpretation (the C union). */
module Instructions {
  import opened Common

  /** `MAX_CODE_SIZE`: the capacity of the code generator's buffer, in
      instructions. */
  const MAX_CODE_SIZE: nat := 4096

  /** The opcodes the code generator emits or the interpreter dispatches
      on. `EndTask` is the zero opcode, so a zero-initialised slot holds
      END_TASK. */
  datatype Opcode =
    | EndTask | PushConstInt | PopInt | Negate | Or | And | Not
    | Add | Subtract | Multiply | Divide | Remainder
    | Gt | Lt | Ge | Le | Eq | Ne
    | Jump | JumpIfZero | JumpIfNonzero
    | BeginSpawn | Spawn | EndSpawn
    | PrintInt | PrintChar | PushVar | Sleep
    | TestAndJumpIfZero | TestAndJumpIfNonzero
    | BeginAtomicPrint | EndAtomicPrint | PrintString
    | Bad

  /** An `INSTRUCTION`. `operand` is the raw union word: the 8-bit members
      (`i_var_name`, `i_char`) are its low byte, the 32-bit members all of
      it. */
  datatype Instruction = Instruction(opcode: Opcode, operand: u32)
  {
    /** `i_const_int`. */
    function ConstInt(): i32 { U32ToI32(operand) }
    /** `i_var_name` and `i_char`. */
    function LowByte(): u8 { operand % 0x100 }
  }

  /** A slot of the static code buffer before anything is written to it. */
  const ZeroInstruction: Instruction := Instruction(EndTask, 0)

  /** Storing an 8-bit union member replaces the low byte of the word and
      keeps the other three. */
  function WithLowByte(w: u32, b: u8): (r: u32)
    ensures r % 0x100 == b && r / 0x100 == w / 0x100
  {
    w - w % 0x100 + b
  }

  /** Opcodes that pop two words and push one. */
  predicate IsBinary(op: Opcode)
  {
    op in {Or, And, Add, Subtract, Multiply, Divide, Remainder, Gt, Lt, Ge, Le, Eq, Ne}
  }
}
