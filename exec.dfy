/** The stack machine that runs one task: a step per opcode over the
    task's stack, instruction pointer, state, variables and spawn count.

    `Step` is the specification of one iteration of the interpreter loop
    and `Run` of the loop; the `Task` class holds the task record the
    interpreter mutates, and its methods are proved against them.
    Behaviour that C leaves undefined (stack overflow or underflow, signed
    overflow, division by zero, an instruction pointer outside the code, a
    variable other than A..Z) is excluded by `Defined`, which every step
    requires; the run loop stops with `Undefined` where it fails. The
    variables A..Z are a map of their own: the C record indexes its
    26-slot `task_variables` with the letter codes 65..90, out of bounds,
    and that is not modelled. */
module Exec {
  import opened Common
  import opened Instructions

  /** `STACK_SIZE`: the capacity of a task's stack, in words. */
  const STACK_SIZE: nat := 256
  const INT_MIN: int := -0x8000_0000

  datatype TaskState = Running | Stopped | Blocked

  /** What a task writes to standard output or waits for; `BadOut` is the
      `OP_BAD` line printed before the process ends. */
  datatype Event = IntOut(value: i32) | CharOut(ch: u8) | Slept(seconds: nat) | BadOut

  predicate IsVar(c: char) { 'A' <= c <= 'Z' }

  const LETTERS: string := "ABCDEFGHIJKLMNOPQRSTUVWXYZ"

  /** The 26 variables, all zero. */
  function ZeroVars(): (vars: map<char, i32>)
    ensures forall c :: c in vars <==> IsVar(c)
    ensures forall c :: c in vars ==> vars[c] == 0
  {
    map c | c in LETTERS :: 0
  }

  /** The low 32 bits of a 64-bit word (`U64_LO_U32`). */
  function Lo(p: u64): u32 { p % TWO_32 }

  /** The high 32 bits of a 64-bit word (`U64_HI_U32`). */
  function Hi(p: u64): u32 { (p / TWO_32) % TWO_32 }

  /** Two 32-bit halves joined into a 64-bit word (`U32x2_TO_U64`). */
  function Join(lo: u32, hi: u32): u64 { hi * TWO_32 + lo }

  /** Splitting a pointer and joining the halves gives the pointer back,
      and joining two halves and splitting gives the halves back. */
  lemma SplitJoin(p: u64, lo: u32, hi: u32)
    ensures Join(Lo(p), Hi(p)) == p
    ensures Lo(Join(lo, hi)) == lo && Hi(Join(lo, hi)) == hi
  {
    assert p / TWO_32 < TWO_32;
    assert Join(lo, hi) / TWO_32 == hi && Join(lo, hi) % TWO_32 == lo by {
      LowHigh(hi, lo);
    }
  }

  lemma LowHigh(q: nat, r: nat)
    requires r < TWO_32
    ensures (q * TWO_32 + r) / TWO_32 == q && (q * TWO_32 + r) % TWO_32 == r
  {
  }

  /** C's `/` on integers: the quotient truncated toward zero. */
  function TruncDiv(y: int, x: int): int
    requires x != 0
  {
    var q := Abs(y) / Abs(x);
    if (y < 0) == (x < 0) then q else -q
  }

  /** C's `%`: the remainder of the magnitudes, with the dividend's sign. */
  function TruncRem(y: int, x: int): int
    requires x != 0
  {
    var r := Abs(y) % Abs(x);
    if y < 0 then -r else r
  }

  function Abs(x: int): nat { if x < 0 then -x else x }

  /** The quotient and remainder C defines: `y == x * q + r`, the
      remainder smaller than the divisor in magnitude and carrying the
      sign of the dividend, the quotient's magnitude the quotient of the
      magnitudes. */
  lemma TruncDivRem(y: int, x: int)
    requires x != 0
    ensures y == x * TruncDiv(y, x) + TruncRem(y, x)
    ensures Abs(TruncRem(y, x)) < Abs(x)
    ensures TruncRem(y, x) == 0 || (TruncRem(y, x) < 0 <==> y < 0)
    ensures Abs(TruncDiv(y, x)) == Abs(y) / Abs(x)
  {
    Euclid(Abs(y), Abs(x));
    SignedProduct(y, x);
  }

  /** The product of the divisor and the truncated quotient has the
      dividend's sign and the magnitude of the magnitudes' product. */
  lemma SignedProduct(y: int, x: int)
    requires x != 0
    ensures var p := Abs(x) * (Abs(y) / Abs(x));
            x * TruncDiv(y, x) == if y < 0 then -p else p
  {
    var q := Abs(y) / Abs(x);
    if x < 0 {
      MulNeg(Abs(x), TruncDiv(y, x));
    }
  }

  lemma Euclid(a: nat, b: nat)
    requires b > 0
    ensures a == b * (a / b) + a % b && a % b < b
  {
  }

  lemma MulNeg(a: int, b: int)
    ensures (-a) * b == a * (-b)
  {
  }

  /** The task record's mutable part, the standard output written so far
      and the global count of created tasks. */
  datatype Machine = Machine(
    stack: seq<i32>, ip: nat, state: TaskState, vars: map<char, i32>,
    nSpawn: u32, out: seq<Event>, created: u32)

  /** The variable an instruction names: the low byte of its operand. */
  function VarOf(ins: Instruction): char
  {
    ins.LowByte() as char
  }

  /** The value `BINARY_OP` pushes: `y op x` for the second-from-top `y`
      and the top `x`; the logical and relational operators give 0 or 1. */
  function BinaryValue(op: Opcode, y: int, x: int): int
    requires IsBinary(op) && ((op == Divide || op == Remainder) ==> x != 0)
  {
    match op
    case Or => if y != 0 || x != 0 then 1 else 0
    case And => if y != 0 && x != 0 then 1 else 0
    case Add => y + x
    case Subtract => y - x
    case Multiply => y * x
    case Divide => TruncDiv(y, x)
    case Remainder => TruncRem(y, x)
    case Gt => if y > x then 1 else 0
    case Lt => if y < x then 1 else 0
    case Ge => if y >= x then 1 else 0
    case Le => if y <= x then 1 else 0
    case Eq => if y == x then 1 else 0
    case Ne => if y != x then 1 else 0
  }

  /** `BINARY_OP` has a defined result: no division or remainder by
      zero, no `INT_MIN % -1`, and a result that fits 32 bits. */
  predicate BinaryDefined(op: Opcode, y: int, x: int)
    requires IsBinary(op)
  {
    ((op == Divide || op == Remainder) ==> x != 0)
    && (op == Remainder ==> !(y == INT_MIN && x == -1))
    && IsI32(BinaryValue(op, y, x))
  }

  /** The next step of the interpreter has defined behaviour. */
  predicate Defined(code: seq<Instruction>, m: Machine)
  {
    m.ip < |code| &&
    var ins := code[m.ip];
    var n := |m.stack|;
    match ins.opcode
    case PushConstInt => n < STACK_SIZE
    case PopInt => n >= 1 && VarOf(ins) in m.vars
    case Negate => n >= 1 && m.stack[n - 1] != INT_MIN
    case Not => n >= 1
    case JumpIfZero => n >= 1
    case JumpIfNonzero => n >= 1
    case Spawn => n + 2 <= STACK_SIZE
    case EndSpawn => 2 * m.nSpawn <= n
    case PrintInt => n >= 1
    case PushVar => n < STACK_SIZE && VarOf(ins) in m.vars
    case Sleep => n >= 1 && m.stack[n - 1] != INT_MIN
    case TestAndJumpIfZero => n >= 1
    case TestAndJumpIfNonzero => n >= 1
    case _ => IsBinary(ins.opcode) ==> n >= 2 && BinaryDefined(ins.opcode, m.stack[n - 2], m.stack[n - 1])
  }

  datatype StepResult = Continue(next: Machine) | Exit(last: Machine)

  /** One iteration of the interpreter loop at `m.ip`. `child` is the
      address the allocator gives a task created by SPAWN. OP_BAD prints
      its line and ends the process; opcodes without a case change nothing. */
  function Step(code: seq<Instruction>, m: Machine, child: u64): StepResult
    requires Defined(code, m)
  {
    var ins := code[m.ip];
    var s := m.stack;
    var n := |s|;
    var next := m.ip + 1;
    match ins.opcode
    case PushConstInt => Continue(m.(stack := s + [ins.ConstInt()], ip := next))
    case EndTask => Continue(m.(state := Stopped))
    case PopInt => Continue(m.(stack := s[..n - 1], vars := m.vars[VarOf(ins) := s[n - 1]], ip := next))
    case Negate => Continue(m.(stack := s[n - 1 := -s[n - 1]], ip := next))
    case Not => Continue(m.(stack := s[n - 1 := if s[n - 1] == 0 then 1 else 0], ip := next))
    case Jump => Continue(m.(ip := ins.operand))
    case JumpIfZero => Continue(m.(stack := s[..n - 1], ip := if s[n - 1] != 0 then next else ins.operand))
    case JumpIfNonzero => Continue(m.(stack := s[..n - 1], ip := if s[n - 1] != 0 then ins.operand else next))
    case BeginSpawn => Continue(m.(nSpawn := ins.operand, ip := next))
    case Spawn =>
      Continue(m.(stack := s + [U32ToI32(Lo(child)), U32ToI32(Hi(child))],
                  created := (m.created + 1) % TWO_32, ip := next))
    case EndSpawn => Continue(m.(stack := s[..n - 2 * m.nSpawn], ip := next))
    case PrintInt => Continue(m.(stack := s[..n - 1], out := m.out + [IntOut(s[n - 1])], ip := next))
    case PrintChar => Continue(m.(out := m.out + [CharOut(ins.LowByte())], ip := next))
    case PushVar => Continue(m.(stack := s + [m.vars[VarOf(ins)]], ip := next))
    case Sleep =>
      Continue(m.(stack := s[..n - 1], out := m.out + [Slept(Abs(s[n - 1]))], state := Running, ip := next))
    case TestAndJumpIfZero =>
      Continue(if s[n - 1] == 0 then m.(ip := ins.operand) else m.(stack := s[..n - 1], ip := next))
    case TestAndJumpIfNonzero =>
      Continue(if s[n - 1] != 0 then m.(ip := ins.operand) else m.(stack := s[..n - 1], ip := next))
    case Bad => Exit(m.(out := m.out + [BadOut]))
    case BeginAtomicPrint => Continue(m)
    case EndAtomicPrint => Continue(m)
    case PrintString => Continue(m)
    case _ => Continue(m.(stack := s[..n - 2] + [BinaryValue(ins.opcode, s[n - 2], s[n - 1])], ip := next))
  }

  datatype Outcome =
    | Finished(m: Machine)    // the task reached END_TASK
    | Exited(m: Machine)      // OP_BAD ended the process
    | Undefined(m: Machine)   // the next step has no defined behaviour
    | OutOfFuel(m: Machine)   // still running after the step budget

  /** The interpreter loop: step while the task is not stopped, for at
      most `fuel` steps. The k-th task created gets address `alloc(k)`. */
  function Run(code: seq<Instruction>, m: Machine, alloc: nat -> u64, fuel: nat): Outcome
    decreases fuel
  {
    if m.state == Stopped then Finished(m)
    else if fuel == 0 then OutOfFuel(m)
    else if !Defined(code, m) then Undefined(m)
    else match Step(code, m, alloc(m.created))
      case Exit(last) => Exited(last)
      case Continue(next) => Run(code, next, alloc, fuel - 1)
  }

  /** The two words on top of the stack, `stk_offset` words down, read
      back as a pointer (`exec_top_of_stack_to_ptr`). */
  function TopPointer(stack: seq<i32>, offset: nat): u64
    requires offset + 2 <= |stack|
  {
    var n := |stack|;
    Join(I32ToU32(stack[n - 2 - offset]), I32ToU32(stack[n - 1 - offset]))
  }

  lemma I32RoundTrip(w: u32)
    ensures I32ToU32(U32ToI32(w)) == w
  {
  }

  /** SPAWN pushes the child's address as two words, low half first, so
      the pointer read back from the top of the stack is the child's. */
  lemma SpawnPushesPointer(code: seq<Instruction>, m: Machine, child: u64)
    requires Defined(code, m) && code[m.ip].opcode == Opcode.Spawn
    ensures var r := Step(code, m, child).next;
            |r.stack| == |m.stack| + 2 && r.stack[..|m.stack|] == m.stack
            && TopPointer(r.stack, 0) == child
  {
    var r := Step(code, m, child).next;
    var n := |r.stack|;
    assert r.stack[n - 2] == U32ToI32(Lo(child)) && r.stack[n - 1] == U32ToI32(Hi(child));
    I32RoundTrip(Lo(child));
    I32RoundTrip(Hi(child));
    SplitJoin(child, 0, 0);
  }

  /** PUSH_CONST_INT and PUSH_VAR push one word and advance by one;
      POP_INT pops the top into the named variable. */
  lemma PushPop(code: seq<Instruction>, m: Machine, child: u64)
    requires Defined(code, m)
    ensures var ins := code[m.ip];
            var r := Step(code, m, child);
            (ins.opcode == PushConstInt ==>
               r.Continue? && r.next.stack == m.stack + [ins.ConstInt()] && r.next.ip == m.ip + 1)
            && (ins.opcode == PushVar ==>
               r.Continue? && r.next.stack == m.stack + [m.vars[VarOf(ins)]] && r.next.ip == m.ip + 1)
            && (ins.opcode == PopInt ==>
               r.Continue? && r.next.stack + [m.stack[|m.stack| - 1]] == m.stack
               && r.next.vars == m.vars[VarOf(ins) := m.stack[|m.stack| - 1]] && r.next.ip == m.ip + 1)
  {
  }

  /** A binary opcode pops the top `x` and then `y`, and pushes `y op x`:
      one word less, the next instruction, and 0 or 1 for the logical and
      relational operators. */
  lemma BinaryStep(code: seq<Instruction>, m: Machine, child: u64)
    requires Defined(code, m) && IsBinary(code[m.ip].opcode)
    ensures var op := code[m.ip].opcode;
            var n := |m.stack|;
            var r := Step(code, m, child);
            r.Continue? && |r.next.stack| == n - 1 && r.next.ip == m.ip + 1
            && r.next.stack[..n - 2] == m.stack[..n - 2]
            && r.next.stack[n - 2] == BinaryValue(op, m.stack[n - 2], m.stack[n - 1])
            && (op !in {Add, Subtract, Multiply, Divide, Remainder} ==> 0 <= r.next.stack[n - 2] <= 1)
  {
  }

  /** NEGATE and NOT rewrite the top word in place; NOT gives 0 or 1. */
  lemma UnaryStep(code: seq<Instruction>, m: Machine, child: u64)
    requires Defined(code, m) && code[m.ip].opcode in {Opcode.Negate, Opcode.Not}
    ensures var n := |m.stack|;
            var r := Step(code, m, child);
            r.Continue? && |r.next.stack| == n && r.next.stack[..n - 1] == m.stack[..n - 1]
            && r.next.ip == m.ip + 1
            && (code[m.ip].opcode == Opcode.Negate ==> r.next.stack[n - 1] == -m.stack[n - 1])
            && (code[m.ip].opcode == Opcode.Not ==> r.next.stack[n - 1] == if m.stack[n - 1] == 0 then 1 else 0)
  {
  }

  /** JUMP goes to its operand; the conditional jumps pop the tested word
      and then jump on their condition or fall through. */
  lemma JumpStep(code: seq<Instruction>, m: Machine, child: u64)
    requires Defined(code, m)
    ensures var ins := code[m.ip];
            var r := Step(code, m, child);
            var n := |m.stack|;
            (ins.opcode == Jump ==> r.Continue? && r.next.ip == ins.operand && r.next.stack == m.stack)
            && (ins.opcode == JumpIfZero ==>
                  r.Continue? && r.next.stack == m.stack[..n - 1]
                  && r.next.ip == (if m.stack[n - 1] == 0 then ins.operand else m.ip + 1))
            && (ins.opcode == JumpIfNonzero ==>
                  r.Continue? && r.next.stack == m.stack[..n - 1]
                  && r.next.ip == (if m.stack[n - 1] != 0 then ins.operand else m.ip + 1))
  {
  }

  /** A TEST_AND_JUMP that jumps keeps the tested word on the stack; one
      that falls through drops it. */
  lemma TestAndJumpStep(code: seq<Instruction>, m: Machine, child: u64)
    requires Defined(code, m) && code[m.ip].opcode in {TestAndJumpIfZero, TestAndJumpIfNonzero}
    ensures var ins := code[m.ip];
            var r := Step(code, m, child);
            var n := |m.stack|;
            var jumps := (ins.opcode == TestAndJumpIfZero) == (m.stack[n - 1] == 0);
            r.Continue?
            && (jumps ==> r.next.ip == ins.operand && r.next.stack == m.stack)
            && (!jumps ==> r.next.ip == m.ip + 1 && r.next.stack == m.stack[..n - 1])
  {
  }

  /** END_TASK stops the task without moving the instruction pointer, and
      the loop then ends; SLEEP pops a word, waits for its absolute value
      in seconds and goes on running at the next instruction. */
  lemma EndTaskAndSleep(code: seq<Instruction>, m: Machine, alloc: nat -> u64, fuel: nat)
    requires Defined(code, m) && m.state != Stopped && fuel > 0
    ensures code[m.ip].opcode == EndTask ==>
              Run(code, m, alloc, fuel) == Finished(m.(state := Stopped))
    ensures code[m.ip].opcode == Sleep ==>
              var r := Step(code, m, alloc(m.created));
              var n := |m.stack|;
              r.Continue? && r.next.state == Running && r.next.ip == m.ip + 1
              && r.next.stack == m.stack[..n - 1]
              && r.next.out == m.out + [Slept(Abs(m.stack[n - 1]))]
  {
    if code[m.ip].opcode == EndTask {
      assert Step(code, m, alloc(m.created)) == Continue(m.(state := Stopped));
      assert Run(code, m, alloc, fuel) == Run(code, m.(state := Stopped), alloc, fuel - 1);
    }
  }

  /** OP_BAD ends the run with its line as the last output and nothing
      else changed. */
  lemma BadExits(code: seq<Instruction>, m: Machine, alloc: nat -> u64, fuel: nat)
    requires Defined(code, m) && m.state != Stopped && fuel > 0
    requires code[m.ip].opcode == Bad
    ensures Run(code, m, alloc, fuel) == Exited(m.(out := m.out + [BadOut]))
  {
    assert Step(code, m, alloc(m.created)) == Exit(m.(out := m.out + [BadOut]));
  }

  /** Every step keeps the variables exactly the 26 letters and the
      stack within its capacity. */
  predicate Sane(m: Machine)
  {
    (forall c :: c in m.vars <==> IsVar(c)) && |m.stack| <= STACK_SIZE
  }

  lemma StepKeepsSane(code: seq<Instruction>, m: Machine, child: u64)
    requires Defined(code, m) && Sane(m)
    ensures Step(code, m, child).Continue? ==> Sane(Step(code, m, child).next)
  {
  }

  /** The machine of a task just created by `exec_create_task`. */
  function NewTask(ip: nat, created: u32): (m: Machine)
    ensures Sane(m) && m.stack == [] && m.state == Stopped && m.nSpawn == 0
  {
    Machine([], ip, Stopped, ZeroVars(), 0, [], (created + 1) % TWO_32)
  }

  /** The global count of created tasks (`g_n_tasks_created`). */
  class Runtime {
    var tasksCreated: u32

    constructor ()
      ensures tasksCreated == 0
    {
      tasksCreated := 0;
    }

    /** `exec_create_task`: an empty stack, the given instruction pointer,
        state STOPPED, no spawned tasks, all variables zero; the counter
        goes up by one. */
    method CreateTask(name: string, code: seq<Instruction>, ip: nat) returns (t: Task)
      modifies this
      ensures fresh(t) && fresh(t.stack) && t.Valid() && t.name == name && t.code == code
      ensures tasksCreated == (old(tasksCreated) + 1) % TWO_32
      ensures t.Abs(tasksCreated) == NewTask(ip, old(tasksCreated))
    {
      t := new Task(name, code, ip);
      tasksCreated := (tasksCreated + 1) % TWO_32;
    }

    /** One iteration of the loop in `exec_run_task`. */
    method StepTask(t: Task, child: u64) returns (exited: bool)
      requires t.Valid() && Defined(t.code, t.Abs(tasksCreated))
      modifies this, t, t.stack
      ensures t.Valid()
      ensures Step(t.code, old(t.Abs(tasksCreated)), child) ==
              (if exited then Exit(t.Abs(tasksCreated)) else Continue(t.Abs(tasksCreated)))
    {
      var op := t.code[t.ip].opcode;
      exited := false;
      if op in {PushConstInt, PopInt, PushVar} {
        StepPushPop(t);
      } else if op in {Opcode.Negate, Opcode.Not} || IsBinary(op) {
        StepArithmetic(t);
      } else if op in {Jump, JumpIfZero, JumpIfNonzero} {
        StepJump(t);
      } else if op in {TestAndJumpIfZero, TestAndJumpIfNonzero} {
        StepTestAndJump(t);
      } else if op in {BeginSpawn, Opcode.Spawn, EndSpawn} {
        StepSpawn(t, child);
      } else if op in {Opcode.PrintInt, Opcode.PrintChar} {
        StepPrint(t);
      } else if op == Sleep {
        StepSleep(t);
      } else {
        exited := StepEnd(t);
      }
    }

    /** PUSH_CONST_INT, POP_INT and PUSH_VAR. */
    method StepPushPop(t: Task)
      requires t.Valid() && Defined(t.code, t.Abs(tasksCreated))
      requires t.code[t.ip].opcode in {PushConstInt, PopInt, PushVar}
      modifies t, t.stack
      ensures t.Valid()
      ensures Step(t.code, old(t.Abs(tasksCreated)), 0) == Continue(t.Abs(tasksCreated))
    {
      var ins := t.code[t.ip];
      if ins.opcode == PushConstInt {
        t.Push(ins.ConstInt());
      } else if ins.opcode == PopInt {
        var x := t.Pop();
        t.vars := t.vars[VarOf(ins) := x];
      } else {
        t.Push(t.vars[VarOf(ins)]);
      }
      t.ip := t.ip + 1;
    }

    /** NEGATE, NOT and the binary operators. */
    method StepArithmetic(t: Task)
      requires t.Valid() && Defined(t.code, t.Abs(tasksCreated))
      requires t.code[t.ip].opcode in {Opcode.Negate, Opcode.Not} || IsBinary(t.code[t.ip].opcode)
      modifies t, t.stack
      ensures t.Valid()
      ensures Step(t.code, old(t.Abs(tasksCreated)), 0) == Continue(t.Abs(tasksCreated))
    {
      var op := t.code[t.ip].opcode;
      if op == Opcode.Negate {
        t.Negate();
      } else if op == Opcode.Not {
        t.Not();
      } else {
        t.BinaryOp(op);
      }
      t.ip := t.ip + 1;
    }

    /** JUMP, JUMP_IF_ZERO and JUMP_IF_NONZERO. */
    method StepJump(t: Task)
      requires t.Valid() && Defined(t.code, t.Abs(tasksCreated))
      requires t.code[t.ip].opcode in {Jump, JumpIfZero, JumpIfNonzero}
      modifies t, t.stack
      ensures t.Valid()
      ensures Step(t.code, old(t.Abs(tasksCreated)), 0) == Continue(t.Abs(tasksCreated))
    {
      var ins := t.code[t.ip];
      if ins.opcode == Jump {
        t.ip := ins.operand;
      } else {
        var x := t.Pop();
        if (x != 0) == (ins.opcode == JumpIfNonzero) {
          t.ip := ins.operand;
        } else {
          t.ip := t.ip + 1;
        }
      }
    }

    /** TEST_AND_JUMP_IF_ZERO and TEST_AND_JUMP_IF_NONZERO. */
    method StepTestAndJump(t: Task)
      requires t.Valid() && Defined(t.code, t.Abs(tasksCreated))
      requires t.code[t.ip].opcode in {TestAndJumpIfZero, TestAndJumpIfNonzero}
      modifies t, t.stack
      ensures t.Valid()
      ensures Step(t.code, old(t.Abs(tasksCreated)), 0) == Continue(t.Abs(tasksCreated))
    {
      var ins := t.code[t.ip];
      var x := t.Peek();
      if (x != 0) == (ins.opcode == TestAndJumpIfNonzero) {
        t.ip := ins.operand;
      } else {
        t.Drop();
        t.ip := t.ip + 1;
      }
    }

    /** BEGIN_SPAWN, SPAWN and END_SPAWN. */
    method StepSpawn(t: Task, child: u64)
      requires t.Valid() && Defined(t.code, t.Abs(tasksCreated))
      requires t.code[t.ip].opcode in {BeginSpawn, Opcode.Spawn, EndSpawn}
      modifies this, t, t.stack
      ensures t.Valid()
      ensures Step(t.code, old(t.Abs(tasksCreated)), child) == Continue(t.Abs(tasksCreated))
    {
      var ins := t.code[t.ip];
      if ins.opcode == BeginSpawn {
        t.nSpawn := ins.operand;
      } else if ins.opcode == Opcode.Spawn {
        AddSpawnTask(t, child);
      } else {
        t.RunThenJoin();
      }
      t.ip := t.ip + 1;
    }

    /** PRINT_INT and PRINT_CHAR. */
    method StepPrint(t: Task)
      requires t.Valid() && Defined(t.code, t.Abs(tasksCreated))
      requires t.code[t.ip].opcode in {Opcode.PrintInt, Opcode.PrintChar}
      modifies t
      ensures t.Valid()
      ensures Step(t.code, old(t.Abs(tasksCreated)), 0) == Continue(t.Abs(tasksCreated))
    {
      var ins := t.code[t.ip];
      if ins.opcode == Opcode.PrintInt {
        var x := t.Pop();
        t.out := t.out + [IntOut(x)];
      } else {
        t.out := t.out + [CharOut(ins.LowByte())];
      }
      t.ip := t.ip + 1;
    }

    /** SLEEP: pop the word and sleep for its absolute value in seconds;
        the task is running again afterwards. */
    method StepSleep(t: Task)
      requires t.Valid() && Defined(t.code, t.Abs(tasksCreated))
      requires t.code[t.ip].opcode == Sleep
      modifies t
      ensures t.Valid()
      ensures Step(t.code, old(t.Abs(tasksCreated)), 0) == Continue(t.Abs(tasksCreated))
    {
      var x := t.Pop();
      if x < 0 {
        x := -x;
      }
      t.out := t.out + [Slept(x)];
      t.state := Running;
      t.ip := t.ip + 1;
    }

    /** END_TASK, OP_BAD (which sets `exited`) and the opcodes the loop has no case for. */
    method StepEnd(t: Task) returns (exited: bool)
      requires t.Valid() && Defined(t.code, t.Abs(tasksCreated))
      requires t.code[t.ip].opcode in {EndTask, Bad, BeginAtomicPrint, EndAtomicPrint, PrintString}
      modifies t, t.stack
      ensures t.Valid()
      ensures Step(t.code, old(t.Abs(tasksCreated)), 0) ==
              (if exited then Exit(t.Abs(tasksCreated)) else Continue(t.Abs(tasksCreated)))
    {
      exited := false;
      var ins := t.code[t.ip];
      if ins.opcode == EndTask {
        t.state := Stopped;
      } else if ins.opcode == Bad {
        t.out := t.out + [BadOut];
        exited := true;
      }
    }

    /** The parent's side of `exec_add_spawn_task`: a task record is
        created (counted) and its address pushed as two words, low half
        first. */
    method AddSpawnTask(t: Task, child: u64)
      requires t.Valid() && t.top + 2 <= STACK_SIZE
      modifies this, t, t.stack
      ensures t.Valid() && t.Contents() == old(t.Contents()) + [U32ToI32(Lo(child)), U32ToI32(Hi(child))]
      ensures tasksCreated == (old(tasksCreated) + 1) % TWO_32
      ensures t.ip == old(t.ip) && t.state == old(t.state) && t.vars == old(t.vars)
      ensures t.nSpawn == old(t.nSpawn) && t.out == old(t.out)
    {
      tasksCreated := (tasksCreated + 1) % TWO_32;
      t.Push(U32ToI32(Lo(child)));
      t.Push(U32ToI32(Hi(child)));
    }

    /** `exec_run_task`: mark the task running, then step until it stops,
        at most `fuel` times. */
    method RunTask(t: Task, alloc: nat -> u64, fuel: nat) returns (outcome: Outcome)
      requires t.Valid()
      modifies this, t, t.stack
      ensures t.Valid()
      ensures outcome == Run(t.code, old(t.Abs(tasksCreated)).(state := Running), alloc, fuel)
    {
      t.state := Running;
      var left: nat := fuel;
      while true
        invariant t.Valid() && left <= fuel
        invariant Run(t.code, t.Abs(tasksCreated), alloc, left) ==
                  Run(t.code, old(t.Abs(tasksCreated)).(state := Running), alloc, fuel)
        decreases left
      {
        if t.state == Stopped {
          return Finished(t.Abs(tasksCreated));
        }
        if left == 0 {
          return OutOfFuel(t.Abs(tasksCreated));
        }
        var ok := DefinedNow(t);
        if !ok {
          return Undefined(t.Abs(tasksCreated));
        }
        var exited := StepTask(t, alloc(tasksCreated));
        if exited {
          return Exited(t.Abs(tasksCreated));
        }
        left := left - 1;
      }
    }

    /** Whether the next step of `t` is defined. */
    method DefinedNow(t: Task) returns (ok: bool)
      requires t.Valid()
      ensures ok == Defined(t.code, t.Abs(tasksCreated))
    {
      var m := t.Snapshot(tasksCreated);
      ok := Defined(t.code, m);
    }
  }

  /** A task record (`TASK`): its stack is a fixed array with a top
      index, as the `PUSH`/`POP`/`STACK_PEEK`/`STACK_DROP` macros use it. */
  class Task {
    const name: string
    /** The module's code block. */
    const code: seq<Instruction>
    const stack: array<i32>
    var top: nat
    var ip: nat
    var state: TaskState
    var vars: map<char, i32>
    var nSpawn: u32
    /** Standard output as the task has written it. */
    var out: seq<Event>

    ghost predicate Valid()
      reads this
    {
      stack.Length == STACK_SIZE && top <= STACK_SIZE
    }

    function Contents(): seq<i32>
      reads this, stack
      requires Valid()
    {
      stack[..top]
    }

    function Abs(created: u32): Machine
      reads this, stack
      requires Valid()
    {
      Machine(stack[..top], ip, state, vars, nSpawn, out, created)
    }

    method Snapshot(created: u32) returns (m: Machine)
      requires Valid()
      ensures m == Abs(created)
    {
      m := Machine(stack[..top], ip, state, vars, nSpawn, out, created);
    }

    constructor (name: string, code: seq<Instruction>, ip: nat)
      ensures Valid() && fresh(stack) && this.name == name && this.code == code
      ensures Contents() == [] && this.ip == ip && state == Stopped && vars == ZeroVars()
      ensures nSpawn == 0 && out == []
    {
      this.name := name;
      this.code := code;
      stack := new i32[STACK_SIZE];
      top := 0;
      this.ip := ip;
      state := Stopped;
      vars := ZeroVars();
      nSpawn := 0;
      out := [];
    }

    /** `PUSH`. */
    method Push(x: i32)
      requires Valid() && top < STACK_SIZE
      modifies this`top, stack
      ensures Valid() && Contents() == old(Contents()) + [x]
    {
      stack[top] := x;
      top := top + 1;
    }

    /** `POP`: the top word, which leaves the stack. */
    method Pop() returns (x: i32)
      requires Valid() && top >= 1
      modifies this`top
      ensures Valid() && top == old(top) - 1
      ensures Contents() == old(Contents())[..top] && x == old(Contents())[top]
    {
      top := top - 1;
      x := stack[top];
    }

    /** `STACK_PEEK(p_task, 0)`. */
    method Peek() returns (x: i32)
      requires Valid() && top >= 1
      ensures x == Contents()[|Contents()| - 1]
    {
      x := stack[top - 1];
    }

    /** `STACK_DROP`. */
    method Drop()
      requires Valid() && top >= 1
      modifies this`top
      ensures Valid() && Contents() == old(Contents())[..old(top) - 1]
    {
      top := top - 1;
    }

    /** NEGATE: the top word multiplied by -1 in place. */
    method Negate()
      requires Valid() && top >= 1 && stack[top - 1] != INT_MIN
      modifies stack
      ensures Valid() && Contents() == old(Contents())[top - 1 := -old(stack[top - 1])]
    {
      stack[top - 1] := -stack[top - 1];
    }

    /** NOT: the top word replaced by its logical negation. */
    method Not()
      requires Valid() && top >= 1
      modifies stack
      ensures Valid() && Contents() == old(Contents())[top - 1 := if old(stack[top - 1]) == 0 then 1 else 0]
    {
      stack[top - 1] := if stack[top - 1] == 0 then 1 else 0;
    }

    /** `BINARY_OP`: pop `x`, pop `y`, push `y op x`. */
    method BinaryOp(op: Opcode)
      requires Valid() && IsBinary(op) && top >= 2 && BinaryDefined(op, stack[top - 2], stack[top - 1])
      modifies this`top, stack
      ensures Valid()
      ensures Contents() == old(Contents())[..old(top) - 2] + [BinaryValue(op, old(stack[top - 2]), old(stack[top - 1]))]
    {
      var x := Pop();
      var y := Pop();
      Push(BinaryValue(op, y, x));
    }

    /** The parent's stack bookkeeping in `exec_run_then_join_spawn`: once
        the children have run, their two-word addresses are dropped. */
    method RunThenJoin()
      requires Valid() && 2 * nSpawn <= top
      modifies this`top
      ensures Valid() && Contents() == old(Contents())[..old(top) - 2 * nSpawn]
    {
      var i: u32 := 0;
      while i < nSpawn
        invariant 0 <= i <= nSpawn && top == old(top) - 2 * i && Valid()
        invariant Contents() == old(Contents())[..top]
      {
        Drop();
        Drop();
        i := i + 1;
      }
    }
  }
}
