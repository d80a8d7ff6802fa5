/** The code generator: a walk over the parse tree that writes stack
    machine instructions into a fixed buffer at an advancing instruction
    pointer, resolving the task names of `spawn` through a label table.

    `Emit` is the specification of the walk on values; the `Compiler`
    class is the walk itself over the buffer array and a label table, and
    each of its methods is proved to leave the abstract state that `Emit`
    (or one of its parts) computes. */
module CodeGen {
  import opened Common
  import opened Instructions
  import opened Ast

  /** What the code generator knows about one label. */
  datatype LabelInfo = LabelInfo(addrSet: bool, addr: u32, backpatch: seq<u32>)

  /** The code buffer `g_code`, the instruction pointer `g_ip` and the
      label table, seen as values. */
  datatype State = State(code: seq<Instruction>, ip: nat, labels: map<string, LabelInfo>)

  /** The number of slots the dispatcher advances over for a tree.
      Statement sequences, module and task declarations and remainder
      nodes have no case of their own and emit nothing; an assignment
      emits its store but not its expression. */
  function Size(n: Node): nat
  {
    match n
    case ModuleDecl(_, _, _) => 0
    case TaskDecl(_, _) => 0
    case StatementSeq(_) => 0
    case Assign(_, _) => 1
    case If(test, tb, fb) => Size(test) + 1 + Size(tb) + 1 + SizeOpt(fb)
    case While(test, body) => Size(test) + 1 + Size(body) + 1
    case PrintInt(e) => Size(e) + 1
    case PrintChar(_) => 1
    case Spawn(names) => 2 * |names|
    case Stop => 1
    case Binary(k, l, r) => if k == NdRemainder then 0 else Size(l) + Size(r) + 1
    case Negate(e) => Size(e) + 1
    case Not(e) => Size(e) + 1
    case Variable(_) => 1
    case Number(_) => 1
  }

  function SizeOpt(t: Option<Node>): nat
  {
    if t.None? then 0 else Size(t.value)
  }

  /** Every number literal the dispatcher reaches fits the 32-bit operand
      (`nd_number` is an `int32_t`). */
  predicate Compilable(n: Node)
  {
    match n
    case If(test, tb, fb) => Compilable(test) && Compilable(tb) && (fb.Some? ==> Compilable(fb.value))
    case While(test, body) => Compilable(test) && Compilable(body)
    case PrintInt(e) => Compilable(e)
    case Binary(k, l, r) => k != NdRemainder ==> Compilable(l) && Compilable(r)
    case Negate(e) => Compilable(e)
    case Not(e) => Compilable(e)
    case Number(v) => IsI32(v)
    case _ => true
  }

  predicate CompilableOpt(t: Option<Node>)
  {
    t.Some? ==> Compilable(t.value)
  }

  /** The buffer is no longer than `MAX_CODE_SIZE` and has room for
      `k` more slots. */
  predicate Room(s: State, k: nat)
  {
    s.ip + k <= |s.code| <= MAX_CODE_SIZE
  }

  /** `g_code[g_ip++].i_opcode = op`: the operand word of the slot is
      left as it was. */
  function SetOpcode(s: State, op: Opcode): (r: State)
    requires Room(s, 1)
    ensures Room(r, 0) && |r.code| == |s.code| && r.ip == s.ip + 1 && r.labels == s.labels
  {
    s.(code := s.code[s.ip := s.code[s.ip].(opcode := op)], ip := s.ip + 1)
  }

  /** Opcode and the whole 32-bit operand word, then advance. */
  function Store(s: State, op: Opcode, w: u32): (r: State)
    requires Room(s, 1)
    ensures Room(r, 0) && |r.code| == |s.code| && r.ip == s.ip + 1 && r.labels == s.labels
  {
    s.(code := s.code[s.ip := Instruction(op, w)], ip := s.ip + 1)
  }

  /** Opcode and an 8-bit union member, then advance. */
  function StoreLow(s: State, op: Opcode, b: u8): (r: State)
    requires Room(s, 1)
    ensures Room(r, 0) && |r.code| == |s.code| && r.ip == s.ip + 1 && r.labels == s.labels
  {
    s.(code := s.code[s.ip := Instruction(op, WithLowByte(s.code[s.ip].operand, b))], ip := s.ip + 1)
  }

  /** `g_code[at].i_jump_addr = target`: backpatch a jump. */
  function Patch(s: State, at: nat, target: nat): (r: State)
    requires at < |s.code| <= MAX_CODE_SIZE && target <= MAX_CODE_SIZE
    ensures r.ip == s.ip && r.labels == s.labels && |r.code| == |s.code|
  {
    s.(code := s.code[at := s.code[at].(operand := target)])
  }

  /** A `char` stored into a `uint8_t` field. */
  function ByteOf(c: char): u8
  {
    (c as int) % 0x100
  }

  function BinaryOpcode(k: BinaryKind): Opcode
    requires k != NdRemainder
  {
    match k
    case NdOr => Or
    case NdAnd => And
    case NdLe => Le
    case NdLt => Lt
    case NdGe => Ge
    case NdGt => Gt
    case NdEq => Eq
    case NdNe => Ne
    case NdAdd => Add
    case NdSubtract => Subtract
    case NdMultiply => Multiply
    case NdDivide => Divide
  }

  /** The operand a `spawn` of `name` gets: the label's address when it
      is set, 0 otherwise. */
  function SpawnAddr(name: string, labels: map<string, LabelInfo>): u32
  {
    if name in labels && labels[name].addrSet then labels[name].addr else 0
  }

  /** The label table after a `spawn` of `name` at `site`: an unknown
      name gets a fresh unresolved label with `site` as its only backpatch
      site; an unresolved label gets `site` prepended to its backpatch
      list; a resolved label is left alone. */
  function SpawnLabels(name: string, site: u32, labels: map<string, LabelInfo>): (r: map<string, LabelInfo>)
    ensures r.Keys == labels.Keys + {name}
  {
    if name !in labels then labels[name := LabelInfo(false, 0, [site])]
    else if labels[name].addrSet then labels
    else labels[name := labels[name].(backpatch := [site] + labels[name].backpatch)]
  }

  /** One task name of a `spawn`: the SPAWN instruction, the label table
      update, and the loop's second advance of the pointer. */
  function SpawnOne(name: string, s: State): (r: State)
    requires Room(s, 2)
    ensures Room(r, 0) && |r.code| == |s.code| && r.ip == s.ip + 2
    ensures forall i :: 0 <= i < |s.code| && i != s.ip ==> r.code[i] == s.code[i]
  {
    s.(code := s.code[s.ip := Instruction(Opcode.Spawn, SpawnAddr(name, s.labels))], ip := s.ip + 2,
       labels := SpawnLabels(name, s.ip, s.labels))
  }

  function EmitSpawn(names: seq<string>, s: State): (r: State)
    requires Room(s, 2 * |names|)
    ensures Room(r, 0) && |r.code| == |s.code| && r.ip == s.ip + 2 * |names|
    ensures s.labels.Keys <= r.labels.Keys
    ensures forall i :: 0 <= i < |s.code| && !(s.ip <= i < r.ip) ==> r.code[i] == s.code[i]
    decreases |names|
  {
    if names == [] then s else EmitSpawn(names[1..], SpawnOne(names[0], s))
  }

  /** `compile`: the code the dispatcher writes for a tree, and where it
      leaves the instruction pointer. Slots below the starting pointer are
      never written. */
  function Emit(n: Node, s: State): (r: State)
    requires Room(s, Size(n)) && Compilable(n)
    ensures Room(r, 0) && |r.code| == |s.code| && r.ip == s.ip + Size(n)
    ensures forall i :: 0 <= i < |s.code| && !(s.ip <= i < r.ip) ==> r.code[i] == s.code[i]
    decreases n, 1
  {
    match n
    case ModuleDecl(_, _, _) => s
    case TaskDecl(_, _) => s
    case StatementSeq(_) => s
    case Assign(c, _) => StoreLow(s, PopInt, ByteOf(c))
    case If(_, _, _) => EmitIf(n, s)
    case While(_, _) => EmitWhile(n, s)
    case PrintInt(e) => SetOpcode(Emit(e, s), Opcode.PrintInt)
    case PrintChar(c) => StoreLow(s, Opcode.PrintChar, ByteOf(c))
    case Spawn(names) => EmitSpawn(names, s)
    case Stop => SetOpcode(s, EndTask)
    case Binary(k, l, r) =>
      if k == NdRemainder then s else EmitBinary(BinaryOpcode(k), n, s)
    case Negate(e) => SetOpcode(Emit(e, s), Opcode.Negate)
    case Not(_) => EmitBinary(Opcode.Not, n, s)
    case Variable(_) => SetOpcode(s, PushVar)
    case Number(v) => Store(s, PushConstInt, I32ToU32(v))
  }

  /** `compile_binary_op`: left operand, right operand, operator. A `not`
      node goes through the same path; its right operand is uninitialised
      (undefined behaviour), and the model compiles no right operand. */
  function EmitBinary(op: Opcode, n: Node, s: State): (r: State)
    requires (n.Binary? && n.kind != NdRemainder) || n.Not?
    requires Room(s, Size(n)) && Compilable(n)
    ensures Room(r, 0) && |r.code| == |s.code| && r.ip == s.ip + Size(n)
    ensures forall i :: 0 <= i < |s.code| && !(s.ip <= i < r.ip) ==> r.code[i] == s.code[i]
    decreases n, 0
  {
    if n.Binary? then SetOpcode(Emit(n.right, Emit(n.left, s)), op)
    else SetOpcode(Emit(n.expr, s), op)
  }

  /** `compile_ND_IF`: test, a conditional jump past the true branch, the
      true branch, an unconditional jump past the false branch, the false
      branch; both jumps are backpatched once their targets are known. */
  function EmitIf(n: Node, s: State): (r: State)
    requires n.If? && Room(s, Size(n)) && Compilable(n)
    ensures Room(r, 0) && |r.code| == |s.code| && r.ip == s.ip + Size(n)
    ensures forall i :: 0 <= i < |s.code| && !(s.ip <= i < r.ip) ==> r.code[i] == s.code[i]
    decreases n, 0
  {
    var s1 := Emit(n.test, s);
    var b0 := s1.ip;
    var s2 := SetOpcode(s1, JumpIfZero);
    var s3 := Emit(n.trueBranch, s2);
    var b1 := s3.ip;
    var s4 := SetOpcode(s3, Jump);
    var s5 := Patch(s4, b0, s4.ip);
    assert s5.ip + SizeOpt(n.falseBranch) == s.ip + Size(n);
    var s6 := if n.falseBranch.Some? then Emit(n.falseBranch.value, s5) else s5;
    Patch(s6, b1, s6.ip)
  }

  /** `compile_ND_WHILE`: test, a conditional jump out of the loop, the
      body, a jump back to the test; the exit jump is backpatched. */
  function EmitWhile(n: Node, s: State): (r: State)
    requires n.While? && Room(s, Size(n)) && Compilable(n)
    ensures Room(r, 0) && |r.code| == |s.code| && r.ip == s.ip + Size(n)
    ensures forall i :: 0 <= i < |s.code| && !(s.ip <= i < r.ip) ==> r.code[i] == s.code[i]
    decreases n, 0
  {
    var top := s.ip;
    var s1 := Emit(n.test, s);
    var b := s1.ip;
    var s2 := SetOpcode(s1, JumpIfZero);
    var s3 := Emit(n.body, s2);
    var s4 := Store(s3, Jump, top);
    Patch(s4, b, s4.ip)
  }

  /** `compile` on a possibly null tree. */
  function EmitOpt(t: Option<Node>, s: State): (r: State)
    requires Room(s, SizeOpt(t)) && CompilableOpt(t)
    ensures Room(r, 0) && |r.code| == |s.code| && r.ip == s.ip + SizeOpt(t)
    ensures forall i :: 0 <= i < |s.code| && !(s.ip <= i < r.ip) ==> r.code[i] == s.code[i]
    ensures t.None? ==> r == s
  {
    if t.None? then s else Emit(t.value, s)
  }

  function SizeSeq(ss: seq<Option<Node>>): nat
  {
    if ss == [] then 0 else SizeOpt(ss[0]) + SizeSeq(ss[1..])
  }

  predicate CompilableSeq(ss: seq<Option<Node>>)
  {
    forall k :: 0 <= k < |ss| ==> CompilableOpt(ss[k])
  }

  /** `compile_ND_STATEMENT_SEQUENCE`: the statements one after another. */
  function EmitSeq(ss: seq<Option<Node>>, s: State): (r: State)
    requires Room(s, SizeSeq(ss)) && CompilableSeq(ss)
    ensures Room(r, 0) && |r.code| == |s.code| && r.ip == s.ip + SizeSeq(ss)
    ensures forall i :: 0 <= i < |s.code| && !(s.ip <= i < r.ip) ==> r.code[i] == s.code[i]
  {
    if ss == [] then s else EmitSeq(ss[1..], EmitOpt(ss[0], s))
  }

  /** A measure for the mutually recursive compiler methods. */
  function Weight(n: Node): nat
  {
    match n
    case If(test, tb, fb) => 1 + Weight(test) + Weight(tb) + (if fb.Some? then Weight(fb.value) else 0)
    case While(test, body) => 1 + Weight(test) + Weight(body)
    case PrintInt(e) => 1 + Weight(e)
    case Binary(_, l, r) => 1 + Weight(l) + Weight(r)
    case Negate(e) => 1 + Weight(e)
    case Not(e) => 1 + Weight(e)
    case _ => 0
  }

  function WeightOpt(t: Option<Node>): nat
  {
    if t.None? then 0 else Weight(t.value)
  }

  /** In an `if`, the conditional jump after the test targets the slot
      just past the unconditional jump, where the false branch starts; the
      unconditional jump after the true branch targets the end of the
      false branch. Both jumps are there even without an `else`. */
  lemma IfJumps(n: Node, s: State)
    requires n.If? && Room(s, Size(n)) && Compilable(n)
    ensures var r := Emit(n, s);
            var b0 := s.ip + Size(n.test);
            var b1 := b0 + 1 + Size(n.trueBranch);
            r.code[b0] == Instruction(JumpIfZero, b1 + 1)
            && r.code[b1] == Instruction(Jump, r.ip)
            && r.ip == b1 + 1 + SizeOpt(n.falseBranch)
  {
  }

  /** In a `while`, the back jump at the end targets the loop top (the
      first slot of the test) and the conditional jump after the test
      targets the slot after the back jump. */
  lemma WhileJumps(n: Node, s: State)
    requires n.While? && Room(s, Size(n)) && Compilable(n)
    ensures var r := Emit(n, s);
            var b := s.ip + Size(n.test);
            r.code[b] == Instruction(JumpIfZero, r.ip)
            && r.code[r.ip - 1] == Instruction(Jump, s.ip)
            && r.ip == b + 1 + Size(n.body) + 1
  {
  }

  /** `compile_binary_op`: the left operand's code, then the right
      operand's code after it, then one instruction with the operator. */
  lemma BinaryLayout(n: Node, s: State)
    requires n.Binary? && n.kind != NdRemainder && Room(s, Size(n)) && Compilable(n)
    ensures var r := Emit(n, s);
            var sl := Emit(n.left, s);
            var sr := Emit(n.right, sl);
            r.ip == sr.ip + 1
            && (forall i :: s.ip <= i < sl.ip ==> r.code[i] == sl.code[i])
            && (forall i :: sl.ip <= i < sr.ip ==> r.code[i] == sr.code[i])
            && r.code[sr.ip].opcode == BinaryOpcode(n.kind)
  {
  }

  /** One `spawn` name: a resolved label gives its address and the table
      is unchanged; otherwise the operand is 0 and the SPAWN's own slot is
      prepended to the (possibly new) label's backpatch list. Other
      labels are untouched. */
  lemma SpawnOperand(name: string, s: State)
    requires Room(s, 2)
    ensures var r := SpawnOne(name, s);
            var resolved := name in s.labels && s.labels[name].addrSet;
            (resolved ==> r.code[s.ip] == Instruction(Opcode.Spawn, s.labels[name].addr) && r.labels == s.labels)
            && (!resolved ==>
                  r.code[s.ip] == Instruction(Opcode.Spawn, 0)
                  && name in r.labels && !r.labels[name].addrSet
                  && r.labels[name].backpatch == [s.ip as u32] + (if name in s.labels then s.labels[name].backpatch else []))
            && (forall m :: m != name ==> (m in r.labels <==> m in s.labels))
            && (forall m :: m != name && m in s.labels ==> r.labels[m] == s.labels[m])
  {
  }

  /** `compile_ND_SPAWN` emits one SPAWN every second slot, leaves the
      slots in between as they were, and records every name. */
  lemma SpawnLayout(names: seq<string>, s: State)
    requires Room(s, 2 * |names|)
    ensures var r := EmitSpawn(names, s);
            (forall k :: 0 <= k < |names| ==>
               r.code[s.ip + 2 * k].opcode == Opcode.Spawn && r.code[s.ip + 2 * k + 1] == s.code[s.ip + 2 * k + 1])
            && (forall m :: m in names ==> m in r.labels)
  {
    SpawnSlots(names, s);
    SpawnNamesRecorded(names, s);
  }

  /** The slots `compile_ND_SPAWN` writes. */
  lemma SpawnSlots(names: seq<string>, s: State)
    requires Room(s, 2 * |names|)
    ensures var r := EmitSpawn(names, s);
            forall k :: 0 <= k < |names| ==>
              r.code[s.ip + 2 * k].opcode == Opcode.Spawn && r.code[s.ip + 2 * k + 1] == s.code[s.ip + 2 * k + 1]
  {
    forall k | 0 <= k < |names|
      ensures EmitSpawn(names, s).code[s.ip + 2 * k].opcode == Opcode.Spawn
      ensures EmitSpawn(names, s).code[s.ip + 2 * k + 1] == s.code[s.ip + 2 * k + 1]
    {
      SpawnSlot(names, s, k);
    }
  }

  /** The two slots of the `k`-th name. */
  lemma {:induction false} SpawnSlot(names: seq<string>, s: State, k: nat)
    requires Room(s, 2 * |names|) && k < |names|
    ensures EmitSpawn(names, s).code[s.ip + 2 * k].opcode == Opcode.Spawn
    ensures EmitSpawn(names, s).code[s.ip + 2 * k + 1] == s.code[s.ip + 2 * k + 1]
    decreases k
  {
    var s1 := SpawnOne(names[0], s);
    var r := EmitSpawn(names, s);
    assert r == EmitSpawn(names[1..], s1);
    if k == 0 {
      assert r.code[s.ip] == s1.code[s.ip];
      assert r.code[s.ip + 1] == s1.code[s.ip + 1];
    } else {
      SpawnSlot(names[1..], s1, k - 1);
      assert s.ip + 2 * k == s1.ip + 2 * (k - 1);
    }
  }

  /** The names `compile_ND_SPAWN` records in the label table. */
  lemma {:induction false} SpawnNamesRecorded(names: seq<string>, s: State)
    requires Room(s, 2 * |names|)
    ensures forall m :: m in names ==> m in EmitSpawn(names, s).labels
    decreases |names|
  {
    if names != [] {
      var s1 := SpawnOne(names[0], s);
      SpawnNamesRecorded(names[1..], s1);
      var r := EmitSpawn(names, s);
      assert r == EmitSpawn(names[1..], s1);
      forall m | m in names
        ensures m in r.labels
      {
        if m != names[0] {
          assert m in names[1..];
        }
      }
    }
  }

  /** Every backpatch site recorded so far lies below the instruction
      pointer and still holds a SPAWN with operand 0, waiting for its
      task's address. */
  predicate SitesPending(s: State)
  {
    forall nm :: nm in s.labels ==> Pending(s.labels[nm].backpatch, s)
  }

  predicate Pending(sites: seq<u32>, s: State)
  {
    forall k :: 0 <= k < |sites| ==>
      sites[k] < s.ip && sites[k] < |s.code| && s.code[sites[k]] == Instruction(Opcode.Spawn, 0)
  }

  /** Writing only at or above the old pointer, with the table unchanged,
      keeps the pending sites pending. */
  lemma PendingAbove(s: State, r: State)
    requires SitesPending(s) && Room(s, 0) && r.labels == s.labels && s.ip <= r.ip && |s.code| == |r.code|
    requires forall i :: 0 <= i < s.ip ==> r.code[i] == s.code[i]
    ensures SitesPending(r)
  {
  }

  /** Backpatching a jump slot, which holds no SPAWN, keeps the pending
      sites pending. */
  lemma PendingPatch(s: State, at: nat, target: nat)
    requires SitesPending(s) && at < |s.code| <= MAX_CODE_SIZE && target <= MAX_CODE_SIZE
    requires s.code[at].opcode != Opcode.Spawn
    ensures SitesPending(Patch(s, at, target))
  {
    var r := Patch(s, at, target);
    forall nm | nm in r.labels
      ensures Pending(r.labels[nm].backpatch, r)
    {
      var sites := s.labels[nm].backpatch;
      forall k | 0 <= k < |sites|
        ensures sites[k] < r.ip && sites[k] < |r.code| && r.code[sites[k]] == Instruction(Opcode.Spawn, 0)
      {
        assert s.code[sites[k]].opcode == Opcode.Spawn;
      }
    }
  }

  lemma PendingSpawn(name: string, s: State)
    requires SitesPending(s) && Room(s, 2)
    ensures SitesPending(SpawnOne(name, s))
  {
    var r := SpawnOne(name, s);
    forall nm | nm in r.labels
      ensures Pending(r.labels[nm].backpatch, r)
    {
      if nm == name && !(name in s.labels && s.labels[name].addrSet) {
        var old_ := if name in s.labels then s.labels[name].backpatch else [];
        assert r.labels[nm].backpatch == [s.ip as u32] + old_;
        assert Pending(old_, s);
      } else {
        assert nm in s.labels && r.labels[nm] == s.labels[nm];
      }
    }
  }

  lemma {:induction false} PendingSpawns(names: seq<string>, s: State)
    requires SitesPending(s) && Room(s, 2 * |names|)
    ensures SitesPending(EmitSpawn(names, s))
    decreases |names|
  {
    if names != [] {
      PendingSpawn(names[0], s);
      PendingSpawns(names[1..], SpawnOne(names[0], s));
    }
  }

  /** The code generator keeps every recorded backpatch site pointing at
      an unresolved SPAWN: later code is written above the sites, and the
      jump backpatches of `if` and `while` only touch jump slots. */
  lemma {:induction false} PendingEmit(n: Node, s: State)
    requires SitesPending(s) && Room(s, Size(n)) && Compilable(n)
    ensures SitesPending(Emit(n, s))
    decreases n, 1
  {
    var r := Emit(n, s);
    match n
    case If(_, _, _) => PendingIf(n, s);
    case While(_, _) => PendingWhile(n, s);
    case PrintInt(e) =>
      PendingEmit(e, s);
      PendingAbove(Emit(e, s), r);
    case Spawn(names) =>
      PendingSpawns(names, s);
    case Binary(k, left, right) =>
      if k != NdRemainder {
        PendingBinary(BinaryOpcode(k), n, s);
      }
    case Negate(e) =>
      PendingEmit(e, s);
      PendingAbove(Emit(e, s), r);
    case Not(e) =>
      PendingBinary(Opcode.Not, n, s);
    case _ =>
      PendingAbove(s, r);
  }

  lemma {:induction false} PendingBinary(op: Opcode, n: Node, s: State)
    requires (n.Binary? && n.kind != NdRemainder) || n.Not?
    requires SitesPending(s) && Room(s, Size(n)) && Compilable(n)
    ensures SitesPending(EmitBinary(op, n, s))
    decreases n, 0
  {
    if n.Binary? {
      var sl := Emit(n.left, s);
      PendingEmit(n.left, s);
      PendingEmit(n.right, sl);
      PendingAbove(Emit(n.right, sl), EmitBinary(op, n, s));
    } else {
      PendingEmit(n.expr, s);
      PendingAbove(Emit(n.expr, s), EmitBinary(op, n, s));
    }
  }

  lemma {:induction false} PendingIf(n: Node, s: State)
    requires n.If? && SitesPending(s) && Room(s, Size(n)) && Compilable(n)
    ensures SitesPending(EmitIf(n, s))
    decreases n, 0
  {
    var s1 := Emit(n.test, s);
    PendingEmit(n.test, s);
    var s2 := SetOpcode(s1, JumpIfZero);
    PendingAbove(s1, s2);
    var s3 := Emit(n.trueBranch, s2);
    PendingEmit(n.trueBranch, s2);
    var s4 := SetOpcode(s3, Jump);
    PendingAbove(s3, s4);
    var s5 := Patch(s4, s1.ip, s4.ip);
    PendingPatch(s4, s1.ip, s4.ip);
    assert s5.ip + SizeOpt(n.falseBranch) == s.ip + Size(n);
    var s6 := if n.falseBranch.Some? then Emit(n.falseBranch.value, s5) else s5;
    if n.falseBranch.Some? {
      PendingEmit(n.falseBranch.value, s5);
    }
    PendingPatch(s6, s3.ip, s6.ip);
  }

  lemma {:induction false} PendingWhile(n: Node, s: State)
    requires n.While? && SitesPending(s) && Room(s, Size(n)) && Compilable(n)
    ensures SitesPending(EmitWhile(n, s))
    decreases n, 0
  {
    var s1 := Emit(n.test, s);
    PendingEmit(n.test, s);
    var s2 := SetOpcode(s1, JumpIfZero);
    PendingAbove(s1, s2);
    var s3 := Emit(n.body, s2);
    PendingEmit(n.body, s2);
    var s4 := Store(s3, Jump, s.ip);
    PendingAbove(s3, s4);
    PendingPatch(s4, s1.ip, s4.ip);
  }

  lemma {:induction false} SizeSeqAppend(a: seq<Option<Node>>, b: seq<Option<Node>>)
    ensures SizeSeq(a + b) == SizeSeq(a) + SizeSeq(b)
    decreases |a|
  {
    if a != [] {
      assert (a + b)[1..] == a[1..] + b;
      SizeSeqAppend(a[1..], b);
    } else {
      assert a + b == b;
    }
  }

  /** `compile_ND_STATEMENT_SEQUENCE` compiles its statements in list
      order: a sequence split in two compiles as its first part followed
      by its second. */
  lemma {:induction false} EmitSeqAppend(a: seq<Option<Node>>, b: seq<Option<Node>>, s: State)
    requires CompilableSeq(a + b) && Room(s, SizeSeq(a + b))
    ensures SizeSeq(a + b) == SizeSeq(a) + SizeSeq(b)
    ensures CompilableSeq(a) && CompilableSeq(b)
    ensures EmitSeq(a + b, s) == EmitSeq(b, EmitSeq(a, s))
    decreases |a|
  {
    SizeSeqAppend(a, b);
    assert forall k :: 0 <= k < |a| ==> a[k] == (a + b)[k];
    assert forall k :: 0 <= k < |b| ==> b[k] == (a + b)[|a| + k];
    if a == [] {
      assert a + b == b;
    } else {
      assert (a + b)[1..] == a[1..] + b;
      SizeSeqAppend(a[1..], b);
      EmitSeqAppend(a[1..], b, EmitOpt(a[0], s));
    }
  }

  /** An assignment compiles to the store alone: whatever its right-hand
      side, the same single POP_INT is emitted. */
  lemma AssignIgnoresExpression(c: char, e1: Node, e2: Node, s: State)
    requires Room(s, 1)
    ensures Emit(Assign(c, e1), s) == Emit(Assign(c, e2), s)
    ensures Emit(Assign(c, e1), s).code[s.ip].opcode == PopInt
    ensures Emit(Assign(c, e1), s).code[s.ip].operand % 0x100 == ByteOf(c)
  {
  }

  class Compiler {
    /** `g_code`. */
    const code: array<Instruction>
    /** `g_ip`. */
    var ip: nat
    /** The code generator's label table `g_hash_table`, keyed by the
        label name a chain search compares against. */
    var labels: map<string, LabelInfo>

    ghost predicate Valid()
      reads this
    {
      code.Length == MAX_CODE_SIZE && ip <= MAX_CODE_SIZE
    }

    ghost function Abs(): State
      reads this, code
    {
      State(code[..], ip, labels)
    }

    /** The static state before compilation: every slot zero, the
        pointer at 0 and no labels. */
    constructor ()
      ensures Valid() && fresh(code)
      ensures Abs() == State(seq(MAX_CODE_SIZE, _ => ZeroInstruction), 0, map[])
    {
      code := new Instruction[MAX_CODE_SIZE](_ => ZeroInstruction);
      ip := 0;
      labels := map[];
    }

    /** `compile_lookup_label`: the label recorded for `name`, if any. */
    method LookupLabel(name: string) returns (r: Option<LabelInfo>)
      ensures r.Some? <==> name in labels
      ensures r.Some? ==> r.value == labels[name]
    {
      r := if name in labels then Some(labels[name]) else None;
    }

    /** `compile_add_label`: a label added under `name` hides any earlier
        one. */
    method AddLabel(name: string, l: LabelInfo)
      modifies this`labels
      ensures labels == old(labels)[name := l]
    {
      labels := labels[name := l];
    }

    /** `compile_add_backpatch`: prepend a site to the backpatch list of
        the label for `name`. */
    method AddBackpatch(name: string, site: u32)
      requires name in labels
      modifies this`labels
      ensures labels == old(labels)[name := old(labels)[name].(backpatch := [site] + old(labels)[name].backpatch)]
    {
      labels := labels[name := labels[name].(backpatch := [site] + labels[name].backpatch)];
    }

    /** `g_code[g_ip++].i_opcode = op`. */
    method EmitOpcode(op: Opcode)
      requires Valid() && ip < MAX_CODE_SIZE
      modifies this, code
      ensures Valid() && Abs() == SetOpcode(old(Abs()), op)
    {
      code[ip] := code[ip].(opcode := op);
      ip := ip + 1;
    }

    /** `compile_gen_END_TASK`. */
    method GenEndTask()
      requires Valid() && ip < MAX_CODE_SIZE
      modifies this, code
      ensures Valid() && Abs() == SetOpcode(old(Abs()), EndTask)
    {
      EmitOpcode(EndTask);
    }

    /** `compile_gen_BEGIN_SPAWN`. */
    method GenBeginSpawn()
      requires Valid() && ip < MAX_CODE_SIZE
      modifies this, code
      ensures Valid() && Abs() == SetOpcode(old(Abs()), BeginSpawn)
    {
      EmitOpcode(BeginSpawn);
    }

    /** `compile_gen_SPAWN`: opcode and the whole address word. */
    method GenSpawn(taskAddr: u32)
      requires Valid() && ip < MAX_CODE_SIZE
      modifies this, code
      ensures Valid() && Abs() == Store(old(Abs()), Opcode.Spawn, taskAddr)
    {
      code[ip] := Instruction(Opcode.Spawn, taskAddr);
      ip := ip + 1;
    }

    /** `compile_gen_END_SPAWN`. */
    method GenEndSpawn()
      requires Valid() && ip < MAX_CODE_SIZE
      modifies this, code
      ensures Valid() && Abs() == SetOpcode(old(Abs()), EndSpawn)
    {
      EmitOpcode(EndSpawn);
    }

    /** `compile_gen_PRINT_INT`. */
    method GenPrintInt()
      requires Valid() && ip < MAX_CODE_SIZE
      modifies this, code
      ensures Valid() && Abs() == SetOpcode(old(Abs()), Opcode.PrintInt)
    {
      EmitOpcode(Opcode.PrintInt);
    }

    /** `compile_gen_PRINT_CHAR`: the character argument is not stored. */
    method GenPrintChar(ch: char)
      requires Valid() && ip < MAX_CODE_SIZE
      modifies this, code
      ensures Valid() && Abs() == SetOpcode(old(Abs()), Opcode.PrintChar)
    {
      EmitOpcode(Opcode.PrintChar);
    }

    /** `compile_gen_PUSH_VAR`: the variable name is not stored. */
    method GenPushVar(varName: char)
      requires Valid() && ip < MAX_CODE_SIZE
      modifies this, code
      ensures Valid() && Abs() == SetOpcode(old(Abs()), PushVar)
    {
      EmitOpcode(PushVar);
    }

    /** `compile_OP_POP_INT`: the name goes to the low byte. */
    method OpPopInt(varName: char)
      requires Valid() && ip < MAX_CODE_SIZE
      modifies this, code
      ensures Valid() && Abs() == StoreLow(old(Abs()), PopInt, ByteOf(varName))
    {
      code[ip] := Instruction(PopInt, WithLowByte(code[ip].operand, ByteOf(varName)));
      ip := ip + 1;
    }

    /** `compile_OP_PRINT_CHAR`: the character goes to the low byte. */
    method OpPrintChar(ch: char)
      requires Valid() && ip < MAX_CODE_SIZE
      modifies this, code
      ensures Valid() && Abs() == StoreLow(old(Abs()), Opcode.PrintChar, ByteOf(ch))
    {
      code[ip] := Instruction(Opcode.PrintChar, WithLowByte(code[ip].operand, ByteOf(ch)));
      ip := ip + 1;
    }

    /** `compile_OP_PUSH_CONST_INT`: the constant fills the word. */
    method OpPushConstInt(n: i32)
      requires Valid() && ip < MAX_CODE_SIZE
      modifies this, code
      ensures Valid() && Abs() == Store(old(Abs()), PushConstInt, I32ToU32(n))
    {
      code[ip] := Instruction(PushConstInt, I32ToU32(n));
      ip := ip + 1;
    }

    /** `g_code[at].i_jump_addr = target`. */
    method PatchJump(at: nat, target: nat)
      requires Valid() && at < MAX_CODE_SIZE && target <= MAX_CODE_SIZE
      modifies code
      ensures Valid() && Abs() == Patch(old(Abs()), at, target)
    {
      code[at] := code[at].(operand := target);
    }

    /** The label work for one task name of `compile_ND_SPAWN`: look it
        up, then use its address (case 2), or record `site` for
        backpatching, first adding an unresolved label when the name is
        unknown (cases 1 and 3). */
    method ResolveTask(name: string, site: u32) returns (addr: u32)
      modifies this`labels
      ensures addr == SpawnAddr(name, old(labels))
      ensures labels == SpawnLabels(name, site, old(labels))
    {
      var lbl := LookupLabel(name);
      addr := 0;
      if lbl.None? {
        AddLabel(name, LabelInfo(false, 0, []));
        AddBackpatch(name, site);
        assert [site] + [] == [site];
      } else if lbl.value.addrSet {
        addr := lbl.value.addr;
      } else {
        AddBackpatch(name, site);
      }
    }

    /** One task name of `compile_ND_SPAWN`, with the loop's extra step. */
    method SpawnName(name: string)
      requires Valid() && ip + 2 <= MAX_CODE_SIZE
      modifies this, code
      ensures Valid() && Abs() == SpawnOne(name, old(Abs()))
    {
      ghost var before := Abs();
      var addr := ResolveTask(name, ip);
      assert Abs() == before.(labels := SpawnLabels(name, before.ip, before.labels));
      GenSpawn(addr);
      ip := ip + 1;
    }

    /** `compile_ND_SPAWN`. */
    method CompileSpawn(n: Node)
      requires n.Spawn? && Valid() && ip + Size(n) <= MAX_CODE_SIZE
      modifies this, code
      ensures Valid() && Abs() == EmitSpawn(n.taskNames, old(Abs()))
    {
      var names := n.taskNames;
      var i := 0;
      while i < |names|
        invariant 0 <= i <= |names| && Valid() && ip == old(ip) + 2 * i
        invariant EmitSpawn(names[i..], Abs()) == EmitSpawn(names, old(Abs()))
      {
        assert names[i..][1..] == names[i + 1..];
        SpawnName(names[i]);
        i := i + 1;
      }
    }

    /** `compile_binary_op` (and `not`, whose right operand is
        uninitialised, undefined behaviour; no right operand is compiled). */
    method CompileBinaryOp(op: Opcode, n: Node)
      requires (n.Binary? && n.kind != NdRemainder) || n.Not?
      requires Valid() && ip + Size(n) <= MAX_CODE_SIZE && Compilable(n)
      modifies this, code
      ensures Valid() && Abs() == EmitBinary(op, n, old(Abs()))
      decreases Weight(n), 0
    {
      if n.Binary? {
        Compile(Some(n.left));
        Compile(Some(n.right));
      } else {
        Compile(Some(n.expr));
        Compile(None);
      }
      EmitOpcode(op);
    }

    /** `compile_ND_IF`. */
    method CompileIf(n: Node)
      requires n.If? && Valid() && ip + Size(n) <= MAX_CODE_SIZE && Compilable(n)
      modifies this, code
      ensures Valid() && Abs() == EmitIf(n, old(Abs()))
      decreases Weight(n), 0
    {
      Compile(Some(n.test));
      var backpatch0 := ip;
      EmitOpcode(JumpIfZero);
      Compile(Some(n.trueBranch));
      var backpatch1 := ip;
      EmitOpcode(Jump);
      PatchJump(backpatch0, ip);
      Compile(n.falseBranch);
      PatchJump(backpatch1, ip);
    }

    /** `compile_ND_WHILE`. */
    method CompileWhile(n: Node)
      requires n.While? && Valid() && ip + Size(n) <= MAX_CODE_SIZE && Compilable(n)
      modifies this, code
      ensures Valid() && Abs() == EmitWhile(n, old(Abs()))
      decreases Weight(n), 0
    {
      var topOfLoop := ip;
      Compile(Some(n.test));
      var backpatch := ip;
      EmitOpcode(JumpIfZero);
      Compile(Some(n.body));
      code[ip] := Instruction(Jump, topOfLoop);
      ip := ip + 1;
      PatchJump(backpatch, ip);
    }

    /** `compile_ND_PRINT_INT`. */
    method CompilePrintInt(n: Node)
      requires n.PrintInt? && Valid() && ip + Size(n) <= MAX_CODE_SIZE && Compilable(n)
      modifies this, code
      ensures Valid() && Abs() == SetOpcode(Emit(n.expr, old(Abs())), Opcode.PrintInt)
      decreases Weight(n), 0
    {
      Compile(Some(n.expr));
      EmitOpcode(Opcode.PrintInt);
    }

    /** `compile_ND_NEGATE`. */
    method CompileNegate(n: Node)
      requires n.Negate? && Valid() && ip + Size(n) <= MAX_CODE_SIZE && Compilable(n)
      modifies this, code
      ensures Valid() && Abs() == SetOpcode(Emit(n.expr, old(Abs())), Opcode.Negate)
      decreases Weight(n), 0
    {
      Compile(Some(n.expr));
      EmitOpcode(Opcode.Negate);
    }

    /** `compile`: dispatch on the node type; a null tree and the node
        types without a case emit nothing. */
    method Compile(t: Option<Node>)
      requires Valid() && ip + SizeOpt(t) <= MAX_CODE_SIZE && CompilableOpt(t)
      modifies this, code
      ensures Valid() && Abs() == EmitOpt(t, old(Abs()))
      decreases WeightOpt(t), 1
    {
      if t.Some? {
        var n := t.value;
        match n
        case ModuleDecl(_, _, _) =>
        case TaskDecl(_, _) =>
        case StatementSeq(_) =>
        case Assign(c, _) => OpPopInt(c);
        case If(_, _, _) => CompileIf(n);
        case While(_, _) => CompileWhile(n);
        case PrintInt(_) => CompilePrintInt(n);
        case PrintChar(c) => OpPrintChar(c);
        case Spawn(_) => CompileSpawn(n);
        case Stop => GenEndTask();
        case Binary(k, _, _) =>
          if k != NdRemainder {
            CompileBinaryOp(BinaryOpcode(k), n);
          }
        case Negate(_) => CompileNegate(n);
        case Not(_) => CompileBinaryOp(Opcode.Not, n);
        case Variable(c) => GenPushVar(c);
        case Number(v) => OpPushConstInt(v);
      }
    }

    /** `compile_ND_STATEMENT_SEQUENCE`: each statement in order. */
    method CompileStatementSequence(n: Node)
      requires n.StatementSeq? && Valid() && CompilableSeq(n.statements)
      requires ip + SizeSeq(n.statements) <= MAX_CODE_SIZE
      modifies this, code
      ensures Valid() && Abs() == EmitSeq(n.statements, old(Abs()))
    {
      var ss := n.statements;
      var i := 0;
      while i < |ss|
        invariant 0 <= i <= |ss| && Valid() && ip + SizeSeq(ss[i..]) <= MAX_CODE_SIZE
        invariant EmitSeq(ss[i..], Abs()) == EmitSeq(ss, old(Abs()))
      {
        assert ss[i..][1..] == ss[i + 1..];
        Compile(ss[i]);
        i := i + 1;
      }
    }
  }
}
