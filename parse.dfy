/** The recursive-descent parser: the lexer's units in, a parse tree out.

    The parser reads the units one at a time through the lexer's global
    current unit and never moves past an end-of-file or error unit, so it
    sees exactly the list `Lexer.Units` computes; here it reads that list
    through a position. A mismatch that makes the parser print a message
    and end the process is `Fail`. */
module Parser {
  import opened Common
  import opened Lexer
  import opened Ast

  /** A parse that ends the process, or a value and the position of the
      first unit it did not consume. */
  datatype Parsed<T> = Ok(value: T, pos: nat) | Fail

  /** The type of the current unit; past the last unit, end of file. */
  function Kind(toks: seq<LexUnit>, pos: nat): LexType
  {
    if pos < |toks| then toks[pos].kind else Eof
  }

  /** `toupper` in the C locale. */
  function ToUpper(c: char): char
  {
    if 'a' <= c <= 'z' then (c as int - 32) as char else c
  }

  /** A variable is named by the upper-cased first char of its identifier
      (the string terminator when the identifier was cut to nothing). */
  function VarName(name: string): (v: char)
    ensures |name| > 0 && ('a' <= name[0] <= 'z' || 'A' <= name[0] <= 'Z') ==> 'A' <= v <= 'Z'
    ensures |name| > 0 && 'A' <= name[0] <= 'Z' ==> v == name[0]
    ensures |name| > 0 && !('a' <= name[0] <= 'z') ==> v == name[0]
  {
    if |name| == 0 then 0 as char else ToUpper(name[0])
  }

  // ---- the token tests of the expression grammar ---------------------------------

  /** The multiplicative operators. */
  function MulOp(t: LexType): Option<BinaryKind>
  {
    if t == TimesSym then Some(NdMultiply)
    else if t == DivideSym then Some(NdDivide)
    else if t == RemainderSym then Some(NdRemainder)
    else None
  }

  /** The addition operators. */
  function AddOp(t: LexType): Option<BinaryKind>
  {
    if t == PlusSym then Some(NdAdd)
    else if t == MinusSym then Some(NdSubtract)
    else None
  }

  /** `parse_is_comparison_operator` and the node type each relational
      operator gives. */
  function RelOp(t: LexType): Option<BinaryKind>
  {
    if t == EqSym then Some(NdEq)
    else if t == NeSym then Some(NdNe)
    else if t == GeSym then Some(NdGe)
    else if t == GtSym then Some(NdGt)
    else if t == LtSym then Some(NdLt)
    else if t == LeSym then Some(NdLe)
    else None
  }

  // ---- parse_expect and parse_optional -------------------------------------------

  /** `parse_expect`: the position after the check (one further when
      `skip` is set), or `None` when the process ends on a mismatch. */
  function Expect(toks: seq<LexUnit>, pos: nat, t: LexType, skip: bool): (r: Option<nat>)
    ensures r.Some? <==> Kind(toks, pos) == t
    ensures r.Some? ==> r.value == if skip then pos + 1 else pos
  {
    if Kind(toks, pos) != t then None else if skip then Some(pos + 1) else Some(pos)
  }

  /** `parse_optional`: skip the unit when it has the given type. */
  function Optional(toks: seq<LexUnit>, pos: nat, t: LexType): (p: nat)
    ensures p == pos || (p == pos + 1 && Kind(toks, pos) == t)
    ensures Kind(toks, pos) == t ==> p == pos + 1
  {
    if Kind(toks, pos) == t then pos + 1 else pos
  }

  // ---- expressions -------------------------------------------------------------
  // The second component of each `decreases` orders the functions that call
  // one another at the same position.

  /** `parse_factor`: a variable, a number, or a parenthesised
      or-expression; anything else ends the process. */
  function Factor(toks: seq<LexUnit>, pos: nat): (r: Parsed<Node>)
    requires pos <= |toks|
    ensures r.Ok? ==> pos < r.pos <= |toks|
    decreases |toks| - pos, 0
  {
    var k := Kind(toks, pos);
    if k == Identifier then Ok(Variable(VarName(toks[pos].name)), pos + 1)
    else if k == Lexer.Number then Ok(Ast.Number(toks[pos].number), pos + 1)
    else if k == LParenSym then
      match Or(toks, pos + 1)
      case Fail => Fail
      case Ok(e, p) => if Kind(toks, p) == RParenSym then Ok(e, p + 1) else Fail
    else Fail
  }

  /** The loop of `parse_term`: each multiplicative operator takes the tree
      so far as its left operand. */
  function TermRest(toks: seq<LexUnit>, pos: nat, left: Node): (r: Parsed<Node>)
    requires pos <= |toks|
    ensures r.Ok? ==> pos <= r.pos <= |toks|
    decreases |toks| - pos, 1
  {
    match MulOp(Kind(toks, pos))
    case None => Ok(left, pos)
    case Some(op) =>
      match Factor(toks, pos + 1)
      case Fail => Fail
      case Ok(right, p) => TermRest(toks, p, Binary(op, left, right))
  }

  /** `parse_term`. */
  function Term(toks: seq<LexUnit>, pos: nat): (r: Parsed<Node>)
    requires pos <= |toks|
    ensures r.Ok? ==> pos < r.pos <= |toks|
    decreases |toks| - pos, 2
  {
    match Factor(toks, pos)
    case Fail => Fail
    case Ok(f, p) => TermRest(toks, p, f)
  }

  /** The run of leading `+` and `-` of `parse_expression`: its length, and
      whether it leaves the sign of the first term negative. */
  function Signs(toks: seq<LexUnit>, pos: nat): (r: (nat, bool))
    requires pos <= |toks|
    ensures pos + r.0 <= |toks|
    decreases |toks| - pos
  {
    if Kind(toks, pos) == PlusSym || Kind(toks, pos) == MinusSym then
      var (k, negative) := Signs(toks, pos + 1);
      (k + 1, if Kind(toks, pos) == MinusSym then !negative else negative)
    else
      (0, false)
  }

  /** The second loop of `parse_expression`. */
  function ExpressionRest(toks: seq<LexUnit>, pos: nat, left: Node): (r: Parsed<Node>)
    requires pos <= |toks|
    ensures r.Ok? ==> pos <= r.pos <= |toks|
    decreases |toks| - pos, 3
  {
    match AddOp(Kind(toks, pos))
    case None => Ok(left, pos)
    case Some(op) =>
      match Term(toks, pos + 1)
      case Fail => Fail
      case Ok(right, p) => ExpressionRest(toks, p, Binary(op, left, right))
  }

  /** `parse_expression`: the sign run negates the first term only. */
  function Expression(toks: seq<LexUnit>, pos: nat): (r: Parsed<Node>)
    requires pos <= |toks|
    ensures r.Ok? ==> pos < r.pos <= |toks|
    decreases |toks| - pos, 4
  {
    var (k, negative) := Signs(toks, pos);
    match Term(toks, pos + k)
    case Fail => Fail
    case Ok(t, p) => ExpressionRest(toks, p, if negative then Negate(t) else t)
  }

  /** `parse_comparison_expression`: at most one relational operator. */
  function Comparison(toks: seq<LexUnit>, pos: nat): (r: Parsed<Node>)
    requires pos <= |toks|
    ensures r.Ok? ==> pos < r.pos <= |toks|
    decreases |toks| - pos, 5
  {
    match Expression(toks, pos)
    case Fail => Fail
    case Ok(left, p) => ComparisonRest(toks, p, left)
  }

  /** `parse_comparison_expression` after the left operand: an optional
      relational operator and right operand. */
  function ComparisonRest(toks: seq<LexUnit>, pos: nat, left: Node): (r: Parsed<Node>)
    requires pos <= |toks|
    ensures r.Ok? ==> pos <= r.pos <= |toks|
    decreases |toks| - pos, 5
  {
    match RelOp(Kind(toks, pos))
    case None => Ok(left, pos)
    case Some(op) =>
      match Expression(toks, pos + 1)
      case Fail => Fail
      case Ok(right, q) => Ok(Binary(op, left, right), q)
  }

  /** The run of leading `not` of `parse_and_expression`: its length, and
      whether it is odd. */
  function Nots(toks: seq<LexUnit>, pos: nat): (r: (nat, bool))
    requires pos <= |toks|
    ensures pos + r.0 <= |toks|
    decreases |toks| - pos
  {
    if Kind(toks, pos) == NotKw then
      var (k, odd) := Nots(toks, pos + 1);
      (k + 1, !odd)
    else
      (0, false)
  }

  /** The second loop of `parse_and_expression`. */
  function AndRest(toks: seq<LexUnit>, pos: nat, left: Node): (r: Parsed<Node>)
    requires pos <= |toks|
    ensures r.Ok? ==> pos <= r.pos <= |toks|
    decreases |toks| - pos, 6
  {
    if Kind(toks, pos) != AndKw then Ok(left, pos)
    else
      match Comparison(toks, pos + 1)
      case Fail => Fail
      case Ok(right, p) => AndRest(toks, p, Binary(NdAnd, left, right))
  }

  /** `parse_and_expression`: the `not` run applies to the first
      comparison only. */
  function And(toks: seq<LexUnit>, pos: nat): (r: Parsed<Node>)
    requires pos <= |toks|
    ensures r.Ok? ==> pos < r.pos <= |toks|
    decreases |toks| - pos, 7
  {
    var (k, odd) := Nots(toks, pos);
    match Comparison(toks, pos + k)
    case Fail => Fail
    case Ok(c, p) => AndRest(toks, p, if odd then Not(c) else c)
  }

  /** The loop of `parse_or_expression`. */
  function OrRest(toks: seq<LexUnit>, pos: nat, left: Node): (r: Parsed<Node>)
    requires pos <= |toks|
    ensures r.Ok? ==> pos <= r.pos <= |toks|
    decreases |toks| - pos, 8
  {
    if Kind(toks, pos) != OrKw then Ok(left, pos)
    else
      match And(toks, pos + 1)
      case Fail => Fail
      case Ok(right, p) => OrRest(toks, p, Binary(NdOr, left, right))
  }

  /** `parse_or_expression`. */
  function Or(toks: seq<LexUnit>, pos: nat): (r: Parsed<Node>)
    requires pos <= |toks|
    ensures r.Ok? ==> pos < r.pos <= |toks|
    decreases |toks| - pos, 9
  {
    match And(toks, pos)
    case Fail => Fail
    case Ok(a, p) => OrRest(toks, p, a)
  }

  // ---- statements ----------------------------------------------------------------

  /** `parse_assignment`: the variable, `:=`, an or-expression. */
  function Assignment(toks: seq<LexUnit>, pos: nat): (r: Parsed<Node>)
    requires pos < |toks|
    ensures r.Ok? ==> pos + 2 < r.pos <= |toks|
    decreases |toks| - pos, 10
  {
    if Kind(toks, pos + 1) != AssignSym then Fail
    else
      match Or(toks, pos + 2)
      case Fail => Fail
      case Ok(e, p) => Ok(Assign(VarName(toks[pos].name), e), p)
  }

  /** `parse_if`: `if`, the test, `then`, a statement sequence, an optional
      `else` and statement sequence, `end`. */
  function IfStatement(toks: seq<LexUnit>, pos: nat): (r: Parsed<Node>)
    requires pos < |toks|
    ensures r.Ok? ==> pos < r.pos <= |toks|
    decreases |toks| - pos, 10
  {
    match Or(toks, pos + 1)
    case Fail => Fail
    case Ok(test, p) => IfThen(toks, p, test)
  }

  /** `parse_if` after the test: `then` and the true branch. */
  function IfThen(toks: seq<LexUnit>, pos: nat, test: Node): (r: Parsed<Node>)
    requires pos <= |toks|
    ensures r.Ok? ==> pos < r.pos <= |toks|
    decreases |toks| - pos, 10
  {
    if Kind(toks, pos) != ThenKw then Fail
    else
      match StatementSequence(toks, pos + 1)
      case Fail => Fail
      case Ok(yes, q) => IfRest(toks, q, test, yes)
  }

  /** The end of `parse_if`, after the true branch: the false branch is
      null exactly when no `else` follows the true branch. */
  function IfRest(toks: seq<LexUnit>, pos: nat, test: Node, yes: Node): (r: Parsed<Node>)
    requires pos <= |toks|
    ensures r.Ok? ==> pos < r.pos <= |toks|
    decreases |toks| - pos, 10
  {
    if Kind(toks, pos) == ElseKw then
      match StatementSequence(toks, pos + 1)
      case Fail => Fail
      case Ok(no, s) => if Kind(toks, s) != EndKw then Fail else Ok(If(test, yes, Some(no)), s + 1)
    else if Kind(toks, pos) != EndKw then Fail
    else Ok(If(test, yes, None), pos + 1)
  }

  /** `parse_while`. */
  function WhileStatement(toks: seq<LexUnit>, pos: nat): (r: Parsed<Node>)
    requires pos < |toks|
    ensures r.Ok? ==> pos < r.pos <= |toks|
    decreases |toks| - pos, 10
  {
    match Or(toks, pos + 1)
    case Fail => Fail
    case Ok(test, p) => WhileBody(toks, p, test)
  }

  /** `parse_while` after the test: `do`, the body, `end`. */
  function WhileBody(toks: seq<LexUnit>, pos: nat, test: Node): (r: Parsed<Node>)
    requires pos <= |toks|
    ensures r.Ok? ==> pos < r.pos <= |toks|
    decreases |toks| - pos, 10
  {
    if Kind(toks, pos) != DoKw then Fail
    else
      match StatementSequence(toks, pos + 1)
      case Fail => Fail
      case Ok(body, q) => if Kind(toks, q) != EndKw then Fail else Ok(While(test, body), q + 1)
  }

  /** The do-while loop of `parse_spawn`: a name and `;`, repeated until
      `end`. */
  function SpawnNames(toks: seq<LexUnit>, pos: nat): (r: Parsed<seq<string>>)
    requires pos <= |toks|
    ensures r.Ok? ==> pos < r.pos < |toks|
    decreases |toks| - pos
  {
    if Kind(toks, pos) != Identifier || Kind(toks, pos + 1) != SemicolonSym then Fail
    else if Kind(toks, pos + 2) == EndKw then Ok([toks[pos].name], pos + 2)
    else
      match SpawnNames(toks, pos + 2)
      case Fail => Fail
      case Ok(names, p) => Ok([toks[pos].name] + names, p)
  }

  /** `parse_spawn`. */
  function SpawnStatement(toks: seq<LexUnit>, pos: nat): (r: Parsed<Node>)
    requires pos < |toks|
    ensures r.Ok? ==> pos < r.pos <= |toks|
  {
    match SpawnNames(toks, pos + 1)
    case Fail => Fail
    case Ok(names, p) => Ok(Spawn(names), p + 1)
  }

  /** `parse_print_char`: the character constant unit is read through the
      name field it shares storage with. */
  function PrintCharStatement(toks: seq<LexUnit>, pos: nat): (r: Parsed<Node>)
    requires pos < |toks|
    ensures r.Ok? <==> Kind(toks, pos + 1) == CharLit
    ensures r.Ok? ==> r.pos == pos + 2 <= |toks|
  {
    if Kind(toks, pos + 1) != CharLit then Fail
    else
      var name := toks[pos + 1].name;
      Ok(PrintChar(if |name| == 0 then 0 as char else name[0]), pos + 2)
  }

  /** `parse_statement`: a unit that starts no statement gives a null
      statement and is not consumed. */
  function Statement(toks: seq<LexUnit>, pos: nat): (r: Parsed<Option<Node>>)
    requires pos <= |toks|
    ensures r.Ok? ==> pos <= r.pos <= |toks|
    decreases |toks| - pos, 11
  {
    var k := Kind(toks, pos);
    if k == Identifier then AsStatement(Assignment(toks, pos))
    else if k == IfKw then AsStatement(IfStatement(toks, pos))
    else if k == WhileKw then AsStatement(WhileStatement(toks, pos))
    else if k == SpawnKw then AsStatement(SpawnStatement(toks, pos))
    else if k == StopKw then Ok(Some(Stop), pos + 1)
    else if k == PrintIntKw then
      match Or(toks, pos + 1)
      case Fail => Fail
      case Ok(e, p) => Ok(Some(PrintInt(e)), p)
    else if k == PrintCharKw then AsStatement(PrintCharStatement(toks, pos))
    else Ok(None, pos)
  }

  /** A parsed statement, as a non-null statement entry. */
  function AsStatement(r: Parsed<Node>): (s: Parsed<Option<Node>>)
    ensures s.Ok? <==> r.Ok?
    ensures s.Ok? ==> s.value == Some(r.value) && s.pos == r.pos
  {
    match r
    case Fail => Fail
    case Ok(n, p) => Ok(Some(n), p)
  }

  /** The loop of `parse_statement_sequence`: statements, each followed by
      `;`, up to `else` or `end`. */
  function Statements(toks: seq<LexUnit>, pos: nat): (r: Parsed<seq<Option<Node>>>)
    requires pos <= |toks|
    ensures r.Ok? ==> pos <= r.pos <= |toks|
    decreases |toks| - pos, 12
  {
    if Kind(toks, pos) == ElseKw || Kind(toks, pos) == EndKw then Ok([], pos)
    else
      match Statement(toks, pos)
      case Fail => Fail
      case Ok(s, p) =>
        if Kind(toks, p) != SemicolonSym then Fail
        else
          match Statements(toks, p + 1)
          case Fail => Fail
          case Ok(rest, q) => Ok([s] + rest, q)
  }

  /** `parse_statement_sequence`. */
  function StatementSequence(toks: seq<LexUnit>, pos: nat): (r: Parsed<Node>)
    requires pos <= |toks|
    ensures r.Ok? ==> pos <= r.pos <= |toks|
    decreases |toks| - pos, 13
  {
    match Statements(toks, pos)
    case Fail => Fail
    case Ok(ss, p) => Ok(StatementSeq(ss), p)
  }

  // ---- declarations ------------------------------------------------------------

  /** `parse_task_declaration`: `task`, an optional `;`, the task name, the
      body, `end`. The `;` is looked for before the name, where the code
      checks for it. */
  function TaskDeclaration(toks: seq<LexUnit>, pos: nat): (r: Parsed<Node>)
    requires pos <= |toks|
    ensures r.Ok? ==> pos < r.pos <= |toks|
  {
    match Expect(toks, pos, TaskKw, true)
    case None => Fail
    case Some(p0) =>
      var p := Optional(toks, p0, SemicolonSym);
      if Kind(toks, p) != Identifier then Fail
      else TaskBody(toks, p + 1, toks[p].name)
  }

  /** `parse_task_declaration` after the name: the body and `end`. */
  function TaskBody(toks: seq<LexUnit>, pos: nat, name: string): (r: Parsed<Node>)
    requires pos <= |toks|
    ensures r.Ok? ==> pos < r.pos <= |toks|
  {
    match StatementSequence(toks, pos)
    case Fail => Fail
    case Ok(body, q) => if Kind(toks, q) != EndKw then Fail else Ok(TaskDecl(name, body), q + 1)
  }

  /** The loop of `parse_module_declaration`: task declarations, each with
      an optional `;` after it, up to `end`. */
  function TaskDeclarations(toks: seq<LexUnit>, pos: nat): (r: Parsed<seq<Node>>)
    requires pos <= |toks|
    ensures r.Ok? ==> pos <= r.pos < |toks|
    decreases |toks| - pos
  {
    if Kind(toks, pos) == EndKw then Ok([], pos)
    else
      match TaskDeclaration(toks, pos)
      case Fail => Fail
      case Ok(t, p) =>
        match TaskDeclarations(toks, Optional(toks, p, SemicolonSym))
        case Fail => Fail
        case Ok(ts, q) => Ok([t] + ts, q)
  }

  /** `parse_module_declaration`: `module`, the name, an optional `;`,
      `init`, the init statements, `end`, an optional `;`, the task
      declarations, `end`, an optional `;`. */
  function ModuleDeclaration(toks: seq<LexUnit>, pos: nat): (r: Parsed<Node>)
    requires pos <= |toks|
    ensures r.Ok? ==> pos < r.pos <= |toks|
  {
    if Kind(toks, pos) != ModuleKw || Kind(toks, pos + 1) != Identifier then Fail
    else ModuleInit(toks, Optional(toks, pos + 2, SemicolonSym), toks[pos + 1].name)
  }

  /** `parse_module_declaration` after the name and its optional `;`:
      `init`, the init statements, `end` and an optional `;`. */
  function ModuleInit(toks: seq<LexUnit>, pos: nat, name: string): (r: Parsed<Node>)
    requires pos <= |toks|
    ensures r.Ok? ==> pos < r.pos <= |toks|
  {
    if Kind(toks, pos) != InitKw then Fail
    else
      match StatementSequence(toks, pos + 1)
      case Fail => Fail
      case Ok(init, q) => ModuleEnd(toks, q, name, init)
  }

  /** `parse_module_declaration` after the initialisation sequence: `end`,
      an optional `;`, then the tasks. */
  function ModuleEnd(toks: seq<LexUnit>, pos: nat, name: string, init: Node): (r: Parsed<Node>)
    requires pos <= |toks|
    ensures r.Ok? ==> pos < r.pos <= |toks|
  {
    if Kind(toks, pos) != EndKw then Fail
    else ModuleTasks(toks, Optional(toks, pos + 1, SemicolonSym), name, init)
  }

  /** The end of `parse_module_declaration`: the task declarations, `end`
      and an optional `;`. */
  function ModuleTasks(toks: seq<LexUnit>, pos: nat, name: string, init: Node): (r: Parsed<Node>)
    requires pos <= |toks|
    ensures r.Ok? ==> pos < r.pos <= |toks|
  {
    match TaskDeclarations(toks, pos)
    case Fail => Fail
    case Ok(tasks, s) => Ok(ModuleDecl(name, init, tasks), Optional(toks, s + 1, SemicolonSym))
  }

  /** `parse`: a module declaration that the end of the input follows. */
  function Parse(toks: seq<LexUnit>): (r: Option<Node>)
    ensures r.Some? <==> ModuleDeclaration(toks, 0).Ok? && Kind(toks, ModuleDeclaration(toks, 0).pos) == Eof
    ensures r.Some? ==> r.value == ModuleDeclaration(toks, 0).value
  {
    match ModuleDeclaration(toks, 0)
    case Fail => None
    case Ok(m, p) => if Kind(toks, p) != Eof then None else Some(m)
  }

  /** A source text read by the lexer and parsed. */
  function ParseText(text: string, maxStr: nat): Option<Node>
  {
    Parse(Units(text, Start, maxStr))
  }

  /** A list parsed so far, in front of the rest of the list. */
  function Prepend<T>(done: seq<T>, rest: Parsed<seq<T>>): (r: Parsed<seq<T>>)
    ensures done == [] ==> r == rest
  {
    match rest
    case Fail => Fail
    case Ok(more, p) =>
      assert done == [] ==> done + more == more;
      Ok(done + more, p)
  }

  /** One round of the statement loop moves one statement from the rest
      of the list to the part parsed so far. */
  lemma StatementsStep(toks: seq<LexUnit>, p: nat, done: seq<Option<Node>>, s: Option<Node>, q: nat)
    requires p <= |toks| && Kind(toks, p) != ElseKw && Kind(toks, p) != EndKw
    requires Statement(toks, p) == Ok(s, q) && Kind(toks, q) == SemicolonSym
    ensures Prepend(done, Statements(toks, p)) == Prepend(done + [s], Statements(toks, q + 1))
  {
    assert Statements(toks, p) == Prepend([s], Statements(toks, q + 1));
    match Statements(toks, q + 1)
    case Fail =>
    case Ok(rest, _) =>
      assert done + ([s] + rest) == done + [s] + rest;
  }

  /** The same for the names of a spawn statement. */
  lemma SpawnNamesStep(toks: seq<LexUnit>, p: nat, done: seq<string>)
    requires p + 2 <= |toks| && Kind(toks, p) == Identifier && Kind(toks, p + 1) == SemicolonSym
    requires Kind(toks, p + 2) != EndKw
    ensures Prepend(done, SpawnNames(toks, p)) == Prepend(done + [toks[p].name], SpawnNames(toks, p + 2))
  {
    match SpawnNames(toks, p + 2)
    case Fail =>
    case Ok(rest, _) =>
      assert done + ([toks[p].name] + rest) == done + [toks[p].name] + rest;
  }

  /** The same for the task declarations of a module. */
  lemma TaskDeclarationsStep(toks: seq<LexUnit>, p: nat, done: seq<Node>, t: Node, q: nat)
    requires p <= |toks| && Kind(toks, p) != EndKw && TaskDeclaration(toks, p) == Ok(t, q)
    ensures Prepend(done, TaskDeclarations(toks, p))
            == Prepend(done + [t], TaskDeclarations(toks, Optional(toks, q, SemicolonSym)))
  {
    match TaskDeclarations(toks, Optional(toks, q, SemicolonSym))
    case Fail =>
    case Ok(rest, _) =>
      assert done + ([t] + rest) == done + [t] + rest;
  }

  /** `Expression` once the run of signs before its first term is known. */
  lemma ExpressionUnfold(toks: seq<LexUnit>, p: nat, k: nat, negative: bool)
    requires p <= |toks| && Signs(toks, p) == (k, negative)
    ensures Expression(toks, p)
            == match Term(toks, p + k)
               case Fail => Fail
               case Ok(t, q) => ExpressionRest(toks, q, if negative then Negate(t) else t)
  {
  }

  /** `And` once the run of `not`s before its first comparison is known. */
  lemma AndUnfold(toks: seq<LexUnit>, p: nat, k: nat, odd: bool)
    requires p <= |toks| && Nots(toks, p) == (k, odd)
    ensures And(toks, p)
            == match Comparison(toks, p + k)
               case Fail => Fail
               case Ok(c, q) => AndRest(toks, q, if odd then Not(c) else c)
  {
  }

  /** One round of the sign loop of `parse_expression`: a `-` flips the
      sign, a `+` keeps it. */
  lemma SignsStep(toks: seq<LexUnit>, p: nat)
    requires p < |toks| && (Kind(toks, p) == PlusSym || Kind(toks, p) == MinusSym)
    ensures Signs(toks, p).0 == Signs(toks, p + 1).0 + 1
    ensures Signs(toks, p).1 == (Signs(toks, p + 1).1 != (Kind(toks, p) == MinusSym))
  {
  }

  /** One round of the loop of `parse_term`: the operator and the factor
      after it become the new left operand. */
  lemma TermRestStep(toks: seq<LexUnit>, p: nat, left: Node, right: Node, q: nat)
    requires p < |toks| && MulOp(Kind(toks, p)).Some? && Factor(toks, p + 1) == Ok(right, q)
    ensures TermRest(toks, p, left) == TermRest(toks, q, Binary(MulOp(Kind(toks, p)).value, left, right))
  {
  }

  /** One round of the second loop of `parse_expression`. */
  lemma ExpressionRestStep(toks: seq<LexUnit>, p: nat, left: Node, right: Node, q: nat)
    requires p < |toks| && AddOp(Kind(toks, p)).Some? && Term(toks, p + 1) == Ok(right, q)
    ensures ExpressionRest(toks, p, left) == ExpressionRest(toks, q, Binary(AddOp(Kind(toks, p)).value, left, right))
  {
  }

  /** One round of the second loop of `parse_and_expression`. */
  lemma AndRestStep(toks: seq<LexUnit>, p: nat, left: Node, right: Node, q: nat)
    requires p < |toks| && Kind(toks, p) == AndKw && Comparison(toks, p + 1) == Ok(right, q)
    ensures AndRest(toks, p, left) == AndRest(toks, q, Binary(NdAnd, left, right))
  {
  }

  /** One round of the loop of `parse_or_expression`. */
  lemma OrRestStep(toks: seq<LexUnit>, p: nat, left: Node, right: Node, q: nat)
    requires p < |toks| && Kind(toks, p) == OrKw && And(toks, p + 1) == Ok(right, q)
    ensures OrRest(toks, p, left) == OrRest(toks, q, Binary(NdOr, left, right))
  {
  }

  // ---- the parser as the code runs it ------------------------------------------

  /** The units and the position of the current one, which the lexer keeps
      in `g_current_lex_unit`. Each parse method reports whether it ended
      the process, and otherwise returns its tree and leaves the position
      after what it consumed. */
  class Parser {
    const toks: seq<LexUnit>
    var pos: nat

    /** The first unit is current, as after the first `lex_scan` of
        `parse`. */
    constructor(toks: seq<LexUnit>)
      ensures this.toks == toks && pos == 0
    {
      this.toks := toks;
      pos := 0;
    }

    /** `parse_expect`. */
    method ParseExpect(t: LexType, skip: bool) returns (ok: bool)
      requires pos <= |toks| && (skip ==> t != Eof)
      modifies this`pos
      ensures pos <= |toks|
      ensures Expect(toks, old(pos), t, skip) == (if ok then Some(pos) else None)
    {
      ok := Kind(toks, pos) == t;
      if ok && skip {
        pos := pos + 1;
      }
    }

    /** `parse_optional`. */
    method ParseOptional(t: LexType)
      requires pos <= |toks| && t != Eof
      modifies this`pos
      ensures pos == Optional(toks, old(pos), t) <= |toks|
    {
      if Kind(toks, pos) == t {
        pos := pos + 1;
      }
    }

    /** `parse_number`. */
    method ParseNumber() returns (n: Node)
      requires Kind(toks, pos) == Lexer.Number
      modifies this`pos
      ensures Factor(toks, old(pos)) == Ok(n, pos)
    {
      n := Ast.Number(toks[pos].number);
      pos := pos + 1;
    }

    /** `parse_variable_name`. */
    method ParseVariableName() returns (n: Node)
      requires Kind(toks, pos) == Identifier
      modifies this`pos
      ensures Factor(toks, old(pos)) == Ok(n, pos)
    {
      n := Variable(VarName(toks[pos].name));
      pos := pos + 1;
    }

    /** `parse_factor`. */
    method ParseFactor() returns (ok: bool, n: Node)
      requires pos <= |toks|
      modifies this`pos
      ensures pos <= |toks|
      ensures Factor(toks, old(pos)) == (if ok then Ok(n, pos) else Fail)
      decreases |toks| - pos, 0
    {
      n := Stop;
      var k := Kind(toks, pos);
      if k == Identifier {
        n := ParseVariableName();
        ok := true;
      } else if k == Lexer.Number {
        n := ParseNumber();
        ok := true;
      } else if k == LParenSym {
        pos := pos + 1;
        ok, n := ParseOr();
        if ok {
          ok := Kind(toks, pos) == RParenSym;
          if ok {
            pos := pos + 1;
          }
        }
      } else {
        ok := false;
      }
    }

    /** `parse_term`. */
    method ParseTerm() returns (ok: bool, n: Node)
      requires pos <= |toks|
      modifies this`pos
      ensures pos <= |toks|
      ensures Term(toks, old(pos)) == (if ok then Ok(n, pos) else Fail)
      decreases |toks| - pos, 2
    {
      ok, n := ParseFactor();
      if ok {
        ok, n := ParseTermRest(n);
      }
    }

    /** The loop of `parse_term`. */
    method ParseTermRest(left: Node) returns (ok: bool, n: Node)
      requires pos <= |toks|
      modifies this`pos
      ensures pos <= |toks|
      ensures TermRest(toks, old(pos), left) == (if ok then Ok(n, pos) else Fail)
      decreases |toks| - pos, 1
    {
      ghost var p0 := pos;
      n := left;
      while MulOp(Kind(toks, pos)).Some?
        invariant p0 <= pos <= |toks|
        invariant TermRest(toks, p0, left) == TermRest(toks, pos, n)
        decreases |toks| - pos
      {
        var op := MulOp(Kind(toks, pos)).value;
        pos := pos + 1;
        ghost var p1, n1 := pos - 1, n;
        var right;
        ok, right := ParseFactor();
        if !ok {
          return;
        }
        n := Binary(op, n, right);
        TermRestStep(toks, p1, n1, right, pos);
      }
      ok := true;
    }

    /** The first loop of `parse_expression`: skip the signs, multiplying
        the sign of the first term by -1 for each `-`. */
    method ParseSigns() returns (sign: int)
      requires pos <= |toks|
      modifies this`pos
      ensures old(pos) <= pos <= |toks| && (sign == 1 || sign == -1)
      ensures Signs(toks, old(pos)) == (pos - old(pos), sign < 0)
    {
      ghost var p0 := pos;
      sign := 1;
      while Kind(toks, pos) == MinusSym || Kind(toks, pos) == PlusSym
        invariant p0 <= pos <= |toks|
        invariant sign == 1 || sign == -1
        invariant Signs(toks, p0).0 == pos - p0 + Signs(toks, pos).0
        invariant Signs(toks, p0).1 == ((sign < 0) != Signs(toks, pos).1)
        decreases |toks| - pos
      {
        SignsStep(toks, pos);
        sign := if Kind(toks, pos) == MinusSym then sign * -1 else sign * 1;
        pos := pos + 1;
      }
    }

    /** `parse_expression`. */
    method ParseExpression() returns (ok: bool, n: Node)
      requires pos <= |toks|
      modifies this`pos
      ensures pos <= |toks|
      ensures Expression(toks, old(pos)) == (if ok then Ok(n, pos) else Fail)
      decreases |toks| - pos, 4
    {
      var sign := ParseSigns();
      ok, n := ParseTerm();
      if ok {
        if sign < 0 {
          n := Negate(n);
        }
        ok, n := ParseExpressionRest(n);
      }
    }

    /** The second loop of `parse_expression`. */
    method ParseExpressionRest(left: Node) returns (ok: bool, n: Node)
      requires pos <= |toks|
      modifies this`pos
      ensures pos <= |toks|
      ensures ExpressionRest(toks, old(pos), left) == (if ok then Ok(n, pos) else Fail)
      decreases |toks| - pos, 3
    {
      ghost var p0 := pos;
      n := left;
      while AddOp(Kind(toks, pos)).Some?
        invariant p0 <= pos <= |toks|
        invariant ExpressionRest(toks, p0, left) == ExpressionRest(toks, pos, n)
        decreases |toks| - pos
      {
        var op := AddOp(Kind(toks, pos)).value;
        pos := pos + 1;
        ghost var p1, n1 := pos - 1, n;
        var right;
        ok, right := ParseTerm();
        if !ok {
          return;
        }
        n := Binary(op, n, right);
        ExpressionRestStep(toks, p1, n1, right, pos);
      }
      ok := true;
    }

    /** `parse_comparison_expression`. */
    method ParseComparison() returns (ok: bool, n: Node)
      requires pos <= |toks|
      modifies this`pos
      ensures pos <= |toks|
      ensures Comparison(toks, old(pos)) == (if ok then Ok(n, pos) else Fail)
      decreases |toks| - pos, 5
    {
      ok, n := ParseExpression();
      if ok {
        ok, n := ParseComparisonRest(n);
      }
    }

    /** `parse_comparison_expression` after the left operand. */
    method ParseComparisonRest(left: Node) returns (ok: bool, n: Node)
      requires pos <= |toks|
      modifies this`pos
      ensures pos <= |toks|
      ensures ComparisonRest(toks, old(pos), left) == (if ok then Ok(n, pos) else Fail)
      decreases |toks| - pos, 5
    {
      ok, n := true, left;
      if RelOp(Kind(toks, pos)).Some? {
        var op := RelOp(Kind(toks, pos)).value;
        pos := pos + 1;
        var right;
        ok, right := ParseExpression();
        n := Binary(op, n, right);
      }
    }

    /** The first loop of `parse_and_expression`: skip the `not`s, flipping
        the flag for each. */
    method ParseNots() returns (hasLeadingNot: bool)
      requires pos <= |toks|
      modifies this`pos
      ensures old(pos) <= pos <= |toks|
      ensures Nots(toks, old(pos)) == (pos - old(pos), hasLeadingNot)
    {
      hasLeadingNot := false;
      while Kind(toks, pos) == NotKw
        invariant old(pos) <= pos <= |toks|
        invariant var (k, odd) := Nots(toks, pos);
                  Nots(toks, old(pos)) == (pos - old(pos) + k, if hasLeadingNot then !odd else odd)
        decreases |toks| - pos
      {
        hasLeadingNot := !hasLeadingNot;
        pos := pos + 1;
      }
    }

    /** `parse_and_expression`. */
    method ParseAnd() returns (ok: bool, n: Node)
      requires pos <= |toks|
      modifies this`pos
      ensures pos <= |toks|
      ensures And(toks, old(pos)) == (if ok then Ok(n, pos) else Fail)
      decreases |toks| - pos, 7
    {
      ghost var p0 := pos;
      var hasLeadingNot := ParseNots();
      AndUnfold(toks, p0, pos - p0, hasLeadingNot);
      ghost var pc := pos;
      ok, n := ParseComparison();
      if ok {
        assert Comparison(toks, pc) == Ok(n, pos);
        if hasLeadingNot {
          n := Not(n);
        }
        assert And(toks, p0) == AndRest(toks, pos, n);
        ok, n := ParseAndRest(n);
      }
    }

    /** The second loop of `parse_and_expression`. */
    method ParseAndRest(left: Node) returns (ok: bool, n: Node)
      requires pos <= |toks|
      modifies this`pos
      ensures pos <= |toks|
      ensures AndRest(toks, old(pos), left) == (if ok then Ok(n, pos) else Fail)
      decreases |toks| - pos, 6
    {
      ghost var p0 := pos;
      n := left;
      while Kind(toks, pos) == AndKw
        invariant p0 <= pos <= |toks|
        invariant AndRest(toks, p0, left) == AndRest(toks, pos, n)
        decreases |toks| - pos
      {
        pos := pos + 1;
        ghost var p1, n1 := pos - 1, n;
        var right;
        ok, right := ParseComparison();
        if !ok {
          return;
        }
        n := Binary(NdAnd, n, right);
        AndRestStep(toks, p1, n1, right, pos);
      }
      ok := true;
    }

    /** `parse_or_expression`. */
    method ParseOr() returns (ok: bool, n: Node)
      requires pos <= |toks|
      modifies this`pos
      ensures pos <= |toks|
      ensures Or(toks, old(pos)) == (if ok then Ok(n, pos) else Fail)
      decreases |toks| - pos, 9
    {
      ok, n := ParseAnd();
      if ok {
        ok, n := ParseOrRest(n);
      }
    }

    /** The loop of `parse_or_expression`. */
    method ParseOrRest(left: Node) returns (ok: bool, n: Node)
      requires pos <= |toks|
      modifies this`pos
      ensures pos <= |toks|
      ensures OrRest(toks, old(pos), left) == (if ok then Ok(n, pos) else Fail)
      decreases |toks| - pos, 8
    {
      ghost var p0 := pos;
      n := left;
      while Kind(toks, pos) == OrKw
        invariant p0 <= pos <= |toks|
        invariant OrRest(toks, p0, left) == OrRest(toks, pos, n)
        decreases |toks| - pos
      {
        pos := pos + 1;
        ghost var p1, n1 := pos - 1, n;
        var right;
        ok, right := ParseAnd();
        if !ok {
          return;
        }
        n := Binary(NdOr, n, right);
        OrRestStep(toks, p1, n1, right, pos);
      }
      ok := true;
    }

    /** `parse_assignment`. */
    method ParseAssignment() returns (ok: bool, n: Node)
      requires pos < |toks|
      modifies this`pos
      ensures pos <= |toks|
      ensures Assignment(toks, old(pos)) == (if ok then Ok(n, pos) else Fail)
      decreases |toks| - pos, 10
    {
      var v := VarName(toks[pos].name);
      pos := pos + 1;
      n := Stop;
      ok := ParseExpect(AssignSym, true);
      if ok {
        var e;
        ok, e := ParseOr();
        n := Assign(v, e);
      }
    }

    /** `parse_statement_sequence`. */
    method ParseStatementSequence() returns (ok: bool, n: Node)
      requires pos <= |toks|
      modifies this`pos
      ensures pos <= |toks|
      ensures StatementSequence(toks, old(pos)) == (if ok then Ok(n, pos) else Fail)
      decreases |toks| - pos, 13
    {
      ghost var p0 := pos;
      var statements: seq<Option<Node>> := [];
      n := Stop;
      while Kind(toks, pos) != ElseKw && Kind(toks, pos) != EndKw
        invariant p0 <= pos <= |toks|
        invariant Statements(toks, p0) == Prepend(statements, Statements(toks, pos))
        decreases |toks| - pos
      {
        var s;
        ok, s := ParseSequenceItem(statements);
        if !ok {
          return;
        }
        statements := statements + [s];
      }
      ok, n := true, StatementSeq(statements);
      assert statements + [] == statements;
    }

    /** One round of the loop of `parse_statement_sequence`: a statement
        and the `;` after it. */
    method ParseSequenceItem(ghost done: seq<Option<Node>>) returns (ok: bool, s: Option<Node>)
      requires pos <= |toks| && Kind(toks, pos) != ElseKw && Kind(toks, pos) != EndKw
      modifies this`pos
      ensures old(pos) < pos <= |toks| || !ok
      ensures pos <= |toks|
      ensures ok ==> Prepend(done, Statements(toks, old(pos))) == Prepend(done + [s], Statements(toks, pos))
      ensures !ok ==> Statements(toks, old(pos)) == Fail
      decreases |toks| - pos, 12
    {
      ghost var p0 := pos;
      ok, s := ParseStatement();
      if !ok {
        return;
      }
      ok := Kind(toks, pos) == SemicolonSym;
      if !ok {
        return;
      }
      StatementsStep(toks, p0, done, s, pos);
      pos := pos + 1;
    }

    /** `parse_if`. */
    method ParseIf() returns (ok: bool, n: Node)
      requires pos < |toks|
      modifies this`pos
      ensures pos <= |toks|
      ensures IfStatement(toks, old(pos)) == (if ok then Ok(n, pos) else Fail)
      decreases |toks| - pos, 10
    {
      n := Stop;
      pos := pos + 1;
      var test;
      ok, test := ParseOr();
      if ok {
        ok, n := ParseIfThen(test);
      }
    }

    /** `parse_if` after the test. */
    method ParseIfThen(test: Node) returns (ok: bool, n: Node)
      requires pos <= |toks|
      modifies this`pos
      ensures pos <= |toks|
      ensures IfThen(toks, old(pos), test) == (if ok then Ok(n, pos) else Fail)
      decreases |toks| - pos, 10
    {
      n := Stop;
      ok := ParseExpect(ThenKw, true);
      if ok {
        var yes;
        ok, yes := ParseStatementSequence();
        if ok {
          ok, n := ParseIfRest(test, yes);
        }
      }
    }

    /** The end of `parse_if`: the optional `else` branch and `end`. */
    method ParseIfRest(test: Node, yes: Node) returns (ok: bool, n: Node)
      requires pos <= |toks|
      modifies this`pos
      ensures pos <= |toks|
      ensures IfRest(toks, old(pos), test, yes) == (if ok then Ok(n, pos) else Fail)
      decreases |toks| - pos, 10
    {
      n := Stop;
      var no: Option<Node> := None;
      ok := true;
      if Kind(toks, pos) == ElseKw {
        pos := pos + 1;
        var f;
        ok, f := ParseStatementSequence();
        no := Some(f);
      }
      if ok {
        ok := ParseExpect(EndKw, true);
        n := If(test, yes, no);
      }
    }

    /** `parse_while`. */
    method ParseWhile() returns (ok: bool, n: Node)
      requires pos < |toks|
      modifies this`pos
      ensures pos <= |toks|
      ensures WhileStatement(toks, old(pos)) == (if ok then Ok(n, pos) else Fail)
      decreases |toks| - pos, 10
    {
      n := Stop;
      pos := pos + 1;
      var test;
      ok, test := ParseOr();
      if ok {
        ok, n := ParseWhileBody(test);
      }
    }

    /** `parse_while` after the test. */
    method ParseWhileBody(test: Node) returns (ok: bool, n: Node)
      requires pos <= |toks|
      modifies this`pos
      ensures pos <= |toks|
      ensures WhileBody(toks, old(pos), test) == (if ok then Ok(n, pos) else Fail)
      decreases |toks| - pos, 10
    {
      n := Stop;
      ok := ParseExpect(DoKw, true);
      if ok {
        var body;
        ok, body := ParseStatementSequence();
        if ok {
          ok := ParseExpect(EndKw, true);
          n := While(test, body);
        }
      }
    }

    /** `parse_spawn`. */
    method ParseSpawn() returns (ok: bool, n: Node)
      requires pos < |toks|
      modifies this`pos
      ensures pos <= |toks|
      ensures SpawnStatement(toks, old(pos)) == (if ok then Ok(n, pos) else Fail)
    {
      n := Stop;
      pos := pos + 1;
      ghost var p0 := pos;
      var names: seq<string> := [];
      var more := true;
      while more
        invariant p0 <= pos <= |toks|
        invariant more ==> SpawnNames(toks, p0) == Prepend(names, SpawnNames(toks, pos))
        invariant !more ==> SpawnNames(toks, p0) == Ok(names, pos)
        decreases |toks| - pos, more
      {
        var name;
        ok, name, more := ParseSpawnName(names);
        if !ok {
          return;
        }
        names := names + [name];
      }
      pos := pos + 1;
      ok, n := true, Spawn(names);
    }

    /** One round of the do-while loop of `parse_spawn`: a name and the
        `;` after it; the loop goes on unless `end` follows. */
    method ParseSpawnName(ghost done: seq<string>) returns (ok: bool, name: string, more: bool)
      requires pos <= |toks|
      modifies this`pos
      ensures pos <= |toks|
      ensures !ok ==> SpawnNames(toks, old(pos)) == Fail
      ensures ok ==> old(pos) < pos
      ensures ok && more ==> Prepend(done, SpawnNames(toks, old(pos))) == Prepend(done + [name], SpawnNames(toks, pos))
      ensures ok && !more ==> Prepend(done, SpawnNames(toks, old(pos))) == Ok(done + [name], pos)
    {
      name, more := [], false;
      ok := ParseExpect(Identifier, false);
      if ok {
        name := toks[pos].name;
        pos := pos + 1;
        ok := ParseExpect(SemicolonSym, true);
        if ok {
          more := Kind(toks, pos) != EndKw;
          if more {
            SpawnNamesStep(toks, pos - 2, done);
          }
        }
      }
    }

    /** `parse_print_char`. */
    method ParsePrintChar() returns (ok: bool, n: Node)
      requires pos < |toks|
      modifies this`pos
      ensures pos <= |toks|
      ensures PrintCharStatement(toks, old(pos)) == (if ok then Ok(n, pos) else Fail)
    {
      n := Stop;
      pos := pos + 1;
      ok := ParseExpect(CharLit, false);
      if ok {
        var name := toks[pos].name;
        n := PrintChar(if |name| == 0 then 0 as char else name[0]);
        pos := pos + 1;
      }
    }

    /** `parse_statement`: `None` is the null statement. */
    method ParseStatement() returns (ok: bool, s: Option<Node>)
      requires pos <= |toks|
      modifies this`pos
      ensures pos <= |toks|
      ensures Statement(toks, old(pos)) == (if ok then Ok(s, pos) else Fail)
      decreases |toks| - pos, 11
    {
      var n: Node;
      ok, s := true, None;
      var k := Kind(toks, pos);
      if k == Identifier {
        ok, n := ParseAssignment();
        s := Some(n);
      } else if k == IfKw {
        ok, n := ParseIf();
        s := Some(n);
      } else if k == WhileKw {
        ok, n := ParseWhile();
        s := Some(n);
      } else if k == SpawnKw {
        ok, n := ParseSpawn();
        s := Some(n);
      } else if k == StopKw {
        pos := pos + 1;
        s := Some(Stop);
      } else if k == PrintIntKw {
        pos := pos + 1;
        ok, n := ParseOr();
        s := Some(PrintInt(n));
      } else if k == PrintCharKw {
        ok, n := ParsePrintChar();
        s := Some(n);
      }
    }

    /** `parse_task_declaration`. */
    method ParseTaskDeclaration() returns (ok: bool, n: Node)
      requires pos <= |toks|
      modifies this`pos
      ensures pos <= |toks|
      ensures TaskDeclaration(toks, old(pos)) == (if ok then Ok(n, pos) else Fail)
    {
      n := Stop;
      ok := Kind(toks, pos) == TaskKw;
      if ok {
        pos := Optional(toks, pos + 1, SemicolonSym);
        ok := Kind(toks, pos) == Identifier;
        if ok {
          var name := toks[pos].name;
          pos := pos + 1;
          ok, n := ParseTaskBody(name);
        }
      }
    }

    /** `parse_task_declaration` after the name. */
    method ParseTaskBody(name: string) returns (ok: bool, n: Node)
      requires pos <= |toks|
      modifies this`pos
      ensures pos <= |toks|
      ensures TaskBody(toks, old(pos), name) == (if ok then Ok(n, pos) else Fail)
    {
      n := Stop;
      var body;
      ok, body := ParseStatementSequence();
      if ok {
        ok := ParseExpect(EndKw, true);
        n := TaskDecl(name, body);
      }
    }

    /** `parse_module_declaration`. */
    method ParseModuleDeclaration() returns (ok: bool, n: Node)
      requires pos <= |toks|
      modifies this`pos
      ensures pos <= |toks|
      ensures ModuleDeclaration(toks, old(pos)) == (if ok then Ok(n, pos) else Fail)
    {
      n := Stop;
      ok := Kind(toks, pos) == ModuleKw && Kind(toks, pos + 1) == Identifier;
      if ok {
        var name := toks[pos + 1].name;
        pos := Optional(toks, pos + 2, SemicolonSym);
        ok, n := ParseModuleInit(name);
      }
    }

    /** `parse_module_declaration` after the name. */
    method ParseModuleInit(name: string) returns (ok: bool, n: Node)
      requires pos <= |toks|
      modifies this`pos
      ensures pos <= |toks|
      ensures ModuleInit(toks, old(pos), name) == (if ok then Ok(n, pos) else Fail)
    {
      n := Stop;
      ok := Kind(toks, pos) == InitKw;
      if ok {
        pos := pos + 1;
        var init;
        ok, init := ParseStatementSequence();
        if ok {
          ok, n := ParseModuleEnd(name, init);
        }
      }
    }

    /** `parse_module_declaration` after the initialisation sequence. */
    method ParseModuleEnd(name: string, init: Node) returns (ok: bool, n: Node)
      requires pos <= |toks|
      modifies this`pos
      ensures pos <= |toks|
      ensures ModuleEnd(toks, old(pos), name, init) == (if ok then Ok(n, pos) else Fail)
    {
      n := Stop;
      ok := Kind(toks, pos) == EndKw;
      if ok {
        pos := Optional(toks, pos + 1, SemicolonSym);
        ok, n := ParseModuleTasks(name, init);
      }
    }

    /** The end of `parse_module_declaration`. */
    method ParseModuleTasks(name: string, init: Node) returns (ok: bool, n: Node)
      requires pos <= |toks|
      modifies this`pos
      ensures pos <= |toks|
      ensures ModuleTasks(toks, old(pos), name, init) == (if ok then Ok(n, pos) else Fail)
    {
      n := Stop;
      var tasks;
      ok, tasks := ParseTaskDeclarations();
      if ok {
        pos := pos + 1;
        ParseOptional(SemicolonSym);
        n := ModuleDecl(name, init, tasks);
      }
    }

    /** The loop of `parse_module_declaration`: task declarations up to
        `end`, which is left current. */
    method ParseTaskDeclarations() returns (ok: bool, tasks: seq<Node>)
      requires pos <= |toks|
      modifies this`pos
      ensures pos <= |toks|
      ensures TaskDeclarations(toks, old(pos)) == (if ok then Ok(tasks, pos) else Fail)
    {
      ghost var p0 := pos;
      tasks := [];
      while Kind(toks, pos) != EndKw
        invariant p0 <= pos <= |toks|
        invariant TaskDeclarations(toks, p0) == Prepend(tasks, TaskDeclarations(toks, pos))
        decreases |toks| - pos
      {
        ghost var p1 := pos;
        var t;
        ok, t := ParseTaskDeclaration();
        if !ok {
          return;
        }
        TaskDeclarationsStep(toks, p1, tasks, t, pos);
        ParseOptional(SemicolonSym);
        tasks := tasks + [t];
      }
      ok := true;
      assert tasks + [] == tasks;
    }

    /** `parse`: the module, then the end of the input (checked without
        consuming it). */
    method ParseModule() returns (ok: bool, n: Node)
      requires pos == 0
      modifies this`pos
      ensures Parse(toks) == (if ok then Some(n) else None)
    {
      ok, n := ParseModuleDeclaration();
      if ok {
        ok := ParseExpect(Eof, false);
      }
    }
  }
}
