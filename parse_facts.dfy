/** What the grammar functions of the parser guarantee: where each loop
    stops, how operator chains associate, how runs of signs and `not` fold,
    and the shapes of the statements and declarations it builds. */
module ParserFacts {
  import opened Common
  import opened Lexer
  import opened Ast
  import opened Parser

  // ---- where the operator loops stop ---------------------------------------------

  /** The loop of `parse_term` ends at the first unit that is not a
      multiplicative operator. */
  lemma {:induction false} TermRestStops(toks: seq<LexUnit>, p: nat, left: Node)
    requires p <= |toks|
    ensures TermRest(toks, p, left).Ok? ==> MulOp(Kind(toks, TermRest(toks, p, left).pos)).None?
    decreases |toks| - p
  {
    match MulOp(Kind(toks, p))
    case None =>
    case Some(op) =>
      match Factor(toks, p + 1)
      case Fail =>
      case Ok(right, q) => TermRestStops(toks, q, Binary(op, left, right));
  }

  /** A term ends before a unit that is not a multiplicative operator. */
  lemma {:induction false} TermStops(toks: seq<LexUnit>, p: nat)
    requires p <= |toks|
    ensures Term(toks, p).Ok? ==> MulOp(Kind(toks, Term(toks, p).pos)).None?
  {
    match Factor(toks, p)
    case Fail =>
    case Ok(f, q) => TermRestStops(toks, q, f);
  }

  /** The second loop of `parse_expression` ends at the first unit that is
      neither an addition nor a multiplicative operator. */
  lemma {:induction false} ExpressionRestStops(toks: seq<LexUnit>, p: nat, left: Node)
    requires p <= |toks| && MulOp(Kind(toks, p)).None?
    ensures ExpressionRest(toks, p, left).Ok? ==>
              var q := ExpressionRest(toks, p, left).pos;
              AddOp(Kind(toks, q)).None? && MulOp(Kind(toks, q)).None?
    decreases |toks| - p
  {
    match AddOp(Kind(toks, p))
    case None =>
    case Some(op) =>
      match Term(toks, p + 1)
      case Fail =>
      case Ok(right, q) =>
        TermStops(toks, p + 1);
        ExpressionRestStops(toks, q, Binary(op, left, right));
  }

  /** An expression ends before a unit that continues neither its terms nor
      its factors. */
  lemma {:induction false} ExpressionStops(toks: seq<LexUnit>, p: nat)
    requires p <= |toks|
    ensures Expression(toks, p).Ok? ==>
              var q := Expression(toks, p).pos;
              AddOp(Kind(toks, q)).None? && MulOp(Kind(toks, q)).None?
  {
    var (k, negative) := Signs(toks, p);
    ExpressionUnfold(toks, p, k, negative);
    TermStops(toks, p + k);
    match Term(toks, p + k)
    case Fail =>
    case Ok(t, q) =>
      ExpressionRestStops(toks, q, if negative then Negate(t) else t);
  }

  /** `parse_comparison_expression` takes at most one relational operator:
      when one follows what it parsed (as in `a < b < c`), it has already
      built a relational node, and the second operator is left unread. */
  lemma {:induction false} ComparisonAtMostOne(toks: seq<LexUnit>, p: nat)
    requires p <= |toks|
    ensures Comparison(toks, p).Ok? ==>
              var (n, q) := (Comparison(toks, p).value, Comparison(toks, p).pos);
              AddOp(Kind(toks, q)).None? && MulOp(Kind(toks, q)).None?
              && (RelOp(Kind(toks, q)).Some? ==> n.Binary? && n.kind in RelationalKinds)
  {
    ExpressionStops(toks, p);
    match Expression(toks, p)
    case Fail =>
    case Ok(left, q) =>
      ComparisonRestStops(toks, q, left);
  }

  /** The same after the left operand. */
  lemma {:induction false} ComparisonRestStops(toks: seq<LexUnit>, p: nat, left: Node)
    requires p <= |toks| && AddOp(Kind(toks, p)).None? && MulOp(Kind(toks, p)).None?
    ensures ComparisonRest(toks, p, left).Ok? ==>
              var (n, q) := (ComparisonRest(toks, p, left).value, ComparisonRest(toks, p, left).pos);
              AddOp(Kind(toks, q)).None? && MulOp(Kind(toks, q)).None?
              && (RelOp(Kind(toks, q)).Some? ==> n.Binary? && n.kind in RelationalKinds)
  {
    match RelOp(Kind(toks, p))
    case None =>
    case Some(op) =>
      RelOpKinds(Kind(toks, p));
      ExpressionStops(toks, p + 1);
  }

  /** The node types of the relational operators. */
  const RelationalKinds: set<BinaryKind> := {NdEq, NdNe, NdGe, NdGt, NdLt, NdLe}

  lemma {:induction false} RelOpKinds(t: LexType)
    ensures RelOp(t).Some? ==> RelOp(t).value in RelationalKinds
  {
  }

  /** A comparison followed by a second relational operator is a whole
      or-expression that leaves that operator unread. */
  lemma {:induction false} ChainedComparisonEndsOr(toks: seq<LexUnit>, p: nat, c: Node, q: nat)
    requires p <= |toks| && Kind(toks, p) != NotKw
    requires Comparison(toks, p) == Ok(c, q) && RelOp(Kind(toks, q)).Some?
    ensures Or(toks, p) == Ok(c, q)
  {
    AndUnfold(toks, p, 0, false);
    assert AndRest(toks, q, c) == Ok(c, q);
  }

  /** So a chained comparison used as the test of an `if` ends the
      process: the second relational operator stands where `then` is
      expected. */
  lemma {:induction false} ChainedComparisonFails(toks: seq<LexUnit>, p: nat, c: Node, q: nat)
    requires p < |toks| && Kind(toks, p + 1) != NotKw
    requires Comparison(toks, p + 1) == Ok(c, q) && RelOp(Kind(toks, q)).Some?
    ensures IfStatement(toks, p) == Fail
  {
    ChainedComparisonEndsOr(toks, p + 1, c, q);
  }

  /** The `and` loop ends at the first unit that is not `and`. */
  lemma {:induction false} AndRestStops(toks: seq<LexUnit>, p: nat, left: Node)
    requires p <= |toks|
    ensures AndRest(toks, p, left).Ok? ==> Kind(toks, AndRest(toks, p, left).pos) != AndKw
    decreases |toks| - p
  {
    if Kind(toks, p) == AndKw {
      match Comparison(toks, p + 1)
      case Fail =>
      case Ok(right, q) => AndRestStops(toks, q, Binary(NdAnd, left, right));
    }
  }

  /** The `or` loop ends at the first unit that is not `or`. */
  lemma {:induction false} OrRestStops(toks: seq<LexUnit>, p: nat, left: Node)
    requires p <= |toks|
    ensures OrRest(toks, p, left).Ok? ==> Kind(toks, OrRest(toks, p, left).pos) != OrKw
    decreases |toks| - p
  {
    if Kind(toks, p) == OrKw {
      match And(toks, p + 1)
      case Fail =>
      case Ok(right, q) => OrRestStops(toks, q, Binary(NdOr, left, right));
    }
  }

  // ---- operator chains associate to the left --------------------------------------

  /** The loop of `parse_term` with `x` parsed: `x op1 y op2 z` is
      `(x op1 y) op2 z`. */
  lemma {:induction false} TermLeftAssociative(toks: seq<LexUnit>, p: nat, x: Node, y: Node, z: Node,
                                               op1: BinaryKind, op2: BinaryKind, q1: nat, q2: nat)
    requires p <= |toks|
    requires MulOp(Kind(toks, p)) == Some(op1) && Factor(toks, p + 1) == Ok(y, q1)
    requires MulOp(Kind(toks, q1)) == Some(op2) && Factor(toks, q1 + 1) == Ok(z, q2)
    requires MulOp(Kind(toks, q2)).None?
    ensures TermRest(toks, p, x) == Ok(Binary(op2, Binary(op1, x, y), z), q2)
  {
    TermRestStep(toks, p, x, y, q1);
    TermRestStep(toks, q1, Binary(op1, x, y), z, q2);
  }

  /** The second loop of `parse_expression` with `x` parsed: `x op1 y op2 z`
      with `+` and `-` is `(x op1 y) op2 z`. */
  lemma {:induction false} ExpressionLeftAssociative(toks: seq<LexUnit>, p: nat, x: Node, y: Node, z: Node,
                                                     op1: BinaryKind, op2: BinaryKind, q1: nat, q2: nat)
    requires p <= |toks|
    requires AddOp(Kind(toks, p)) == Some(op1) && Term(toks, p + 1) == Ok(y, q1)
    requires AddOp(Kind(toks, q1)) == Some(op2) && Term(toks, q1 + 1) == Ok(z, q2)
    requires AddOp(Kind(toks, q2)).None?
    ensures ExpressionRest(toks, p, x) == Ok(Binary(op2, Binary(op1, x, y), z), q2)
  {
    ExpressionRestStep(toks, p, x, y, q1);
    ExpressionRestStep(toks, q1, Binary(op1, x, y), z, q2);
  }

  /** The second loop of `parse_and_expression` with `x` parsed:
      `x and y and z` is `(x and y) and z`. */
  lemma {:induction false} AndLeftAssociative(toks: seq<LexUnit>, p: nat, x: Node, y: Node, z: Node,
                                              q1: nat, q2: nat)
    requires p <= |toks|
    requires Kind(toks, p) == AndKw && Comparison(toks, p + 1) == Ok(y, q1)
    requires Kind(toks, q1) == AndKw && Comparison(toks, q1 + 1) == Ok(z, q2)
    requires Kind(toks, q2) != AndKw
    ensures AndRest(toks, p, x) == Ok(Binary(NdAnd, Binary(NdAnd, x, y), z), q2)
  {
    AndRestStep(toks, p, x, y, q1);
    AndRestStep(toks, q1, Binary(NdAnd, x, y), z, q2);
  }

  /** The loop of `parse_or_expression` with `x` parsed: `x or y or z` is
      `(x or y) or z`. */
  lemma {:induction false} OrLeftAssociative(toks: seq<LexUnit>, p: nat, x: Node, y: Node, z: Node,
                                             q1: nat, q2: nat)
    requires p <= |toks|
    requires Kind(toks, p) == OrKw && And(toks, p + 1) == Ok(y, q1)
    requires Kind(toks, q1) == OrKw && And(toks, q1 + 1) == Ok(z, q2)
    requires Kind(toks, q2) != OrKw
    ensures OrRest(toks, p, x) == Ok(Binary(NdOr, Binary(NdOr, x, y), z), q2)
  {
    OrRestStep(toks, p, x, y, q1);
    OrRestStep(toks, q1, Binary(NdOr, x, y), z, q2);
  }

  // ---- runs of signs and of `not` -------------------------------------------------

  /** The number of units of type `t` among the `k` units from `p`. */
  function CountKind(toks: seq<LexUnit>, p: nat, k: nat, t: LexType): (c: nat)
    ensures c <= k
    decreases k
  {
    if k == 0 then 0 else (if Kind(toks, p) == t then 1 else 0) + CountKind(toks, p + 1, k - 1, t)
  }

  /** The sign run of `parse_expression` is the maximal run of `+` and `-`,
      and it leaves the sign negative exactly when it holds an odd number
      of `-`. */
  lemma {:induction false} SignsParity(toks: seq<LexUnit>, p: nat)
    requires p <= |toks|
    ensures var (k, negative) := Signs(toks, p);
            (forall i :: p <= i < p + k ==> AddOp(Kind(toks, i)).Some?)
            && AddOp(Kind(toks, p + k)).None?
            && (negative <==> CountKind(toks, p, k, MinusSym) % 2 == 1)
    decreases |toks| - p
  {
    if Kind(toks, p) == PlusSym || Kind(toks, p) == MinusSym {
      SignsParity(toks, p + 1);
    }
  }

  /** So `parse_expression` negates its first term, and only it, exactly
      when the sign run holds an odd number of `-`. */
  lemma {:induction false} ExpressionNegatesFirstTerm(toks: seq<LexUnit>, p: nat)
    requires p <= |toks|
    ensures var k := Signs(toks, p).0;
            Expression(toks, p)
            == match Term(toks, p + k)
               case Fail => Fail
               case Ok(t, q) =>
                 ExpressionRest(toks, q, if CountKind(toks, p, k, MinusSym) % 2 == 1 then Negate(t) else t)
  {
    SignsParity(toks, p);
    var (k, negative) := Signs(toks, p);
    ExpressionUnfold(toks, p, k, negative);
  }

  /** The `not` run of `parse_and_expression` is the maximal run of `not`,
      and it is folded into one `not` exactly when its length is odd. */
  lemma {:induction false} NotsParity(toks: seq<LexUnit>, p: nat)
    requires p <= |toks|
    ensures var (k, odd) := Nots(toks, p);
            (forall i :: p <= i < p + k ==> Kind(toks, i) == NotKw)
            && Kind(toks, p + k) != NotKw
            && (odd <==> k % 2 == 1)
    decreases |toks| - p
  {
    if Kind(toks, p) == NotKw {
      NotsParity(toks, p + 1);
    }
  }

  /** So `parse_and_expression` wraps its first comparison, and only it, in
      a `not` exactly when an odd number of `not` precede it. */
  lemma {:induction false} AndNegatesFirstComparison(toks: seq<LexUnit>, p: nat)
    requires p <= |toks|
    ensures var k := Nots(toks, p).0;
            And(toks, p)
            == match Comparison(toks, p + k)
               case Fail => Fail
               case Ok(c, q) => AndRest(toks, q, if k % 2 == 1 then Not(c) else c)
  {
    NotsParity(toks, p);
    var (k, odd) := Nots(toks, p);
    AndUnfold(toks, p, k, odd);
  }

  // ---- statements ---------------------------------------------------------------

  /** The units that start a statement of `parse_statement`. */
  predicate StartsStatement(t: LexType)
  {
    t == Identifier || t == IfKw || t == WhileKw || t == SpawnKw || t == StopKw
    || t == PrintIntKw || t == PrintCharKw
  }

  /** `parse_statement` gives a null statement exactly when the current
      unit starts no statement, and then it consumes nothing. */
  lemma {:induction false} NullStatement(toks: seq<LexUnit>, p: nat)
    requires p <= |toks|
    ensures (Statement(toks, p).Ok? && Statement(toks, p).value.None?) <==> !StartsStatement(Kind(toks, p))
    ensures !StartsStatement(Kind(toks, p)) ==> Statement(toks, p).pos == p
  {
    var k := Kind(toks, p);
    if k == Identifier {
      assert Statement(toks, p) == AsStatement(Assignment(toks, p));
    } else if k == IfKw {
      assert Statement(toks, p) == AsStatement(IfStatement(toks, p));
    } else if k == WhileKw {
      assert Statement(toks, p) == AsStatement(WhileStatement(toks, p));
    } else if k == SpawnKw {
      assert Statement(toks, p) == AsStatement(SpawnStatement(toks, p));
    } else if k == PrintCharKw {
      assert Statement(toks, p) == AsStatement(PrintCharStatement(toks, p));
    }
  }

  /** A statement sequence is empty when it starts at `else` or `end`; a
      parsed one ends at `else` or `end`, and it has one entry, in order,
      for each statement before its `;`. */
  lemma {:induction false} StatementsStop(toks: seq<LexUnit>, p: nat)
    requires p <= |toks|
    ensures Kind(toks, p) == ElseKw || Kind(toks, p) == EndKw ==> Statements(toks, p) == Ok([], p)
    ensures Statements(toks, p).Ok? ==>
              var (ss, q) := (Statements(toks, p).value, Statements(toks, p).pos);
              (Kind(toks, q) == ElseKw || Kind(toks, q) == EndKw)
              && (|ss| > 0 ==> Statement(toks, p).Ok? && Statement(toks, p).value == ss[0]
                               && Kind(toks, Statement(toks, p).pos) == SemicolonSym)
    decreases |toks| - p
  {
    if Kind(toks, p) != ElseKw && Kind(toks, p) != EndKw {
      match Statement(toks, p)
      case Fail =>
      case Ok(s, r) =>
        if Kind(toks, r) == SemicolonSym {
          StatementsStop(toks, r + 1);
        }
    }
  }

  /** `parse_if` builds an `if` node; its false branch is null exactly when
      no `else` follows the true branch. */
  lemma {:induction false} IfShape(toks: seq<LexUnit>, p: nat, test: Node, yes: Node)
    requires p <= |toks|
    ensures IfRest(toks, p, test, yes).Ok? ==>
              var n := IfRest(toks, p, test, yes).value;
              n.If? && n.test == test && n.trueBranch == yes
              && (n.falseBranch.None? <==> Kind(toks, p) != ElseKw)
    ensures IfRest(toks, p, test, yes).Ok? && Kind(toks, p) == ElseKw ==>
              StatementSequence(toks, p + 1).Ok?
              && IfRest(toks, p, test, yes).value.falseBranch == Some(StatementSequence(toks, p + 1).value)
  {
  }

  /** The names of a spawn statement: at least one, each an identifier
      followed by `;`, in source order, and `end` after the last. */
  lemma {:induction false} SpawnNamesShape(toks: seq<LexUnit>, p: nat)
    requires p <= |toks|
    ensures SpawnNames(toks, p).Ok? ==>
              var (names, q) := (SpawnNames(toks, p).value, SpawnNames(toks, p).pos);
              |names| >= 1 && q == p + 2 * |names| && Kind(toks, q) == EndKw
              && forall i :: 0 <= i < |names| ==>
                   p + 2 * i + 1 < |toks| && Kind(toks, p + 2 * i) == Identifier
                   && names[i] == toks[p + 2 * i].name && Kind(toks, p + 2 * i + 1) == SemicolonSym
    decreases |toks| - p
  {
    if Kind(toks, p) == Identifier && Kind(toks, p + 1) == SemicolonSym && Kind(toks, p + 2) != EndKw {
      SpawnNamesShape(toks, p + 2);
      match SpawnNames(toks, p + 2)
      case Fail =>
      case Ok(rest, q) =>
        var names := [toks[p].name] + rest;
        forall i | 0 <= i < |names|
          ensures p + 2 * i + 1 < |toks| && Kind(toks, p + 2 * i) == Identifier
                  && names[i] == toks[p + 2 * i].name && Kind(toks, p + 2 * i + 1) == SemicolonSym
        {
          if i > 0 {
            assert names[i] == rest[i - 1];
            assert p + 2 * i == (p + 2) + 2 * (i - 1);
          }
        }
    }
  }

  // ---- declarations -------------------------------------------------------------

  /** The task declarations of a module end at `end`, and each of them is
      a task declaration node. */
  lemma {:induction false} TaskDeclarationsShape(toks: seq<LexUnit>, p: nat)
    requires p <= |toks|
    ensures TaskDeclarations(toks, p).Ok? ==>
              Kind(toks, TaskDeclarations(toks, p).pos) == EndKw
              && forall t :: t in TaskDeclarations(toks, p).value ==> t.TaskDecl? && t.body.StatementSeq?
    decreases |toks| - p
  {
    if Kind(toks, p) != EndKw {
      match TaskDeclaration(toks, p)
      case Fail =>
      case Ok(t, q) =>
        TaskDeclarationsShape(toks, Optional(toks, q, SemicolonSym));
    }
  }

  /** A module declaration, once its name is read, is a module node whose
      initialisation part is a statement sequence and whose tasks are task
      declarations. */
  lemma {:induction false} ModuleInitShape(toks: seq<LexUnit>, p: nat, name: string)
    requires p <= |toks|
    ensures ModuleInit(toks, p, name).Ok? ==>
              var m := ModuleInit(toks, p, name).value;
              m.ModuleDecl? && m.moduleName == name && m.initStatements.StatementSeq?
              && forall t :: t in m.taskDecls ==> t.TaskDecl? && t.body.StatementSeq?
  {
    if Kind(toks, p) == InitKw {
      match StatementSequence(toks, p + 1)
      case Fail =>
      case Ok(init, q) =>
        if Kind(toks, q) == EndKw {
          TaskDeclarationsShape(toks, Optional(toks, q + 1, SemicolonSym));
        }
    }
  }

  /** A parsed program is a module declaration whose initialisation part is
      a statement sequence and whose tasks are task declarations. */
  lemma {:induction false} ParseShape(toks: seq<LexUnit>)
    ensures Parse(toks).Some? ==>
              var m := Parse(toks).value;
              m.ModuleDecl? && m.initStatements.StatementSeq?
              && forall t :: t in m.taskDecls ==> t.TaskDecl? && t.body.StatementSeq?
  {
    if Kind(toks, 0) == ModuleKw && Kind(toks, 1) == Identifier {
      ModuleInitShape(toks, Optional(toks, 2, SemicolonSym), toks[1].name);
    }
  }
}
