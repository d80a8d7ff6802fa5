/** The parse tree (`PARSE_NODE`) the parser builds and the code generator
    walks. A null subtree pointer is `None`. */
module Ast {
  import opened Common

  /** The node types of the binary operator nodes. */
  datatype BinaryKind =
    | NdOr | NdAnd
    | NdLe | NdLt | NdGe | NdGt | NdEq | NdNe
    | NdAdd | NdSubtract | NdMultiply | NdDivide | NdRemainder

  datatype Node =
    | ModuleDecl(moduleName: string, initStatements: Node, taskDecls: seq<Node>)
    | TaskDecl(taskName: string, body: Node)
      /** A statement list; a statement the parser did not recognise is a
          null entry. */
    | StatementSeq(statements: seq<Option<Node>>)
    | Assign(varName: char, expr: Node)
    | If(test: Node, trueBranch: Node, falseBranch: Option<Node>)
    | While(test: Node, body: Node)
    | PrintInt(expr: Node)
    | PrintChar(ch: char)
    | Spawn(taskNames: seq<string>)
    | Stop
    | Binary(kind: BinaryKind, left: Node, right: Node)
    | Negate(expr: Node)
    | Not(expr: Node)
    | Variable(name: char)
    | Number(value: int)
}
