/**
  The interface of the program graph the front end hands to the executor:
  expression elements, unary and binary expressions, and statement nodes.
  The graph is an arena: statements are addressed by index, and a link is
  either an index or the end of the program. While loops link back into
  the arena, so the graph may be cyclic.
 */
module ProgramGraph {
  import opened Values

  datatype ElementKind =
    | IntLiteral | RealLiteral | StrLiteral
    | TrueLiteral | FalseLiteral | NoneLiteral
    | Identifier

  /** A leaf of an expression: its kind and its source text. */
  datatype Element = Element(kind: ElementKind, text: string)

  datatype UnaryKind = Plain | AddressOf | PtrDeref

  /** An operand: an element, `&element` or `*element`. */
  datatype UnaryExpr = UnaryExpr(kind: UnaryKind, element: Element)

  datatype Expr =
    | Single(lhs: UnaryExpr)
    | Binary(op: Op, lhs: UnaryExpr, rhs: UnaryExpr)

  /** The right-hand side of an assignment: a call with one argument, or an expression. */
  datatype Rhs =
    | CallRhs(name: string, parameter: Element)
    | ExprRhs(expr: Expr)

  /** The index of the next statement, or None at the end of the program. */
  type Link = Option<nat>

  datatype Stmt =
    | Assignment(target: string, isPtrDeref: bool, rhs: Rhs, next: Link)
    | FunctionCall(name: string, parameter: Option<Element>, next: Link)
    | Pass(next: Link)
    | WhileLoop(condition: Expr, body: Link, next: Link)

  type Program = seq<Stmt>

  predicate LinkOk(p: Program, l: Link) {
    l.None? || l.value < |p|
  }

  /** Every link of every statement leads to a statement of the arena or ends the program. */
  ghost predicate WellFormed(p: Program) {
    forall i | 0 <= i < |p| :: LinkOk(p, p[i].next) && (p[i].WhileLoop? ==> LinkOk(p, p[i].body))
  }
}
