/** The syntax-tree shapes that the traversal engine of mtail's compiler
    recognises (vm/walk.go). Only the child structure that the walk reads is
    kept: regex text, identifiers and constant values play no part in the
    traversal order and are dropped. */
module Syntax {

  datatype Option<T> = None | Some(value: T)

  /** One syntax-tree node. A Go `nil` child is `None`; the children the code
      treats as mandatory are plain `Node`s. `Unknown` stands for a node of
      any Go type outside the type switch of `Walk`. */
  datatype Node =
    | StmtList(children: seq<Node>)
    | ExprList(children: seq<Node>)
    | Cond(cond: Option<Node>, truthNode: Node, elseNode: Option<Node>)
    | Builtin(args: Option<Node>)
    | BinaryExpr(lhs: Node, rhs: Node)
    | UnaryExpr(lhs: Node)
    | IndexedExpr(lhs: Node, index: Node)
    | Def(children: seq<Node>)
    | Deco(children: seq<Node>)
    | Regex
    | Id
    | Capref
    | Decl
    | StringConst
    | IntConst
    | FloatConst
    | Next
    | Otherwise
    | Unknown

  /** The nine kinds the walk treats as leaves. */
  predicate IsTerminal(n: Node) {
    n.Regex? || n.Id? || n.Capref? || n.Decl? || n.StringConst? ||
    n.IntConst? || n.FloatConst? || n.Next? || n.Otherwise?
  }

  /** The list `[x]` for a present optional child, `[]` for an absent one. */
  function OptList(o: Option<Node>): seq<Node> {
    match o
    case None => []
    case Some(x) => [x]
  }

  /** The children of `n` that a walk visits, in the order it visits them:
      the reference table of child order per node kind (an indexed
      expression lists its index before its base). */
  function Children(n: Node): seq<Node> {
    match n
    case StmtList(cs) => cs
    case ExprList(cs) => cs
    case Cond(c, t, e) => OptList(c) + [t] + OptList(e)
    case Builtin(a) => OptList(a)
    case BinaryExpr(l, r) => [l, r]
    case UnaryExpr(l) => [l]
    case IndexedExpr(l, i) => [i, l]
    case Def(cs) => cs
    case Deco(cs) => cs
    case _ => []
  }

  /** No node anywhere in the tree is of an unrecognised kind. */
  predicate Known(n: Node) {
    match n
    case StmtList(cs) => forall c :: c in cs ==> Known(c)
    case ExprList(cs) => forall c :: c in cs ==> Known(c)
    case Cond(c, t, e) => (c.Some? ==> Known(c.value)) && Known(t) && (e.Some? ==> Known(e.value))
    case Builtin(a) => a.Some? ==> Known(a.value)
    case BinaryExpr(l, r) => Known(l) && Known(r)
    case UnaryExpr(l) => Known(l)
    case IndexedExpr(l, i) => Known(i) && Known(l)
    case Def(cs) => forall c :: c in cs ==> Known(c)
    case Deco(cs) => forall c :: c in cs ==> Known(c)
    case Unknown => false
    case _ => true
  }
}
