/** Which visitor `Walk` calls. In vm/walk.go the visitor that `VisitBefore`
    returns is bound to a variable local to the `if` statement and only
    compared with nil; the children and `VisitAfter` are walked with the
    caller's visitor. So every hook call of a walk goes to the caller's
    visitor, and which non-nil visitor `VisitBefore` returns makes no
    difference at all. */
module VisitorUse {
  import opened Syntax
  import opened Walker

  /** Every hook call of `r` made after those of `w` went to visitor `v`. */
  ghost predicate CalledOn<V, S>(w: World<V, S>, r: World<V, S>, v: V) {
    forall i :: |w.trace| <= i < |r.trace| ==> r.trace[i].visitor == v
  }

  /** Every `VisitBefore` and `VisitAfter` of a walk, at every depth, is
      called on the visitor `Walk` was called with. */
  lemma {:induction false} HookCallsOnCaller<V, S>(m: VisitorMethods<V, S>, v: V, w: World<V, S>, n: Node)
    ensures CalledOn(w, Walk(m, v, w, n), v)
    decreases n, 2
  {
    if !w.panicked {
      var (s1, next) := m.visitBefore(v, w.state, n);
      if next.Some? {
        DescendOnCaller(m, v, World(w.trace + [Before(v, n, false)], s1, false), n);
      }
    }
  }

  lemma {:induction false} DescendOnCaller<V, S>(m: VisitorMethods<V, S>, v: V, w: World<V, S>, n: Node)
    requires !w.panicked
    ensures CalledOn(w, Descend(m, v, w, n), v)
    decreases n, 1
  {
    match n
    case StmtList(cs) => ListOnCaller(m, v, w, cs);
    case ExprList(cs) => ListOnCaller(m, v, w, cs);
    case Cond(c, t, e) => CondOnCaller(m, v, w, n);
    case Builtin(a) =>
      if a.Some? { HookCallsOnCaller(m, v, w, a.value); }
    case BinaryExpr(l, r) =>
      HookCallsOnCaller(m, v, w, l);
      HookCallsOnCaller(m, v, Walk(m, v, w, l), r);
    case UnaryExpr(l) => HookCallsOnCaller(m, v, w, l);
    case IndexedExpr(l, i) =>
      HookCallsOnCaller(m, v, w, i);
      HookCallsOnCaller(m, v, Walk(m, v, w, i), l);
    case Def(cs) => ListOnCaller(m, v, w, cs);
    case Deco(cs) => ListOnCaller(m, v, w, cs);
    case _ =>
  }

  lemma {:induction false} CondOnCaller<V, S>(m: VisitorMethods<V, S>, v: V, w: World<V, S>, n: Node)
    requires !w.panicked && n.Cond?
    ensures CalledOn(w, Descend(m, v, w, n), v)
    decreases n, 0
  {
    var w2 := if n.cond.Some? then Walk(m, v, w, n.cond.value) else w;
    if n.cond.Some? { HookCallsOnCaller(m, v, w, n.cond.value); }
    HookCallsOnCaller(m, v, w2, n.truthNode);
    if n.elseNode.Some? { HookCallsOnCaller(m, v, Walk(m, v, w2, n.truthNode), n.elseNode.value); }
  }

  lemma {:induction false} ListOnCaller<V, S>(m: VisitorMethods<V, S>, v: V, w: World<V, S>, nodes: seq<Node>)
    ensures CalledOn(w, WalkList(m, v, w, nodes), v)
    decreases nodes
  {
    if nodes != [] {
      HookCallsOnCaller(m, v, w, nodes[0]);
      ListOnCaller(m, v, Walk(m, v, w, nodes[0]), nodes[1..]);
    }
  }

  /** `m` and `m2` have the same effects and the same nil answers; they may
      differ only in which non-nil visitor `VisitBefore` returns. */
  ghost predicate SameUpToReturnedVisitor<V(!new), S(!new)>(m: VisitorMethods<V, S>, m2: VisitorMethods<V, S>) {
    && (forall v, s, n :: m.visitBefore(v, s, n).0 == m2.visitBefore(v, s, n).0 &&
          (m.visitBefore(v, s, n).1.None? <==> m2.visitBefore(v, s, n).1.None?))
    && (forall v, s, n :: m.visitAfter(v, s, n) == m2.visitAfter(v, s, n))
  }

  /** The visitor `VisitBefore` returns is used for the nil test only: two
      visitor behaviours that differ only in that returned visitor give the
      same walk, hook call for hook call. */
  lemma {:induction false} ReturnedVisitorIgnored<V(!new), S(!new)>(m: VisitorMethods<V, S>, m2: VisitorMethods<V, S>, v: V, w: World<V, S>, n: Node)
    requires SameUpToReturnedVisitor(m, m2)
    ensures Walk(m, v, w, n) == Walk(m2, v, w, n)
    decreases n, 2
  {
    if !w.panicked {
      var (s1, next) := m.visitBefore(v, w.state, n);
      if next.Some? {
        var w1 := World(w.trace + [Before(v, n, false)], s1, false);
        DescendSame(m, m2, v, w1, n);
      }
    }
  }

  lemma {:induction false} DescendSame<V(!new), S(!new)>(m: VisitorMethods<V, S>, m2: VisitorMethods<V, S>, v: V, w: World<V, S>, n: Node)
    requires SameUpToReturnedVisitor(m, m2) && !w.panicked
    ensures Descend(m, v, w, n) == Descend(m2, v, w, n)
    decreases n, 1
  {
    match n
    case StmtList(cs) => ListSame(m, m2, v, w, cs);
    case ExprList(cs) => ListSame(m, m2, v, w, cs);
    case Cond(c, t, e) => CondSame(m, m2, v, w, n);
    case Builtin(a) =>
      if a.Some? { ReturnedVisitorIgnored(m, m2, v, w, a.value); }
    case BinaryExpr(l, r) => PairSame(m, m2, v, w, n);
    case UnaryExpr(l) => ReturnedVisitorIgnored(m, m2, v, w, l);
    case IndexedExpr(l, i) => PairSame(m, m2, v, w, n);
    case Def(cs) => ListSame(m, m2, v, w, cs);
    case Deco(cs) => ListSame(m, m2, v, w, cs);
    case _ =>
  }

  lemma {:induction false} CondSame<V(!new), S(!new)>(m: VisitorMethods<V, S>, m2: VisitorMethods<V, S>, v: V, w: World<V, S>, n: Node)
    requires SameUpToReturnedVisitor(m, m2) && !w.panicked && n.Cond?
    ensures Descend(m, v, w, n) == Descend(m2, v, w, n)
    decreases n, 0
  {
    var w2 := if n.cond.Some? then Walk(m, v, w, n.cond.value) else w;
    if n.cond.Some? { ReturnedVisitorIgnored(m, m2, v, w, n.cond.value); }
    ReturnedVisitorIgnored(m, m2, v, w2, n.truthNode);
    if n.elseNode.Some? { ReturnedVisitorIgnored(m, m2, v, Walk(m, v, w2, n.truthNode), n.elseNode.value); }
  }

  lemma {:induction false} PairSame<V(!new), S(!new)>(m: VisitorMethods<V, S>, m2: VisitorMethods<V, S>, v: V, w: World<V, S>, n: Node)
    requires SameUpToReturnedVisitor(m, m2) && !w.panicked && (n.BinaryExpr? || n.IndexedExpr?)
    ensures Descend(m, v, w, n) == Descend(m2, v, w, n)
    decreases n, 0
  {
    var (x, y) := if n.BinaryExpr? then (n.lhs, n.rhs) else (n.index, n.lhs);
    ReturnedVisitorIgnored(m, m2, v, w, x);
    ReturnedVisitorIgnored(m, m2, v, Walk(m, v, w, x), y);
  }

  lemma {:induction false} ListSame<V(!new), S(!new)>(m: VisitorMethods<V, S>, m2: VisitorMethods<V, S>, v: V, w: World<V, S>, nodes: seq<Node>)
    requires SameUpToReturnedVisitor(m, m2)
    ensures WalkList(m, v, w, nodes) == WalkList(m2, v, w, nodes)
    decreases nodes
  {
    if nodes != [] {
      ReturnedVisitorIgnored(m, m2, v, w, nodes[0]);
      ListSame(m, m2, v, Walk(m, v, w, nodes[0]), nodes[1..]);
    }
  }

  /** `m` with every non-nil visitor that `VisitBefore` returns replaced by
      the visitor it was called on. */
  function ReturningSelf<V, S>(m: VisitorMethods<V, S>): VisitorMethods<V, S> {
    VisitorMethods(
      (u: V, s: S, n: Node) =>
        var (s1, next) := m.visitBefore(u, s, n);
        (s1, if next.None? then None else Some(u)),
      m.visitAfter)
  }

  /** A walk whose `VisitBefore` hands back a substitute visitor runs
      exactly as if it had handed back the caller's own visitor: the
      substitute is never called. */
  lemma SubstituteNeverUsed<V(!new), S(!new)>(m: VisitorMethods<V, S>, v: V, s: S, n: Node)
    ensures Walk(m, v, Start(s), n) == Walk(ReturningSelf(m), v, Start(s), n)
  {
    ReturnedVisitorIgnored(m, ReturningSelf(m), v, Start(s), n);
  }
}
