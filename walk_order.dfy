/** The order in which `Walk` calls the hooks: what happened before a walk
    does not influence it, pruning stops it at once, and otherwise it is
    `VisitBefore`, the children in the order of the reference table
    `Children`, then `VisitAfter`. */
module WalkOrder {
  import opened Syntax
  import opened Walker

  /** Events that happened before a walk change nothing about it: the walk
      of `n` on `Shift(p, w)` is the walk on `w` with `p` in front. */
  lemma {:induction false} WalkShift<V, S>(m: VisitorMethods<V, S>, v: V, p: seq<Event<V>>, w: World<V, S>, n: Node)
    ensures Walk(m, v, Shift(p, w), n) == Shift(p, Walk(m, v, w, n))
    decreases n, 2
  {
    if !w.panicked {
      var (s1, next) := m.visitBefore(v, w.state, n);
      if next.Some? {
        var w1 := World(w.trace + [Before(v, n, false)], s1, false);
        assert Shift(p, w).trace + [Before(v, n, false)] == Shift(p, w1).trace;
        DescendShift(m, v, p, w1, n);
        var d := Descend(m, v, w1, n);
        assert !d.panicked ==> Shift(p, d).trace + [After(v, n)] == p + (d.trace + [After(v, n)]);
      }
    }
  }

  lemma {:induction false} DescendShift<V, S>(m: VisitorMethods<V, S>, v: V, p: seq<Event<V>>, w: World<V, S>, n: Node)
    requires !w.panicked
    ensures Descend(m, v, Shift(p, w), n) == Shift(p, Descend(m, v, w, n))
    decreases n, 1
  {
    match n
    case StmtList(cs) => WalkListShift(m, v, p, w, cs);
    case ExprList(cs) => WalkListShift(m, v, p, w, cs);
    case Cond(c, t, e) => CondShift(m, v, p, w, n);
    case Builtin(a) =>
      if a.Some? { WalkShift(m, v, p, w, a.value); }
    case BinaryExpr(l, r) => PairShift(m, v, p, w, n);
    case UnaryExpr(l) => WalkShift(m, v, p, w, l);
    case IndexedExpr(l, i) => PairShift(m, v, p, w, n);
    case Def(cs) => WalkListShift(m, v, p, w, cs);
    case Deco(cs) => WalkListShift(m, v, p, w, cs);
    case _ =>
  }

  lemma {:induction false} CondShift<V, S>(m: VisitorMethods<V, S>, v: V, p: seq<Event<V>>, w: World<V, S>, n: Node)
    requires !w.panicked && n.Cond?
    ensures Descend(m, v, Shift(p, w), n) == Shift(p, Descend(m, v, w, n))
    decreases n, 0
  {
    var w2 := if n.cond.Some? then Walk(m, v, w, n.cond.value) else w;
    if n.cond.Some? { WalkShift(m, v, p, w, n.cond.value); }
    var w3 := Walk(m, v, w2, n.truthNode);
    WalkShift(m, v, p, w2, n.truthNode);
    if n.elseNode.Some? { WalkShift(m, v, p, w3, n.elseNode.value); }
  }

  lemma {:induction false} PairShift<V, S>(m: VisitorMethods<V, S>, v: V, p: seq<Event<V>>, w: World<V, S>, n: Node)
    requires !w.panicked && (n.BinaryExpr? || n.IndexedExpr?)
    ensures Descend(m, v, Shift(p, w), n) == Shift(p, Descend(m, v, w, n))
    decreases n, 0
  {
    var (x, y) := if n.BinaryExpr? then (n.lhs, n.rhs) else (n.index, n.lhs);
    WalkShift(m, v, p, w, x);
    WalkShift(m, v, p, Walk(m, v, w, x), y);
  }

  lemma {:induction false} WalkListShift<V, S>(m: VisitorMethods<V, S>, v: V, p: seq<Event<V>>, w: World<V, S>, nodes: seq<Node>)
    ensures WalkList(m, v, Shift(p, w), nodes) == Shift(p, WalkList(m, v, w, nodes))
    decreases nodes
  {
    if nodes != [] {
      WalkShift(m, v, p, w, nodes[0]);
      WalkListShift(m, v, p, Walk(m, v, w, nodes[0]), nodes[1..]);
    }
  }

  /** A walk on any world that is not panicking is the walk from a fresh
      start in that world's state, appended to its history. */
  lemma WalkFromStart<V, S>(m: VisitorMethods<V, S>, v: V, w: World<V, S>, n: Node)
    requires !w.panicked
    ensures Walk(m, v, w, n) == Shift(w.trace, Walk(m, v, Start(w.state), n))
  {
    assert Shift(w.trace, Start(w.state)) == w;
    WalkShift(m, v, w.trace, Start(w.state), n);
  }

  /** `walknodelist` over `xs + ys` is `walknodelist` over `xs`, then over `ys`. */
  lemma {:induction false} WalkListAppend<V, S>(m: VisitorMethods<V, S>, v: V, w: World<V, S>, xs: seq<Node>, ys: seq<Node>)
    ensures WalkList(m, v, w, xs + ys) == WalkList(m, v, WalkList(m, v, w, xs), ys)
    decreases xs
  {
    if xs == [] {
      assert xs + ys == ys;
    } else {
      assert (xs + ys)[0] == xs[0];
      assert (xs + ys)[1..] == xs[1..] + ys;
      WalkListAppend(m, v, Walk(m, v, w, xs[0]), xs[1..], ys);
    }
  }

  /** In a list walk each child is walked to completion from the state the
      previous one left, and its events follow the previous child's; a
      panic in a child ends the list walk. */
  lemma WalkListCons<V, S>(m: VisitorMethods<V, S>, v: V, w: World<V, S>, x: Node, ys: seq<Node>)
    requires !w.panicked
    ensures var r1 := Walk(m, v, Start(w.state), x);
      WalkList(m, v, w, [x] + ys) ==
        if r1.panicked then Shift(w.trace, r1)
        else Shift(w.trace + r1.trace, WalkList(m, v, Start(r1.state), ys))
  {
    var r1 := Walk(m, v, Start(w.state), x);
    assert ([x] + ys)[0] == x && ([x] + ys)[1..] == ys;
    WalkFromStart(m, v, w, x);
    if !r1.panicked {
      var w1 := Walk(m, v, w, x);
      assert w1 == Shift(w.trace + r1.trace, Start(r1.state));
      WalkListShift(m, v, w.trace + r1.trace, Start(r1.state), ys);
    }
  }

  /** A `VisitBefore` that returns nil ends the walk of `n` at once: its one
      event is that call, no descendant is visited and `VisitAfter(n)` is
      not called. This holds for a node of unknown kind too. */
  lemma WalkPruned<V, S>(m: VisitorMethods<V, S>, v: V, w: World<V, S>, n: Node)
    requires !w.panicked
    requires m.visitBefore(v, w.state, n).1.None?
    ensures Walk(m, v, w, n) == World(w.trace + [Before(v, n, true)], m.visitBefore(v, w.state, n).0, false)
  {
  }

  /** A terminal that is not pruned gives exactly `VisitBefore(n)` and
      `VisitAfter(n)`. */
  lemma WalkTerminal<V, S>(m: VisitorMethods<V, S>, v: V, w: World<V, S>, n: Node)
    requires !w.panicked && IsTerminal(n)
    requires m.visitBefore(v, w.state, n).1.Some?
    ensures var s1 := m.visitBefore(v, w.state, n).0;
      Walk(m, v, w, n) == World(w.trace + [Before(v, n, false), After(v, n)], m.visitAfter(v, s1, n), false)
  {
  }

  /** The type switch walks exactly the children of the reference table,
      in its order: a list in list order; a condition's `cond` only if
      present, `truthNode` always, `elseNode` only if present; a builtin's
      `args` only if present; `lhs` before `rhs`; the index before the
      indexed base; nothing for a terminal. */
  lemma DescendIsChildrenWalk<V, S>(m: VisitorMethods<V, S>, v: V, w: World<V, S>, n: Node)
    requires !w.panicked && !n.Unknown?
    ensures Descend(m, v, w, n) == WalkList(m, v, w, Children(n))
  {
    match n
    case Cond(c, t, e) => CondIsChildrenWalk(m, v, w, c, t, e);
    case Builtin(a) =>
      if a.Some? { WalkListOne(m, v, w, a.value); }
    case BinaryExpr(l, r) => PairIsChildrenWalk(m, v, w, l, r);
    case UnaryExpr(l) => WalkListOne(m, v, w, l);
    case IndexedExpr(l, i) => PairIsChildrenWalk(m, v, w, i, l);
    case _ =>
  }

  /** `walknodelist` of one node is `Walk` of that node. */
  lemma WalkListOne<V, S>(m: VisitorMethods<V, S>, v: V, w: World<V, S>, x: Node)
    ensures WalkList(m, v, w, [x]) == Walk(m, v, w, x)
  {
    assert [x][1..] == [];
  }

  lemma PairIsChildrenWalk<V, S>(m: VisitorMethods<V, S>, v: V, w: World<V, S>, x: Node, y: Node)
    ensures WalkList(m, v, w, [x, y]) == Walk(m, v, Walk(m, v, w, x), y)
  {
    assert [x, y][1..] == [y];
    WalkListOne(m, v, Walk(m, v, w, x), y);
  }

  lemma CondIsChildrenWalk<V, S>(m: VisitorMethods<V, S>, v: V, w: World<V, S>, c: Option<Node>, t: Node, e: Option<Node>)
    requires !w.panicked
    ensures Descend(m, v, w, Cond(c, t, e)) == WalkList(m, v, w, Children(Cond(c, t, e)))
  {
    WalkListAppend(m, v, w, OptList(c) + [t], OptList(e));
    WalkListAppend(m, v, w, OptList(c), [t]);
    var w2 := WalkList(m, v, w, OptList(c));
    WalkListOne(m, v, w2, t);
    var w3 := Walk(m, v, w2, t);
    if e.Some? { WalkListOne(m, v, w3, e.value); }
    if c.Some? { WalkListOne(m, v, w, c.value); }
  }

  /** A node whose `VisitBefore` does not return nil is walked as
      `VisitBefore(n)`, then its children in table order, then
      `VisitAfter(n)` last (unless a panic is unwinding). */
  lemma WalkVisitsChildrenInOrder<V, S>(m: VisitorMethods<V, S>, v: V, w: World<V, S>, n: Node)
    requires !w.panicked && !n.Unknown?
    requires m.visitBefore(v, w.state, n).1.Some?
    ensures var w1 := World(w.trace + [Before(v, n, false)], m.visitBefore(v, w.state, n).0, false);
      Walk(m, v, w, n) == Finish(m, v, WalkList(m, v, w1, Children(n)), n)
  {
    var w1 := World(w.trace + [Before(v, n, false)], m.visitBefore(v, w.state, n).0, false);
    DescendIsChildrenWalk(m, v, w1, n);
  }
}
