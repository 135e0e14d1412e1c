/** The `default:` branch of the type switch: a node of a kind the switch
    does not list makes `Walk` panic right after its `VisitBefore`, and the
    panic unwinds every enclosing walk without further hook calls. */
module Panics {
  import opened Syntax
  import opened Walker

  /** An unpruned node of unknown kind panics after `VisitBefore`, before
      any `VisitAfter`. */
  lemma UnknownPanics<V, S>(m: VisitorMethods<V, S>, v: V, w: World<V, S>)
    requires !w.panicked
    requires m.visitBefore(v, w.state, Unknown).1.Some?
    ensures Walk(m, v, w, Unknown) ==
      World(w.trace + [Before(v, Unknown, false)], m.visitBefore(v, w.state, Unknown).0, true)
  {
  }

  /** A tree made only of recognised kinds never reaches the `default:`
      branch, so `Walk` itself never panics on it. */
  lemma {:induction false} KnownNeverPanics<V, S>(m: VisitorMethods<V, S>, v: V, w: World<V, S>, n: Node)
    requires Known(n)
    ensures Walk(m, v, w, n).panicked == w.panicked
    decreases n, 1
  {
    if !w.panicked {
      var (s1, next) := m.visitBefore(v, w.state, n);
      if next.Some? {
        KnownDescendNeverPanics(m, v, World(w.trace + [Before(v, n, false)], s1, false), n);
      }
    }
  }

  lemma {:induction false} KnownDescendNeverPanics<V, S>(m: VisitorMethods<V, S>, v: V, w: World<V, S>, n: Node)
    requires !w.panicked && Known(n)
    ensures !Descend(m, v, w, n).panicked
    decreases n, 0
  {
    match n
    case StmtList(cs) => KnownListNeverPanics(m, v, w, cs);
    case ExprList(cs) => KnownListNeverPanics(m, v, w, cs);
    case Cond(c, t, e) =>
      var w2 := if c.Some? then Walk(m, v, w, c.value) else w;
      if c.Some? { KnownNeverPanics(m, v, w, c.value); }
      KnownNeverPanics(m, v, w2, t);
      if e.Some? { KnownNeverPanics(m, v, Walk(m, v, w2, t), e.value); }
    case Builtin(a) =>
      if a.Some? { KnownNeverPanics(m, v, w, a.value); }
    case BinaryExpr(l, r) =>
      KnownNeverPanics(m, v, w, l);
      KnownNeverPanics(m, v, Walk(m, v, w, l), r);
    case UnaryExpr(l) => KnownNeverPanics(m, v, w, l);
    case IndexedExpr(l, i) =>
      KnownNeverPanics(m, v, w, i);
      KnownNeverPanics(m, v, Walk(m, v, w, i), l);
    case Def(cs) => KnownListNeverPanics(m, v, w, cs);
    case Deco(cs) => KnownListNeverPanics(m, v, w, cs);
    case _ =>
  }

  lemma {:induction false} KnownListNeverPanics<V, S>(m: VisitorMethods<V, S>, v: V, w: World<V, S>, nodes: seq<Node>)
    requires forall c :: c in nodes ==> Known(c)
    ensures WalkList(m, v, w, nodes).panicked == w.panicked
    decreases nodes
  {
    if nodes != [] {
      KnownNeverPanics(m, v, w, nodes[0]);
      KnownListNeverPanics(m, v, Walk(m, v, w, nodes[0]), nodes[1..]);
    }
  }

  /** If `r` has panicked, its last hook call was the `VisitBefore` on
      visitor `v` of a node of unknown kind that did not return nil. */
  ghost predicate EndsAtUnknown<V, S>(v: V, r: World<V, S>) {
    r.panicked ==> |r.trace| > 0 && r.trace[|r.trace| - 1] == Before(v, Unknown, false)
  }

  /** A walk that panics has made as its last hook call the `VisitBefore`
      of a node of unknown kind that did not return nil: nothing is called
      after the panic. */
  lemma {:induction false} PanicEndsAtUnknown<V, S>(m: VisitorMethods<V, S>, v: V, w: World<V, S>, n: Node)
    requires !w.panicked
    ensures EndsAtUnknown(v, Walk(m, v, w, n))
    decreases n, 2
  {
    var (s1, next) := m.visitBefore(v, w.state, n);
    if next.Some? {
      var w1 := World(w.trace + [Before(v, n, false)], s1, false);
      var d := Descend(m, v, w1, n);
      DescendPanicEndsAtUnknown(m, v, w1, n);
      assert Walk(m, v, w, n) == Finish(m, v, d, n);
    }
  }

  lemma {:induction false} DescendPanicEndsAtUnknown<V, S>(m: VisitorMethods<V, S>, v: V, w: World<V, S>, n: Node)
    requires !w.panicked && |w.trace| > 0 && w.trace[|w.trace| - 1] == Before(v, n, false)
    ensures EndsAtUnknown(v, Descend(m, v, w, n))
    decreases n, 1
  {
    match n
    case StmtList(cs) => ListPanicEndsAtUnknown(m, v, w, cs);
    case ExprList(cs) => ListPanicEndsAtUnknown(m, v, w, cs);
    case Cond(c, t, e) => CondPanicEndsAtUnknown(m, v, w, n);
    case Builtin(a) =>
      if a.Some? { PanicEndsAtUnknown(m, v, w, a.value); }
    case BinaryExpr(l, r) => PairPanicEndsAtUnknown(m, v, w, n);
    case UnaryExpr(l) => PanicEndsAtUnknown(m, v, w, l);
    case IndexedExpr(l, i) => PairPanicEndsAtUnknown(m, v, w, n);
    case Def(cs) => ListPanicEndsAtUnknown(m, v, w, cs);
    case Deco(cs) => ListPanicEndsAtUnknown(m, v, w, cs);
    case Unknown =>
    case _ => assert !Descend(m, v, w, n).panicked;
  }

  /** The two-child kinds, walked first child then second. */
  lemma {:induction false} PairPanicEndsAtUnknown<V, S>(m: VisitorMethods<V, S>, v: V, w: World<V, S>, n: Node)
    requires !w.panicked && (n.BinaryExpr? || n.IndexedExpr?)
    ensures EndsAtUnknown(v, Descend(m, v, w, n))
    decreases n, 0
  {
    var (x, y) := if n.BinaryExpr? then (n.lhs, n.rhs) else (n.index, n.lhs);
    var w1 := Walk(m, v, w, x);
    assert Descend(m, v, w, n) == Walk(m, v, w1, y);
    PanicEndsAtUnknown(m, v, w, x);
    if !w1.panicked { PanicEndsAtUnknown(m, v, w1, y); }
  }

  lemma {:induction false} CondPanicEndsAtUnknown<V, S>(m: VisitorMethods<V, S>, v: V, w: World<V, S>, n: Node)
    requires !w.panicked && n.Cond?
    ensures EndsAtUnknown(v, Descend(m, v, w, n))
    decreases n, 0
  {
    var w2 := if n.cond.Some? then Walk(m, v, w, n.cond.value) else w;
    var w3 := Walk(m, v, w2, n.truthNode);
    var r := if n.elseNode.Some? then Walk(m, v, w3, n.elseNode.value) else w3;
    assert Descend(m, v, w, n) == r;
    if n.cond.Some? { PanicEndsAtUnknown(m, v, w, n.cond.value); }
    if !w2.panicked {
      PanicEndsAtUnknown(m, v, w2, n.truthNode);
      if !w3.panicked && n.elseNode.Some? { PanicEndsAtUnknown(m, v, w3, n.elseNode.value); }
    }
  }

  lemma {:induction false} ListPanicEndsAtUnknown<V, S>(m: VisitorMethods<V, S>, v: V, w: World<V, S>, nodes: seq<Node>)
    requires !w.panicked
    ensures EndsAtUnknown(v, WalkList(m, v, w, nodes))
    decreases nodes
  {
    if nodes != [] {
      var w1 := Walk(m, v, w, nodes[0]);
      PanicEndsAtUnknown(m, v, w, nodes[0]);
      if !w1.panicked {
        ListPanicEndsAtUnknown(m, v, w1, nodes[1..]);
      }
    }
  }
}
