/** Hook-call order per node kind, stated on whole traces for trees of
    recognised kinds: `VisitBefore(n)` first, then the complete trace of each
    child in table order, each child starting from the state the previous
    one left, then `VisitAfter(n)` last. */
module KindOrder {
  import opened Syntax
  import opened Walker
  import opened WalkOrder
  import opened Panics

  /** The traces of walking each of `nodes` from a fresh start, one after
      another from state `s`, concatenated; and the state at the end. */
  function ChildTraces<V, S>(m: VisitorMethods<V, S>, v: V, s: S, nodes: seq<Node>): (seq<Event<V>>, S)
    decreases nodes
  {
    if nodes == [] then ([], s)
    else
      var r := Walk(m, v, Start(s), nodes[0]);
      var rest := ChildTraces(m, v, r.state, nodes[1..]);
      (r.trace + rest.0, rest.1)
  }

  lemma ChildTracesOne<V, S>(m: VisitorMethods<V, S>, v: V, s: S, x: Node)
    ensures var r := Walk(m, v, Start(s), x); ChildTraces(m, v, s, [x]) == (r.trace, r.state)
  {
    var r := Walk(m, v, Start(s), x);
    assert [x][1..] == [];
    assert r.trace + [] == r.trace;
  }

  lemma ChildTracesCons<V, S>(m: VisitorMethods<V, S>, v: V, s: S, x: Node, rest: seq<Node>)
    ensures var r := Walk(m, v, Start(s), x); var ct := ChildTraces(m, v, r.state, rest);
      ChildTraces(m, v, s, [x] + rest) == (r.trace + ct.0, ct.1)
  {
    assert ([x] + rest)[0] == x && ([x] + rest)[1..] == rest;
  }

  lemma KnownChildren(n: Node)
    requires Known(n)
    ensures forall c :: c in Children(n) ==> Known(c)
  {
  }

  /** `walknodelist` over recognised nodes is the in-order concatenation of
      each node's own trace. */
  lemma {:induction false} KnownListIsConcatenation<V, S>(m: VisitorMethods<V, S>, v: V, w: World<V, S>, nodes: seq<Node>)
    requires !w.panicked && forall c :: c in nodes ==> Known(c)
    ensures var ct := ChildTraces(m, v, w.state, nodes);
      WalkList(m, v, w, nodes) == World(w.trace + ct.0, ct.1, false)
    decreases nodes
  {
    if nodes != [] {
      var r1 := Walk(m, v, Start(w.state), nodes[0]);
      WalkFromStart(m, v, w, nodes[0]);
      KnownNeverPanics(m, v, Start(w.state), nodes[0]);
      var w1 := World(w.trace + r1.trace, r1.state, false);
      KnownListIsConcatenation(m, v, w1, nodes[1..]);
      var rest := ChildTraces(m, v, r1.state, nodes[1..]);
      assert w1.trace + rest.0 == w.trace + (r1.trace + rest.0);
    }
  }

  /** A recognised node whose `VisitBefore` does not return nil yields
      `VisitBefore(n)`, its children's traces in table order, and
      `VisitAfter(n)` on the state the last child left. */
  lemma KnownWalkIsBracketed<V, S>(m: VisitorMethods<V, S>, v: V, s: S, n: Node)
    requires Known(n) && m.visitBefore(v, s, n).1.Some?
    ensures var ct := ChildTraces(m, v, m.visitBefore(v, s, n).0, Children(n));
      Walk(m, v, Start(s), n) ==
        World([Before(v, n, false)] + ct.0 + [After(v, n)], m.visitAfter(v, ct.1, n), false)
  {
    var w1 := World([Before(v, n, false)], m.visitBefore(v, s, n).0, false);
    assert Start<V, S>(s).trace + [Before(v, n, false)] == w1.trace;
    WalkVisitsChildrenInOrder(m, v, Start(s), n);
    KnownChildren(n);
    KnownListIsConcatenation(m, v, w1, Children(n));
    var ct := ChildTraces(m, v, w1.state, Children(n));
    assert WalkList(m, v, w1, Children(n)) == World(w1.trace + ct.0, ct.1, false);
  }

  /** An indexed expression walks its index completely before it starts
      on the indexed base. */
  lemma IndexBeforeBase<V, S>(m: VisitorMethods<V, S>, v: V, s: S, base: Node, index: Node)
    requires Known(base) && Known(index)
    requires m.visitBefore(v, s, IndexedExpr(base, index)).1.Some?
    ensures var n := IndexedExpr(base, index);
      var ri := Walk(m, v, Start(m.visitBefore(v, s, n).0), index);
      var rb := Walk(m, v, Start(ri.state), base);
      Walk(m, v, Start(s), n) ==
        World([Before(v, n, false)] + ri.trace + rb.trace + [After(v, n)], m.visitAfter(v, rb.state, n), false)
  {
    var n := IndexedExpr(base, index);
    KnownWalkIsBracketed(m, v, s, n);
    var ri := Walk(m, v, Start(m.visitBefore(v, s, n).0), index);
    var rb := Walk(m, v, Start(ri.state), base);
    ChildTracesOne(m, v, ri.state, base);
    ChildTracesCons(m, v, m.visitBefore(v, s, n).0, index, [base]);
    assert Children(n) == [index] + [base];
  }

  /** A binary expression walks `lhs` completely, then `rhs`. */
  lemma LhsBeforeRhs<V, S>(m: VisitorMethods<V, S>, v: V, s: S, lhs: Node, rhs: Node)
    requires Known(lhs) && Known(rhs)
    requires m.visitBefore(v, s, BinaryExpr(lhs, rhs)).1.Some?
    ensures var n := BinaryExpr(lhs, rhs);
      var rl := Walk(m, v, Start(m.visitBefore(v, s, n).0), lhs);
      var rr := Walk(m, v, Start(rl.state), rhs);
      Walk(m, v, Start(s), n) ==
        World([Before(v, n, false)] + rl.trace + rr.trace + [After(v, n)], m.visitAfter(v, rr.state, n), false)
  {
    var n := BinaryExpr(lhs, rhs);
    KnownWalkIsBracketed(m, v, s, n);
    var rl := Walk(m, v, Start(m.visitBefore(v, s, n).0), lhs);
    var rr := Walk(m, v, Start(rl.state), rhs);
    ChildTracesOne(m, v, rl.state, rhs);
    ChildTracesCons(m, v, m.visitBefore(v, s, n).0, lhs, [rhs]);
    assert Children(n) == [lhs] + [rhs];
  }

  /** A condition with all three parts walks `cond`, `truthNode` and
      `elseNode`, each completely before the next. */
  lemma CondInOrder<V, S>(m: VisitorMethods<V, S>, v: V, s: S, c: Node, t: Node, e: Node)
    requires Known(c) && Known(t) && Known(e)
    requires m.visitBefore(v, s, Cond(Some(c), t, Some(e))).1.Some?
    ensures var n := Cond(Some(c), t, Some(e));
      var rc := Walk(m, v, Start(m.visitBefore(v, s, n).0), c);
      var rt := Walk(m, v, Start(rc.state), t);
      var re := Walk(m, v, Start(rt.state), e);
      Walk(m, v, Start(s), n) ==
        World([Before(v, n, false)] + rc.trace + rt.trace + re.trace + [After(v, n)], m.visitAfter(v, re.state, n), false)
  {
    var n := Cond(Some(c), t, Some(e));
    var s1 := m.visitBefore(v, s, n).0;
    var rc := Walk(m, v, Start(s1), c);
    var rt := Walk(m, v, Start(rc.state), t);
    var re := Walk(m, v, Start(rt.state), e);
    CondChildren(c, t, e);
    ThreeChildTraces(m, v, s1, c, t, e);
    var ct := ChildTraces(m, v, s1, Children(n));
    assert ct == (rc.trace + rt.trace + re.trace, re.state);
    KnownWalkIsBracketed(m, v, s, n);
    assert Walk(m, v, Start(s), n) == World([Before(v, n, false)] + ct.0 + [After(v, n)], m.visitAfter(v, ct.1, n), false);
  }

  lemma CondChildren(c: Node, t: Node, e: Node)
    ensures Children(Cond(Some(c), t, Some(e))) == [c, t, e]
  {
    assert OptList(Some(c)) == [c] && OptList(Some(e)) == [e];
  }

  lemma ThreeChildTraces<V, S>(m: VisitorMethods<V, S>, v: V, s: S, x: Node, y: Node, z: Node)
    ensures var rx := Walk(m, v, Start(s), x);
      var ry := Walk(m, v, Start(rx.state), y);
      var rz := Walk(m, v, Start(ry.state), z);
      ChildTraces(m, v, s, [x, y, z]) == (rx.trace + ry.trace + rz.trace, rz.state)
  {
    var rx := Walk(m, v, Start(s), x);
    var ry := Walk(m, v, Start(rx.state), y);
    var rz := Walk(m, v, Start(ry.state), z);
    ChildTracesOne(m, v, ry.state, z);
    ChildTracesCons(m, v, rx.state, y, [z]);
    assert ChildTraces(m, v, rx.state, [y] + [z]) == (ry.trace + rz.trace, rz.state);
    ChildTracesCons(m, v, s, x, [y] + [z]);
    assert ChildTraces(m, v, s, [x] + ([y] + [z])) == (rx.trace + (ry.trace + rz.trace), rz.state);
    assert rx.trace + (ry.trace + rz.trace) == rx.trace + ry.trace + rz.trace;
    assert [x, y, z] == [x] + ([y] + [z]);
  }
}
