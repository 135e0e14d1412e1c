/** Concrete walks of one small tree, a condition whose `cond` is a binary
    expression of two integer constants and whose `truthNode` is a statement
    list holding `next`, with no `elseNode`. */
module Scenario {
  import opened Syntax
  import opened Walker

  function Tree(): Node {
    Cond(Some(BinaryExpr(IntConst, IntConst)), StmtList([Next]), None)
  }

  /** Visitors are numbered and the state counts hook calls. `VisitBefore`
      never returns nil but always hands back a different visitor,
      `v + 1`. */
  ghost predicate Counting(m: VisitorMethods<int, int>) {
    forall v, s, n :: m.visitBefore(v, s, n) == (s + 1, Some(v + 1)) && m.visitAfter(v, s, n) == s + 1
  }

  /** As `Counting`, but `VisitBefore` returns nil for binary expressions
      and otherwise hands back the visitor it was called on. */
  ghost predicate PruningBinary(m: VisitorMethods<int, int>) {
    forall v, s, n ::
      m.visitBefore(v, s, n) == (s + 1, if n.BinaryExpr? then None else Some(v)) && m.visitAfter(v, s, n) == s + 1
  }

  /** The binary expression of `Tree` with `Counting`: it opens, both
      constants are walked in order, and it closes. */
  lemma CountingBinary(m: VisitorMethods<int, int>, w: World<int, int>)
    requires Counting(m) && !w.panicked
    ensures var bin := BinaryExpr(IntConst, IntConst);
      Walk(m, 0, w, bin) == World(w.trace + [
        Before(0, bin, false),
        Before(0, IntConst, false), After(0, IntConst),
        Before(0, IntConst, false), After(0, IntConst),
        After(0, bin)], w.state + 6, false)
  {
    var bin := BinaryExpr(IntConst, IntConst);
    var b0 := World(w.trace + [Before(0, bin, false)], w.state + 1, false);
    var b1 := Walk(m, 0, b0, IntConst);
    assert b1 == World(b0.trace + [Before(0, IntConst, false), After(0, IntConst)], w.state + 3, false);
    var b2 := Walk(m, 0, b1, IntConst);
    assert b2 == World(b1.trace + [Before(0, IntConst, false), After(0, IntConst)], w.state + 5, false);
  }

  /** The statement list of `Tree`, with `next` in it. */
  lemma CountingList(m: VisitorMethods<int, int>, w: World<int, int>)
    requires Counting(m) && !w.panicked
    ensures var list := StmtList([Next]);
      Walk(m, 0, w, list) == World(w.trace + [
        Before(0, list, false), Before(0, Next, false), After(0, Next), After(0, list)], w.state + 4, false)
  {
    var list := StmtList([Next]);
    var l0 := World(w.trace + [Before(0, list, false)], w.state + 1, false);
    var l1 := Walk(m, 0, l0, Next);
    assert l1 == World(l0.trace + [Before(0, Next, false), After(0, Next)], w.state + 3, false);
    assert [Next][1..] == [];
    assert WalkList(m, 0, l0, [Next]) == l1;
  }

  /** The whole trace: the condition opens, its binary `cond` is walked
      completely (both constants in order), then the statement list with
      `next`, and the condition closes last. Every call goes to visitor 0
      although each `VisitBefore` handed back visitor 1. */
  lemma CountingTrace(m: VisitorMethods<int, int>, w: World<int, int>)
    requires Counting(m) && !w.panicked
    ensures var bin := BinaryExpr(IntConst, IntConst);
      var list := StmtList([Next]);
      Walk(m, 0, w, Tree()) == World(w.trace + [
        Before(0, Tree(), false),
        Before(0, bin, false),
        Before(0, IntConst, false), After(0, IntConst),
        Before(0, IntConst, false), After(0, IntConst),
        After(0, bin),
        Before(0, list, false),
        Before(0, Next, false), After(0, Next),
        After(0, list),
        After(0, Tree())], w.state + 12, false)
  {
    var w1 := World(w.trace + [Before(0, Tree(), false)], w.state + 1, false);
    CountingBinary(m, w1);
    var wb := Walk(m, 0, w1, BinaryExpr(IntConst, IntConst));
    CountingList(m, wb);
    var wl := Walk(m, 0, wb, StmtList([Next]));
    assert Descend(m, 0, w1, Tree()) == wl;
    assert wl.trace + [After(0, Tree())] == w.trace + [
        Before(0, Tree(), false),
        Before(0, BinaryExpr(IntConst, IntConst), false),
        Before(0, IntConst, false), After(0, IntConst),
        Before(0, IntConst, false), After(0, IntConst),
        After(0, BinaryExpr(IntConst, IntConst)),
        Before(0, StmtList([Next]), false),
        Before(0, Next, false), After(0, Next),
        After(0, StmtList([Next])),
        After(0, Tree())];
  }

  /** Pruning the binary expression records its `VisitBefore` alone: no
      constant is visited and there is no `VisitAfter` for it. */
  lemma PruningTrace(m: VisitorMethods<int, int>, w: World<int, int>)
    requires PruningBinary(m) && !w.panicked
    ensures var list := StmtList([Next]);
      Walk(m, 0, w, Tree()) == World(w.trace + [
        Before(0, Tree(), false),
        Before(0, BinaryExpr(IntConst, IntConst), true),
        Before(0, list, false),
        Before(0, Next, false), After(0, Next),
        After(0, list),
        After(0, Tree())], w.state + 7, false)
  {
    var list := StmtList([Next]);
    var w1 := World(w.trace + [Before(0, Tree(), false)], w.state + 1, false);
    var wb := Walk(m, 0, w1, BinaryExpr(IntConst, IntConst));
    assert wb == World(w1.trace + [Before(0, BinaryExpr(IntConst, IntConst), true)], w.state + 2, false);
    var l0 := World(wb.trace + [Before(0, list, false)], w.state + 3, false);
    var l1 := Walk(m, 0, l0, Next);
    assert l1 == World(l0.trace + [Before(0, Next, false), After(0, Next)], w.state + 5, false);
    assert [Next][1..] == [];
    assert WalkList(m, 0, l0, [Next]) == l1;
  }

  /** An unknown node as `truthNode` panics after its `VisitBefore`: the
      condition never gets its `VisitAfter`. */
  lemma UnknownTruthPanics(m: VisitorMethods<int, int>, w: World<int, int>)
    requires Counting(m) && !w.panicked
    ensures Walk(m, 0, w, Cond(None, Unknown, None)) ==
      World(w.trace + [Before(0, Cond(None, Unknown, None), false), Before(0, Unknown, false)], w.state + 2, true)
  {
  }
}
