/** The hook calls of a walk nest like brackets: each unpruned
    `VisitBefore(n)` opens `n`, a pruned one opens and closes at once, and
    `VisitAfter(n)` closes the innermost open node, which is `n`. From this
    the counts follow: no more `VisitAfter` calls than `VisitBefore` calls,
    and as many exactly when nothing was pruned and nothing panicked. */
module Nesting {
  import opened Syntax
  import opened Walker
  import opened VisitorUse

  /** Reads `t` with a stack of open nodes (innermost last); `None` when a
      `VisitAfter` does not close the innermost open node. */
  function Parse<V>(t: seq<Event<V>>, open: seq<Node>): Option<seq<Node>>
    decreases |t|
  {
    if t == [] then Some(open)
    else match t[0]
      case Before(_, n, pruned) => Parse(t[1..], if pruned then open else open + [n])
      case After(_, n) =>
        if |open| > 0 && open[|open| - 1] == n then Parse(t[1..], open[..|open| - 1]) else None
  }

  /** Number of `VisitBefore` calls in `t`. */
  function Befores<V>(t: seq<Event<V>>): nat {
    if t == [] then 0 else (if t[0].Before? then 1 else 0) + Befores(t[1..])
  }

  /** Number of `VisitBefore` calls in `t` that returned nil. */
  function Prunes<V>(t: seq<Event<V>>): (k: nat)
    ensures k <= Befores(t)
  {
    if t == [] then 0 else (if t[0].Before? && t[0].pruned then 1 else 0) + Prunes(t[1..])
  }

  /** Number of `VisitAfter` calls in `t`. */
  function Afters<V>(t: seq<Event<V>>): nat {
    if t == [] then 0 else (if t[0].After? then 1 else 0) + Afters(t[1..])
  }

  /** The events of `r` that came after those of `w`. */
  function Tail<V, S>(w: World<V, S>, r: World<V, S>): seq<Event<V>>
    requires w.trace <= r.trace
  {
    r.trace[|w.trace|..]
  }

  /** `res` parses successfully, keeps the nodes of `open` open, and, when
      `closed`, leaves no other node open. */
  predicate Nested(open: seq<Node>, res: Option<seq<Node>>, closed: bool) {
    res.Some? && open <= res.value && (closed ==> |res.value| == |open|)
  }

  lemma {:induction false} ParseAppend<V>(a: seq<Event<V>>, b: seq<Event<V>>, open: seq<Node>)
    ensures Parse(a + b, open) == match Parse(a, open) case None => None case Some(o) => Parse(b, o)
    decreases |a|
  {
    if a == [] {
      assert a + b == b;
    } else {
      assert (a + b)[0] == a[0] && (a + b)[1..] == a[1..] + b;
      match a[0]
      case Before(_, n, pruned) => ParseAppend(a[1..], b, if pruned then open else open + [n]);
      case After(_, n) =>
        if |open| > 0 && open[|open| - 1] == n {
          ParseAppend(a[1..], b, open[..|open| - 1]);
        }
    }
  }

  /** Joins the nesting of two consecutive stretches of a walk. */
  lemma NestedChain<V, S>(w: World<V, S>, r1: World<V, S>, r2: World<V, S>, open: seq<Node>)
    requires w.trace <= r1.trace <= r2.trace && !r1.panicked
    requires Nested(open, Parse(Tail(w, r1), open), true)
    requires Nested(open, Parse(Tail(r1, r2), open), !r2.panicked)
    ensures Nested(open, Parse(Tail(w, r2), open), !r2.panicked)
  {
    assert Parse(Tail(w, r1), open).value == open;
    assert Tail(w, r2) == Tail(w, r1) + Tail(r1, r2);
    ParseAppend(Tail(w, r1), Tail(r1, r2), open);
  }

  /** A walk of one node leaves the nodes already open untouched; it closes
      everything it opens exactly when it does not panic. */
  lemma {:induction false} WalkNests<V, S>(m: VisitorMethods<V, S>, v: V, w: World<V, S>, n: Node, open: seq<Node>)
    requires !w.panicked
    ensures var r := Walk(m, v, w, n);
      Nested(open, Parse(Tail(w, r), open), !r.panicked) &&
      (r.panicked ==> |Parse(Tail(w, r), open).value| > |open|)
    decreases n, 2
  {
    var r := Walk(m, v, w, n);
    var (s1, next) := m.visitBefore(v, w.state, n);
    var b := Before(v, n, next.None?);
    var w1 := World(w.trace + [b], s1, false);
    if next.None? {
      assert Tail(w, r) == [b];
      assert Parse([b], open) == Parse<V>([], open);
    } else {
      var d := Descend(m, v, w1, n);
      assert r == Finish(m, v, d, n);
      DescendNests(m, v, w1, n, open + [n]);
      BracketNests(v, n, Tail(w1, d), open, !d.panicked);
      assert Tail(w, r) == [b] + Tail(w1, d) + (if d.panicked then [] else [After(v, n)]);
    }
  }

  /** An unpruned `VisitBefore(n)`, a stretch that nests inside `n`, and,
      when that stretch closed everything it opened, `VisitAfter(n)`. */
  lemma BracketNests<V>(v: V, n: Node, inner: seq<Event<V>>, open: seq<Node>, closed: bool)
    requires Nested(open + [n], Parse(inner, open + [n]), closed)
    ensures var t := [Before(v, n, false)] + inner + (if closed then [After(v, n)] else []);
      Nested(open, Parse(t, open), closed) && (!closed ==> |Parse(t, open).value| > |open|)
  {
    var b := Before(v, n, false);
    var a := After(v, n);
    assert Parse([b], open) == Parse<V>([], open + [n]);
    ParseAppend([b], inner, open);
    if closed {
      ParseAppend([b] + inner, [a], open);
      assert Parse(inner, open + [n]).value == open + [n];
      assert Parse([a], open + [n]) == Parse<V>([], open) by {
        assert (open + [n])[..|open|] == open;
      }
    } else {
      assert [b] + inner + [] == [b] + inner;
    }
  }

  lemma {:induction false} DescendNests<V, S>(m: VisitorMethods<V, S>, v: V, w: World<V, S>, n: Node, open: seq<Node>)
    requires !w.panicked
    ensures var r := Descend(m, v, w, n); Nested(open, Parse(Tail(w, r), open), !r.panicked)
    decreases n, 1
  {
    match n
    case StmtList(cs) => ListNests(m, v, w, cs, open);
    case ExprList(cs) => ListNests(m, v, w, cs, open);
    case Cond(c, t, e) => CondNests(m, v, w, c, t, e, open);
    case Builtin(a) =>
      if a.Some? { WalkNests(m, v, w, a.value, open); }
    case BinaryExpr(l, r) => PairNests(m, v, w, n, open);
    case UnaryExpr(l) => WalkNests(m, v, w, l, open);
    case IndexedExpr(l, i) => PairNests(m, v, w, n, open);
    case Def(cs) => ListNests(m, v, w, cs, open);
    case Deco(cs) => ListNests(m, v, w, cs, open);
    case _ =>
  }

  lemma {:induction false} PairNests<V, S>(m: VisitorMethods<V, S>, v: V, w: World<V, S>, n: Node, open: seq<Node>)
    requires !w.panicked && (n.BinaryExpr? || n.IndexedExpr?)
    ensures var r := Descend(m, v, w, n); Nested(open, Parse(Tail(w, r), open), !r.panicked)
    decreases n, 0
  {
    var (x, y) := if n.BinaryExpr? then (n.lhs, n.rhs) else (n.index, n.lhs);
    var w1 := Walk(m, v, w, x);
    WalkNests(m, v, w, x, open);
    if !w1.panicked {
      WalkNests(m, v, w1, y, open);
      NestedChain(w, w1, Walk(m, v, w1, y), open);
    }
  }

  lemma {:induction false} CondNests<V, S>(m: VisitorMethods<V, S>, v: V, w: World<V, S>, c: Option<Node>, t: Node, e: Option<Node>, open: seq<Node>)
    requires !w.panicked
    ensures var r := Descend(m, v, w, Cond(c, t, e)); Nested(open, Parse(Tail(w, r), open), !r.panicked)
    decreases Cond(c, t, e), 0
  {
    var w2 := if c.Some? then Walk(m, v, w, c.value) else w;
    if c.Some? { WalkNests(m, v, w, c.value, open); }
    assert Nested(open, Parse(Tail(w, w2), open), !w2.panicked) by {
      if c.None? { assert Tail(w, w2) == []; }
    }
    if !w2.panicked {
      var w3 := Walk(m, v, w2, t);
      WalkNests(m, v, w2, t, open);
      NestedChain(w, w2, w3, open);
      if !w3.panicked && e.Some? {
        WalkNests(m, v, w3, e.value, open);
        NestedChain(w, w3, Walk(m, v, w3, e.value), open);
      }
    }
  }

  lemma {:induction false} ListNests<V, S>(m: VisitorMethods<V, S>, v: V, w: World<V, S>, nodes: seq<Node>, open: seq<Node>)
    requires !w.panicked
    ensures var r := WalkList(m, v, w, nodes); Nested(open, Parse(Tail(w, r), open), !r.panicked)
    decreases nodes
  {
    if nodes == [] {
      assert Tail(w, w) == [];
    } else {
      var w1 := Walk(m, v, w, nodes[0]);
      WalkNests(m, v, w, nodes[0], open);
      if !w1.panicked {
        ListNests(m, v, w1, nodes[1..], open);
        NestedChain(w, w1, WalkList(m, v, w1, nodes[1..]), open);
      }
    }
  }

  /** Reading `t` from `open` ends with as many open nodes as `open` had,
      plus the unpruned `VisitBefore` calls, less the `VisitAfter` calls. */
  lemma {:induction false} ParseCounts<V>(t: seq<Event<V>>, open: seq<Node>)
    requires Parse(t, open).Some?
    ensures |Parse(t, open).value| + Afters(t) == |open| + Befores(t) - Prunes(t)
    decreases |t|
  {
    if t != [] {
      match t[0]
      case Before(_, n, pruned) => ParseCounts(t[1..], if pruned then open else open + [n]);
      case After(_, n) => ParseCounts(t[1..], open[..|open| - 1]);
    }
  }

  /** A walk calls `VisitAfter` at most as often as `VisitBefore`, and
      exactly as often when no `VisitBefore` returned nil and no node of
      unknown kind was reached. */
  lemma HookCallsBalance<V, S>(m: VisitorMethods<V, S>, v: V, s: S, n: Node)
    ensures var r := Walk(m, v, Start(s), n);
      Afters(r.trace) <= Befores(r.trace) &&
      (Afters(r.trace) == Befores(r.trace) <==> Prunes(r.trace) == 0 && !r.panicked)
  {
    var r := Walk(m, v, Start(s), n);
    WalkNests(m, v, Start(s), n, []);
    assert Tail(Start(s), r) == r.trace;
    ParseCounts(r.trace, []);
  }

  /** Some unpruned `VisitBefore(x)` occurs in `t` before position `j`. */
  ghost predicate OpenedBefore<V>(t: seq<Event<V>>, j: nat, x: Node) {
    exists i :: 0 <= i < j && i < |t| && t[i].Before? && t[i].node == x && !t[i].pruned
  }

  lemma OpenedBeforeShift<V>(t: seq<Event<V>>, j: nat, x: Node)
    requires |t| > 0 && j > 0 && OpenedBefore(t[1..], j - 1, x)
    ensures OpenedBefore(t, j, x)
  {
    var i :| 0 <= i < j - 1 && i < |t[1..]| && t[1..][i].Before? && t[1..][i].node == x && !t[1..][i].pruned;
    assert t[i + 1] == t[1..][i];
  }

  lemma OpenedFirst<V>(t: seq<Event<V>>, j: nat)
    requires 0 < j && 0 < |t| && t[0].Before? && !t[0].pruned
    ensures OpenedBefore(t, j, t[0].node)
  {
    assert t[0].Before? && t[0].node == t[0].node && !t[0].pruned;
  }

  /** In a successfully read stretch every `VisitAfter(n)` closes a node
      that was open at the start or opened by an earlier unpruned
      `VisitBefore(n)`. */
  lemma {:induction false} AfterHasBefore<V>(t: seq<Event<V>>, open: seq<Node>, j: nat)
    requires Parse(t, open).Some? && j < |t| && t[j].After?
    ensures t[j].node in open || OpenedBefore(t, j, t[j].node)
    decreases |t|
  {
    if j > 0 {
      var x := t[j].node;
      var open' := match t[0]
        case Before(_, n, pruned) => if pruned then open else open + [n]
        case After(_, _) => open[..|open| - 1];
      assert Parse(t, open) == Parse(t[1..], open');
      assert t[1..][j - 1] == t[j];
      AfterHasBefore(t[1..], open', j - 1);
      if x !in open {
        if x in open' {
          OpenedFirst(t, j);
        } else {
          OpenedBeforeShift(t, j, x);
        }
      }
    }
  }

  /** Every `VisitAfter(n)` of a walk comes after a `VisitBefore(n)` of the
      same walk that did not return nil. */
  lemma WalkAfterFollowsBefore<V, S>(m: VisitorMethods<V, S>, v: V, s: S, n: Node, j: nat)
    requires j < |Walk(m, v, Start(s), n).trace|
    requires Walk(m, v, Start(s), n).trace[j].After?
    ensures var t := Walk(m, v, Start(s), n).trace;
      exists i :: 0 <= i < j && t[i] == Before(v, t[j].node, false)
  {
    var t := Walk(m, v, Start(s), n).trace;
    WalkNests(m, v, Start(s), n, []);
    assert Tail(Start(s), Walk(m, v, Start(s), n)) == t;
    AfterHasBefore(t, [], j);
    var i :| 0 <= i < j && i < |t| && t[i].Before? && t[i].node == t[j].node && !t[i].pruned;
    HookCallsOnCaller(m, v, Start(s), n);
  }
}
