/** The traversal engine of vm/walk.go: `Walk` and `walknodelist`.

    A Go `Visitor` is an interface value whose methods may read and write
    anything the pass owns. Here a visitor is a value of type `V` (its
    identity), everything its methods can touch is a state of type `S`, and
    `VisitorMethods` gives the behaviour of `VisitBefore` and `VisitAfter`
    for every visitor. `VisitBefore` answers `None` for Go's `nil` and
    `Some(v')` for a non-nil visitor `v'`.

    A walk is run on a `World`: the hook calls made so far (the trace), the
    current state, and whether a panic is unwinding. */
module Walker {
  import opened Syntax

  datatype VisitorMethods<!V, !S> = VisitorMethods(
    visitBefore: (V, S, Node) -> (S, Option<V>),
    visitAfter: (V, S, Node) -> S)

  /** One hook call: `VisitBefore` on `node` (with whether it returned nil),
      or `VisitAfter` on `node`, each made on `visitor`. */
  datatype Event<V> =
    | Before(visitor: V, node: Node, pruned: bool)
    | After(visitor: V, node: Node)

  datatype World<V, S> = World(trace: seq<Event<V>>, state: S, panicked: bool)

  /** A world in state `s` before any hook has been called. */
  function Start<V, S>(s: S): World<V, S> {
    World([], s, false)
  }

  /** The world `w` with the events `p` having happened before it. */
  function Shift<V, S>(p: seq<Event<V>>, w: World<V, S>): World<V, S> {
    World(p + w.trace, w.state, w.panicked)
  }

  /** `v.VisitAfter(n)`, unless a panic is unwinding. */
  function Finish<V, S>(m: VisitorMethods<V, S>, v: V, w: World<V, S>, n: Node): World<V, S> {
    if w.panicked then w
    else World(w.trace + [After(v, n)], m.visitAfter(v, w.state, n), false)
  }

  /** `Walk(v, n)` run on the world `w`. The visitor `VisitBefore` returns is
      only compared with nil; the children and `VisitAfter` are called on
      the caller's `v`. Once a panic is unwinding nothing more happens. */
  function Walk<V, S>(m: VisitorMethods<V, S>, v: V, w: World<V, S>, n: Node): (r: World<V, S>)
    ensures w.trace <= r.trace
    ensures w.panicked ==> r == w
    decreases n, 1
  {
    if w.panicked then w
    else
      var (s1, next) := m.visitBefore(v, w.state, n);
      if next.None? then World(w.trace + [Before(v, n, true)], s1, false)
      else Finish(m, v, Descend(m, v, World(w.trace + [Before(v, n, false)], s1, false), n), n)
  }

  /** The type switch of `Walk`: the children of `n` walked in the order of
      its kind, or a panic for a kind outside the switch. */
  function Descend<V, S>(m: VisitorMethods<V, S>, v: V, w: World<V, S>, n: Node): (r: World<V, S>)
    requires !w.panicked
    ensures w.trace <= r.trace
    decreases n, 0
  {
    match n
    case StmtList(cs) => WalkList(m, v, w, cs)
    case ExprList(cs) => WalkList(m, v, w, cs)
    case Cond(c, t, e) =>
      var w2 := if c.Some? then Walk(m, v, w, c.value) else w;
      var w3 := Walk(m, v, w2, t);
      if e.Some? then Walk(m, v, w3, e.value) else w3
    case Builtin(a) => if a.Some? then Walk(m, v, w, a.value) else w
    case BinaryExpr(l, r) => Walk(m, v, Walk(m, v, w, l), r)
    case UnaryExpr(l) => Walk(m, v, w, l)
    case IndexedExpr(l, i) => Walk(m, v, Walk(m, v, w, i), l)
    case Def(cs) => WalkList(m, v, w, cs)
    case Deco(cs) => WalkList(m, v, w, cs)
    case Unknown => World(w.trace, w.state, true)
    case _ => w
  }

  /** `walknodelist(v, nodes)`: `Walk(v, x)` for each `x` in order. */
  function WalkList<V, S>(m: VisitorMethods<V, S>, v: V, w: World<V, S>, nodes: seq<Node>): (r: World<V, S>)
    ensures w.trace <= r.trace
    ensures w.panicked ==> r == w
    decreases nodes
  {
    if nodes == [] then w
    else WalkList(m, v, Walk(m, v, w, nodes[0]), nodes[1..])
  }
}
