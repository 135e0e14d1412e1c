# mtail syntax-tree walk, modelled in Dafny

mtail compiles its log-processing programs through several passes over a
syntax tree: type checking, code generation and others. Every pass is a
`Visitor`, and `Walk` in vm/walk.go drives it.

`Walk(v, n)` does the following:
- It calls `v.VisitBefore(n)`.
- If that returns nil, it stops at once.
- Otherwise it walks the children of `n` in a fixed order for each node
  kind, then calls `v.VisitAfter(n)`.
- A node of a kind the type switch does not list makes it panic.

`walknodelist` walks the nodes of a list in order.

The model is pure, like the source. Functions compute a walk and lemmas
state its properties.

- A syntax tree is the datatype `Syntax.Node`. It keeps one variant per
  kind in the type switch, plus `Unknown` for every other kind. Only the
  children that the walk reads are kept.
- A visitor is split into two parts:
  - `V` is which visitor a hook call is made on.
  - `S` is everything its methods can read and write.

  `VisitorMethods` gives `VisitBefore` and `VisitAfter` as functions of
  the visitor, the state and the node. A nil result from `VisitBefore` is
  `None`.
- A walk runs on a `World`, which holds three things: the hook calls made
  so far, the state, and whether a panic is unwinding. Each hook call
  records the visitor it was made on. A `VisitBefore` call also records
  whether it returned nil.

At vm/walk.go:26 the visitor that `VisitBefore` returns goes into a
variable that lives only inside the `if`, and it is only compared with nil.
The children (vm/walk.go:31-65) and `VisitAfter` (vm/walk.go:74) are walked
with the caller's `v`. The doc comment at vm/walk.go:8-10 says instead that
the children are visited with the returned visitor. The model follows the
code. `VisitorUse` proves the consequence: every hook call goes to the
caller's `v`, and which non-nil visitor comes back makes no difference.

## Model

| member | source | states |
|---|---|---|
| Walker.Walk | vm/walk.go:23-75 | A walk only appends hook calls to those made before it. Once a panic is unwinding, a walk does nothing. |
| Walker.Descend | vm/walk.go:30-72 | The type switch only appends hook calls. |
| Walker.WalkList | vm/walk.go:17-21 | `walknodelist` only appends hook calls, and does nothing while a panic unwinds. |
| WalkOrder.WalkPruned | vm/walk.go:24-28 | When `VisitBefore(n)` returns nil, the walk of `n` is exactly that one call. No descendant is visited and `VisitAfter(n)` is not called. This holds even for a node of unknown kind. |
| WalkOrder.WalkTerminal | vm/walk.go:67-68 | An unpruned terminal of any of the nine leaf kinds gives exactly `VisitBefore(n)` then `VisitAfter(n)`. |
| WalkOrder.DescendIsChildrenWalk | vm/walk.go:30-69 | For every recognised kind, the type switch walks exactly the children of the reference table `Children`, in table order. A condition's `cond` and `elseNode` and a builtin's `args` are walked only when present. |
| WalkOrder.WalkVisitsChildrenInOrder | vm/walk.go:26-74 | An unpruned node of a recognised kind is walked as `VisitBefore(n)`, then `walknodelist` over its table children, then `VisitAfter(n)`. |
| WalkOrder.WalkShift | vm/walk.go:23-75 | Hook calls made before a walk do not change it. The walk from a longer history is the same walk with that history in front. |
| WalkOrder.WalkFromStart | vm/walk.go:23-75 | A walk from any history is the walk from a fresh start in the same state, with that history in front. |
| WalkOrder.WalkListAppend | vm/walk.go:17-21 | `walknodelist` over `xs + ys` is `walknodelist` over `xs` followed by `walknodelist` over `ys`. |
| WalkOrder.WalkListCons | vm/walk.go:17-21 | Each list element is walked completely, from the state the previous one left, before the next starts. A panic in an element ends the list walk. |
| KindOrder.KnownListIsConcatenation | vm/walk.go:17-21 | Over recognised nodes, `walknodelist` gives the in-order concatenation of each node's own trace, each started from the state the previous one left. |
| KindOrder.KnownWalkIsBracketed | vm/walk.go:26-74 | For an unpruned tree of recognised kinds, the trace is `VisitBefore(n)`, then the concatenated traces of the table children, then `VisitAfter(n)` on the state the last child left. |
| KindOrder.CondInOrder | vm/walk.go:36-43 | A condition with all three parts walks `cond`, then `truthNode`, then `elseNode`. Each finishes before the next begins. |
| KindOrder.LhsBeforeRhs | vm/walk.go:50-52 | A binary expression walks `lhs` completely, then `rhs`. |
| KindOrder.IndexBeforeBase | vm/walk.go:57-59 | An indexed expression walks `index` completely before its base `lhs`. |
| Panics.UnknownPanics | vm/walk.go:70-71 | An unpruned node of unknown kind records its `VisitBefore` and then panics, with no `VisitAfter`. |
| Panics.KnownNeverPanics | vm/walk.go:70-71 | A tree made only of recognised kinds never reaches the `default:` branch, so `Walk` itself never panics on it. |
| Panics.PanicEndsAtUnknown | vm/walk.go:70-71 | When `Walk` panics in its `default:` branch, the last hook call is the non-nil `VisitBefore` of that node of unknown kind. Nothing is called after the panic. |
| VisitorUse.HookCallsOnCaller | vm/walk.go:26-74 | Every `VisitBefore` and `VisitAfter` of a walk, at every depth, is called on the visitor the walk started with. |
| VisitorUse.ReturnedVisitorIgnored | vm/walk.go:26 | Two visitor behaviours that differ only in which non-nil visitor `VisitBefore` returns give identical walks. |
| VisitorUse.SubstituteNeverUsed | vm/walk.go:26 | A `VisitBefore` that hands back a substitute visitor gives the same walk as one that hands back the caller itself. |
| Nesting.WalkNests | vm/walk.go:26-74 | A walk's hook calls nest like brackets. Each `VisitAfter(n)` closes the innermost open node, which is `n`. Nodes already open stay open. Everything the walk opens is closed exactly when it does not panic. |
| Nesting.HookCallsBalance | vm/walk.go:26-74 | A walk makes at most as many `VisitAfter` calls as `VisitBefore` calls. The counts are equal exactly when no `VisitBefore` returned nil and no panic happened. |
| Nesting.AfterHasBefore | vm/walk.go:26-74 | In a well-nested stretch of hook calls, each `VisitAfter(n)` closes a node that was already open or that an earlier unpruned `VisitBefore(n)` opened. |
| Nesting.WalkAfterFollowsBefore | vm/walk.go:26-74 | Every `VisitAfter(n)` of a walk comes after a non-nil `VisitBefore` of a node equal to `n` in the same walk, on the same visitor. |
| Scenario.CountingTrace | vm/walk.go:36-74 | The whole hook-call sequence of a sample tree: a condition whose `cond` is a binary expression and whose `truthNode` is a statement list. Every call goes to the original visitor even though each `VisitBefore` returns a new one. |
| Scenario.PruningTrace | vm/walk.go:24-28 | In the same sample tree, a nil from `VisitBefore` on the binary expression skips both of its operands and its `VisitAfter`. |
| Scenario.UnknownTruthPanics | vm/walk.go:36-71 | A condition whose `truthNode` is of unknown kind panics after that node's `VisitBefore`, and the condition gets no `VisitAfter`. |

## Left out

- Node payloads (regex text, identifiers, constant values) and node
  positions are not modelled. The walk never reads them.
- A nil `truthNode` and nil mandatory children (`lhs`, `rhs`, `index`) are
  not modelled; the datatype makes these children mandatory. In Go, such a
  nil child is passed to `VisitBefore`; if that returns non-nil, the walk
  falls into the panic branch.
- The text of the panic message (the node's type and value) is not modelled. A
  panic is recorded as a flag on the world.
- Recursion depth and stack exhaustion are not modelled.
- Concrete visitors (the type checker, the code generator and the other
  passes) are not part of this model. Visitor behaviour is an arbitrary
  pair of functions on an abstract state.
- Go's interface dispatch, aliasing between visitors, and side effects
  outside the state `S` are not modelled.
- The lexer, the parser and the virtual machine are not part of this model.
- Nesting.HookCallsBalance: "counts equal exactly when nothing was pruned"
  also requires that no panic happened. A walk that panics makes fewer
  `VisitAfter` calls without pruning anything.
- Hooks always return: `VisitBefore` and `VisitAfter` are total functions,
  so a hook that panics (a visitor's own fatal error unwinding through
  `Walk`) is not modelled. The only panic in the model is the `default:`
  branch of vm/walk.go:70-71.
- Panics.KnownNeverPanics: promises only that `Walk`'s own `default:`
  branch is not reached; a panicking hook is outside the model.
- Panics.PanicEndsAtUnknown: covers only `Walk`'s own panic; with a
  panicking `VisitAfter`, that call would be the last one.
- Node identity: Go nodes are pointers, the model's nodes are values, so
  two distinct nodes of the same shape give equal events.
  Nesting.WalkAfterFollowsBefore therefore finds an earlier `VisitBefore`
  of an equal node, not necessarily the node's own one; the positional
  pairing is the one `Nesting.WalkNests` states through `Parse`.
