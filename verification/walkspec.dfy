/**
 * What one run of the traversal engine does, as functions of the arena:
 * the identity-deduplicated depth-first walk of cc/walk.go:40-103 (the same
 * code appears again at cc/expr.go:207-270). The walk fires an `Enter` event
 * where the source calls `before` and an `Exit` event where it calls
 * `after`; a panic ends the run with `ok == false`.
 */
module WalkSpec {
  import opened Wrappers
  import opened Syntax

  /**
   * The keys the `seen` map starts with: the untyped nil and the typed nils
   * of Decl, Init, Type, Expr, Stmt and Label (cc/walk.go:15-23, 28-36).
   * The nil `*Prog` is not among them.
   */
  const Sentinels: set<Ref> :=
    {Nil, NilOf(DeclKind), NilOf(InitKind), NilOf(TypeKind), NilOf(ExprKind), NilOf(StmtKind), NilOf(LabelKind)}

  /** A callback: `before(x, depth)` or `after(x, depth)`. */
  datatype Event = Enter(node: Ref, depth: nat) | Exit(node: Ref, depth: nat)

  /** The state a walk leaves behind: the seen set, the callbacks fired, and whether it ran to the end. */
  datatype Outcome = Outcome(seen: set<Ref>, events: seq<Event>, ok: bool)

  /** The references to arena nodes; each can be added to `seen` once. */
  function Nodes(arena: seq<Node>): set<Ref> {
    set i: nat | i < |arena| :: Ptr(i)
  }

  /** The children the type switch descends into, or None where it panics (a nil `*Prog` or an unknown type). */
  function ChildrenToWalk(arena: seq<Node>, x: Ref): (r: Option<seq<Ref>>)
    ensures r.Some? <==> IsNode(arena, x)
  {
    if IsNode(arena, x) then Some(Children(arena[x.id])) else None
  }

  /** `walk(x, ..., seen, depth)`. */
  function Walk1(arena: seq<Node>, x: Ref, depth: nat, seen: set<Ref>): (r: Outcome)
    ensures seen + {x} <= r.seen
    decreases Nodes(arena) - seen, 1
  {
    if x in seen then Outcome(seen, [], true)
    else
      var seen1 := seen + {x};
      match ChildrenToWalk(arena, x)
      case None => Outcome(seen1, [Enter(x, depth)], false)
      case Some(kids) =>
        assert x == Ptr(x.id) && x in Nodes(arena);
        var r := WalkList(arena, kids, depth + 1, seen1);
        Outcome(r.seen, [Enter(x, depth)] + r.events + (if r.ok then [Exit(x, depth)] else []), r.ok)
  }

  /** One `walk` per element, in order, until one of them panics. */
  function WalkList(arena: seq<Node>, xs: seq<Ref>, depth: nat, seen: set<Ref>): (r: Outcome)
    ensures seen <= r.seen
    decreases Nodes(arena) - seen, 2, |xs|
  {
    if xs == [] then Outcome(seen, [], true)
    else
      var r1 := Walk1(arena, xs[0], depth, seen);
      if !r1.ok then r1
      else
        var r2 := WalkList(arena, xs[1..], depth, r1.seen);
        Outcome(r2.seen, r1.events + r2.events, r2.ok)
  }

  /** `WalkIndent(x, before, after)`: a walk from depth 0 with the pre-seeded map (cc/walk.go:27-38). */
  function WalkFrom(arena: seq<Node>, root: Ref): Outcome {
    Walk1(arena, root, 0, Sentinels)
  }

  /** The callbacks `before`/`after` of node `x` around those of its subtree. */
  function Around(x: Ref, depth: nat, inner: seq<Event>): seq<Event> {
    [Enter(x, depth)] + inner + [Exit(x, depth)]
  }

  // ----- splitting a list walk -----

  /** Walking `xs + ys` walks `xs`, then, if that did not panic, walks `ys` from where it left off. */
  lemma {:induction false} WalkListAppend(arena: seq<Node>, xs: seq<Ref>, ys: seq<Ref>, depth: nat, seen: set<Ref>)
    ensures var a := WalkList(arena, xs, depth, seen);
            WalkList(arena, xs + ys, depth, seen) ==
              if !a.ok then a
              else var b := WalkList(arena, ys, depth, a.seen); Outcome(b.seen, a.events + b.events, b.ok)
    decreases |xs|
  {
    if xs == [] {
      assert xs + ys == ys;
    } else {
      assert (xs + ys)[0] == xs[0] && (xs + ys)[1..] == xs[1..] + ys;
      var r1 := Walk1(arena, xs[0], depth, seen);
      if r1.ok {
        WalkListAppend(arena, xs[1..], ys, depth, r1.seen);
        var a' := WalkList(arena, xs[1..], depth, r1.seen);
        if a'.ok {
          var b := WalkList(arena, ys, depth, a'.seen);
          assert r1.events + (a'.events + b.events) == (r1.events + a'.events) + b.events;
        }
      }
    }
  }

  /** A one-element list walk is a single `walk`. */
  lemma WalkListSingle(arena: seq<Node>, x: Ref, depth: nat, seen: set<Ref>)
    ensures WalkList(arena, [x], depth, seen) == Walk1(arena, x, depth, seen)
  {
    var r1 := Walk1(arena, x, depth, seen);
    assert [x][1..] == [];
    assert r1.events + [] == r1.events;
  }

  /** A two-element list walk: the first `walk`, then, unless it panicked, the second. */
  lemma WalkListPair(arena: seq<Node>, x: Ref, y: Ref, depth: nat, seen: set<Ref>)
    ensures var a := Walk1(arena, x, depth, seen);
            WalkList(arena, [x, y], depth, seen) ==
              if !a.ok then a
              else var b := Walk1(arena, y, depth, a.seen); Outcome(b.seen, a.events + b.events, b.ok)
  {
    var a := Walk1(arena, x, depth, seen);
    assert [x, y] == [x] + [y];
    WalkListAppend(arena, [x], [y], depth, seen);
    WalkListSingle(arena, x, depth, seen);
    if a.ok {
      WalkListSingle(arena, y, depth, a.seen);
    }
  }

  /** The elements of `xs` the pre-seeded map does not already hold. */
  function Live(xs: seq<Ref>): seq<Ref> {
    if xs == [] then [] else (if xs[0] in Sentinels then [] else [xs[0]]) + Live(xs[1..])
  }

  /** Absent children are a silent no-op: as long as the nil keys are seen, walking a list skips them. */
  lemma {:induction false} NilChildrenSkipped(arena: seq<Node>, xs: seq<Ref>, depth: nat, seen: set<Ref>)
    requires Sentinels <= seen
    ensures WalkList(arena, xs, depth, seen) == WalkList(arena, Live(xs), depth, seen)
    decreases |xs|
  {
    if xs != [] {
      var r1 := Walk1(arena, xs[0], depth, seen);
      NilChildrenSkipped(arena, xs[1..], depth, r1.seen);
      if xs[0] in Sentinels {
        assert r1 == Outcome(seen, [], true);
        assert Live(xs) == Live(xs[1..]);
        var r2 := WalkList(arena, xs[1..], depth, seen);
        assert [] + r2.events == r2.events;
      } else {
        assert Live(xs) == [xs[0]] + Live(xs[1..]);
        WalkListAppend(arena, [xs[0]], Live(xs[1..]), depth, seen);
        WalkListSingle(arena, xs[0], depth, seen);
      }
    }
  }

  // ----- bookkeeping: every node entered once, every entered node added to seen -----

  function Entered(es: seq<Event>): seq<Ref> {
    if es == [] then [] else (if es[0].Enter? then [es[0].node] else []) + Entered(es[1..])
  }

  function Exited(es: seq<Event>): seq<Ref> {
    if es == [] then [] else (if es[0].Exit? then [es[0].node] else []) + Exited(es[1..])
  }

  lemma {:induction false} EnteredExitedAppend(a: seq<Event>, b: seq<Event>)
    ensures Entered(a + b) == Entered(a) + Entered(b)
    ensures Exited(a + b) == Exited(a) + Exited(b)
  {
    if a != [] {
      assert (a + b)[0] == a[0] && (a + b)[1..] == a[1..] + b;
      EnteredExitedAppend(a[1..], b);
    } else {
      assert a + b == b;
    }
  }

  function ToSet(s: seq<Ref>): set<Ref> {
    set r | r in s
  }

  predicate NoDup(s: seq<Ref>) {
    forall i, j :: 0 <= i < j < |s| ==> s[i] != s[j]
  }

  lemma NoDupAppend(a: seq<Ref>, b: seq<Ref>)
    requires NoDup(a) && NoDup(b) && ToSet(a) !! ToSet(b)
    ensures NoDup(a + b) && ToSet(a + b) == ToSet(a) + ToSet(b)
  {
    forall i, j | 0 <= i < j < |a + b|
      ensures (a + b)[i] != (a + b)[j]
    {
      if j >= |a| && i < |a| {
        assert (a + b)[i] in ToSet(a) && (a + b)[j] in ToSet(b);
      }
    }
  }

  /**
   * The callbacks of a run, counted against the seen set it started from:
   * the entered nodes are exactly the ones it added, none twice; every
   * exited node was entered, none twice; and a run that did not panic
   * exited every node it entered.
   */
  predicate Books(r: Outcome, seen: set<Ref>) {
    var en, ex := Entered(r.events), Exited(r.events);
    ToSet(en) == r.seen - seen && NoDup(en) && NoDup(ex) && ToSet(ex) <= ToSet(en)
    && (r.ok ==> ToSet(ex) == ToSet(en))
  }

  lemma {:induction false} Walk1Books(arena: seq<Node>, x: Ref, depth: nat, seen: set<Ref>)
    ensures Books(Walk1(arena, x, depth, seen), seen)
    decreases Nodes(arena) - seen, 1
  {
    if x !in seen {
      var seen1 := seen + {x};
      if IsNode(arena, x) {
        assert x == Ptr(x.id) && x in Nodes(arena);
        var kids := Children(arena[x.id]);
        WalkListBooks(arena, kids, depth + 1, seen1);
        Walk1Step(arena, x, depth, seen);
        BooksAround(x, depth, WalkList(arena, kids, depth + 1, seen1), seen);
      } else {
        assert Entered([Enter(x, depth)]) == [x];
        assert Exited([Enter(x, depth)]) == [];
      }
    }
  }

  /** Wrapping a run in the `before` and `after` of a node not seen before keeps the books. */
  lemma BooksAround(x: Ref, depth: nat, rl: Outcome, seen: set<Ref>)
    requires x !in seen && seen + {x} <= rl.seen && Books(rl, seen + {x})
    ensures Books(Outcome(rl.seen, [Enter(x, depth)] + rl.events + (if rl.ok then [Exit(x, depth)] else []), rl.ok), seen)
  {
    var enl, exl := Entered(rl.events), Exited(rl.events);
    var closing := if rl.ok then [x] else [];
    var r := Outcome(rl.seen, [Enter(x, depth)] + rl.events + (if rl.ok then [Exit(x, depth)] else []), rl.ok);
    EventsAround(x, depth, rl.events, rl.ok);
    var en, ex := Entered(r.events), Exited(r.events);
    assert en == [x] + enl && ex == exl + closing;
    assert x !in ToSet(enl) && x !in ToSet(exl);
    NoDupAppend([x], enl);
    NoDupAppend(exl, closing);
    assert ToSet([x]) == {x} && ToSet(closing) <= {x};
    assert ToSet(en) == rl.seen - seen;
    assert ToSet(ex) <= ToSet(en);
    assert r.ok ==> ToSet(ex) == ToSet(en);
  }

  /** The entered and exited nodes of a run wrapped in the callbacks of `x`. */
  lemma EventsAround(x: Ref, depth: nat, es: seq<Event>, ok: bool)
    ensures Entered([Enter(x, depth)] + es + (if ok then [Exit(x, depth)] else [])) == [x] + Entered(es)
    ensures Exited([Enter(x, depth)] + es + (if ok then [Exit(x, depth)] else [])) == Exited(es) + (if ok then [x] else [])
  {
    var enter := [Enter(x, depth)];
    var tail := if ok then [Exit(x, depth)] else [];
    EnteredExitedAppend(enter, es);
    EnteredExitedAppend(enter + es, tail);
    assert Entered(enter) == [x] && Exited(enter) == [];
    assert Entered(tail) == [] && Exited(tail) == (if ok then [x] else []);
    assert [] + Exited(es) == Exited(es);
    assert [x] + Entered(es) + [] == [x] + Entered(es);
  }

  /** `walk` on an unseen value the switch does not handle fires `before` and panics. */
  lemma Walk1Panics(arena: seq<Node>, x: Ref, depth: nat, seen: set<Ref>)
    requires x !in seen && !IsNode(arena, x)
    ensures Walk1(arena, x, depth, seen) == Outcome(seen + {x}, [Enter(x, depth)], false)
  {
  }

  /** One step of `walk` on a known node that is not yet seen. */
  lemma Walk1Step(arena: seq<Node>, x: Ref, depth: nat, seen: set<Ref>)
    requires x !in seen && IsNode(arena, x)
    ensures var rl := WalkList(arena, Children(arena[x.id]), depth + 1, seen + {x});
            Walk1(arena, x, depth, seen)
            == Outcome(rl.seen, [Enter(x, depth)] + rl.events + (if rl.ok then [Exit(x, depth)] else []), rl.ok)
  {
  }

  lemma {:induction false} WalkListBooks(arena: seq<Node>, xs: seq<Ref>, depth: nat, seen: set<Ref>)
    ensures Books(WalkList(arena, xs, depth, seen), seen)
    decreases Nodes(arena) - seen, 2, |xs|
  {
    if xs != [] {
      var r1 := Walk1(arena, xs[0], depth, seen);
      Walk1Books(arena, xs[0], depth, seen);
      if r1.ok {
        var r2 := WalkList(arena, xs[1..], depth, r1.seen);
        WalkListBooks(arena, xs[1..], depth, r1.seen);
        EnteredExitedAppend(r1.events, r2.events);
        NoDupAppend(Entered(r1.events), Entered(r2.events));
        NoDupAppend(Exited(r1.events), Exited(r2.events));
      }
    }
  }

  // ----- nesting, depth and parent/child: replaying the callbacks on a stack -----

  /**
   * Replays callbacks against the stack of open nodes. An `Enter` must be at
   * the depth below its parent and name a child of the innermost open node
   * (any node at the bottom); an `Exit` must close the innermost open node
   * at that node's own depth. None when some event breaks these rules.
   */
  function Replay(arena: seq<Node>, es: seq<Event>, base: nat, stack: seq<Ref>): Option<seq<Ref>>
    decreases |es|
  {
    if es == [] then Some(stack)
    else match es[0]
      case Enter(x, d) =>
        if d == base + |stack| && (stack == [] || ChildOf(arena, x, stack[|stack| - 1]))
        then Replay(arena, es[1..], base, stack + [x]) else None
      case Exit(x, d) =>
        if stack != [] && stack[|stack| - 1] == x && d + 1 == base + |stack|
        then Replay(arena, es[1..], base, stack[..|stack| - 1]) else None
  }

  lemma {:induction false} ReplayAppend(arena: seq<Node>, a: seq<Event>, b: seq<Event>, base: nat, stack: seq<Ref>)
    ensures Replay(arena, a + b, base, stack) ==
            match Replay(arena, a, base, stack) case None => None case Some(s) => Replay(arena, b, base, s)
    decreases |a|
  {
    if a == [] {
      assert a + b == b;
    } else {
      assert (a + b)[0] == a[0] && (a + b)[1..] == a[1..] + b;
      match a[0]
      case Enter(x, d) => ReplayAppend(arena, a[1..], b, base, stack + [x]);
      case Exit(x, d) =>
        if stack != [] {
          ReplayAppend(arena, a[1..], b, base, stack[..|stack| - 1]);
        }
    }
  }

  predicate OpenedUnder(r: Outcome, arena: seq<Node>, base: nat, stack: seq<Ref>) {
    var s := Replay(arena, r.events, base, stack);
    s.Some? && (r.ok ==> s.value == stack)
  }

  lemma {:induction false} Walk1Nested(arena: seq<Node>, x: Ref, depth: nat, seen: set<Ref>, base: nat, stack: seq<Ref>)
    requires depth == base + |stack|
    requires stack == [] || ChildOf(arena, x, stack[|stack| - 1])
    ensures OpenedUnder(Walk1(arena, x, depth, seen), arena, base, stack)
    decreases Nodes(arena) - seen, 1
  {
    if x !in seen {
      var seen1 := seen + {x};
      var top := stack + [x];
      if IsNode(arena, x) {
        assert x == Ptr(x.id) && x in Nodes(arena);
        var kids := Children(arena[x.id]);
        KidsAreChildren(arena, x);
        WalkListNested(arena, kids, depth + 1, seen1, base, top, x);
        NestedStep(arena, x, depth, seen, base, stack);
      } else {
        NestedPanic(arena, x, depth, seen, base, stack);
      }
    }
  }

  /** The one callback of a walk that panics on `x` nests under `x`'s parent. */
  lemma NestedPanic(arena: seq<Node>, x: Ref, depth: nat, seen: set<Ref>, base: nat, stack: seq<Ref>)
    requires x !in seen && !IsNode(arena, x) && depth == base + |stack|
    requires stack == [] || ChildOf(arena, x, stack[|stack| - 1])
    ensures OpenedUnder(Walk1(arena, x, depth, seen), arena, base, stack)
  {
    Walk1Panics(arena, x, depth, seen);
    assert [Enter(x, depth)][1..] == [];
  }

  /** The walk of a known unseen node nests under its parent once the walk of its children nests under it. */
  lemma NestedStep(arena: seq<Node>, x: Ref, depth: nat, seen: set<Ref>, base: nat, stack: seq<Ref>)
    requires x !in seen && IsNode(arena, x) && depth == base + |stack|
    requires stack == [] || ChildOf(arena, x, stack[|stack| - 1])
    requires OpenedUnder(WalkList(arena, Children(arena[x.id]), depth + 1, seen + {x}), arena, base, stack + [x])
    ensures OpenedUnder(Walk1(arena, x, depth, seen), arena, base, stack)
  {
    Walk1Step(arena, x, depth, seen);
    NestedAround(arena, x, depth, WalkList(arena, Children(arena[x.id]), depth + 1, seen + {x}), base, stack);
  }

  lemma KidsAreChildren(arena: seq<Node>, x: Ref)
    requires IsNode(arena, x)
    ensures var kids := Children(arena[x.id]);
            forall i :: 0 <= i < |kids| ==> ChildOf(arena, kids[i], x)
  {
  }

  /** A run that nests under `x` nests, once wrapped in the `before` and `after` of `x`, under `x`'s parent. */
  lemma NestedAround(arena: seq<Node>, x: Ref, depth: nat, rl: Outcome, base: nat, stack: seq<Ref>)
    requires depth == base + |stack|
    requires stack == [] || ChildOf(arena, x, stack[|stack| - 1])
    requires OpenedUnder(rl, arena, base, stack + [x])
    ensures OpenedUnder(Outcome(rl.seen, [Enter(x, depth)] + rl.events + (if rl.ok then [Exit(x, depth)] else []), rl.ok),
                        arena, base, stack)
  {
    var top := stack + [x];
    var enter := [Enter(x, depth)];
    var tail := if rl.ok then [Exit(x, depth)] else [];
    assert Replay(arena, enter, base, stack) == Some(top) by {
      assert enter[1..] == [];
    }
    ReplayAppend(arena, enter, rl.events, base, stack);
    ReplayAppend(arena, enter + rl.events, tail, base, stack);
    if rl.ok {
      assert top[|top| - 1] == x && top[..|top| - 1] == stack;
      assert tail[1..] == [];
      assert Replay(arena, tail, base, top) == Some(stack);
    }
  }

  lemma {:induction false} WalkListNested(arena: seq<Node>, xs: seq<Ref>, depth: nat, seen: set<Ref>, base: nat, stack: seq<Ref>, parent: Ref)
    requires depth == base + |stack| && stack != [] && stack[|stack| - 1] == parent
    requires forall i :: 0 <= i < |xs| ==> ChildOf(arena, xs[i], parent)
    ensures OpenedUnder(WalkList(arena, xs, depth, seen), arena, base, stack)
    decreases Nodes(arena) - seen, 2, |xs|
  {
    if xs != [] {
      var r1 := Walk1(arena, xs[0], depth, seen);
      Walk1Nested(arena, xs[0], depth, seen, base, stack);
      if r1.ok {
        var r2 := WalkList(arena, xs[1..], depth, r1.seen);
        WalkListNested(arena, xs[1..], depth, r1.seen, base, stack, parent);
        ReplayAppend(arena, r1.events, r2.events, base, stack);
      }
    }
  }

  // ----- completeness: a walk that did not panic saw every reachable node -----

  predicate ChildrenIn(arena: seq<Node>, y: Ref, s: set<Ref>) {
    IsNode(arena, y) && forall c :: c in Children(arena[y.id]) ==> c in s
  }

  /** Every node in `added` is a known node whose children all lie in `s`. */
  predicate Expanded(arena: seq<Node>, s: set<Ref>, added: set<Ref>) {
    forall y :: y in added ==> ChildrenIn(arena, y, s)
  }

  lemma ExpandedGrow(arena: seq<Node>, s: set<Ref>, s': set<Ref>, added: set<Ref>)
    requires Expanded(arena, s, added) && s <= s'
    ensures Expanded(arena, s', added)
  {
    forall y | y in added
      ensures ChildrenIn(arena, y, s')
    {
      assert ChildrenIn(arena, y, s);
    }
  }

  lemma {:induction false} Walk1Closed(arena: seq<Node>, x: Ref, depth: nat, seen: set<Ref>)
    ensures var r := Walk1(arena, x, depth, seen);
            r.ok ==> Expanded(arena, r.seen, r.seen - seen)
    decreases Nodes(arena) - seen, 1
  {
    var r := Walk1(arena, x, depth, seen);
    if x !in seen && r.ok {
      var seen1 := seen + {x};
      assert x == Ptr(x.id) && x in Nodes(arena);
      var kids := Children(arena[x.id]);
      WalkListClosed(arena, kids, depth + 1, seen1);
      forall y | y in r.seen - seen
        ensures ChildrenIn(arena, y, r.seen)
      {
        if y != x {
          assert y in r.seen - seen1;
        }
      }
    }
  }

  lemma {:induction false} WalkListClosed(arena: seq<Node>, xs: seq<Ref>, depth: nat, seen: set<Ref>)
    ensures var r := WalkList(arena, xs, depth, seen);
            r.ok ==> (forall c :: c in xs ==> c in r.seen) && Expanded(arena, r.seen, r.seen - seen)
    decreases Nodes(arena) - seen, 2, |xs|
  {
    var r := WalkList(arena, xs, depth, seen);
    if xs != [] && r.ok {
      var r1 := Walk1(arena, xs[0], depth, seen);
      Walk1Closed(arena, xs[0], depth, seen);
      WalkListClosed(arena, xs[1..], depth, r1.seen);
      ExpandedGrow(arena, r1.seen, r.seen, r1.seen - seen);
      forall c | c in xs
        ensures c in r.seen
      {
        if c != xs[0] {
          assert c in xs[1..];
        }
      }
    }
  }

  /** `p` is a chain of references, each a child of the one before it. */
  predicate IsPath(arena: seq<Node>, p: seq<Ref>) {
    |p| >= 1 && forall k :: 0 <= k < |p| - 1 ==> ChildOf(arena, p[k + 1], p[k])
  }

  // ----- no panic on what Go's type system can build -----

  /** A root the switch can handle: a pre-seeded nil or a known node. */
  predicate Walkable(arena: seq<Node>, x: Ref) {
    x in Sentinels || IsNode(arena, x)
  }

  lemma {:induction false} Walk1NoPanic(arena: seq<Node>, x: Ref, depth: nat, seen: set<Ref>)
    requires WellTyped(arena) && Sentinels <= seen && Walkable(arena, x)
    ensures Walk1(arena, x, depth, seen).ok
    decreases Nodes(arena) - seen, 1
  {
    if x !in seen {
      assert x == Ptr(x.id) && x in Nodes(arena);
      var kids := Children(arena[x.id]);
      forall i | 0 <= i < |kids|
        ensures Walkable(arena, kids[i])
      {
        TypedChildren(arena, x, kids[i]);
      }
      WalkListNoPanic(arena, kids, depth + 1, seen + {x});
    }
  }

  lemma {:induction false} WalkListNoPanic(arena: seq<Node>, xs: seq<Ref>, depth: nat, seen: set<Ref>)
    requires WellTyped(arena) && Sentinels <= seen
    requires forall i :: 0 <= i < |xs| ==> Walkable(arena, xs[i])
    ensures WalkList(arena, xs, depth, seen).ok
    decreases Nodes(arena) - seen, 2, |xs|
  {
    if xs != [] {
      var r1 := Walk1(arena, xs[0], depth, seen);
      Walk1NoPanic(arena, xs[0], depth, seen);
      WalkListNoPanic(arena, xs[1..], depth, r1.seen);
    }
  }

  // ----- the properties of one `WalkIndent` call -----

  /**
   * Each node is entered at most once and exited at most once; the entered
   * nodes are exactly the ones the run added to the seen map, so no nil
   * sentinel is ever entered and `before` runs once per added node; a run
   * that did not panic exits every node it entered.
   */
  lemma CallbacksOncePerNode(arena: seq<Node>, root: Ref)
    ensures var r := WalkFrom(arena, root);
            var en, ex := Entered(r.events), Exited(r.events);
            NoDup(en) && NoDup(ex) && ToSet(en) == r.seen - Sentinels && |en| == |r.seen - Sentinels|
            && ToSet(ex) <= ToSet(en) && (r.ok ==> ToSet(ex) == ToSet(en))
  {
    var r := WalkFrom(arena, root);
    Walk1Books(arena, root, 0, Sentinels);
    NoDupCard(Entered(r.events));
  }

  lemma {:induction false} NoDupCard(s: seq<Ref>)
    requires NoDup(s)
    ensures |ToSet(s)| == |s|
  {
    if s != [] {
      assert ToSet(s) == {s[0]} + ToSet(s[1..]);
      assert s[0] !in ToSet(s[1..]);
      NoDupCard(s[1..]);
    }
  }

  /**
   * The callbacks nest: replayed from an empty stack, each `before` is at
   * its parent's depth plus one (the root at depth 0) and names a child of
   * the innermost open node, each `after` closes the innermost open node at
   * that node's depth, and a run that did not panic closes everything.
   */
  lemma CallbacksNest(arena: seq<Node>, root: Ref)
    ensures var r := WalkFrom(arena, root);
            var s := Replay(arena, r.events, 0, []);
            s.Some? && (r.ok ==> s.value == [])
    ensures var r := WalkFrom(arena, root);
            (root in Sentinels ==> r.events == [] && r.ok)
            && (root !in Sentinels ==> r.events != [] && r.events[0] == Enter(root, 0)
                                       && (r.ok ==> r.events[|r.events| - 1] == Exit(root, 0)))
  {
    Walk1Nested(arena, root, 0, Sentinels, 0, []);
  }

  /** `y` can be reached from `x` by following child links. */
  ghost predicate Reaches(arena: seq<Node>, x: Ref, y: Ref) {
    exists p :: IsPath(arena, p) && p[0] == x && p[|p| - 1] == y
  }

  /** A path to `y` from a child of `x` is, with `x` in front, a path from `x`. */
  lemma ReachesFromParent(arena: seq<Node>, x: Ref, c: Ref, y: Ref)
    requires ChildOf(arena, c, x) && Reaches(arena, c, y)
    ensures Reaches(arena, x, y)
  {
    var p :| IsPath(arena, p) && p[0] == c && p[|p| - 1] == y;
    var q := [x] + p;
    forall k | 0 <= k < |q| - 1
      ensures ChildOf(arena, q[k + 1], q[k])
    {
      if k > 0 {
        assert q[k] == p[k - 1] && q[k + 1] == p[k];
      }
    }
    assert IsPath(arena, q) && q[0] == x && q[|q| - 1] == y;
  }

  lemma {:induction false} Walk1Reaches(arena: seq<Node>, x: Ref, depth: nat, seen: set<Ref>)
    ensures forall y :: y in Entered(Walk1(arena, x, depth, seen).events) ==> Reaches(arena, x, y)
    decreases Nodes(arena) - seen, 1
  {
    if x !in seen {
      var seen1 := seen + {x};
      assert IsPath(arena, [x]) && [x][0] == x;
      if IsNode(arena, x) {
        assert x == Ptr(x.id) && x in Nodes(arena);
        var kids := Children(arena[x.id]);
        var rl := WalkList(arena, kids, depth + 1, seen1);
        WalkListReaches(arena, kids, depth + 1, seen1);
        Walk1Step(arena, x, depth, seen);
        EventsAround(x, depth, rl.events, rl.ok);
        KidsAreChildren(arena, x);
        forall y | y in Entered(Walk1(arena, x, depth, seen).events)
          ensures Reaches(arena, x, y)
        {
          if y != x {
            assert y in Entered(rl.events);
            var i :| 0 <= i < |kids| && Reaches(arena, kids[i], y);
            ReachesFromParent(arena, x, kids[i], y);
          }
        }
      } else {
        Walk1Panics(arena, x, depth, seen);
        assert Entered([Enter(x, depth)]) == [x];
      }
    }
  }

  lemma {:induction false} WalkListReaches(arena: seq<Node>, xs: seq<Ref>, depth: nat, seen: set<Ref>)
    ensures forall y :: y in Entered(WalkList(arena, xs, depth, seen).events) ==>
              exists i :: 0 <= i < |xs| && Reaches(arena, xs[i], y)
    decreases Nodes(arena) - seen, 2, |xs|
  {
    if xs != [] {
      var r1 := Walk1(arena, xs[0], depth, seen);
      Walk1Reaches(arena, xs[0], depth, seen);
      if r1.ok {
        var r2 := WalkList(arena, xs[1..], depth, r1.seen);
        WalkListReaches(arena, xs[1..], depth, r1.seen);
        EnteredExitedAppend(r1.events, r2.events);
        forall y | y in Entered(WalkList(arena, xs, depth, seen).events)
          ensures exists i :: 0 <= i < |xs| && Reaches(arena, xs[i], y)
        {
          if y in Entered(r1.events) {
            assert Reaches(arena, xs[0], y);
          } else {
            var i :| 0 <= i < |xs[1..]| && Reaches(arena, xs[1..][i], y);
            assert xs[1..][i] == xs[i + 1];
          }
        }
      } else {
        forall y | y in Entered(WalkList(arena, xs, depth, seen).events)
          ensures exists i :: 0 <= i < |xs| && Reaches(arena, xs[i], y)
        {
          assert Reaches(arena, xs[0], y);
        }
      }
    }
  }

  /**
   * `before` only ever sees the root and nodes reachable from it; on a run
   * that did not panic these are exactly the non-nil nodes reachable from
   * the root.
   */
  lemma EnteredReachable(arena: seq<Node>, root: Ref)
    ensures var r := WalkFrom(arena, root);
            forall y :: y in Entered(r.events) ==> y !in Sentinels && Reaches(arena, root, y)
    ensures var r := WalkFrom(arena, root);
            r.ok ==> forall y :: y !in Sentinels && Reaches(arena, root, y) ==> y in Entered(r.events)
  {
    var r := WalkFrom(arena, root);
    Walk1Reaches(arena, root, 0, Sentinels);
    Walk1Books(arena, root, 0, Sentinels);
    forall y | y in Entered(r.events)
      ensures y !in Sentinels
    {
      assert y in ToSet(Entered(r.events));
    }
    if r.ok {
      forall y | y !in Sentinels && Reaches(arena, root, y)
        ensures y in Entered(r.events)
      {
        var p :| IsPath(arena, p) && p[0] == root && p[|p| - 1] == y;
        ReachableEntered(arena, root, p);
      }
    }
  }

  /**
   * A run that did not panic entered and exited every non-nil node reachable
   * from the root, however many parents share it.
   */
  lemma {:induction false} ReachableEntered(arena: seq<Node>, root: Ref, p: seq<Ref>)
    requires IsPath(arena, p) && p[0] == root && WalkFrom(arena, root).ok
    ensures var r := WalkFrom(arena, root);
            var y := p[|p| - 1];
            y in r.seen && (y !in Sentinels ==> y in Entered(r.events) && y in Exited(r.events))
    decreases |p|
  {
    var r := WalkFrom(arena, root);
    Walk1Closed(arena, root, 0, Sentinels);
    Walk1Books(arena, root, 0, Sentinels);
    if |p| > 1 {
      var q := p[..|p| - 1];
      assert IsPath(arena, q) by {
        forall k | 0 <= k < |q| - 1
          ensures ChildOf(arena, q[k + 1], q[k])
        {
          assert q[k] == p[k] && q[k + 1] == p[k + 1];
        }
      }
      ReachableEntered(arena, root, q);
      var y := q[|q| - 1];
      assert ChildOf(arena, p[|p| - 1], y);
      assert y !in Sentinels;
      assert ChildrenIn(arena, y, r.seen);
    }
    var y := p[|p| - 1];
    if y !in Sentinels {
      assert y in ToSet(Entered(r.events));
      assert y in ToSet(Exited(r.events));
    }
  }

  /** On an arena Go's type system can build, a walk from a pre-seeded nil or a known node never panics. */
  lemma TypedWalkSucceeds(arena: seq<Node>, root: Ref)
    requires WellTyped(arena) && Walkable(arena, root)
    ensures WalkFrom(arena, root).ok
  {
    Walk1NoPanic(arena, root, 0, Sentinels);
  }

  /**
   * Any other root panics right after its `before`: the nil `*Prog`, which
   * the map does not pre-seed, and any dynamic type the switch does not list.
   */
  lemma UnwalkableRootPanics(arena: seq<Node>, root: Ref)
    requires !Walkable(arena, root)
    ensures WalkFrom(arena, root) == Outcome(Sentinels + {root}, [Enter(root, 0)], false)
  {
  }
}
