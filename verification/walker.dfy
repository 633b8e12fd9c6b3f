/**
 * The traversal engine as the source runs it: a recursive `walk` that
 * updates one shared `seen` map in place and fires callbacks in order
 * (cc/walk.go:11-113, duplicated at cc/expr.go:178-280). The callbacks are
 * recorded in `events`, one `Enter` per `before` and one `Exit` per `after`.
 */
module Walking {
  import opened Wrappers
  import opened Syntax
  import opened WalkSpec

  /** The state one top-level call shares across its recursive `walk` calls. */
  class Walker {
    const arena: seq<Node>
    var seen: set<Ref>
    var events: seq<Event>

    /** A fresh walk: the map holds the pre-seeded nil keys and nothing has fired. */
    constructor (arena: seq<Node>)
      ensures this.arena == arena && seen == Sentinels && events == []
    {
      this.arena := arena;
      seen := Sentinels;
      events := [];
    }

    /**
     * `walk(x, before, after, seen, indent)`: returns false where the source
     * panics (the `default` case of the type switch, or ranging over the
     * declarations of a nil `*Prog`).
     */
    method Walk(x: Ref, depth: nat) returns (ok: bool)
      modifies this
      ensures var r := Walk1(arena, x, depth, old(seen));
              seen == r.seen && events == old(events) + r.events && ok == r.ok
      decreases Nodes(arena) - seen, 1
    {
      if x in seen {
        return true;
      }
      ghost var seen0, events0 := seen, events;
      seen := seen + {x};
      events := events + [Enter(x, depth)];
      if !IsNode(arena, x) {
        Walk1Panics(arena, x, depth, seen0);
        return false;
      }
      assert x == Ptr(x.id) && x in Nodes(arena);
      var kids := Children(arena[x.id]);
      ghost var rl := WalkList(arena, kids, depth + 1, seen0 + {x});
      ok := WalkEach(kids, depth + 1);
      assert seen == rl.seen && ok == rl.ok;
      assert events == events0 + [Enter(x, depth)] + rl.events;
      if ok {
        events := events + [Exit(x, depth)];
      }
      ghost var tail := if ok then [Exit(x, depth)] else [];
      assert events == events0 + [Enter(x, depth)] + rl.events + tail;
      Regroup(events0, [Enter(x, depth)], rl.events, tail);
      Walk1Step(arena, x, depth, seen0);
    }

    /** The `for _, y := range ...` loops: one `walk` per child, in order. */
    method WalkEach(xs: seq<Ref>, depth: nat) returns (ok: bool)
      modifies this
      ensures var r := WalkList(arena, xs, depth, old(seen));
              seen == r.seen && events == old(events) + r.events && ok == r.ok
      decreases Nodes(arena) - seen, 2, |xs|
    {
      ok := true;
      var i := 0;
      while i < |xs| && ok
        invariant 0 <= i <= |xs|
        invariant old(seen) <= seen
        invariant var r := WalkList(arena, xs[..i], depth, old(seen));
                  seen == r.seen && events == old(events) + r.events && ok == r.ok
      {
        ghost var done := WalkList(arena, xs[..i], depth, old(seen));
        ghost var step := Walk1(arena, xs[i], depth, done.seen);
        ok := Walk(xs[i], depth);
        assert events == old(events) + done.events + step.events;
        Associate(old(events), done.events, step.events);
        assert xs[..i + 1] == xs[..i] + [xs[i]];
        WalkListAppend(arena, xs[..i], [xs[i]], depth, old(seen));
        WalkListSingle(arena, xs[i], depth, done.seen);
        i := i + 1;
      }
      if i < |xs| {
        assert xs == xs[..i] + xs[i..];
        WalkListAppend(arena, xs[..i], xs[i..], depth, old(seen));
      } else {
        assert xs[..i] == xs;
      }
    }
  }

  lemma Associate(a: seq<Event>, b: seq<Event>, c: seq<Event>)
    ensures a + b + c == a + (b + c)
  {
  }

  lemma Regroup(a: seq<Event>, b: seq<Event>, c: seq<Event>, d: seq<Event>)
    ensures a + b + c + d == a + (b + c + d)
  {
  }

  /** `WalkIndent(x, before, after)` (cc/walk.go:27-38): every callback with its depth. */
  method WalkIndent(arena: seq<Node>, root: Ref) returns (events: seq<Event>, ok: bool)
    ensures events == WalkFrom(arena, root).events && ok == WalkFrom(arena, root).ok
  {
    var w := new Walker(arena);
    ok := w.Walk(root, 0);
    events := w.events;
  }

  /** A callback of `Walk`, which passes the node but not the depth. */
  datatype Call = Before(node: Ref) | After(node: Ref)

  /** The callbacks `Walk`'s wrappers forward: the same nodes in the same order, without depths. */
  function DropDepth(es: seq<Event>): (cs: seq<Call>)
    ensures |cs| == |es|
    ensures forall i :: 0 <= i < |es| ==> cs[i].node == es[i].node && (cs[i].Before? <==> es[i].Enter?)
  {
    if es == [] then []
    else [if es[0].Enter? then Before(es[0].node) else After(es[0].node)] + DropDepth(es[1..])
  }

  /** `Walk(x, before, after)` (cc/walk.go:11-25): WalkIndent's run with the depth dropped. */
  method Walk(arena: seq<Node>, root: Ref) returns (calls: seq<Call>, ok: bool)
    ensures calls == DropDepth(WalkFrom(arena, root).events) && ok == WalkFrom(arena, root).ok
  {
    var w := new Walker(arena);
    ok := w.Walk(root, 0);
    calls := DropDepth(w.events);
  }

  function Befores(cs: seq<Call>): seq<Ref> {
    if cs == [] then [] else (if cs[0].Before? then [cs[0].node] else []) + Befores(cs[1..])
  }

  function Afters(cs: seq<Call>): seq<Ref> {
    if cs == [] then [] else (if cs[0].After? then [cs[0].node] else []) + Afters(cs[1..])
  }

  /** The `before` and `after` nodes of `Walk` are exactly WalkIndent's entered and exited nodes. */
  lemma {:induction false} DropDepthKeepsNodes(es: seq<Event>)
    ensures Befores(DropDepth(es)) == Entered(es)
    ensures Afters(DropDepth(es)) == Exited(es)
  {
    if es != [] {
      var cs := DropDepth(es);
      assert cs[1..] == DropDepth(es[1..]);
      DropDepthKeepsNodes(es[1..]);
    }
  }

  /** `Preorder(x, f)` (cc/walk.go:105-108): `f` as `before`, a no-op as `after`. */
  method Preorder(arena: seq<Node>, root: Ref) returns (nodes: seq<Ref>, ok: bool)
    ensures nodes == Entered(WalkFrom(arena, root).events) && ok == WalkFrom(arena, root).ok
  {
    var calls;
    calls, ok := Walk(arena, root);
    nodes := Befores(calls);
    DropDepthKeepsNodes(WalkFrom(arena, root).events);
  }

  /** `Postorder(x, f)` (cc/walk.go:110-113): a no-op as `before`, `f` as `after`. */
  method Postorder(arena: seq<Node>, root: Ref) returns (nodes: seq<Ref>, ok: bool)
    ensures nodes == Exited(WalkFrom(arena, root).events) && ok == WalkFrom(arena, root).ok
  {
    var calls;
    calls, ok := Walk(arena, root);
    nodes := Afters(calls);
    DropDepthKeepsNodes(WalkFrom(arena, root).events);
  }
}
