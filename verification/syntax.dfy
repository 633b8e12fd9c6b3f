/**
 * The syntax graph the traversal engine walks: Prog, Decl, Init, Type,
 * Expr, Stmt and Label nodes (cc/expr.go:9-25, 160-176), kept in an arena
 * and linked by references so that a node can be shared by several parents
 * or point back at an ancestor.
 */
module Syntax {
  import opened Wrappers
  import opened ExprOps

  /** The seven dynamic types the walk knows about. */
  datatype Kind = ProgKind | DeclKind | InitKind | TypeKind | ExprKind | StmtKind | LabelKind

  /**
   * A value of Go's `Syntax` interface: the untyped nil, a nil pointer of
   * one of the seven node types, or a pointer to arena node `id`.
   */
  datatype Ref = Nil | NilOf(kind: Kind) | Ptr(id: nat)

  /** An initializer designator `.dot =` or `[index] =` (cc/expr.go:160-166). */
  datatype Prefix = Prefix(dot: string, index: Ref)

  /**
   * One node. Only the fields the walk and the syntax dump read are kept;
   * `rendered` stands for what the external Type printer prints, and a
   * statement keeps the name of its operator. `Foreign` is any other
   * dynamic type that implements `Syntax`.
   */
  datatype Node =
    | Prog(decls: seq<Ref>)
    | Decl(name: string, typ: Ref, init: Ref, body: Ref)
    | Init(prefixes: seq<Prefix>, expr: Ref, braced: seq<Ref>)
    | Type(rendered: string, base: Ref, decls: seq<Ref>, width: Ref)
    | Expr(op: int, left: Ref, right: Ref, list: seq<Ref>, text: string, texts: seq<string>,
           typ: Ref, init: Ref, block: seq<Ref>)
    | Stmt(stmtOp: string, pre: Ref, expr: Ref, post: Ref, decl: Ref, body: Ref, els: Ref,
           block: seq<Ref>, labels: seq<Ref>)
    | Label(expr: Ref)
    | Foreign

  function KindOf(n: Node): Option<Kind> {
    match n
    case Prog(_) => Some(ProgKind)
    case Decl(_, _, _, _) => Some(DeclKind)
    case Init(_, _, _) => Some(InitKind)
    case Type(_, _, _, _) => Some(TypeKind)
    case Expr(_, _, _, _, _, _, _, _, _) => Some(ExprKind)
    case Stmt(_, _, _, _, _, _, _, _, _) => Some(StmtKind)
    case Label(_) => Some(LabelKind)
    case Foreign => None
  }

  /**
   * The children of a known node, in the order the walk visits them
   * (cc/expr.go:219-267, cc/walk.go:50-100). Initializer prefixes are not
   * among them.
   */
  function Children(n: Node): seq<Ref>
    requires !n.Foreign?
  {
    match n
    case Prog(decls) => decls
    case Decl(_, typ, init, body) => [typ, init, body]
    case Init(_, expr, braced) => braced + [expr]
    case Type(_, base, decls, width) => [base] + decls + [width]
    case Expr(_, left, right, list, _, _, typ, init, block) => [left, right] + list + [typ, init] + block
    case Stmt(_, pre, expr, post, decl, body, els, block, labels) => [pre, expr, post, decl, body, els] + block + labels
    case Label(expr) => [expr]
  }

  /** The node `x` names, when it names a known node of the arena. */
  predicate IsNode(arena: seq<Node>, x: Ref) {
    x.Ptr? && x.id < |arena| && !arena[x.id].Foreign?
  }

  /** `c` is one of the children of node `p`. */
  predicate ChildOf(arena: seq<Node>, c: Ref, p: Ref) {
    IsNode(arena, p) && c in Children(arena[p.id])
  }

  // ----- typing of the child slots -----

  /** `r` is a value the Go type system allows in a slot of pointer type `*k`. */
  predicate Points(arena: seq<Node>, r: Ref, k: Kind) {
    r == NilOf(k) || (r.Ptr? && r.id < |arena| && KindOf(arena[r.id]) == Some(k))
  }

  function Rep(n: nat, k: Kind): (ks: seq<Kind>)
    ensures |ks| == n && forall i :: 0 <= i < n ==> ks[i] == k
  {
    seq(n, _ => k)
  }

  /** The declared pointer type of each child slot of `n`, aligned with `Children(n)`. */
  function SlotKinds(n: Node): (ks: seq<Kind>)
    requires !n.Foreign?
    ensures |ks| == |Children(n)|
    ensures forall i :: 0 <= i < |ks| ==> ks[i] != ProgKind
  {
    match n
    case Prog(decls) => Rep(|decls|, DeclKind)
    case Decl(_, _, _, _) => [TypeKind, InitKind, StmtKind]
    case Init(_, _, braced) => Rep(|braced|, InitKind) + [ExprKind]
    case Type(_, _, decls, _) => [TypeKind] + Rep(|decls|, DeclKind) + [ExprKind]
    case Expr(_, _, _, list, _, _, _, _, block) =>
      [ExprKind, ExprKind] + Rep(|list|, ExprKind) + [TypeKind, InitKind] + Rep(|block|, StmtKind)
    case Stmt(_, _, _, _, _, _, _, block, labels) =>
      [ExprKind, ExprKind, ExprKind, DeclKind, StmtKind, StmtKind] + Rep(|block|, StmtKind) + Rep(|labels|, LabelKind)
    case Label(_) => [ExprKind]
  }

  predicate SlotsTyped(arena: seq<Node>, cs: seq<Ref>, ks: seq<Kind>)
    requires |cs| == |ks|
  {
    forall j :: 0 <= j < |cs| ==> Points(arena, cs[j], ks[j])
  }

  /** An arena as the Go type system builds it: no foreign node, every slot typed. */
  predicate WellTyped(arena: seq<Node>) {
    forall i :: 0 <= i < |arena| ==>
      !arena[i].Foreign? && SlotsTyped(arena, Children(arena[i]), SlotKinds(arena[i]))
  }

  /** No child slot of a Go-built node can hold a Prog pointer or the untyped nil. */
  lemma TypedChildren(arena: seq<Node>, p: Ref, c: Ref)
    requires WellTyped(arena) && ChildOf(arena, c, p)
    ensures c != Nil && c != NilOf(ProgKind)
    ensures c.NilOf? || IsNode(arena, c)
    ensures c.Ptr? ==> !arena[c.id].Prog?
  {
    var cs, ks := Children(arena[p.id]), SlotKinds(arena[p.id]);
    var j :| 0 <= j < |cs| && cs[j] == c;
    assert SlotsTyped(arena, cs, ks);
    assert Points(arena, c, ks[j]);
  }

  // ----- the per-operator field contract of Expr -----

  predicate IsNil(r: Ref) {
    r.Nil? || r.NilOf?
  }

  /** Every field of expression `n` outside `uses` is empty or nil. */
  predicate FieldsWithin(n: Node, uses: set<Field>)
    requires n.Expr?
  {
    (LeftField !in uses ==> IsNil(n.left))
    && (RightField !in uses ==> IsNil(n.right))
    && (ListField !in uses ==> n.list == [])
    && (TextField !in uses ==> n.text == "")
    && (TextsField !in uses ==> n.texts == [])
    && (TypeField !in uses ==> IsNil(n.typ))
    && (InitField !in uses ==> IsNil(n.init))
  }

  /**
   * An expression populates only the fields its operator documents
   * (cc/expr.go:12-19 and the comments beside cc/expr.go:37-92); a
   * conditional keeps its three operands in List. Block is for the
   * translator and is not constrained.
   */
  predicate ExprFieldsOk(n: Node)
    requires n.Expr?
  {
    IsDeclared(n.op) && FieldsWithin(n, Uses(Shape(n.op))) && (n.op == Cond ==> |n.list| == 3)
  }

  /** The references held in the fields of `n` named in `uses`, in walk order. */
  function OperandsIn(n: Node, uses: set<Field>): seq<Ref>
    requires n.Expr?
  {
    (if LeftField in uses then [n.left] else [])
    + (if RightField in uses then [n.right] else [])
    + (if ListField in uses then n.list else [])
    + (if TypeField in uses then [n.typ] else [])
    + (if InitField in uses then [n.init] else [])
  }

  /** The operand references of an expression's documented fields, in walk order. */
  function Operands(n: Node): seq<Ref>
    requires n.Expr? && IsDeclared(n.op)
  {
    OperandsIn(n, Uses(Shape(n.op)))
  }

  function NonNil(rs: seq<Ref>): seq<Ref> {
    if rs == [] then []
    else (if IsNil(rs[0]) then [] else [rs[0]]) + NonNil(rs[1..])
  }

  lemma {:induction false} NonNilAppend(a: seq<Ref>, b: seq<Ref>)
    ensures NonNil(a + b) == NonNil(a) + NonNil(b)
  {
    if a == [] {
      assert a + b == b;
    } else {
      assert (a + b)[1..] == a[1..] + b;
      NonNilAppend(a[1..], b);
    }
  }

  lemma NonNilOf5(a: seq<Ref>, b: seq<Ref>, c: seq<Ref>, d: seq<Ref>, e: seq<Ref>)
    ensures NonNil(a + b + c + d + e) == NonNil(a) + NonNil(b) + NonNil(c) + NonNil(d) + NonNil(e)
  {
    NonNilAppend(a + b + c + d, e);
    NonNilAppend(a + b + c, d);
    NonNilAppend(a + b, c);
    NonNilAppend(a, b);
  }

  /** An unused slot holds only nils, so dropping it changes no non-nil operand. */
  lemma NonNilKeep(used: bool, xs: seq<Ref>)
    requires !used ==> forall i :: 0 <= i < |xs| ==> IsNil(xs[i])
    ensures NonNil(if used then xs else []) == NonNil(xs)
    decreases |xs|
  {
    if !used && xs != [] {
      NonNilKeep(used, xs[1..]);
    }
  }

  lemma ChildrenAreOperandsIn(n: Node, uses: set<Field>)
    requires n.Expr? && FieldsWithin(n, uses)
    ensures NonNil(Children(n)) == NonNil(OperandsIn(n, uses)) + NonNil(n.block)
  {
    var l, r, t, i := [n.left], [n.right], [n.typ], [n.init];
    assert Children(n) == (l + r + n.list + t + i) + n.block;
    NonNilAppend(l + r + n.list + t + i, n.block);
    NonNilOf5(l, r, n.list, t, i);
    NonNilKeep(LeftField in uses, l);
    NonNilKeep(RightField in uses, r);
    NonNilKeep(ListField in uses, n.list);
    NonNilKeep(TypeField in uses, t);
    NonNilKeep(InitField in uses, i);
    NonNilOf5(if LeftField in uses then l else [], if RightField in uses then r else [],
              if ListField in uses then n.list else [], if TypeField in uses then t else [],
              if InitField in uses then i else []);
  }

  /**
   * For a well-formed expression, the non-nil nodes the walk descends into
   * are exactly its documented operands followed by its block.
   */
  lemma ExprChildrenAreOperands(n: Node)
    requires n.Expr? && ExprFieldsOk(n)
    ensures NonNil(Children(n)) == NonNil(Operands(n)) + NonNil(n.block)
  {
    ChildrenAreOperandsIn(n, Uses(Shape(n.op)));
  }
}
