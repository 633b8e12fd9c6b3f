/**
 * The syntax dump of cc/parse_test.go:14-57: `prettyPrint` drives
 * `WalkIndent` with a `before` callback that prints one indented line per
 * node and an `after` callback that prints nothing.
 */
module PrettyPrint {
  import opened Wrappers
  import opened ExprOps
  import opened Syntax
  import opened WalkSpec

  function Indent(depth: nat): (s: string)
    ensures |s| == 2 * depth && forall i :: 0 <= i < |s| ==> s[i] == ' '
  {
    if depth == 0 then "" else "  " + Indent(depth - 1)
  }

  /**
   * What `fmt`'s `%s` prints for an operator. A panic inside the `String`
   * method is recovered by `fmt` and printed in its place, so the dump goes on.
   */
  function OpText(op: int): (s: string)
    ensures OpStringAsWritten(op).Some? ==> s == OpStringAsWritten(op).value
  {
    match OpStringAsWritten(op)
    case Some(name) => name
    case None =>
      "%!s(PANIC=String method: runtime error: index out of range [" + Decimal(op)
      + "] with length " + Decimal(TableLen) + ")"
  }

  /**
   * `prettyPrintSyntax` without its indentation: None where it panics.
   * An initializer, the untyped nil or an unknown type reaches the `default`
   * case. A nil `*Decl`, `*Stmt` or `*Expr` is dereferenced. A nil `*Prog`
   * or `*Label` matches its case and prints its word without a dereference.
   */
  function Describe(arena: seq<Node>, x: Ref): Option<string> {
    if x == NilOf(ProgKind) then Some("prog")
    else if x == NilOf(LabelKind) then Some("label")
    else if !IsNode(arena, x) then None
    else match arena[x.id]
      case Prog(_) => Some("prog")
      case Decl(name, _, _, _) => Some("decl" + (if name != "" then ": " + name else ""))
      case Type(rendered, _, _, _) => Some("type: " + rendered)
      case Stmt(stmtOp, _, _, _, _, _, _, _, _) => Some("stmt: " + stmtOp)
      case Expr(op, _, _, _, text, _, _, _, _) =>
        Some("expr: " + OpText(op) + (if op == Name || op == Number || op == Arrow || op == Dot then ", " + text else ""))
      case Label(_) => Some("label")
      case Init(_, _, _) => None
      case Foreign => None
  }

  /** The line one callback prints: a described node for `before`, nothing for `after`. */
  function Step(arena: seq<Node>, e: Event): Option<seq<string>> {
    if e.Exit? then Some([])
    else match Describe(arena, e.node)
      case None => None
      case Some(line) => Some([Indent(e.depth) + line])
  }

  /** Output so far followed by more output; a panic anywhere is a panic. */
  function Join(a: Option<seq<string>>, b: Option<seq<string>>): Option<seq<string>> {
    if a.None? || b.None? then None else Some(a.value + b.value)
  }

  /** The lines `prettyPrint` prints for a sequence of callbacks: one per `before`, none per `after`. */
  function Dump(arena: seq<Node>, es: seq<Event>): Option<seq<string>> {
    if es == [] then Some([]) else Join(Step(arena, es[0]), Dump(arena, es[1..]))
  }

  /** The dump of two runs of callbacks is the dump of the first followed by the dump of the second. */
  lemma {:induction false} DumpAppend(arena: seq<Node>, a: seq<Event>, b: seq<Event>)
    requires Dump(arena, a).Some? && Dump(arena, b).Some?
    ensures Dump(arena, a + b) == Some(Dump(arena, a).value + Dump(arena, b).value)
  {
    if a == [] {
      assert a + b == b;
      assert [] + Dump(arena, b).value == Dump(arena, b).value;
    } else {
      var head := Step(arena, a[0]);
      assert (a + b)[0] == a[0];
      assert (a + b)[1..] == a[1..] + b;
      DumpAppend(arena, a[1..], b);
      var x, y, z := head.value, Dump(arena, a[1..]).value, Dump(arena, b).value;
      assert x + (y + z) == x + y + z;
    }
  }

  /** The first callback's line, then the rest. */
  lemma DumpCons(arena: seq<Node>, e: Event, rest: seq<Event>)
    ensures Dump(arena, [e] + rest) == Join(Step(arena, e), Dump(arena, rest))
  {
    assert ([e] + rest)[0] == e && ([e] + rest)[1..] == rest;
  }

  /** `after` prints nothing. */
  lemma DumpExit(arena: seq<Node>, x: Ref, depth: nat)
    ensures Dump(arena, [Exit(x, depth)]) == Some([])
  {
    var none: seq<string> := [];
    assert [Exit(x, depth)][1..] == [];
    assert Step(arena, Exit(x, depth)) == Some(none) && Dump(arena, []) == Some(none);
    assert none + none == none;
  }

  /** `before` prints the node's line, `after` prints nothing. */
  lemma DumpAround(arena: seq<Node>, x: Ref, depth: nat, inner: seq<Event>, line: string)
    requires Step(arena, Enter(x, depth)) == Some([Indent(depth) + line]) && Dump(arena, inner).Some?
    ensures Dump(arena, Around(x, depth, inner)) == Some([Indent(depth) + line] + Dump(arena, inner).value)
  {
    var out := [Indent(depth) + line] + Dump(arena, inner).value;
    assert out[1..|out|] == Dump(arena, inner).value;
    DumpSlice(arena, x, depth, inner, out, 0, |out|);
    assert out[0..|out|] == out;
  }

  /** A node whose `before` prints `out[k]` and whose callbacks between print `out[k + 1..end]` prints `out[k..end]`. */
  lemma DumpSlice(arena: seq<Node>, x: Ref, depth: nat, inner: seq<Event>, out: seq<string>, k: nat, end: nat)
    requires k < end <= |out| && Step(arena, Enter(x, depth)) == Some([out[k]])
    requires Dump(arena, inner) == Some(out[k + 1..end])
    ensures Dump(arena, Around(x, depth, inner)) == Some(out[k..end])
  {
    var ex := [Exit(x, depth)];
    var di := out[k + 1..end];
    DumpExit(arena, x, depth);
    DumpAppend(arena, inner, ex);
    assert di + [] == di;
    assert Around(x, depth, inner) == [Enter(x, depth)] + (inner + ex);
    DumpCons(arena, Enter(x, depth), inner + ex);
    assert out[k..end] == [out[k]] + di;
  }

  /** `fmt`'s text for the one operator value the `String` guard lets through. */
  lemma OpTextPastTable()
    ensures OpText(TableLen) == "%!s(PANIC=String method: runtime error: index out of range [56] with length 56)"
  {
    AsWrittenPanicsOnlyAtTableLen(TableLen);
    TableLenDecimal();
    var t := "%!s(PANIC=String method: runtime error: index out of range [";
    var u := "] with length ";
    assert OpText(TableLen) == t + "56" + u + "56" + ")";
  }

  lemma TableLenDecimal()
    ensures Decimal(TableLen) == "56"
  {
    assert NatDigits(5) == "5";
    assert NatDigits(56) == NatDigits(5) + [DigitChar(6)];
  }

  /**
   * That operator value is not fatal to the dump: the node's line carries
   * the recovered index-out-of-range panic and the walk goes on.
   */
  lemma DescribeOpPastTable(arena: seq<Node>, x: Ref)
    requires IsNode(arena, x) && arena[x.id].Expr? && arena[x.id].op == TableLen
    ensures Describe(arena, x) == Some("expr: " + OpText(TableLen))
  {
    var line := "expr: " + OpText(TableLen);
    assert TableLen != Name && TableLen != Number && TableLen != Arrow && TableLen != Dot;
    assert line + "" == line;
  }

  /** So the dump carries on past such a node: its line, then its subtree's lines. */
  lemma DumpPastTable(arena: seq<Node>, x: Ref, depth: nat, inner: seq<Event>)
    requires IsNode(arena, x) && arena[x.id].Expr? && arena[x.id].op == TableLen
    requires Dump(arena, inner).Some?
    ensures Dump(arena, Around(x, depth, inner)) ==
      Some([Indent(depth) + ("expr: " + OpText(TableLen))] + Dump(arena, inner).value)
  {
    DescribeOpPastTable(arena, x);
    assert Step(arena, Enter(x, depth)) == Some([Indent(depth) + ("expr: " + OpText(TableLen))]);
    DumpAround(arena, x, depth, inner, "expr: " + OpText(TableLen));
  }

  /** Every expression node gets a line, whatever its operator value. */
  lemma DescribeExprTotal(arena: seq<Node>, x: Ref)
    requires IsNode(arena, x) && arena[x.id].Expr?
    ensures Describe(arena, x).Some?
    ensures var op := arena[x.id].op;
            0 <= op < TableLen ==> HasPrefixText(Describe(arena, x).value, "expr: " + OpString(op))
  {
    var op := arena[x.id].op;
    if 0 <= op < TableLen {
      AsWrittenPanicsOnlyAtTableLen(op);
    }
  }

  predicate HasPrefixText(s: string, p: string) {
    |p| <= |s| && s[..|p|] == p
  }

  /**
   * A nil `*Prog` root gets its `prog` line before the walk panics on it:
   * the dump prints the line and the run ends there.
   */
  lemma NilProgRootPrintsProg(arena: seq<Node>)
    ensures !WalkFrom(arena, NilOf(ProgKind)).ok
    ensures Dump(arena, WalkFrom(arena, NilOf(ProgKind)).events) == Some(["prog"])
  {
    var x := NilOf(ProgKind);
    UnwalkableRootPanics(arena, x);
    var none: seq<string> := [];
    assert [Enter(x, 0)][1..] == [];
    assert Step(arena, Enter(x, 0)) == Some([Indent(0) + "prog"]);
    assert Indent(0) + "prog" == "prog";
    assert ["prog"] + none == ["prog"];
  }
}
