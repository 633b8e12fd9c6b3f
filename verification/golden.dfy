/**
 * The hello-world program of cc/parse_test.go:59-83 as an arena built by
 * hand (the parser is not part of this model), and the proof that its walk
 * prints the expected dump.
 */
module Golden {
  import opened Wrappers
  import opened ExprOps
  import opened Syntax
  import opened WalkSpec
  import opened PrettyPrint
  import opened GoldenText

  const NoInit := NilOf(InitKind)
  const NoType := NilOf(TypeKind)
  const NoExpr := NilOf(ExprKind)
  const NoStmt := NilOf(StmtKind)

  function LeafType(rendered: string): Node {
    Type(rendered, NoType, [], NoExpr)
  }

  function ExprLeaf(op: int, text: string, texts: seq<string>): Node {
    Expr(op, NoExpr, NoExpr, [], text, texts, NoType, NoInit, [])
  }

  function SimpleStmt(stmtOp: string, expr: Ref, block: seq<Ref>): Node {
    Stmt(stmtOp, NoExpr, expr, NoExpr, NilOf(DeclKind), NoStmt, NoStmt, block, [])
  }

  /** `void printf(char*); int main() { printf("Hello, World!"); return 0; }` as the parser links it. */
  const HelloWorld: seq<Node> := [
    /*  0 */ Prog([Ptr(1), Ptr(7)]),
    /*  1 */ Decl("printf", Ptr(2), NoInit, NoStmt),
    /*  2 */ Type("func( char*) void", Ptr(3), [Ptr(4)], NoExpr),
    /*  3 */ LeafType("void"),
    /*  4 */ Decl("", Ptr(5), NoInit, NoStmt),
    /*  5 */ Type("char*", Ptr(6), [], NoExpr),
    /*  6 */ LeafType("char"),
    /*  7 */ Decl("main", Ptr(8), NoInit, Ptr(10)),
    /*  8 */ Type("func() int", Ptr(9), [], NoExpr),
    /*  9 */ LeafType("int"),
    /* 10 */ SimpleStmt("Block", NoExpr, [Ptr(11), Ptr(15)]),
    /* 11 */ SimpleStmt("StmtExpr", Ptr(12), []),
    /* 12 */ Expr(Call, Ptr(13), NoExpr, [Ptr(14)], "", [], NoType, NoInit, []),
    /* 13 */ ExprLeaf(Name, "printf", []),
    /* 14 */ ExprLeaf(String, "", ["\"Hello, World!\""]),
    /* 15 */ SimpleStmt("Return", Ptr(16), []),
    /* 16 */ ExprLeaf(Number, "0", [])
  ]

  /** The indices of the non-nil children of each hello-world node, in walk order. */
  function Kids(k: nat): seq<nat>
    requires k < Size
  {
    match k
    case 0 => [1, 7]
    case 1 => [2]
    case 2 => [3, 4]
    case 3 => []
    case 4 => [5]
    case 5 => [6]
    case 6 => []
    case 7 => [8, 10]
    case 8 => [9]
    case 9 => []
    case 10 => [11, 15]
    case 11 => [12]
    case 12 => [13, 14]
    case 13 => []
    case 14 => []
    case 15 => [16]
    case 16 => []
    case _ => []
  }

  /** The nodes `Ptr(lo)` .. `Ptr(hi - 1)`. */
  function Range(lo: nat, hi: nat): set<Ref> {
    set i: nat | lo <= i < hi :: Ptr(i)
  }

  lemma InRange(r: Ref, lo: nat, hi: nat)
    ensures r in Range(lo, hi) <==> r.Ptr? && lo <= r.id < hi
  {
    if r.Ptr? && lo <= r.id < hi {
      assert r == Ptr(r.id);
    }
  }

  /**
   * One past the last node of the subtree under node `k`: the arena lists
   * the nodes in preorder, so every subtree is a contiguous range.
   */
  function End(k: nat): (e: nat)
    ensures k < e && (k < Size ==> e <= Size)
  {
    match k
    case 0 => 17
    case 1 => 7
    case 2 => 7
    case 3 => 4
    case 4 => 7
    case 5 => 7
    case 6 => 7
    case 7 => 17
    case 8 => 10
    case 9 => 10
    case 10 => 17
    case 11 => 15
    case 12 => 15
    case 13 => 14
    case 14 => 15
    case 15 => 17
    case 16 => 17
    case _ => k + 1
  }

  /** The callbacks a plain recursive preorder/postorder traversal of the hello-world tree fires under node `k`. */
  function Tree(k: nat, depth: nat): seq<Event>
    requires k < Size
    decreases Size - k
  {
    var ks := Kids(k);
    Around(Ptr(k), depth,
      (if |ks| > 0 && k < ks[0] < Size then Tree(ks[0], depth + 1) else [])
      + (if |ks| > 1 && k < ks[1] < Size then Tree(ks[1], depth + 1) else []))
  }

  lemma Node0()
    ensures IsNode(HelloWorld, Ptr(0)) && Live(Children(HelloWorld[0])) == [Ptr(1), Ptr(7)]
  {
    assert Children(HelloWorld[0]) == [Ptr(1), Ptr(7)];
    assert Live([Ptr(1), Ptr(7)]) == [Ptr(1), Ptr(7)];
  }

  lemma Node1()
    ensures IsNode(HelloWorld, Ptr(1)) && Live(Children(HelloWorld[1])) == [Ptr(2)]
  {
    assert Children(HelloWorld[1]) == [Ptr(2), NilOf(InitKind), NilOf(StmtKind)];
    assert Live([Ptr(2), NilOf(InitKind), NilOf(StmtKind)]) == [Ptr(2)];
  }

  lemma Node2()
    ensures IsNode(HelloWorld, Ptr(2)) && Live(Children(HelloWorld[2])) == [Ptr(3), Ptr(4)]
  {
    assert Children(HelloWorld[2]) == [Ptr(3), Ptr(4), NilOf(ExprKind)];
    assert Live([Ptr(3), Ptr(4), NilOf(ExprKind)]) == [Ptr(3), Ptr(4)];
  }

  lemma Node3()
    ensures IsNode(HelloWorld, Ptr(3)) && Live(Children(HelloWorld[3])) == []
  {
    assert Children(HelloWorld[3]) == [NilOf(TypeKind), NilOf(ExprKind)];
    assert Live([NilOf(TypeKind), NilOf(ExprKind)]) == [];
  }

  lemma Node4()
    ensures IsNode(HelloWorld, Ptr(4)) && Live(Children(HelloWorld[4])) == [Ptr(5)]
  {
    assert Children(HelloWorld[4]) == [Ptr(5), NilOf(InitKind), NilOf(StmtKind)];
    assert Live([Ptr(5), NilOf(InitKind), NilOf(StmtKind)]) == [Ptr(5)];
  }

  lemma Node5()
    ensures IsNode(HelloWorld, Ptr(5)) && Live(Children(HelloWorld[5])) == [Ptr(6)]
  {
    assert Children(HelloWorld[5]) == [Ptr(6), NilOf(ExprKind)];
    assert Live([Ptr(6), NilOf(ExprKind)]) == [Ptr(6)];
  }

  lemma Node6()
    ensures IsNode(HelloWorld, Ptr(6)) && Live(Children(HelloWorld[6])) == []
  {
    assert Children(HelloWorld[6]) == [NilOf(TypeKind), NilOf(ExprKind)];
    assert Live([NilOf(TypeKind), NilOf(ExprKind)]) == [];
  }

  lemma Node7()
    ensures IsNode(HelloWorld, Ptr(7)) && Live(Children(HelloWorld[7])) == [Ptr(8), Ptr(10)]
  {
    assert Children(HelloWorld[7]) == [Ptr(8), NilOf(InitKind), Ptr(10)];
    assert Live([Ptr(8), NilOf(InitKind), Ptr(10)]) == [Ptr(8), Ptr(10)];
  }

  lemma Node8()
    ensures IsNode(HelloWorld, Ptr(8)) && Live(Children(HelloWorld[8])) == [Ptr(9)]
  {
    assert Children(HelloWorld[8]) == [Ptr(9), NilOf(ExprKind)];
    assert Live([Ptr(9), NilOf(ExprKind)]) == [Ptr(9)];
  }

  lemma Node9()
    ensures IsNode(HelloWorld, Ptr(9)) && Live(Children(HelloWorld[9])) == []
  {
    assert Children(HelloWorld[9]) == [NilOf(TypeKind), NilOf(ExprKind)];
    assert Live([NilOf(TypeKind), NilOf(ExprKind)]) == [];
  }

  lemma {:induction false} LiveAppend(a: seq<Ref>, b: seq<Ref>)
    ensures Live(a + b) == Live(a) + Live(b)
  {
    if a != [] {
      assert (a + b)[0] == a[0] && (a + b)[1..] == a[1..] + b;
      LiveAppend(a[1..], b);
    } else {
      assert a + b == b;
    }
  }

  lemma {:induction false} LiveNils(xs: seq<Ref>)
    requires forall i :: 0 <= i < |xs| ==> xs[i] in Sentinels
    ensures Live(xs) == []
  {
    if xs != [] {
      LiveNils(xs[1..]);
    }
  }

  /** The nil slots of a statement with only an expression and a block are skipped. */
  lemma LiveStmt(stmtOp: string, expr: Ref, block: seq<Ref>)
    ensures Live(Children(SimpleStmt(stmtOp, expr, block))) == Live([expr]) + Live(block)
  {
    var tail := [NoExpr, NilOf(DeclKind), NoStmt, NoStmt];
    LiveNils(tail);
    var pre := [NoExpr] + ([expr] + tail);
    assert Children(SimpleStmt(stmtOp, expr, block)) == pre + block;
    LiveAppend([expr], tail);
    assert pre[0] == NoExpr && pre[1..] == [expr] + tail;
    assert Live(pre) == Live([expr]);
    LiveAppend(pre, block);
  }

  lemma Node10()
    ensures IsNode(HelloWorld, Ptr(10)) && Live(Children(HelloWorld[10])) == [Ptr(11), Ptr(15)]
  {
    assert HelloWorld[10] == SimpleStmt("Block", NoExpr, [Ptr(11), Ptr(15)]);
    LiveStmt("Block", NoExpr, [Ptr(11), Ptr(15)]);
    assert Live([NoExpr]) == [];
    assert Live([Ptr(11), Ptr(15)]) == [Ptr(11), Ptr(15)];
  }

  lemma Node11()
    ensures IsNode(HelloWorld, Ptr(11)) && Live(Children(HelloWorld[11])) == [Ptr(12)]
  {
    assert HelloWorld[11] == SimpleStmt("StmtExpr", Ptr(12), []);
    LiveStmt("StmtExpr", Ptr(12), []);
    assert Live([Ptr(12)]) == [Ptr(12)];
  }

  lemma Node12()
    ensures IsNode(HelloWorld, Ptr(12)) && Live(Children(HelloWorld[12])) == [Ptr(13), Ptr(14)]
  {
    assert Children(HelloWorld[12]) == [Ptr(13), NilOf(ExprKind), Ptr(14), NilOf(TypeKind), NilOf(InitKind)];
    assert Live([Ptr(13), NilOf(ExprKind), Ptr(14), NilOf(TypeKind), NilOf(InitKind)]) == [Ptr(13), Ptr(14)];
  }

  lemma Node13()
    ensures IsNode(HelloWorld, Ptr(13)) && Live(Children(HelloWorld[13])) == []
  {
    assert Children(HelloWorld[13]) == [NilOf(ExprKind), NilOf(ExprKind), NilOf(TypeKind), NilOf(InitKind)];
    assert Live([NilOf(ExprKind), NilOf(ExprKind), NilOf(TypeKind), NilOf(InitKind)]) == [];
  }

  lemma Node14()
    ensures IsNode(HelloWorld, Ptr(14)) && Live(Children(HelloWorld[14])) == []
  {
    assert Children(HelloWorld[14]) == [NilOf(ExprKind), NilOf(ExprKind), NilOf(TypeKind), NilOf(InitKind)];
    assert Live([NilOf(ExprKind), NilOf(ExprKind), NilOf(TypeKind), NilOf(InitKind)]) == [];
  }

  lemma Node15()
    ensures IsNode(HelloWorld, Ptr(15)) && Live(Children(HelloWorld[15])) == [Ptr(16)]
  {
    assert HelloWorld[15] == SimpleStmt("Return", Ptr(16), []);
    LiveStmt("Return", Ptr(16), []);
    assert Live([Ptr(16)]) == [Ptr(16)];
  }

  lemma Node16()
    ensures IsNode(HelloWorld, Ptr(16)) && Live(Children(HelloWorld[16])) == []
  {
    assert Children(HelloWorld[16]) == [NilOf(ExprKind), NilOf(ExprKind), NilOf(TypeKind), NilOf(InitKind)];
    assert Live([NilOf(ExprKind), NilOf(ExprKind), NilOf(TypeKind), NilOf(InitKind)]) == [];
  }

  /** The non-nil children of each hello-world node are the nodes `Kids` names. */
  lemma NodeFacts(k: nat)
    requires k < Size
    ensures |HelloWorld| == Size && IsNode(HelloWorld, Ptr(k))
    ensures |Kids(k)| == 0 ==> Live(Children(HelloWorld[k])) == []
    ensures |Kids(k)| == 1 ==> Live(Children(HelloWorld[k])) == [Ptr(Kids(k)[0])]
    ensures |Kids(k)| == 2 ==> Live(Children(HelloWorld[k])) == [Ptr(Kids(k)[0]), Ptr(Kids(k)[1])]
  {
    if k == 0 { Node0(); }
    else if k == 1 { Node1(); }
    else if k == 2 { Node2(); }
    else if k == 3 { Node3(); }
    else if k == 4 { Node4(); }
    else if k == 5 { Node5(); }
    else if k == 6 { Node6(); }
    else if k == 7 { Node7(); }
    else if k == 8 { Node8(); }
    else if k == 9 { Node9(); }
    else if k == 10 { Node10(); }
    else if k == 11 { Node11(); }
    else if k == 12 { Node12(); }
    else if k == 13 { Node13(); }
    else if k == 14 { Node14(); }
    else if k == 15 { Node15(); }
    else if k == 16 { Node16(); }
  }

  lemma Describe0()
    ensures Describe(HelloWorld, Ptr(0)) == Some(Text(0))
  {
    assert Text(0) == "prog";
    assert HelloWorld[0] == Prog([Ptr(1), Ptr(7)]);
  }

  lemma Describe1()
    ensures Describe(HelloWorld, Ptr(1)) == Some(Text(1))
  {
    assert Text(1) == "decl: printf";
    assert HelloWorld[1] == Decl("printf", Ptr(2), NoInit, NoStmt);
    assert "decl" + (": " + "printf") == "decl: printf";
  }

  lemma Describe2()
    ensures Describe(HelloWorld, Ptr(2)) == Some(Text(2))
  {
    assert Text(2) == "type: func( char*) void";
    assert HelloWorld[2] == Type("func( char*) void", Ptr(3), [Ptr(4)], NoExpr);
    assert "type: " + "func( char*) void" == "type: func( char*) void";
  }

  lemma Describe3()
    ensures Describe(HelloWorld, Ptr(3)) == Some(Text(3))
  {
    assert Text(3) == "type: void";
    assert HelloWorld[3] == LeafType("void");
    assert "type: " + "void" == "type: void";
  }

  lemma Describe4()
    ensures Describe(HelloWorld, Ptr(4)) == Some(Text(4))
  {
    assert Text(4) == "decl";
    assert HelloWorld[4] == Decl("", Ptr(5), NoInit, NoStmt);
    assert "decl" + "" == "decl";
  }

  lemma Describe5()
    ensures Describe(HelloWorld, Ptr(5)) == Some(Text(5))
  {
    assert Text(5) == "type: char*";
    assert HelloWorld[5] == Type("char*", Ptr(6), [], NoExpr);
    assert "type: " + "char*" == "type: char*";
  }

  lemma Describe6()
    ensures Describe(HelloWorld, Ptr(6)) == Some(Text(6))
  {
    assert Text(6) == "type: char";
    assert HelloWorld[6] == LeafType("char");
    assert "type: " + "char" == "type: char";
  }

  lemma Describe7()
    ensures Describe(HelloWorld, Ptr(7)) == Some(Text(7))
  {
    assert Text(7) == "decl: main";
    assert HelloWorld[7] == Decl("main", Ptr(8), NoInit, Ptr(10));
    assert "decl" + (": " + "main") == "decl: main";
  }

  lemma Describe8()
    ensures Describe(HelloWorld, Ptr(8)) == Some(Text(8))
  {
    assert Text(8) == "type: func() int";
    assert HelloWorld[8] == Type("func() int", Ptr(9), [], NoExpr);
    assert "type: " + "func() int" == "type: func() int";
  }

  lemma Describe9()
    ensures Describe(HelloWorld, Ptr(9)) == Some(Text(9))
  {
    assert Text(9) == "type: int";
    assert HelloWorld[9] == LeafType("int");
    assert "type: " + "int" == "type: int";
  }

  lemma Describe10()
    ensures Describe(HelloWorld, Ptr(10)) == Some(Text(10))
  {
    assert Text(10) == "stmt: Block";
    assert HelloWorld[10] == SimpleStmt("Block", NoExpr, [Ptr(11), Ptr(15)]);
    assert "stmt: " + "Block" == "stmt: Block";
  }

  lemma Describe11()
    ensures Describe(HelloWorld, Ptr(11)) == Some(Text(11))
  {
    assert Text(11) == "stmt: StmtExpr";
    assert HelloWorld[11] == SimpleStmt("StmtExpr", Ptr(12), []);
    assert "stmt: " + "StmtExpr" == "stmt: StmtExpr";
  }

  lemma Describe12()
    ensures Describe(HelloWorld, Ptr(12)) == Some(Text(12))
  {
    assert Text(12) == "expr: Call";
    assert HelloWorld[12] == Expr(Call, Ptr(13), NoExpr, [Ptr(14)], "", [], NoType, NoInit, []);
    assert OpStringAsWritten(Call) == Some("Call");
    assert "expr: " + "Call" + "" == "expr: Call";
  }

  lemma Describe13()
    ensures Describe(HelloWorld, Ptr(13)) == Some(Text(13))
  {
    assert Text(13) == "expr: Name, printf";
    assert HelloWorld[13] == ExprLeaf(Name, "printf", []);
    assert OpStringAsWritten(Name) == Some("Name");
    assert "expr: " + "Name" + (", " + "printf") == "expr: Name, printf";
  }

  lemma Describe14()
    ensures Describe(HelloWorld, Ptr(14)) == Some(Text(14))
  {
    assert Text(14) == "expr: String";
    assert HelloWorld[14] == ExprLeaf(String, "", ["\"Hello, World!\""]);
    assert OpStringAsWritten(String) == Some("String");
    assert "expr: " + "String" + "" == "expr: String";
  }

  lemma Describe15()
    ensures Describe(HelloWorld, Ptr(15)) == Some(Text(15))
  {
    assert Text(15) == "stmt: Return";
    assert HelloWorld[15] == SimpleStmt("Return", Ptr(16), []);
    assert "stmt: " + "Return" == "stmt: Return";
  }

  lemma Describe16()
    ensures Describe(HelloWorld, Ptr(16)) == Some(Text(16))
  {
    assert Text(16) == "expr: Number, 0";
    assert HelloWorld[16] == ExprLeaf(Number, "0", []);
    assert OpStringAsWritten(Number) == Some("Number");
    assert "expr: " + "Number" + (", " + "0") == "expr: Number, 0";
  }

  /** Each hello-world node prints as `Text` says. */
  lemma DescribeFacts(k: nat)
    requires k < Size
    ensures Describe(HelloWorld, Ptr(k)) == Some(Text(k))
  {
    if k == 0 { Describe0(); }
    else if k == 1 { Describe1(); }
    else if k == 2 { Describe2(); }
    else if k == 3 { Describe3(); }
    else if k == 4 { Describe4(); }
    else if k == 5 { Describe5(); }
    else if k == 6 { Describe6(); }
    else if k == 7 { Describe7(); }
    else if k == 8 { Describe8(); }
    else if k == 9 { Describe9(); }
    else if k == 10 { Describe10(); }
    else if k == 11 { Describe11(); }
    else if k == 12 { Describe12(); }
    else if k == 13 { Describe13(); }
    else if k == 14 { Describe14(); }
    else if k == 15 { Describe15(); }
    else if k == 16 { Describe16(); }
  }

  /** Each hello-world subtree is its root followed by the ranges of its children's subtrees. */
  lemma KidsFacts(k: nat)
    requires k < Size
    ensures k < End(k) <= Size && |Kids(k)| <= 2
    ensures |Kids(k)| == 0 ==> End(k) == k + 1
    ensures |Kids(k)| >= 1 ==> Kids(k)[0] == k + 1
    ensures |Kids(k)| == 1 ==> End(Kids(k)[0]) == End(k)
    ensures |Kids(k)| == 2 ==> End(Kids(k)[0]) == Kids(k)[1] && End(Kids(k)[1]) == End(k)
    ensures forall i :: 0 <= i < |Kids(k)| ==> k < Kids(k)[i] < End(k) && Depth(Kids(k)[i]) == Depth(k) + 1
  {
  }

  /** Splitting `[lo, hi)` at `mid`. */
  lemma RangeSplit(lo: nat, mid: nat, hi: nat)
    requires lo <= mid <= hi
    ensures Range(lo, hi) == Range(lo, mid) + Range(mid, hi) && Range(lo, mid) !! Range(mid, hi)
  {
    forall r ensures r in Range(lo, hi) <==> r in Range(lo, mid) || r in Range(mid, hi) {
      InRange(r, lo, hi);
      InRange(r, lo, mid);
      InRange(r, mid, hi);
    }
    forall r | r in Range(lo, mid) ensures r !in Range(mid, hi) {
      InRange(r, lo, mid);
      InRange(r, mid, hi);
    }
  }

  lemma RangeOne(k: nat)
    ensures Range(k, k + 1) == {Ptr(k)}
  {
    var hi := k + 1;
    InRange(Ptr(k), k, hi);
    forall r | r in Range(k, hi)
      ensures r == Ptr(k)
    {
      InRange(r, k, hi);
    }
  }

  /** One `walk` of a known node not yet seen, with its nil children dropped. */
  lemma StepLive(arena: seq<Node>, x: Ref, depth: nat, seen: set<Ref>)
    requires Sentinels <= seen && x !in seen && IsNode(arena, x)
    ensures var r := WalkList(arena, Live(Children(arena[x.id])), depth + 1, seen + {x});
            Walk1(arena, x, depth, seen)
            == Outcome(r.seen, [Enter(x, depth)] + r.events + (if r.ok then [Exit(x, depth)] else []), r.ok)
  {
    Walk1Step(arena, x, depth, seen);
    NilChildrenSkipped(arena, Children(arena[x.id]), depth + 1, seen + {x});
  }

  /**
   * On the hello-world arena the walk of the subtree under node `k` adds
   * exactly that subtree to `seen` and fires the callbacks of a plain
   * recursive traversal, whatever unrelated nodes were seen before.
   */
  lemma {:induction false} TreeWalk(k: nat, depth: nat, seen: set<Ref>)
    requires k < Size && Sentinels <= seen && seen !! Range(k, End(k))
    ensures Walk1(HelloWorld, Ptr(k), depth, seen) == Outcome(seen + Range(k, End(k)), Tree(k, depth), true)
    decreases Size - k
  {
    var x, ks := Ptr(k), Kids(k);
    KidsFacts(k);
    RangeSplit(k, k + 1, End(k));
    RangeOne(k);
    if |ks| == 0 {
      LeafStep(k, depth, seen);
    } else if |ks| == 1 {
      SplitSeen(seen, x, Range(k, End(k)), Range(ks[0], End(k)), {});
      TreeWalk(ks[0], depth + 1, seen + {x});
      OneKidStep(k, depth, seen);
    } else {
      var c, e := ks[0], ks[1];
      RangeSplit(c, e, End(k));
      SplitSeen(seen, x, Range(k, End(k)), Range(c, e), Range(e, End(k)));
      TreeWalk(c, depth + 1, seen + {x});
      TreeWalk(e, depth + 1, seen + {x} + Range(c, e));
      TwoKidsStep(k, depth, seen);
    }
  }

  /** A node's range split into the node and the ranges of its two (or one) child subtrees. */
  lemma SplitSeen(seen: set<Ref>, x: Ref, r: set<Ref>, a: set<Ref>, b: set<Ref>)
    requires seen !! r && r == {x} + (a + b) && x !in a && x !in b && a !! b
    ensures seen + {x} !! a && seen + {x} + a !! b
    ensures seen + {x} + a == seen + r - b && seen + {x} + a + b == seen + r
  {
  }

  /** A node whose children are all nil: its two callbacks and nothing else. */
  lemma LeafWalk(arena: seq<Node>, x: Ref, depth: nat, seen: set<Ref>)
    requires Sentinels <= seen && x !in seen && IsNode(arena, x) && Live(Children(arena[x.id])) == []
    ensures Walk1(arena, x, depth, seen) == Outcome(seen + {x}, Around(x, depth, []), true)
  {
    StepLive(arena, x, depth, seen);
  }

  /** A node with one non-nil child `c` whose walk succeeds. */
  lemma OneKidWalk(arena: seq<Node>, x: Ref, c: Ref, depth: nat, seen: set<Ref>, s1: set<Ref>, t1: seq<Event>)
    requires Sentinels <= seen && x !in seen && IsNode(arena, x) && Live(Children(arena[x.id])) == [c]
    requires Walk1(arena, c, depth + 1, seen + {x}) == Outcome(s1, t1, true)
    ensures Walk1(arena, x, depth, seen) == Outcome(s1, Around(x, depth, t1), true)
  {
    StepLive(arena, x, depth, seen);
    WalkListSingle(arena, c, depth + 1, seen + {x});
  }

  /** A node with two non-nil children `c` and `e` whose walks succeed. */
  lemma TwoKidsWalk(arena: seq<Node>, x: Ref, c: Ref, e: Ref, depth: nat, seen: set<Ref>,
                    s1: set<Ref>, t1: seq<Event>, s2: set<Ref>, t2: seq<Event>)
    requires Sentinels <= seen && x !in seen && IsNode(arena, x) && Live(Children(arena[x.id])) == [c, e]
    requires Walk1(arena, c, depth + 1, seen + {x}) == Outcome(s1, t1, true)
    requires Walk1(arena, e, depth + 1, s1) == Outcome(s2, t2, true)
    ensures Walk1(arena, x, depth, seen) == Outcome(s2, Around(x, depth, t1 + t2), true)
  {
    StepLive(arena, x, depth, seen);
    WalkListPair(arena, c, e, depth + 1, seen + {x});
  }

  /** `Tree` one level down. */
  lemma TreeUnfold(k: nat, depth: nat)
    requires k < Size
    ensures |Kids(k)| == 0 ==> Tree(k, depth) == Around(Ptr(k), depth, [])
    ensures |Kids(k)| == 1 ==> Tree(k, depth) == Around(Ptr(k), depth, Tree(Kids(k)[0], depth + 1))
    ensures |Kids(k)| == 2 ==> Tree(k, depth) == Around(Ptr(k), depth, Tree(Kids(k)[0], depth + 1) + Tree(Kids(k)[1], depth + 1))
  {
    KidsFacts(k);
    var ks := Kids(k);
    if |ks| == 0 {
      assert Tree(k, depth) == Around(Ptr(k), depth, [] + []);
    } else if |ks| == 1 {
      assert Tree(k, depth) == Around(Ptr(k), depth, Tree(ks[0], depth + 1) + []);
      assert Tree(ks[0], depth + 1) + [] == Tree(ks[0], depth + 1);
    }
  }

  lemma LeafStep(k: nat, depth: nat, seen: set<Ref>)
    requires k < Size && Sentinels <= seen && Ptr(k) !in seen && Kids(k) == []
    ensures Walk1(HelloWorld, Ptr(k), depth, seen) == Outcome(seen + {Ptr(k)}, Tree(k, depth), true)
  {
    NodeFacts(k);
    LeafWalk(HelloWorld, Ptr(k), depth, seen);
    TreeUnfold(k, depth);
  }

  lemma OneKidStep(k: nat, depth: nat, seen: set<Ref>)
    requires k < Size && Sentinels <= seen && Ptr(k) !in seen && |Kids(k)| == 1
    requires var c := Kids(k)[0];
             k < c < Size &&
             Walk1(HelloWorld, Ptr(c), depth + 1, seen + {Ptr(k)})
             == Outcome(seen + {Ptr(k)} + Range(c, End(c)), Tree(c, depth + 1), true)
    ensures var c := Kids(k)[0];
            Walk1(HelloWorld, Ptr(k), depth, seen) == Outcome(seen + {Ptr(k)} + Range(c, End(c)), Tree(k, depth), true)
  {
    var c := Kids(k)[0];
    NodeFacts(k);
    OneKidWalk(HelloWorld, Ptr(k), Ptr(c), depth, seen, seen + {Ptr(k)} + Range(c, End(c)), Tree(c, depth + 1));
    TreeUnfold(k, depth);
  }

  lemma TwoKidsStep(k: nat, depth: nat, seen: set<Ref>)
    requires k < Size && Sentinels <= seen && Ptr(k) !in seen && |Kids(k)| == 2
    requires var c, e := Kids(k)[0], Kids(k)[1];
             k < c < Size && k < e < Size &&
             Walk1(HelloWorld, Ptr(c), depth + 1, seen + {Ptr(k)})
             == Outcome(seen + {Ptr(k)} + Range(c, End(c)), Tree(c, depth + 1), true) &&
             Walk1(HelloWorld, Ptr(e), depth + 1, seen + {Ptr(k)} + Range(c, End(c)))
             == Outcome(seen + {Ptr(k)} + Range(c, End(c)) + Range(e, End(e)), Tree(e, depth + 1), true)
    ensures var c, e := Kids(k)[0], Kids(k)[1];
            Walk1(HelloWorld, Ptr(k), depth, seen)
            == Outcome(seen + {Ptr(k)} + Range(c, End(c)) + Range(e, End(e)), Tree(k, depth), true)
  {
    var c, e := Kids(k)[0], Kids(k)[1];
    var s1 := seen + {Ptr(k)} + Range(c, End(c));
    NodeFacts(k);
    TwoKidsWalk(HelloWorld, Ptr(k), Ptr(c), Ptr(e), depth, seen,
                s1, Tree(c, depth + 1), s1 + Range(e, End(e)), Tree(e, depth + 1));
    TreeUnfold(k, depth);
  }

  /** Line `k` of `out` is what `before` prints for node `k` of `arena` at its depth. */
  predicate Lines(arena: seq<Node>, out: seq<string>) {
    |out| == Size && forall k :: 0 <= k < Size ==> Step(arena, Enter(Ptr(k), Depth(k))) == Some([out[k]])
  }

  /** `before` prints line `k` of the expected output for node `k`. */
  lemma LineAt(k: nat)
    requires k < Size
    ensures Step(HelloWorld, Enter(Ptr(k), Depth(k))) == Some([HelloWorldOutput[k]])
  {
    DescribeFacts(k);
    LineFacts(k);
  }

  lemma HelloWorldLines()
    ensures Lines(HelloWorld, HelloWorldOutput)
  {
    OutputSize();
    forall k | 0 <= k < Size
      ensures Step(HelloWorld, Enter(Ptr(k), Depth(k))) == Some([HelloWorldOutput[k]])
    {
      LineAt(k);
    }
  }

  /** Dumping the callbacks of a subtree prints its slice of the expected output. */
  lemma {:induction false} TreeDump(arena: seq<Node>, out: seq<string>, k: nat)
    requires k < Size && Lines(arena, out)
    ensures Dump(arena, Tree(k, Depth(k))) == Some(out[k..End(k)])
    decreases Size - k
  {
    var ks := Kids(k);
    KidsFacts(k);
    if |ks| == 0 {
      LeafDump(arena, out, k);
    } else if |ks| == 1 {
      TreeDump(arena, out, ks[0]);
      OneKidDump(arena, out, k);
    } else {
      TreeDump(arena, out, ks[0]);
      TreeDump(arena, out, ks[1]);
      TwoKidsDump(arena, out, k);
    }
  }

  lemma LeafDump(arena: seq<Node>, out: seq<string>, k: nat)
    requires k < Size && |out| == Size && Step(arena, Enter(Ptr(k), Depth(k))) == Some([out[k]]) && |Kids(k)| == 0
    ensures Dump(arena, Tree(k, Depth(k))) == Some(out[k..End(k)])
  {
    var d := Depth(k);
    KidsFacts(k);
    TreeUnfold(k, d);
    assert out[k + 1..k + 1] == [];
    assert Dump(arena, []) == Some([]);
    DumpSlice(arena, Ptr(k), d, [], out, k, End(k));
  }

  lemma OneKidDump(arena: seq<Node>, out: seq<string>, k: nat)
    requires k < Size && |out| == Size && Step(arena, Enter(Ptr(k), Depth(k))) == Some([out[k]]) && |Kids(k)| == 1
    requires Kids(k)[0] < Size && Dump(arena, Tree(Kids(k)[0], Depth(Kids(k)[0]))) == Some(out[Kids(k)[0]..End(Kids(k)[0])])
    ensures Dump(arena, Tree(k, Depth(k))) == Some(out[k..End(k)])
  {
    var c, d := Kids(k)[0], Depth(k);
    KidsFacts(k);
    TreeUnfold(k, d);
    DumpSlice(arena, Ptr(k), d, Tree(c, d + 1), out, k, End(k));
  }

  lemma TwoKidsDump(arena: seq<Node>, out: seq<string>, k: nat)
    requires k < Size && |out| == Size && Step(arena, Enter(Ptr(k), Depth(k))) == Some([out[k]]) && |Kids(k)| == 2
    requires Kids(k)[0] < Size && Dump(arena, Tree(Kids(k)[0], Depth(Kids(k)[0]))) == Some(out[Kids(k)[0]..End(Kids(k)[0])])
    requires Kids(k)[1] < Size && Dump(arena, Tree(Kids(k)[1], Depth(Kids(k)[1]))) == Some(out[Kids(k)[1]..End(Kids(k)[1])])
    ensures Dump(arena, Tree(k, Depth(k))) == Some(out[k..End(k)])
  {
    var c, e, d := Kids(k)[0], Kids(k)[1], Depth(k);
    KidsFacts(k);
    TreeUnfold(k, d);
    DumpAppend(arena, Tree(c, d + 1), Tree(e, d + 1));
    SliceJoin(out, c, e, End(k));
    DumpSlice(arena, Ptr(k), d, Tree(c, d + 1) + Tree(e, d + 1), out, k, End(k));
  }

  lemma WholeSlice(s: seq<string>)
    ensures s[0..|s|] == s
  {
  }

  lemma SliceJoin(s: seq<string>, a: nat, b: nat, c: nat)
    requires a <= b <= c <= |s|
    ensures s[a..b] + s[b..c] == s[a..c]
  {
  }

  /** The walk from the Prog visits every node once and fires the callbacks of `Tree(0, 0)`. */
  lemma HelloWorldWalk()
    ensures WalkFrom(HelloWorld, Ptr(0)) == Outcome(Sentinels + Range(0, Size), Tree(0, 0), true)
  {
    forall r | r in Sentinels
      ensures r !in Range(0, Size)
    {
      InRange(r, 0, Size);
    }
    TreeWalk(0, 0, Sentinels);
  }

  /**
   * The golden test of cc/parse_test.go:59-83: walking the hello-world
   * program succeeds and its dump is exactly the expected output.
   */
  lemma HelloWorldDump()
    ensures WalkFrom(HelloWorld, Ptr(0)).ok
    ensures Dump(HelloWorld, WalkFrom(HelloWorld, Ptr(0)).events) == Some(HelloWorldOutput)
  {
    HelloWorldWalk();
    HelloWorldLines();
    TreeDump(HelloWorld, HelloWorldOutput, 0);
    OutputSize();
    WholeSlice(HelloWorldOutput);
  }

  // ----- the hello-world arena is well typed -----

  predicate AllPoint(arena: seq<Node>, rs: seq<Ref>, k: Kind) {
    forall j :: 0 <= j < |rs| ==> Points(arena, rs[j], k)
  }

  lemma ProgTyped(arena: seq<Node>, decls: seq<Ref>)
    requires AllPoint(arena, decls, DeclKind)
    ensures SlotsTyped(arena, Children(Prog(decls)), SlotKinds(Prog(decls)))
  {
  }

  lemma DeclTyped(arena: seq<Node>, name: string, typ: Ref, init: Ref, body: Ref)
    requires Points(arena, typ, TypeKind) && Points(arena, init, InitKind) && Points(arena, body, StmtKind)
    ensures SlotsTyped(arena, Children(Decl(name, typ, init, body)), SlotKinds(Decl(name, typ, init, body)))
  {
  }

  lemma TypeTyped(arena: seq<Node>, rendered: string, base: Ref, decls: seq<Ref>)
    requires Points(arena, base, TypeKind) && AllPoint(arena, decls, DeclKind)
    ensures SlotsTyped(arena, Children(Type(rendered, base, decls, NoExpr)), SlotKinds(Type(rendered, base, decls, NoExpr)))
  {
    var n := Type(rendered, base, decls, NoExpr);
    var ks := SlotKinds(n);
    assert Children(n) == [base] + decls + [NoExpr];
    forall j | 0 <= j < |Children(n)|
      ensures Points(arena, Children(n)[j], ks[j])
    {
      if 0 < j <= |decls| {
        assert Children(n)[j] == decls[j - 1];
      }
    }
  }

  lemma ExprTyped(arena: seq<Node>, op: int, left: Ref, list: seq<Ref>, text: string, texts: seq<string>)
    requires Points(arena, left, ExprKind) && AllPoint(arena, list, ExprKind)
    ensures var n := Expr(op, left, NoExpr, list, text, texts, NoType, NoInit, []);
            SlotsTyped(arena, Children(n), SlotKinds(n))
  {
    var n := Expr(op, left, NoExpr, list, text, texts, NoType, NoInit, []);
    var ks := SlotKinds(n);
    assert Children(n) == [left, NoExpr] + list + [NoType, NoInit];
    assert ks == [ExprKind, ExprKind] + Rep(|list|, ExprKind) + [TypeKind, InitKind];
    forall j | 0 <= j < |Children(n)|
      ensures Points(arena, Children(n)[j], ks[j])
    {
      if 2 <= j < 2 + |list| {
        assert Children(n)[j] == list[j - 2];
      }
    }
  }

  lemma StmtTyped(arena: seq<Node>, stmtOp: string, expr: Ref, block: seq<Ref>)
    requires Points(arena, expr, ExprKind) && AllPoint(arena, block, StmtKind)
    ensures SlotsTyped(arena, Children(SimpleStmt(stmtOp, expr, block)), SlotKinds(SimpleStmt(stmtOp, expr, block)))
  {
    var n := SimpleStmt(stmtOp, expr, block);
    var ks := SlotKinds(n);
    assert Children(n) == [NoExpr, expr, NoExpr, NilOf(DeclKind), NoStmt, NoStmt] + block;
    assert Rep(0, LabelKind) == [];
    forall j | 0 <= j < |Children(n)|
      ensures Points(arena, Children(n)[j], ks[j])
    {
      if 6 <= j {
        assert Children(n)[j] == block[j - 6];
      }
    }
  }

  /** Node `k` of the hello-world arena fills every slot with a value of the slot's declared type. */
  lemma TypedAt(k: nat)
    requires k < Size
    ensures !HelloWorld[k].Foreign? && SlotsTyped(HelloWorld, Children(HelloWorld[k]), SlotKinds(HelloWorld[k]))
  {
    var a := HelloWorld;
    if k == 0 { ProgTyped(a, [Ptr(1), Ptr(7)]); }
    else if k == 1 { DeclTyped(a, "printf", Ptr(2), NoInit, NoStmt); }
    else if k == 2 { TypeTyped(a, "func( char*) void", Ptr(3), [Ptr(4)]); }
    else if k == 3 { TypeTyped(a, "void", NoType, []); }
    else if k == 4 { DeclTyped(a, "", Ptr(5), NoInit, NoStmt); }
    else if k == 5 { TypeTyped(a, "char*", Ptr(6), []); }
    else if k == 6 { TypeTyped(a, "char", NoType, []); }
    else if k == 7 { DeclTyped(a, "main", Ptr(8), NoInit, Ptr(10)); }
    else if k == 8 { TypeTyped(a, "func() int", Ptr(9), []); }
    else if k == 9 { TypeTyped(a, "int", NoType, []); }
    else if k == 10 { StmtTyped(a, "Block", NoExpr, [Ptr(11), Ptr(15)]); }
    else if k == 11 { StmtTyped(a, "StmtExpr", Ptr(12), []); }
    else if k == 12 { ExprTyped(a, Call, Ptr(13), [Ptr(14)], "", []); }
    else if k == 13 { ExprTyped(a, Name, NoExpr, [], "printf", []); }
    else if k == 14 { ExprTyped(a, String, NoExpr, [], "", ["\"Hello, World!\""]); }
    else if k == 15 { StmtTyped(a, "Return", Ptr(16), []); }
    else { ExprTyped(a, Number, NoExpr, [], "0", []); }
  }

  /** The hello-world program, statements included, is an arena Go's type system can build. */
  lemma HelloWorldWellTyped()
    ensures WellTyped(HelloWorld)
  {
    forall i | 0 <= i < |HelloWorld|
      ensures !HelloWorld[i].Foreign? && SlotsTyped(HelloWorld, Children(HelloWorld[i]), SlotKinds(HelloWorld[i]))
    {
      TypedAt(i);
    }
  }
}
