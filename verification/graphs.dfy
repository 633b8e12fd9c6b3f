/**
 * Two small graphs the hand-written walk of cc/walk.go:40-103 meets only
 * because of its `seen` map: a type shared by two declarations, and a
 * statement whose body is the statement itself.
 */
module Graphs {
  import opened Syntax
  import opened WalkSpec
  import opened Golden

  /** `int a; int b;` with both declarations pointing at one `int` node. */
  const Shared: seq<Node> := [
    /* 0 */ Prog([Ptr(1), Ptr(2)]),
    /* 1 */ Decl("a", Ptr(3), NoInit, NoStmt),
    /* 2 */ Decl("b", Ptr(3), NoInit, NoStmt),
    /* 3 */ LeafType("int")
  ]

  lemma SharedShape()
    ensures IsNode(Shared, Ptr(0)) && Live(Children(Shared[0])) == [Ptr(1), Ptr(2)]
    ensures IsNode(Shared, Ptr(1)) && Live(Children(Shared[1])) == [Ptr(3)]
    ensures IsNode(Shared, Ptr(2)) && Live(Children(Shared[2])) == [Ptr(3)]
    ensures IsNode(Shared, Ptr(3)) && Live(Children(Shared[3])) == []
  {
    assert Children(Shared[0]) == [Ptr(1), Ptr(2)];
    assert Live([Ptr(1), Ptr(2)]) == [Ptr(1), Ptr(2)];
    assert Children(Shared[1]) == [Ptr(3), NilOf(InitKind), NilOf(StmtKind)];
    assert Children(Shared[2]) == [Ptr(3), NilOf(InitKind), NilOf(StmtKind)];
    assert Live([Ptr(3), NilOf(InitKind), NilOf(StmtKind)]) == [Ptr(3)];
    assert Children(Shared[3]) == [NilOf(TypeKind), NilOf(ExprKind)];
    assert Live([NilOf(TypeKind), NilOf(ExprKind)]) == [];
  }

  /**
   * The shared type is entered once, under the first declaration; reaching
   * it again from the second declaration fires no callback.
   */
  lemma SharedVisitedOnce()
    ensures WalkFrom(Shared, Ptr(0)) == Outcome(
      Sentinels + {Ptr(0), Ptr(1), Ptr(3), Ptr(2)},
      [Enter(Ptr(0), 0), Enter(Ptr(1), 1), Enter(Ptr(3), 2), Exit(Ptr(3), 2), Exit(Ptr(1), 1),
       Enter(Ptr(2), 1), Exit(Ptr(2), 1), Exit(Ptr(0), 0)],
      true)
  {
    SharedShape();
    var s0 := Sentinels + {Ptr(0)};
    var s1 := s0 + {Ptr(1)};
    var s3 := s1 + {Ptr(3)};
    LeafWalk(Shared, Ptr(3), 2, s1);
    OneKidWalk(Shared, Ptr(1), Ptr(3), 1, s0, s3, Around(Ptr(3), 2, []));
    assert Walk1(Shared, Ptr(3), 2, s3 + {Ptr(2)}) == Outcome(s3 + {Ptr(2)}, [], true);
    OneKidWalk(Shared, Ptr(2), Ptr(3), 1, s3, s3 + {Ptr(2)}, []);
    var t1, t2 := Around(Ptr(1), 1, Around(Ptr(3), 2, [])), Around(Ptr(2), 1, []);
    TwoKidsWalk(Shared, Ptr(0), Ptr(1), Ptr(2), 0, Sentinels, s3, t1, s3 + {Ptr(2)}, t2);
    assert t1 == [Enter(Ptr(1), 1), Enter(Ptr(3), 2), Exit(Ptr(3), 2), Exit(Ptr(1), 1)];
    assert t2 == [Enter(Ptr(2), 1), Exit(Ptr(2), 1)];
  }

  /** `for (;;) <itself>`: a loop statement whose body is the loop. */
  const SelfLoop: seq<Node> := [
    /* 0 */ Stmt("For", NoExpr, NoExpr, NoExpr, NilOf(DeclKind), Ptr(0), NoStmt, [], [])
  ]

  /** Walking a cycle terminates: the back edge meets a seen node and fires nothing. */
  lemma SelfLoopVisitedOnce()
    ensures WalkFrom(SelfLoop, Ptr(0)) == Outcome(Sentinels + {Ptr(0)}, [Enter(Ptr(0), 0), Exit(Ptr(0), 0)], true)
  {
    var s := Sentinels + {Ptr(0)};
    var kids := [NilOf(ExprKind), NilOf(ExprKind), NilOf(ExprKind), NilOf(DeclKind), Ptr(0), NilOf(StmtKind)];
    assert Children(SelfLoop[0]) == kids;
    assert Live([NilOf(ExprKind), NilOf(ExprKind), NilOf(ExprKind), NilOf(DeclKind), Ptr(0), NilOf(StmtKind)]) == [Ptr(0)];
    assert Walk1(SelfLoop, Ptr(0), 1, s) == Outcome(s, [], true);
    OneKidWalk(SelfLoop, Ptr(0), Ptr(0), 0, Sentinels, s, []);
  }

  /** A loop statement as Go builds it, with expression-typed Pre and Post, is well typed. */
  lemma SelfLoopWellTyped()
    ensures WellTyped(SelfLoop)
  {
    var n := SelfLoop[0];
    var ks := [ExprKind, ExprKind, ExprKind, DeclKind, StmtKind, StmtKind];
    assert Rep(0, StmtKind) == [] && Rep(0, LabelKind) == [];
    assert SlotKinds(n) == ks;
    assert SlotsTyped(SelfLoop, Children(n), ks);
  }

  /** The no-panic theorem for typed arenas therefore covers this statement graph. */
  lemma SelfLoopSucceeds()
    ensures WalkFrom(SelfLoop, Ptr(0)).ok
  {
    SelfLoopWellTyped();
    TypedWalkSucceeds(SelfLoop, Ptr(0));
  }
}
