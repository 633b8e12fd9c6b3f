/** The expected output of the hello-world example of cc/parse_test.go:59-83, line by line. */
module GoldenText {
  import opened PrettyPrint

  /** The number of nodes of the hello-world arena. */
  const Size := 17


  /** The expected output of the hello-world example. */
  const HelloWorldOutput: seq<string> := [
    "prog",
    "  decl: printf",
    "    type: func( char*) void",
    "      type: void",
    "      decl",
    "        type: char*",
    "          type: char",
    "  decl: main",
    "    type: func() int",
    "      type: int",
    "    stmt: Block",
    "      stmt: StmtExpr",
    "        expr: Call",
    "          expr: Name, printf",
    "          expr: String",
    "      stmt: Return",
    "        expr: Number, 0"
  ]


  /** The depth of each hello-world node below the Prog. */
  function Depth(k: nat): nat {
    match k
    case 0 => 0
    case 1 => 1
    case 2 => 2
    case 3 => 3
    case 4 => 3
    case 5 => 4
    case 6 => 5
    case 7 => 1
    case 8 => 2
    case 9 => 3
    case 10 => 2
    case 11 => 3
    case 12 => 4
    case 13 => 5
    case 14 => 5
    case 15 => 3
    case 16 => 4
    case _ => 0
  }

  /** Line `k` of the expected output is node `k`'s text, indented by its depth. */
  lemma LineFacts(k: nat)
    requires k < Size
    ensures |HelloWorldOutput| == Size && HelloWorldOutput[k] == Indent(Depth(k)) + Text(k)
  {
    OutputSize();
    if k == 0 { Line0(); Pad0(); }
    else if k == 1 { Line1(); Pad1(); }
    else if k == 2 { Line2(); Pad2(); }
    else if k == 3 { Line3(); Pad3(); }
    else if k == 4 { Line4(); Pad4(); }
    else if k == 5 { Line5(); Pad5(); }
    else if k == 6 { Line6(); Pad6(); }
    else if k == 7 { Line7(); Pad7(); }
    else if k == 8 { Line8(); Pad8(); }
    else if k == 9 { Line9(); Pad9(); }
    else if k == 10 { Line10(); Pad10(); }
    else if k == 11 { Line11(); Pad11(); }
    else if k == 12 { Line12(); Pad12(); }
    else if k == 13 { Line13(); Pad13(); }
    else if k == 14 { Line14(); Pad14(); }
    else if k == 15 { Line15(); Pad15(); }
    else if k == 16 { Line16(); Pad16(); }
  }


  /** What `prettyPrintSyntax` prints for each hello-world node. */
  function Text(k: nat): string {
    match k
    case 0 => "prog"
    case 1 => "decl: printf"
    case 2 => "type: func( char*) void"
    case 3 => "type: void"
    case 4 => "decl"
    case 5 => "type: char*"
    case 6 => "type: char"
    case 7 => "decl: main"
    case 8 => "type: func() int"
    case 9 => "type: int"
    case 10 => "stmt: Block"
    case 11 => "stmt: StmtExpr"
    case 12 => "expr: Call"
    case 13 => "expr: Name, printf"
    case 14 => "expr: String"
    case 15 => "stmt: Return"
    case 16 => "expr: Number, 0"
    case _ => ""
  }

  lemma OutputSize()
    ensures |HelloWorldOutput| == Size
  {
  }

  lemma Spaces0()
    ensures Indent(0) == ""
  {
  }

  lemma Spaces1()
    ensures Indent(1) == "  "
  {
  }

  lemma Spaces2()
    ensures Indent(2) == "    "
  {
  }

  lemma Spaces3()
    ensures Indent(3) == "      "
  {
  }

  lemma Spaces4()
    ensures Indent(4) == "        "
  {
  }

  lemma Spaces5()
    ensures Indent(5) == "          "
  {
  }

  lemma Line0()
    ensures HelloWorldOutput[0] == "prog"
  {
  }

  lemma Glue0()
    ensures "" + "prog" == "prog"
  {
  }

  lemma Pad0()
    ensures Indent(Depth(0)) + Text(0) == "prog"
  {
    assert Depth(0) == 0;
    assert Text(0) == "prog";
    Spaces0();
    Glue0();
  }

  lemma Line1()
    ensures HelloWorldOutput[1] == "  decl: printf"
  {
  }

  lemma Glue1()
    ensures "  " + "decl: printf" == "  decl: printf"
  {
  }

  lemma Pad1()
    ensures Indent(Depth(1)) + Text(1) == "  decl: printf"
  {
    assert Depth(1) == 1;
    assert Text(1) == "decl: printf";
    Spaces1();
    Glue1();
  }

  lemma Line2()
    ensures HelloWorldOutput[2] == "    type: func( char*) void"
  {
  }

  lemma Glue2()
    ensures "    " + "type: func( char*) void" == "    type: func( char*) void"
  {
  }

  lemma Pad2()
    ensures Indent(Depth(2)) + Text(2) == "    type: func( char*) void"
  {
    assert Depth(2) == 2;
    assert Text(2) == "type: func( char*) void";
    Spaces2();
    Glue2();
  }

  lemma Line3()
    ensures HelloWorldOutput[3] == "      type: void"
  {
  }

  lemma Glue3()
    ensures "      " + "type: void" == "      type: void"
  {
  }

  lemma Pad3()
    ensures Indent(Depth(3)) + Text(3) == "      type: void"
  {
    assert Depth(3) == 3;
    assert Text(3) == "type: void";
    Spaces3();
    Glue3();
  }

  lemma Line4()
    ensures HelloWorldOutput[4] == "      decl"
  {
  }

  lemma Glue4()
    ensures "      " + "decl" == "      decl"
  {
  }

  lemma Pad4()
    ensures Indent(Depth(4)) + Text(4) == "      decl"
  {
    assert Depth(4) == 3;
    assert Text(4) == "decl";
    Spaces3();
    Glue4();
  }

  lemma Line5()
    ensures HelloWorldOutput[5] == "        type: char*"
  {
  }

  lemma Glue5()
    ensures "        " + "type: char*" == "        type: char*"
  {
  }

  lemma Pad5()
    ensures Indent(Depth(5)) + Text(5) == "        type: char*"
  {
    assert Depth(5) == 4;
    assert Text(5) == "type: char*";
    Spaces4();
    Glue5();
  }

  lemma Line6()
    ensures HelloWorldOutput[6] == "          type: char"
  {
  }

  lemma Glue6()
    ensures "          " + "type: char" == "          type: char"
  {
  }

  lemma Pad6()
    ensures Indent(Depth(6)) + Text(6) == "          type: char"
  {
    assert Depth(6) == 5;
    assert Text(6) == "type: char";
    Spaces5();
    Glue6();
  }

  lemma Line7()
    ensures HelloWorldOutput[7] == "  decl: main"
  {
  }

  lemma Glue7()
    ensures "  " + "decl: main" == "  decl: main"
  {
  }

  lemma Pad7()
    ensures Indent(Depth(7)) + Text(7) == "  decl: main"
  {
    assert Depth(7) == 1;
    assert Text(7) == "decl: main";
    Spaces1();
    Glue7();
  }

  lemma Line8()
    ensures HelloWorldOutput[8] == "    type: func() int"
  {
  }

  lemma Glue8()
    ensures "    " + "type: func() int" == "    type: func() int"
  {
  }

  lemma Pad8()
    ensures Indent(Depth(8)) + Text(8) == "    type: func() int"
  {
    assert Depth(8) == 2;
    assert Text(8) == "type: func() int";
    Spaces2();
    Glue8();
  }

  lemma Line9()
    ensures HelloWorldOutput[9] == "      type: int"
  {
  }

  lemma Glue9()
    ensures "      " + "type: int" == "      type: int"
  {
  }

  lemma Pad9()
    ensures Indent(Depth(9)) + Text(9) == "      type: int"
  {
    assert Depth(9) == 3;
    assert Text(9) == "type: int";
    Spaces3();
    Glue9();
  }

  lemma Line10()
    ensures HelloWorldOutput[10] == "    stmt: Block"
  {
  }

  lemma Glue10()
    ensures "    " + "stmt: Block" == "    stmt: Block"
  {
  }

  lemma Pad10()
    ensures Indent(Depth(10)) + Text(10) == "    stmt: Block"
  {
    assert Depth(10) == 2;
    assert Text(10) == "stmt: Block";
    Spaces2();
    Glue10();
  }

  lemma Line11()
    ensures HelloWorldOutput[11] == "      stmt: StmtExpr"
  {
  }

  lemma Glue11()
    ensures "      " + "stmt: StmtExpr" == "      stmt: StmtExpr"
  {
  }

  lemma Pad11()
    ensures Indent(Depth(11)) + Text(11) == "      stmt: StmtExpr"
  {
    assert Depth(11) == 3;
    assert Text(11) == "stmt: StmtExpr";
    Spaces3();
    Glue11();
  }

  lemma Line12()
    ensures HelloWorldOutput[12] == "        expr: Call"
  {
  }

  lemma Glue12()
    ensures "        " + "expr: Call" == "        expr: Call"
  {
  }

  lemma Pad12()
    ensures Indent(Depth(12)) + Text(12) == "        expr: Call"
  {
    assert Depth(12) == 4;
    assert Text(12) == "expr: Call";
    Spaces4();
    Glue12();
  }

  lemma Line13()
    ensures HelloWorldOutput[13] == "          expr: Name, printf"
  {
  }

  lemma Glue13()
    ensures "          " + "expr: Name, printf" == "          expr: Name, printf"
  {
  }

  lemma Pad13()
    ensures Indent(Depth(13)) + Text(13) == "          expr: Name, printf"
  {
    assert Depth(13) == 5;
    assert Text(13) == "expr: Name, printf";
    Spaces5();
    Glue13();
  }

  lemma Line14()
    ensures HelloWorldOutput[14] == "          expr: String"
  {
  }

  lemma Glue14()
    ensures "          " + "expr: String" == "          expr: String"
  {
  }

  lemma Pad14()
    ensures Indent(Depth(14)) + Text(14) == "          expr: String"
  {
    assert Depth(14) == 5;
    assert Text(14) == "expr: String";
    Spaces5();
    Glue14();
  }

  lemma Line15()
    ensures HelloWorldOutput[15] == "      stmt: Return"
  {
  }

  lemma Glue15()
    ensures "      " + "stmt: Return" == "      stmt: Return"
  {
  }

  lemma Pad15()
    ensures Indent(Depth(15)) + Text(15) == "      stmt: Return"
  {
    assert Depth(15) == 3;
    assert Text(15) == "stmt: Return";
    Spaces3();
    Glue15();
  }

  lemma Line16()
    ensures HelloWorldOutput[16] == "        expr: Number, 0"
  {
  }

  lemma Glue16()
    ensures "        " + "expr: Number, 0" == "        expr: Number, 0"
  {
  }

  lemma Pad16()
    ensures Indent(Depth(16)) + Text(16) == "        expr: Number, 0"
  {
    assert Depth(16) == 4;
    assert Text(16) == "expr: Number, 0";
    Spaces4();
    Glue16();
  }
}
