/**
 * The operator tags of a parsed C expression and the name table behind
 * their textual form (cc/expr.go:34-158), together with the per-operator
 * field-usage contract documented beside each constant (cc/expr.go:9-20, 37-92).
 */
module ExprOps {
  import opened Wrappers

  // Operator values as Go's `iota` numbers them; value 0 is the unnamed blank `_`.
  const Add: int := 1
  const AddEq: int := 2
  const Addr: int := 3
  const And: int := 4
  const AndAnd: int := 5
  const AndEq: int := 6
  const Arrow: int := 7
  const Call: int := 8
  const Cast: int := 9
  const CastInit: int := 10
  const Comma: int := 11
  const Cond: int := 12
  const Div: int := 13
  const DivEq: int := 14
  const Dot: int := 15
  const Eq: int := 16
  const EqEq: int := 17
  const Gt: int := 18
  const GtEq: int := 19
  const Index: int := 20
  const Indir: int := 21
  const Lsh: int := 22
  const LshEq: int := 23
  const Lt: int := 24
  const LtEq: int := 25
  const Minus: int := 26
  const Mod: int := 27
  const ModEq: int := 28
  const Mul: int := 29
  const MulEq: int := 30
  const Name: int := 31
  const Not: int := 32
  const NotEq: int := 33
  const Number: int := 34
  const Offsetof: int := 35
  const Or: int := 36
  const OrEq: int := 37
  const OrOr: int := 38
  const Paren: int := 39
  const Plus: int := 40
  const PostDec: int := 41
  const PostInc: int := 42
  const PreDec: int := 43
  const PreInc: int := 44
  const Rsh: int := 45
  const RshEq: int := 46
  const SizeofExpr: int := 47
  const SizeofType: int := 48
  const String: int := 49
  const Sub: int := 50
  const SubEq: int := 51
  const Twid: int := 52
  const VaArg: int := 53
  const Xor: int := 54
  const XorEq: int := 55

  /** The name table has one entry per key 0..XorEq: its length is the largest key plus one. */
  const TableLen: int := XorEq + 1

  /** True for the 55 named operators. */
  predicate IsDeclared(op: int) {
    Add <= op <= XorEq
  }

  /**
   * Entry `op` of the keyed slice literal `exprOpString`. Index 0 has no key,
   * so it holds Go's zero string.
   */
  function TableEntry(op: int): string
    requires 0 <= op < TableLen
  {
    match op
    case 1 => "Add"
    case 2 => "AddEq"
    case 3 => "Addr"
    case 4 => "And"
    case 5 => "AndAnd"
    case 6 => "AndEq"
    case 7 => "Arrow"
    case 8 => "Call"
    case 9 => "Cast"
    case 10 => "CastInit"
    case 11 => "Comma"
    case 12 => "Cond"
    case 13 => "Div"
    case 14 => "DivEq"
    case 15 => "Dot"
    case 16 => "Eq"
    case 17 => "EqEq"
    case 18 => "Gt"
    case 19 => "GtEq"
    case 20 => "Index"
    case 21 => "Indir"
    case 22 => "Lsh"
    case 23 => "LshEq"
    case 24 => "Lt"
    case 25 => "LtEq"
    case 26 => "Minus"
    case 27 => "Mod"
    case 28 => "ModEq"
    case 29 => "Mul"
    case 30 => "MulEq"
    case 31 => "Name"
    case 32 => "Not"
    case 33 => "NotEq"
    case 34 => "Number"
    case 35 => "Offsetof"
    case 36 => "Or"
    case 37 => "OrEq"
    case 38 => "OrOr"
    case 39 => "Paren"
    case 40 => "Plus"
    case 41 => "PostDec"
    case 42 => "PostInc"
    case 43 => "PreDec"
    case 44 => "PreInc"
    case 45 => "Rsh"
    case 46 => "RshEq"
    case 47 => "SizeofExpr"
    case 48 => "SizeofType"
    case 49 => "String"
    case 50 => "Sub"
    case 51 => "SubEq"
    case 52 => "Twid"
    case 53 => "VaArg"
    case 54 => "Xor"
    case 55 => "XorEq"
    case _ => ""
  }

  // ----- decimal formatting, as the `%d` verb prints an integer -----

  function DigitChar(d: int): (c: char)
    requires 0 <= d < 10
    ensures '0' <= c <= '9'
  {
    ('0' as int + d) as char
  }

  predicate AllDigits(s: string) {
    forall i | 0 <= i < |s| :: '0' <= s[i] <= '9'
  }

  /** The decimal digits of `n`, most significant first, without leading zeros. */
  function NatDigits(n: nat): (s: string)
    ensures |s| >= 1 && AllDigits(s)
    decreases n
  {
    if n < 10 then [DigitChar(n)] else NatDigits(n / 10) + [DigitChar(n % 10)]
  }

  /** `%d` of an integer: an optional minus sign, then the digits. */
  function Decimal(n: int): (s: string)
    ensures |s| >= 1
  {
    if n < 0 then "-" + NatDigits(-n) else NatDigits(n)
  }

  /** Reads back a string of decimal digits. */
  function ParseNat(s: string): nat
    requires AllDigits(s)
    decreases |s|
  {
    if s == [] then 0 else ParseNat(s[..|s| - 1]) * 10 + (s[|s| - 1] as int - '0' as int)
  }

  function ParseDecimal(s: string): int
    requires |s| >= 1
    requires s[0] == '-' ==> AllDigits(s[1..])
    requires s[0] != '-' ==> AllDigits(s)
  {
    if s[0] == '-' then 0 - ParseNat(s[1..]) else ParseNat(s)
  }

  lemma {:induction false} NatDigitsRoundTrip(n: nat)
    ensures ParseNat(NatDigits(n)) == n
    decreases n
  {
    var s := NatDigits(n);
    if n >= 10 {
      NatDigitsRoundTrip(n / 10);
      assert s[..|s| - 1] == NatDigits(n / 10);
    }
  }

  /** The decimal text of an integer determines the integer. */
  lemma DecimalRoundTrip(n: int)
    ensures var s := Decimal(n);
      (s[0] == '-' ==> AllDigits(s[1..])) && (s[0] != '-' ==> AllDigits(s)) && ParseDecimal(s) == n
  {
    if n < 0 {
      NatDigitsRoundTrip(-n);
      assert Decimal(n)[1..] == NatDigits(-n);
    } else {
      NatDigitsRoundTrip(n);
    }
  }

  // ----- ExprOp.String -----

  /** The fallback text for an operator value outside the table. */
  function Fallback(op: int): (s: string)
    ensures |s| >= 9 && s[..7] == "ExprOp("
  {
    "ExprOp(" + Decimal(op) + ")"
  }

  /**
   * `ExprOp.String` as written: the guard `int(op) <= len(exprOpString)` also
   * admits `op == len(exprOpString)`, where indexing the slice panics.
   * `None` stands for that index-out-of-range panic.
   */
  function OpStringAsWritten(op: int): Option<string>
  {
    if 0 <= op && op <= TableLen then
      if op < TableLen then Some(TableEntry(op)) else None
    else
      Some(Fallback(op))
  }

  /** `ExprOp.String` with the guard the table needs: `int(op) < len(exprOpString)`. */
  function OpString(op: int): string
  {
    if 0 <= op < TableLen then TableEntry(op) else Fallback(op)
  }

  /** The as-written guard differs from the intended one at exactly one value: 56 panics. */
  lemma AsWrittenPanicsOnlyAtTableLen(op: int)
    ensures OpStringAsWritten(op) == if op == TableLen then None else Some(OpString(op))
    ensures OpStringAsWritten(56).None? && OpString(56) == "ExprOp(56)"
  {
    assert Decimal(56) == "56" by {
      assert NatDigits(5) == "5";
      assert NatDigits(56) == NatDigits(5) + [DigitChar(6)];
    }
  }

  // ----- the names are ordered, hence distinct -----

  /** Strict lexicographic order on strings, comparing from position `i` on. */
  predicate LessFrom(a: string, b: string, i: nat)
    decreases |a| - i
  {
    if i >= |a| then i < |b|
    else if i >= |b| then false
    else if a[i] != b[i] then a[i] < b[i]
    else LessFrom(a, b, i + 1)
  }

  predicate Less(a: string, b: string) {
    LessFrom(a, b, 0)
  }

  lemma {:induction false} LessFromIrreflexive(a: string, i: nat)
    ensures !LessFrom(a, a, i)
    decreases |a| - i
  {
    if i < |a| {
      LessFromIrreflexive(a, i + 1);
    }
  }

  lemma {:induction false} LessFromTransitive(a: string, b: string, c: string, i: nat)
    requires i <= |a| && i <= |b| && i <= |c|
    requires a[..i] == b[..i] == c[..i]
    requires LessFrom(a, b, i) && LessFrom(b, c, i)
    ensures LessFrom(a, c, i)
    decreases |a| - i
  {
    if i < |a| && i < |b| && i < |c| && a[i] == b[i] && b[i] == c[i] {
      assert a[..i + 1] == a[..i] + [a[i]];
      assert b[..i + 1] == b[..i] + [b[i]];
      assert c[..i + 1] == c[..i] + [c[i]];
      LessFromTransitive(a, b, c, i + 1);
    }
  }

  lemma LessTransitive(a: string, b: string, c: string)
    requires Less(a, b) && Less(b, c)
    ensures Less(a, c)
  {
    LessFromTransitive(a, b, c, 0);
  }

  // Adjacent entries are compared on the literal names, a few at a time so
  // that each lemma stays cheap for the solver.

  lemma AdjacentOrdered0(k: int)
    requires 0 <= k < 5
    ensures Less(TableEntry(k), TableEntry(k + 1))
  {
    if k == 0 {
      assert Less(TableEntry(0), TableEntry(1));
    } else if k == 1 {
      assert Less(TableEntry(1), TableEntry(2));
    } else if k == 2 {
      assert Less(TableEntry(2), TableEntry(3));
    } else if k == 3 {
      assert Less(TableEntry(3), TableEntry(4));
    } else {
      assert Less(TableEntry(4), TableEntry(5));
    }
  }

  lemma AdjacentOrdered5(k: int)
    requires 5 <= k < 10
    ensures Less(TableEntry(k), TableEntry(k + 1))
  {
    if k == 5 {
      assert Less(TableEntry(5), TableEntry(6));
    } else if k == 6 {
      assert Less(TableEntry(6), TableEntry(7));
    } else if k == 7 {
      assert Less(TableEntry(7), TableEntry(8));
    } else if k == 8 {
      assert Less(TableEntry(8), TableEntry(9));
    } else {
      assert Less(TableEntry(9), TableEntry(10));
    }
  }

  lemma AdjacentOrdered10(k: int)
    requires 10 <= k < 15
    ensures Less(TableEntry(k), TableEntry(k + 1))
  {
    if k == 10 {
      assert Less(TableEntry(10), TableEntry(11));
    } else if k == 11 {
      assert Less(TableEntry(11), TableEntry(12));
    } else if k == 12 {
      assert Less(TableEntry(12), TableEntry(13));
    } else if k == 13 {
      assert Less(TableEntry(13), TableEntry(14));
    } else {
      assert Less(TableEntry(14), TableEntry(15));
    }
  }

  lemma AdjacentOrdered15(k: int)
    requires 15 <= k < 20
    ensures Less(TableEntry(k), TableEntry(k + 1))
  {
    if k == 15 {
      assert Less(TableEntry(15), TableEntry(16));
    } else if k == 16 {
      assert Less(TableEntry(16), TableEntry(17));
    } else if k == 17 {
      assert Less(TableEntry(17), TableEntry(18));
    } else if k == 18 {
      assert Less(TableEntry(18), TableEntry(19));
    } else {
      assert Less(TableEntry(19), TableEntry(20));
    }
  }

  lemma AdjacentOrdered20(k: int)
    requires 20 <= k < 25
    ensures Less(TableEntry(k), TableEntry(k + 1))
  {
    if k == 20 {
      assert Less(TableEntry(20), TableEntry(21));
    } else if k == 21 {
      assert Less(TableEntry(21), TableEntry(22));
    } else if k == 22 {
      assert Less(TableEntry(22), TableEntry(23));
    } else if k == 23 {
      assert Less(TableEntry(23), TableEntry(24));
    } else {
      assert Less(TableEntry(24), TableEntry(25));
    }
  }

  lemma AdjacentOrdered25(k: int)
    requires 25 <= k < 30
    ensures Less(TableEntry(k), TableEntry(k + 1))
  {
    if k == 25 {
      assert Less(TableEntry(25), TableEntry(26));
    } else if k == 26 {
      assert Less(TableEntry(26), TableEntry(27));
    } else if k == 27 {
      assert Less(TableEntry(27), TableEntry(28));
    } else if k == 28 {
      assert Less(TableEntry(28), TableEntry(29));
    } else {
      assert Less(TableEntry(29), TableEntry(30));
    }
  }

  lemma AdjacentOrdered30(k: int)
    requires 30 <= k < 35
    ensures Less(TableEntry(k), TableEntry(k + 1))
  {
    if k == 30 {
      assert Less(TableEntry(30), TableEntry(31));
    } else if k == 31 {
      assert Less(TableEntry(31), TableEntry(32));
    } else if k == 32 {
      assert Less(TableEntry(32), TableEntry(33));
    } else if k == 33 {
      assert Less(TableEntry(33), TableEntry(34));
    } else {
      assert Less(TableEntry(34), TableEntry(35));
    }
  }

  lemma AdjacentOrdered35(k: int)
    requires 35 <= k < 40
    ensures Less(TableEntry(k), TableEntry(k + 1))
  {
    if k == 35 {
      assert Less(TableEntry(35), TableEntry(36));
    } else if k == 36 {
      assert Less(TableEntry(36), TableEntry(37));
    } else if k == 37 {
      assert Less(TableEntry(37), TableEntry(38));
    } else if k == 38 {
      assert Less(TableEntry(38), TableEntry(39));
    } else {
      assert Less(TableEntry(39), TableEntry(40));
    }
  }

  lemma AdjacentOrdered40(k: int)
    requires 40 <= k < 45
    ensures Less(TableEntry(k), TableEntry(k + 1))
  {
    if k == 40 {
      assert Less(TableEntry(40), TableEntry(41));
    } else if k == 41 {
      assert Less(TableEntry(41), TableEntry(42));
    } else if k == 42 {
      assert Less(TableEntry(42), TableEntry(43));
    } else if k == 43 {
      assert Less(TableEntry(43), TableEntry(44));
    } else {
      assert Less(TableEntry(44), TableEntry(45));
    }
  }

  lemma AdjacentOrdered45(k: int)
    requires 45 <= k < 50
    ensures Less(TableEntry(k), TableEntry(k + 1))
  {
    if k == 45 {
      assert Less(TableEntry(45), TableEntry(46));
    } else if k == 46 {
      assert Less(TableEntry(46), TableEntry(47));
    } else if k == 47 {
      assert Less(TableEntry(47), TableEntry(48));
    } else if k == 48 {
      assert Less(TableEntry(48), TableEntry(49));
    } else {
      assert Less(TableEntry(49), TableEntry(50));
    }
  }

  lemma AdjacentOrdered50(k: int)
    requires 50 <= k < 55
    ensures Less(TableEntry(k), TableEntry(k + 1))
  {
    if k == 50 {
      assert Less(TableEntry(50), TableEntry(51));
    } else if k == 51 {
      assert Less(TableEntry(51), TableEntry(52));
    } else if k == 52 {
      assert Less(TableEntry(52), TableEntry(53));
    } else if k == 53 {
      assert Less(TableEntry(53), TableEntry(54));
    } else {
      assert Less(TableEntry(54), TableEntry(55));
    }
  }

  /** Each table entry sorts before the next one. */
  lemma AdjacentOrdered(k: int)
    requires 0 <= k < TableLen - 1
    ensures Less(TableEntry(k), TableEntry(k + 1))
  {
    if k < 5 {
      AdjacentOrdered0(k);
    } else if k < 10 {
      AdjacentOrdered5(k);
    } else if k < 15 {
      AdjacentOrdered10(k);
    } else if k < 20 {
      AdjacentOrdered15(k);
    } else if k < 25 {
      AdjacentOrdered20(k);
    } else if k < 30 {
      AdjacentOrdered25(k);
    } else if k < 35 {
      AdjacentOrdered30(k);
    } else if k < 40 {
      AdjacentOrdered35(k);
    } else if k < 45 {
      AdjacentOrdered40(k);
    } else if k < 50 {
      AdjacentOrdered45(k);
    } else {
      AdjacentOrdered50(k);
    }
  }

  /** The table is strictly increasing: `i < j` implies entry `i` sorts before entry `j`. */
  lemma {:induction false} TableOrdered(i: int, j: int)
    requires 0 <= i < j < TableLen
    ensures Less(TableEntry(i), TableEntry(j))
    decreases j - i
  {
    AdjacentOrdered(i);
    if j > i + 1 {
      TableOrdered(i + 1, j);
      LessTransitive(TableEntry(i), TableEntry(i + 1), TableEntry(j));
    }
  }

  /** Every declared operator has a non-empty name, and no two operators share one. */
  lemma DeclaredNamesDistinct(a: int, b: int)
    requires IsDeclared(a) && IsDeclared(b) && a != b
    ensures OpString(a) != "" && OpString(a) != OpString(b)
  {
    TableOrdered(0, a);
    if a < b {
      TableOrdered(a, b);
      LessFromIrreflexive(TableEntry(a), 0);
    } else {
      TableOrdered(b, a);
      LessFromIrreflexive(TableEntry(b), 0);
    }
  }

  /** A fallback text sorts strictly between the entries "EqEq" and "Gt". */
  lemma FallbackBetweenEntries(op: int)
    ensures Less(TableEntry(EqEq), Fallback(op)) && Less(Fallback(op), TableEntry(Gt))
  {
    var s := Fallback(op);
    assert s[0] == s[..7][0] == 'E' && s[1] == s[..7][1] == 'x';
    assert LessFrom(TableEntry(EqEq), s, 1);
    assert LessFrom(s, TableEntry(Gt), 0);
  }

  /** No table entry reads like a fallback text. */
  lemma EntryIsNoFallback(i: int, op: int)
    requires 0 <= i < TableLen
    ensures TableEntry(i) != Fallback(op)
  {
    FallbackBetweenEntries(op);
    if i < EqEq {
      TableOrdered(i, EqEq);
      LessTransitive(TableEntry(i), TableEntry(EqEq), Fallback(op));
      LessFromIrreflexive(Fallback(op), 0);
    } else if i == EqEq {
      LessFromIrreflexive(Fallback(op), 0);
    } else if i == Gt {
      LessFromIrreflexive(Fallback(op), 0);
    } else if i > Gt {
      TableOrdered(Gt, i);
      LessTransitive(Fallback(op), TableEntry(Gt), TableEntry(i));
      LessFromIrreflexive(Fallback(op), 0);
    }
  }

  /** With the corrected guard, distinct operator values always print differently. */
  lemma OpStringInjective(a: int, b: int)
    requires OpString(a) == OpString(b)
    ensures a == b
  {
    var inA, inB := 0 <= a < TableLen, 0 <= b < TableLen;
    if inA && inB {
      if a < b {
        TableOrdered(a, b);
        LessFromIrreflexive(TableEntry(b), 0);
      } else if b < a {
        TableOrdered(b, a);
        LessFromIrreflexive(TableEntry(a), 0);
      }
    } else if inA {
      EntryIsNoFallback(a, b);
    } else if inB {
      EntryIsNoFallback(b, a);
    } else {
      var da, db := Decimal(a), Decimal(b);
      assert Fallback(a) == "ExprOp(" + da + ")";
      assert da == Fallback(a)[7..|Fallback(a)| - 1];
      assert db == Fallback(b)[7..|Fallback(b)| - 1];
      DecimalRoundTrip(a);
      DecimalRoundTrip(b);
    }
  }

  // ----- which Expr fields each operator uses -----

  /** The fields of an expression node that an operator may populate (cc/expr.go:12-19). */
  datatype Field = LeftField | RightField | ListField | TextField | TextsField | TypeField | InitField

  /** The operand shapes the comments beside the operator constants describe. */
  datatype OpShape =
    | Binary       // Left op Right
    | Assign       // Left op= Right
    | Unary        // op Left, Left op, (Left), sizeof(Left)
    | Member       // Left->Text, Left.Text
    | CallShape    // Left(List)
    | TypeAndLeft  // (Type)Left, offsetof(Type, Left), va_arg(Left, Type)
    | CompoundLit  // (Type){Init}
    | TypeOnly     // sizeof(Type)
    | CommaList    // x, y, z
    | Conditional  // x ? y : z, as a three-element List
    | Literal      // a name or a numeric constant in Text
    | StringLit    // the pieces of a string literal in Texts

  function Shape(op: int): OpShape
    requires IsDeclared(op)
  {
    if op in {Add, And, AndAnd, Div, EqEq, Gt, GtEq, Index, Lsh, Lt, LtEq, Mod, Mul, NotEq, Or, OrOr, Rsh, Sub, Xor} then Binary
    else if op in {AddEq, AndEq, DivEq, Eq, LshEq, ModEq, MulEq, OrEq, RshEq, SubEq, XorEq} then Assign
    else if op in {Addr, Indir, Minus, Not, Paren, Plus, PostDec, PostInc, PreDec, PreInc, SizeofExpr, Twid} then Unary
    else if op == Arrow || op == Dot then Member
    else if op == Call then CallShape
    else if op in {Cast, Offsetof, VaArg} then TypeAndLeft
    else if op == CastInit then CompoundLit
    else if op == SizeofType then TypeOnly
    else if op == Comma then CommaList
    else if op == Cond then Conditional
    else if op == Name || op == Number then Literal
    else StringLit
  }

  function Uses(shape: OpShape): set<Field> {
    match shape
    case Binary | Assign => {LeftField, RightField}
    case Unary => {LeftField}
    case Member => {LeftField, TextField}
    case CallShape => {LeftField, ListField}
    case TypeAndLeft => {TypeField, LeftField}
    case CompoundLit => {TypeField, InitField}
    case TypeOnly => {TypeField}
    case CommaList | Conditional => {ListField}
    case Literal => {TextField}
    case StringLit => {TextsField}
  }

  /**
   * The operators whose Text field is populated are exactly the four for which
   * the syntax dump of cc/parse_test.go:48 prints the text, and only String
   * uses the Texts list.
   */
  lemma TextUsers(op: int)
    requires IsDeclared(op)
    ensures TextField in Uses(Shape(op)) <==> op in {Name, Number, Arrow, Dot}
    ensures TextsField in Uses(Shape(op)) <==> op == String
  {
  }
}
