// Properties of the CSL parser model: how operator chains group, what the
// list-argument loop and the key inference do as written and as corrected,
// the union check, the annotation and default checks, and the token mapping.

module ParserProps {

  import opened Wrappers
  import opened Positions
  import opened LiteralTypes
  import opened Tokens
  import opened Repr
  import opened ParserSemantics
  import opened ParserSpec

  // ---------------------------------------------------------------------
  // Operator chains
  // ---------------------------------------------------------------------

  /** A token that parsePrimary reads as an identifier expression. */
  predicate Operand(t: Token)
  {
    t.tokenType == "identifier"
  }

  function OperandExpr(t: Token): Expr
  {
    IdentifierExpr(t.value, t.range)
  }

  /** An operator the binary loop handles by parsing a right-hand side: listed, not '@', with a binary precedence. */
  predicate InfixOperator(op: string)
  {
    IsBinaryOperator(op) && op != "@" && GetPrecedence(op, 2) < 17
  }

  /** An identifier is read as one token, whatever table is in force. */
  lemma OperandParses(ts: seq<Token>, st: PState, at: AssocTable)
    requires st.pos < |ts| && Operand(ts[st.pos])
    ensures ParseUnary(ts, st, at) == Parsed(OperandExpr(ts[st.pos]), st.(pos := st.pos + 1))
  {
  }

  /** The last token of the input, an identifier, is a whole expression at any minimum precedence. */
  lemma LastOperand(ts: seq<Token>, st: PState, minPrec: nat, at: AssocTable)
    requires st.pos + 1 == |ts| && Operand(ts[st.pos])
    ensures ParseExpression(ts, st, minPrec, at) == Parsed(OperandExpr(ts[st.pos]), st.(pos := |ts|))
  {
    var s1 := st.(pos := st.pos + 1);
    OperandParses(ts, st, at);
    assert BinaryLoop(ts, s1, minPrec, ts[st.pos].range.start, OperandExpr(ts[st.pos]), at) == Parsed(OperandExpr(ts[st.pos]), s1);
  }

  /** x op1 y op2 z: five tokens, identifiers at the even positions, infix operators between them. */
  predicate Chain(ts: seq<Token>)
  {
    |ts| == 5 && Operand(ts[0]) && Operand(ts[2]) && Operand(ts[4])
    && InfixOperator(ts[1].value) && InfixOperator(ts[3].value)
  }

  /** The middle operand as the right-hand side of op1 stops before op2 when op2 does not bind tighter. */
  lemma MiddleStops(ts: seq<Token>, st: PState, at: AssocTable)
    requires Chain(ts) && st.pos == 2
    requires GetPrecedence(ts[3].value, 2) >= GetPrecedence(ts[1].value, 2) + AssocOf(at, ts[3].value)
    ensures ParseExpression(ts, st, GetPrecedence(ts[1].value, 2), at) == Parsed(OperandExpr(ts[2]), st.(pos := 3))
  {
    var s3 := st.(pos := 3);
    OperandParses(ts, st, at);
    assert BinaryLoop(ts, s3, GetPrecedence(ts[1].value, 2), ts[2].range.start, OperandExpr(ts[2]), at) == Parsed(OperandExpr(ts[2]), s3);
    assert Ternary(ts, s3, ts[2].range.start, OperandExpr(ts[2]), at) == Parsed(OperandExpr(ts[2]), s3);
  }

  /** The middle operand takes z with it when op2 binds tighter, or equally tight and right-associative. */
  lemma MiddleTakes(ts: seq<Token>, st: PState, at: AssocTable)
    requires Chain(ts) && st.pos == 2
    requires GetPrecedence(ts[3].value, 2) < GetPrecedence(ts[1].value, 2) + AssocOf(at, ts[3].value)
    ensures ParseExpression(ts, st, GetPrecedence(ts[1].value, 2), at)
      == Parsed(BinaryExpr(ts[3].value, OperandExpr(ts[2]), OperandExpr(ts[4]), Region(ts[2].range.start, ts[4].range.end)), st.(pos := 5))
  {
    var op := ts[3].value;
    var s3 := st.(pos := 3);
    var s5 := st.(pos := 5);
    var inner := BinaryExpr(op, OperandExpr(ts[2]), OperandExpr(ts[4]), Region(ts[2].range.start, ts[4].range.end));
    OperandParses(ts, st, at);
    LastOperand(ts, st.(pos := 4), GetPrecedence(op, 2), at);
    assert Advance(ts, s3) == st.(pos := 4);
    assert BinaryLoop(ts, s5, GetPrecedence(ts[1].value, 2), ts[2].range.start, inner, at) == Parsed(inner, s5);
    assert BinaryLoop(ts, s3, GetPrecedence(ts[1].value, 2), ts[2].range.start, OperandExpr(ts[2]), at) == Parsed(inner, s5);
  }

  /**
   * Left grouping: when op2 does not bind tighter than op1 (a larger or
   * equal precedence number, and op2 left-associative when equal), the
   * chain parses as (x op1 y) op2 z and reports nothing.
   */
  lemma ChainGroupsLeft(ts: seq<Token>, st: PState, at: AssocTable)
    requires Chain(ts) && st.pos == 0
    requires GetPrecedence(ts[3].value, 2) >= GetPrecedence(ts[1].value, 2) + AssocOf(at, ts[3].value)
    ensures ParseExpression(ts, st, 17, at)
      == Parsed(BinaryExpr(ts[3].value,
                  BinaryExpr(ts[1].value, OperandExpr(ts[0]), OperandExpr(ts[2]), Region(ts[0].range.start, ts[2].range.end)),
                  OperandExpr(ts[4]), Region(ts[0].range.start, ts[4].range.end)),
                st.(pos := 5))
  {
    var start := ts[0].range.start;
    var s1 := st.(pos := 1);
    var s3 := st.(pos := 3);
    var s5 := st.(pos := 5);
    var left := BinaryExpr(ts[1].value, OperandExpr(ts[0]), OperandExpr(ts[2]), Region(start, ts[2].range.end));
    var whole := BinaryExpr(ts[3].value, left, OperandExpr(ts[4]), Region(start, ts[4].range.end));
    OperandParses(ts, st, at);
    MiddleStops(ts, st.(pos := 2), at);
    LastOperand(ts, st.(pos := 4), GetPrecedence(ts[3].value, 2), at);
    assert Advance(ts, s1) == st.(pos := 2);
    assert Advance(ts, s3) == st.(pos := 4);
    assert BinaryLoop(ts, s5, 17, start, whole, at) == Parsed(whole, s5);
    assert BinaryLoop(ts, s3, 17, start, left, at) == Parsed(whole, s5);
    assert BinaryLoop(ts, s1, 17, start, OperandExpr(ts[0]), at) == Parsed(whole, s5);
  }

  /**
   * Right grouping: when op2 binds tighter than op1, or equally tight and
   * right-associative, the chain parses as x op1 (y op2 z) and reports nothing.
   */
  lemma ChainGroupsRight(ts: seq<Token>, st: PState, at: AssocTable)
    requires Chain(ts) && st.pos == 0
    requires GetPrecedence(ts[3].value, 2) < GetPrecedence(ts[1].value, 2) + AssocOf(at, ts[3].value)
    ensures ParseExpression(ts, st, 17, at)
      == Parsed(BinaryExpr(ts[1].value, OperandExpr(ts[0]),
                  BinaryExpr(ts[3].value, OperandExpr(ts[2]), OperandExpr(ts[4]), Region(ts[2].range.start, ts[4].range.end)),
                  Region(ts[0].range.start, ts[4].range.end)),
                st.(pos := 5))
  {
    var start := ts[0].range.start;
    var s1 := st.(pos := 1);
    var s5 := st.(pos := 5);
    var right := BinaryExpr(ts[3].value, OperandExpr(ts[2]), OperandExpr(ts[4]), Region(ts[2].range.start, ts[4].range.end));
    var whole := BinaryExpr(ts[1].value, OperandExpr(ts[0]), right, Region(start, ts[4].range.end));
    OperandParses(ts, st, at);
    MiddleTakes(ts, st.(pos := 2), at);
    assert Advance(ts, s1) == st.(pos := 2);
    assert BinaryLoop(ts, s5, 17, start, whole, at) == Parsed(whole, s5);
    assert BinaryLoop(ts, s1, 17, start, OperandExpr(ts[0]), at) == Parsed(whole, s5);
  }

  /** Whether some entry of an initializer list has key `op`. */
  predicate Keyed(table: AssocTable, op: string)
  {
    exists j :: 0 <= j < |table| && table[j].0 == op
  }

  /** A lookup in a joined list: the first part decides when it has the key. */
  lemma {:induction false} AssocAppend(a: AssocTable, b: AssocTable, op: string)
    ensures AssocOf(a + b, op) == if Keyed(a, op) then AssocOf(a, op) else AssocOf(b, op)
    decreases |a|
  {
    if a == [] {
      assert a + b == b;
    } else {
      assert (a + b)[0] == a[0];
      assert (a + b)[1..] == a[1..] + b;
      if a[0].0 != op {
        AssocAppend(a[1..], b, op);
        if Keyed(a, op) {
          var j :| 0 <= j < |a| && a[j].0 == op;
          assert a[1..][j - 1].0 == op;
        }
        if Keyed(a[1..], op) {
          var j :| 0 <= j < |a[1..]| && a[1..][j].0 == op;
          assert a[j + 1].0 == op;
        }
      }
    }
  }

  /** Every entry has value 1 exactly when its key is one of `rights`. */
  predicate RightExactly(table: AssocTable, rights: set<string>)
  {
    forall j :: 0 <= j < |table| ==> table[j].1 == (if table[j].0 in rights then 1 else 0)
  }

  lemma RightExactlyAppend(a: AssocTable, b: AssocTable, rights: set<string>)
    requires RightExactly(a, rights) && RightExactly(b, rights)
    ensures RightExactly(a + b, rights)
  {
    forall j | 0 <= j < |a + b|
      ensures (a + b)[j].1 == (if (a + b)[j].0 in rights then 1 else 0)
    {
      if j >= |a| {
        assert (a + b)[j] == b[j - |a|];
      }
    }
  }

  /** In such a list an operator that is not right-associative looks up 0, whether or not it is a key. */
  lemma {:induction false} LeftLookup(table: AssocTable, rights: set<string>, op: string)
    requires RightExactly(table, rights) && op !in rights
    ensures AssocOf(table, op) == 0
  {
    if table != [] && table[0].0 != op {
      assert RightExactly(table[1..], rights) by {
        forall j | 0 <= j < |table[1..]| ensures table[1..][j] == table[j + 1] { }
      }
      LeftLookup(table[1..], rights, op);
    }
  }

  /** The right-associative keys of the list after the unary line. */
  const BinaryRights: set<string> := {"=", "?", ":"}

  lemma BinaryAssocShape()
    ensures RightExactly(BinaryAssoc, BinaryRights)
  {
    var r6 := BracketAssoc + TernaryAssoc;
    var r5 := LogicalAssoc + r6;
    var r4 := BitwiseAssoc + r5;
    var r3 := RelationalAssoc + r4;
    var r2 := ShiftAssoc + r3;
    var r1 := ArithmeticAssoc + r2;
    RightExactlyAppend(BracketAssoc, TernaryAssoc, BinaryRights);
    RightExactlyAppend(LogicalAssoc, r6, BinaryRights);
    RightExactlyAppend(BitwiseAssoc, r5, BinaryRights);
    RightExactlyAppend(RelationalAssoc, r4, BinaryRights);
    RightExactlyAppend(ShiftAssoc, r3, BinaryRights);
    RightExactlyAppend(ArithmeticAssoc, r2, BinaryRights);
    RightExactlyAppend(AccessAssoc, r1, BinaryRights);
  }

  /** Only the logical line has an "=" entry among the lines before it. */
  lemma AssignmentAbsent()
    ensures !Keyed(AccessAssoc, "=") && !Keyed(ArithmeticAssoc, "=") && !Keyed(ShiftAssoc, "=")
    ensures !Keyed(RelationalAssoc, "=") && !Keyed(BitwiseAssoc, "=")
  {
  }

  /** "=" is a key of the list after the unary line, with value 1. */
  lemma AssignmentEntry()
    ensures AssocOf(BinaryAssoc, "=") == 1
  {
    var r6 := BracketAssoc + TernaryAssoc;
    var r5 := LogicalAssoc + r6;
    var r4 := BitwiseAssoc + r5;
    var r3 := RelationalAssoc + r4;
    var r2 := ShiftAssoc + r3;
    var r1 := ArithmeticAssoc + r2;
    assert LogicalAssoc[2].0 == "=";
    AssignmentAbsent();
    AssocAppend(LogicalAssoc, r6, "=");
    AssocAppend(BitwiseAssoc, r5, "=");
    AssocAppend(RelationalAssoc, r4, "=");
    AssocAppend(ShiftAssoc, r3, "=");
    AssocAppend(ArithmeticAssoc, r2, "=");
    AssocAppend(AccessAssoc, r1, "=");
  }

  /** A lookup passes over a first entry with another key. */
  lemma SkipHead(table: AssocTable, op: string)
    requires table != [] && table[0].0 != op
    ensures AssocOf(table, op) == AssocOf(table[1..], op)
  {
  }

  /** Putting the unary-only line in front of a list keeps its lookups of other keys. */
  lemma UnaryOnlyFront(b: AssocTable, op: string)
    requires op != "~" && op != "!"
    ensures AssocOf([("~", 1), ("!", 1)] + b, op) == AssocOf(b, op)
  {
    var x := [("~", 1), ("!", 1)] + b;
    assert x[0].0 == "~" && x[1..][0].0 == "!";
    SkipHead(x, op);
    SkipHead(x[1..], op);
    assert x[1..][1..] == b;
  }

  /** No binary operator is a unary-only key or one of the ternary keys. */
  lemma BinaryKeys(op: string)
    requires IsBinaryOperator(op)
    ensures op != "~" && op != "!" && op != "?" && op != ":"
  {
  }

  /** Behind the unary-only line, a list shaped like the binary part gives 1 to "=" and 0 to the other operators. */
  lemma CorrectedOver(b: AssocTable, op: string)
    requires op != "~" && op != "!" && op != "?" && op != ":"
    requires RightExactly(b, BinaryRights) && AssocOf(b, "=") == 1
    ensures AssocOf([("~", 1), ("!", 1)] + b, op) == (if op == "=" then 1 else 0)
  {
    UnaryOnlyFront(b, op);
    if op != "=" {
      LeftLookup(b, BinaryRights, op);
    }
  }

  /** Assignment is right-associative and every other binary operator left-associative. */
  lemma CorrectedAssociativity(op: string)
    requires IsBinaryOperator(op)
    ensures AssocOf(Associativity, op) == (if op == "=" then 1 else 0)
  {
    BinaryKeys(op);
    BinaryAssocShape();
    AssignmentEntry();
    CorrectedOver(BinaryAssoc, op);
  }

  /** The list as written gives binary "+" and "-" the value of their unary entries, which come first. */
  lemma AsWrittenAdditiveRight()
    ensures AssocOf(AssociativityAsWritten, "+") == 1 && AssocOf(AssociativityAsWritten, "-") == 1
  {
    AssocAppend(UnaryAssoc, BinaryAssoc, "+");
    AssocAppend(UnaryAssoc, BinaryAssoc, "-");
    assert UnaryAssoc[2].0 == "+" && UnaryAssoc[3].0 == "-";
  }

  /** Putting the unary line in front of any list changes the lookup of "+" and "-" only. */
  lemma UnaryLineShadows(b: AssocTable, op: string)
    requires op != "+" && op != "-"
    ensures AssocOf(UnaryAssoc + b, op) == AssocOf([("~", 1), ("!", 1)] + b, op)
  {
    var x := UnaryAssoc + b;
    assert x[0].0 == "~" && x[1..][0].0 == "!";
    if op != "~" && op != "!" {
      SkipHead(x, op);
      SkipHead(x[1..], op);
      assert x[1..][1..][0].0 == "+" && x[1..][1..][1..][0].0 == "-";
      SkipHead(x[1..][1..], op);
      SkipHead(x[1..][1..][1..], op);
      assert x[1..][1..][1..][1..] == b;
      UnaryOnlyFront(b, op);
    }
  }

  /** The two lists differ in "+" and "-" only. */
  lemma AsWrittenAgreesElsewhere(op: string)
    requires op != "+" && op != "-"
    ensures AssocOf(AssociativityAsWritten, op) == AssocOf(Associativity, op)
  {
    UnaryLineShadows(BinaryAssoc, op);
  }

  /** When "+" and "-" look up 1, a chain of them after "-" groups to the right. */
  lemma AdditiveRight(ts: seq<Token>, st: PState, at: AssocTable)
    requires Chain(ts) && st.pos == 0 && ts[1].value == "-" && (ts[3].value == "+" || ts[3].value == "-")
    requires AssocOf(at, "+") == 1 && AssocOf(at, "-") == 1
    ensures ParseExpression(ts, st, 17, at).value
      == BinaryExpr("-", OperandExpr(ts[0]),
           BinaryExpr(ts[3].value, OperandExpr(ts[2]), OperandExpr(ts[4]), Region(ts[2].range.start, ts[4].range.end)),
           Region(ts[0].range.start, ts[4].range.end))
  {
    ChainGroupsRight(ts, st, at);
  }

  /** Finding: with the list as written, x - y + z parses as x - (y + z). */
  lemma MinusChainGroupsRightAsWritten(ts: seq<Token>, st: PState)
    requires Chain(ts) && st.pos == 0 && ts[1].value == "-" && (ts[3].value == "+" || ts[3].value == "-")
    ensures ParseExpression(ts, st, 17, AssociativityAsWritten).value
      == BinaryExpr("-", OperandExpr(ts[0]),
           BinaryExpr(ts[3].value, OperandExpr(ts[2]), OperandExpr(ts[4]), Region(ts[2].range.start, ts[4].range.end)),
           Region(ts[0].range.start, ts[4].range.end))
  {
    AsWrittenAdditiveRight();
    AdditiveRight(ts, st, AssociativityAsWritten);
  }

  /** With the corrected list, operators of one precedence group to the left: x - y + z is (x - y) + z. */
  lemma SamePrecedenceGroupsLeft(ts: seq<Token>, st: PState)
    requires Chain(ts) && st.pos == 0 && GetPrecedence(ts[1].value, 2) == GetPrecedence(ts[3].value, 2) && ts[3].value != "="
    ensures ParseExpression(ts, st, 17, Associativity).value
      == BinaryExpr(ts[3].value,
           BinaryExpr(ts[1].value, OperandExpr(ts[0]), OperandExpr(ts[2]), Region(ts[0].range.start, ts[2].range.end)),
           OperandExpr(ts[4]), Region(ts[0].range.start, ts[4].range.end))
  {
    CorrectedAssociativity(ts[3].value);
    ChainGroupsLeft(ts, st, Associativity);
  }

  /** With the corrected list, assignment chains group to the right: x = y = z is x = (y = z). */
  lemma AssignmentGroupsRight(ts: seq<Token>, st: PState)
    requires Chain(ts) && st.pos == 0 && ts[1].value == "=" && ts[3].value == "="
    ensures ParseExpression(ts, st, 17, Associativity).value
      == BinaryExpr("=", OperandExpr(ts[0]),
           BinaryExpr("=", OperandExpr(ts[2]), OperandExpr(ts[4]), Region(ts[2].range.start, ts[4].range.end)),
           Region(ts[0].range.start, ts[4].range.end))
  {
    CorrectedAssociativity("=");
    ChainGroupsRight(ts, st, Associativity);
  }

  /** A tighter operator binds first on either side: x * y + z is (x * y) + z and x + y * z is x + (y * z). */
  lemma TighterBindsFirst(ts: seq<Token>, st: PState)
    requires Chain(ts) && st.pos == 0
    ensures GetPrecedence(ts[1].value, 2) < GetPrecedence(ts[3].value, 2) ==>
      ParseExpression(ts, st, 17, Associativity).value.BinaryExpr? && ParseExpression(ts, st, 17, Associativity).value.lhs.BinaryExpr?
    ensures GetPrecedence(ts[3].value, 2) < GetPrecedence(ts[1].value, 2) ==>
      ParseExpression(ts, st, 17, Associativity).value.BinaryExpr? && ParseExpression(ts, st, 17, Associativity).value.rhs.BinaryExpr?
  {
    CorrectedAssociativity(ts[3].value);
    if GetPrecedence(ts[1].value, 2) < GetPrecedence(ts[3].value, 2) {
      ChainGroupsLeft(ts, st, Associativity);
    } else if GetPrecedence(ts[3].value, 2) < GetPrecedence(ts[1].value, 2) {
      ChainGroupsRight(ts, st, Associativity);
    }
  }

  // ---------------------------------------------------------------------
  // The list-argument loop
  // ---------------------------------------------------------------------

  /**
   * A token no part of parseExpression consumes: not a literal, an
   * identifier, a keyword, an operator or '(', and none of the tokens the
   * binary loop, the ternary or the list loop look for.
   */
  predicate Stalls(t: Token)
  {
    !IsLiteralTokenType(t.tokenType) && t.tokenType != "identifier" && t.tokenType != "keyword" && t.tokenType != "operator"
    && t.value != "(" && t.value != "]" && t.value != "," && t.value != "?" && !IsBinaryOperator(t.value)
  }

  /** The list-argument loop as written, run for at most `n` passes. */
  function ListLoopAsWritten(ts: seq<Token>, st: PState, elems: seq<Expr>, at: AssocTable, n: nat): (r: Parsed<seq<Expr>>)
    requires st.pos <= |ts|
    ensures st.pos <= r.st.pos <= |ts|
    ensures |elems| <= |r.value| <= |elems| + n
    decreases n
  {
    if n == 0 || st.pos >= |ts| || ts[st.pos].value == "]" then Parsed(elems, st)
    else
      var step := ListStepAsWritten(ts, st, at);
      ListLoopAsWritten(ts, step.st, elems + [step.value], at, n - 1)
  }

  /** At a stalling token, one pass reports the token, records a null element and stays put. */
  lemma StallStep(ts: seq<Token>, st: PState, at: AssocTable)
    requires st.pos < |ts| && Stalls(ts[st.pos])
    ensures ListStepAsWritten(ts, st, at)
      == Parsed(NullExpr, Push(st, "Unexpected primary token: " + ts[st.pos].value, ts[st.pos].range))
  {
    var s1 := Push(st, "Unexpected primary token: " + ts[st.pos].value, ts[st.pos].range);
    assert ParsePrimary(ts, st, at) == Parsed(NullExpr, s1);
    assert ParseUnary(ts, st, at) == Parsed(NullExpr, s1);
    assert BinaryLoop(ts, s1, 17, ts[st.pos].range.start, NullExpr, at) == Parsed(NullExpr, s1);
    assert Ternary(ts, s1, ts[st.pos].range.start, NullExpr, at) == Parsed(NullExpr, s1);
  }

  /** Finding: as written, the loop at a stalling token never leaves it, however many passes it makes. */
  lemma {:induction false} ListStallsAsWritten(ts: seq<Token>, st: PState, elems: seq<Expr>, at: AssocTable, n: nat)
    requires st.pos < |ts| && Stalls(ts[st.pos])
    ensures ListLoopAsWritten(ts, st, elems, at, n).st.pos == st.pos
    ensures |ListLoopAsWritten(ts, st, elems, at, n).st.errors| == |st.errors| + n
    ensures ListLoopAsWritten(ts, st, elems, at, n).value == elems + seq(n, _ => NullExpr)
    decreases n
  {
    if n > 0 {
      StallStep(ts, st, at);
      var next := Push(st, "Unexpected primary token: " + ts[st.pos].value, ts[st.pos].range);
      ListStallsAsWritten(ts, next, elems + [NullExpr], at, n - 1);
      assert elems + [NullExpr] + seq(n - 1, _ => NullExpr) == elems + seq(n, _ => NullExpr);
    }
  }

  /** The corrected loop passes over a stalling token after its report. */
  lemma ListElemsSkipsStall(ts: seq<Token>, st: PState, elems: seq<Expr>, at: AssocTable)
    requires st.pos < |ts| && Stalls(ts[st.pos])
    ensures ListElems(ts, st, elems, at)
      == ListElems(ts, Push(st, "Unexpected primary token: " + ts[st.pos].value, ts[st.pos].range).(pos := st.pos + 1),
                   elems + [NullExpr], at)
  {
    StallStep(ts, st, at);
  }

  /** The corrected loop always ends, at the closing ']' or at the end of the input. */
  lemma {:induction false} ListElemsEnds(ts: seq<Token>, st: PState, elems: seq<Expr>, at: AssocTable)
    requires st.pos <= |ts|
    ensures var r := ListElems(ts, st, elems, at); r.st.pos == |ts| || ts[r.st.pos].value == "]"
    decreases |ts| - st.pos
  {
    if !(st.pos >= |ts| || ts[st.pos].value == "]") {
      var step := ListStepAsWritten(ts, st, at);
      var next := if step.st.pos == st.pos then Advance(ts, step.st) else step.st;
      ListElemsEnds(ts, next, elems + [step.value], at);
    }
  }

  // ---------------------------------------------------------------------
  // Inferred key types and default values
  // ---------------------------------------------------------------------

  /** The name test of validateDefaultForKey reports exactly the literals a primitive does not admit. */
  lemma DefaultMismatchIff(prim: Primitive, t: LiteralType)
    ensures DefaultMismatch(prim, ToString(t)) <==> !Admits(prim, t)
  {
    match t
    case SpecialNumber(s) => assert ToString(t) == "NaN" || ToString(t) == "Infinity";
    case String(k) => assert IsStringKindName(ToString(t));
    case DateTime(d) =>
      assert ToString(t) == "OffsetDateTime" || ToString(t) == "LocalDateTime" || ToString(t) == "LocalDate" || ToString(t) == "LocalTime";
    case _ =>
  }

  /** A key of a primitive type with a default value. */
  function DefaultedKey(prim: Primitive, d: LiteralValue): KeyDefinition
  {
    KeyDefinition("k", false, false, PrimitiveType(prim, [], [], EmptyRegion), [], Some(d), EmptyRegion)
  }

  /** The corrected inference admits every valid literal, so an inferred key passes the default check. */
  lemma InferAdmits(d: LiteralValue, errs: seq<Diagnostic>)
    requires IsValid(d.prop)
    ensures Admits(Infer(d.prop), d.prop)
    ensures CheckDefault(DefaultedKey(Infer(d.prop), d), errs) == errs
  {
    DefaultMismatchIff(Infer(d.prop), d.prop);
    match d.prop
    case SpecialNumber(s) => assert ToString(d.prop) == "NaN" || ToString(d.prop) == "Infinity";
    case String(k) => assert IsStringKindName(ToString(d.prop));
    case DateTime(dt) =>
      assert ToString(d.prop) == "OffsetDateTime" || ToString(d.prop) == "LocalDateTime" || ToString(d.prop) == "LocalDate" || ToString(d.prop) == "LocalTime";
    case _ =>
  }

  /** Finding: as written, `name = 1h` infers a number key, and its own default is then reported. */
  lemma DurationInferredAsWritten(d: LiteralValue, errs: seq<Diagnostic>)
    requires d.prop == Duration
    ensures InferAsWritten(d.prop) == NumberPrimitive && Infer(d.prop) == DurationPrimitive
    ensures CheckDefault(DefaultedKey(InferAsWritten(d.prop), d), errs)
      == errs + [Diag("Default value type does not match declared type", EmptyRegion)]
  {
  }

  // ---------------------------------------------------------------------
  // The union check
  // ---------------------------------------------------------------------

  predicate StringTypeMember(m: CslType)
  {
    m.PrimitiveType? && |m.allowedValues| == 0 && m.primitive == StringPrimitive
  }

  predicate NumberTypeMember(m: CslType)
  {
    m.PrimitiveType? && |m.allowedValues| == 0 && m.primitive == NumberPrimitive
  }

  /** A literal member, judged by its first allowed value, of a string kind. */
  predicate StringLiteralMember(m: CslType)
  {
    m.PrimitiveType? && |m.allowedValues| > 0 && IsStringKindName(ToString(m.allowedValues[0].prop))
  }

  /** A literal member, judged by its first allowed value, of a numeric kind. */
  predicate NumberLiteralMember(m: CslType)
  {
    m.PrimitiveType? && |m.allowedValues| > 0 && IsNumeric(m.allowedValues[0].prop)
  }

  /** No numeric kind has a string kind's name. */
  lemma NumericNotString(t: LiteralType)
    requires IsNumeric(t)
    ensures !IsStringKindName(ToString(t))
  {
    if t.SpecialNumber? {
      assert ToString(t) == "NaN" || ToString(t) == "Infinity";
    }
  }

  /** Some member has a property when the first one has it or some later one does. */
  lemma HeadOrTail(ms: seq<CslType>, p: CslType -> bool)
    requires ms != []
    ensures (exists i :: 0 <= i < |ms| && p(ms[i])) == (p(ms[0]) || exists i :: 0 <= i < |ms[1..]| && p(ms[1..][i]))
  {
    if exists i :: 0 <= i < |ms| && p(ms[i]) {
      var i :| 0 <= i < |ms| && p(ms[i]);
      if i > 0 {
        assert p(ms[1..][i - 1]);
      }
    }
    if exists i :: 0 <= i < |ms[1..]| && p(ms[1..][i]) {
      var i :| 0 <= i < |ms[1..]| && p(ms[1..][i]);
      assert p(ms[i + 1]);
    }
  }

  /** One step sets a flag exactly when the member is of its sort. */
  lemma MixStepMember(f: MixFlags, m: CslType)
    ensures MixStep(f, m).stringType == (f.stringType || StringTypeMember(m))
    ensures MixStep(f, m).numberType == (f.numberType || NumberTypeMember(m))
    ensures MixStep(f, m).stringLiteral == (f.stringLiteral || StringLiteralMember(m))
    ensures MixStep(f, m).numberLiteral == (f.numberLiteral || NumberLiteralMember(m))
  {
    if NumberLiteralMember(m) {
      NumericNotString(m.allowedValues[0].prop);
    }
  }

  /** Each flag is set exactly when it was set before or some member is of its sort. */
  lemma {:induction false} MixFlagsOfMembers(ms: seq<CslType>, f: MixFlags)
    ensures MixFlagsOf(ms, f).stringType == (f.stringType || exists i :: 0 <= i < |ms| && StringTypeMember(ms[i]))
    ensures MixFlagsOf(ms, f).numberType == (f.numberType || exists i :: 0 <= i < |ms| && NumberTypeMember(ms[i]))
    ensures MixFlagsOf(ms, f).stringLiteral == (f.stringLiteral || exists i :: 0 <= i < |ms| && StringLiteralMember(ms[i]))
    ensures MixFlagsOf(ms, f).numberLiteral == (f.numberLiteral || exists i :: 0 <= i < |ms| && NumberLiteralMember(ms[i]))
    decreases |ms|
  {
    if ms != [] {
      var g := MixStep(f, ms[0]);
      MixStepMember(f, ms[0]);
      MixFlagsOfMembers(ms[1..], g);
      HeadOrTail(ms, StringTypeMember);
      HeadOrTail(ms, NumberTypeMember);
      HeadOrTail(ms, StringLiteralMember);
      HeadOrTail(ms, NumberLiteralMember);
    }
  }

  /**
   * A union is reported exactly when it holds both the string type and a
   * string literal, or both the number type and a numeric literal.
   */
  lemma MixesLiteralIff(ms: seq<CslType>)
    ensures MixesLiteral(ms) <==>
      ((exists i :: 0 <= i < |ms| && StringTypeMember(ms[i])) && (exists i :: 0 <= i < |ms| && StringLiteralMember(ms[i])))
      || ((exists i :: 0 <= i < |ms| && NumberTypeMember(ms[i])) && (exists i :: 0 <= i < |ms| && NumberLiteralMember(ms[i])))
  {
    MixFlagsOfMembers(ms, NoFlags);
  }

  /** The union `number | true`. */
  function NumberOrTrue(): seq<CslType>
  {
    [PrimitiveType(NumberPrimitive, [], [], EmptyRegion), PrimitiveType(BooleanPrimitive, [LiteralValue("true", Boolean)], [], EmptyRegion)]
  }

  /** Finding: as written, `number | true` is reported as a number mixed with a number literal; corrected, it is not. */
  lemma NumberOrTrueMixes()
    ensures MixesLiteralAsWritten(NumberOrTrue())
    ensures !MixesLiteral(NumberOrTrue())
  {
    var ms := NumberOrTrue();
    assert ms[1..][1..] == [];
    MixesLiteralIff(ms);
  }

  // ---------------------------------------------------------------------
  // The token mapping
  // ---------------------------------------------------------------------

  /**
   * `r` keeps every token `m` maps, and every entry it adds or changes maps
   * an identifier token to a key definition.
   */
  predicate Extends(ts: seq<Token>, m: map<nat, ReprRef>, r: map<nat, ReprRef>)
  {
    (forall i :: i in m ==> i in r)
    && (forall i :: i in r && (i !in m || r[i] != m[i]) ==> i < |ts| && ts[i].tokenType == "identifier" && r[i].KeyRef?)
  }

  lemma ExtendsTrans(ts: seq<Token>, a: map<nat, ReprRef>, b: map<nat, ReprRef>, c: map<nat, ReprRef>)
    requires Extends(ts, a, b) && Extends(ts, b, c)
    ensures Extends(ts, a, c)
  {
  }

  lemma MapTokenExtends(ts: seq<Token>, region: Region, key: KeyDefinition, m: map<nat, ReprRef>)
    ensures Extends(ts, m, MapToken(ts, region, key, m))
  {
  }

  lemma MapPropertyExtends(ts: seq<Token>, lhs: Expr, rhs: Expr, keys: seq<KeyDefinition>, m: map<nat, ReprRef>)
    ensures Extends(ts, m, MapProperty(ts, lhs, rhs, keys, m))
  {
    var ctx := ResolveTable(lhs, keys);
    if ctx.Some? && rhs.IdentifierExpr? {
      var sub := ctx.value.explicitKeys;
      var k := FindKey(sub, rhs.name);
      if k < |sub| {
        MapTokenExtends(ts, rhs.region, sub[k], m);
      }
    }
  }

  /** mapIdentifiersInExpr only maps identifier tokens to keys, and forgets nothing. */
  lemma {:induction false} MapExprExtends(ts: seq<Token>, e: Expr, keys: seq<KeyDefinition>, m: map<nat, ReprRef>)
    ensures Extends(ts, m, MapExpr(ts, e, keys, m))
    decreases e, 1
  {
    match e
    case IdentifierExpr(name, region) =>
      var k := FindKey(keys, name);
      if k < |keys| {
        MapTokenExtends(ts, region, keys[k], m);
      }
    case BinaryExpr(op, lhs, rhs, _) =>
      if op == "." {
        var m0 := MapProperty(ts, lhs, rhs, keys, m);
        MapPropertyExtends(ts, lhs, rhs, keys, m);
        MapExprExtends(ts, lhs, keys, m0);
        var m1 := MapExpr(ts, lhs, keys, m0);
        ExtendsTrans(ts, m, m0, m1);
        if !rhs.IdentifierExpr? {
          MapExprExtends(ts, rhs, keys, m1);
          ExtendsTrans(ts, m, m1, MapExpr(ts, rhs, keys, m1));
        }
      } else {
        MapExprExtends(ts, lhs, keys, m);
        var m1 := MapExpr(ts, lhs, keys, m);
        MapExprExtends(ts, rhs, keys, m1);
        ExtendsTrans(ts, m, m1, MapExpr(ts, rhs, keys, m1));
      }
    case UnaryExpr(_, operand, _) => MapExprExtends(ts, operand, keys, m);
    case TernaryExpr(c, t, f, _) =>
      MapExprExtends(ts, c, keys, m);
      var m1 := MapExpr(ts, c, keys, m);
      MapExprExtends(ts, t, keys, m1);
      var m2 := MapExpr(ts, t, keys, m1);
      MapExprExtends(ts, f, keys, m2);
      ExtendsTrans(ts, m, m1, m2);
      ExtendsTrans(ts, m, m2, MapExpr(ts, f, keys, m2));
    case FunctionCallExpr(_, args, _) => MapArgsExtends(ts, args, keys, m);
    case AnnotationExpr(target, ann, _) =>
      MapExprExtends(ts, target, keys, m);
      var m1 := MapExpr(ts, target, keys, m);
      MapExprsExtends(ts, ann.args, keys, m1);
      ExtendsTrans(ts, m, m1, MapExprs(ts, ann.args, keys, m1));
    case _ =>
  }

  lemma {:induction false} MapExprsExtends(ts: seq<Token>, es: seq<Expr>, keys: seq<KeyDefinition>, m: map<nat, ReprRef>)
    ensures Extends(ts, m, MapExprs(ts, es, keys, m))
    decreases es, 0
  {
    if es != [] {
      MapExprExtends(ts, es[0], keys, m);
      var m1 := MapExpr(ts, es[0], keys, m);
      MapExprsExtends(ts, es[1..], keys, m1);
      ExtendsTrans(ts, m, m1, MapExprs(ts, es[1..], keys, m1));
    }
  }

  lemma {:induction false} MapArgExtends(ts: seq<Token>, a: Expr, keys: seq<KeyDefinition>, m: map<nat, ReprRef>)
    ensures Extends(ts, m, MapArg(ts, a, keys, m))
    decreases a, 0
  {
    if a.FunctionArgExpr? {
      match a.arg
      case SingleArg(x) => MapExprExtends(ts, x, keys, m);
      case ListArg(xs) => MapExprsExtends(ts, xs, keys, m);
    }
  }

  lemma {:induction false} MapArgsExtends(ts: seq<Token>, args: seq<Expr>, keys: seq<KeyDefinition>, m: map<nat, ReprRef>)
    ensures Extends(ts, m, MapArgs(ts, args, keys, m))
    decreases args, 0
  {
    if args != [] {
      MapArgExtends(ts, args[0], keys, m);
      var m1 := MapArg(ts, args[0], keys, m);
      MapArgsExtends(ts, args[1..], keys, m1);
      ExtendsTrans(ts, m, m1, MapArgs(ts, args[1..], keys, m1));
    }
  }

  /** The same for every constraint of a table. */
  lemma {:induction false} MapConstraintsExtends(ts: seq<Token>, cs: seq<Constraint>, keys: seq<KeyDefinition>, m: map<nat, ReprRef>)
    ensures Extends(ts, m, MapConstraints(ts, cs, keys, m))
    decreases cs
  {
    if cs != [] {
      var m1 := MapConstraint(ts, cs[0], keys, m);
      match cs[0] {
        case ConflictConstraint(a, b, _) =>
          MapExprExtends(ts, a, keys, m);
          MapExprExtends(ts, b, keys, MapExpr(ts, a, keys, m));
          ExtendsTrans(ts, m, MapExpr(ts, a, keys, m), m1);
        case DependencyConstraint(d, cond, _) =>
          MapExprExtends(ts, d, keys, m);
          MapExprExtends(ts, cond, keys, MapExpr(ts, d, keys, m));
          ExtendsTrans(ts, m, MapExpr(ts, d, keys, m), m1);
        case ValidateConstraint(x, _) => MapExprExtends(ts, x, keys, m);
      }
      MapConstraintsExtends(ts, cs[1..], keys, m1);
      ExtendsTrans(ts, m, m1, MapConstraints(ts, cs[1..], keys, m1));
    }
  }

  /**
   * In `a.b`, with `a` an identifier whose key opens a table holding a key
   * named `b`, the token of `b` is mapped to that key of the inner table.
   */
  lemma PropertyMapsToInnerKey(ts: seq<Token>, lhs: Expr, rhs: Expr, region: Region, keys: seq<KeyDefinition>, m: map<nat, ReprRef>)
    requires lhs.IdentifierExpr? && rhs.IdentifierExpr?
    requires ResolveTable(lhs, keys).Some?
    requires FindKey(ResolveTable(lhs, keys).value.explicitKeys, rhs.name) < |ResolveTable(lhs, keys).value.explicitKeys|
    requires IdentifierIndex(ts, rhs.region).Some? && IdentifierIndex(ts, lhs.region) != IdentifierIndex(ts, rhs.region)
    ensures var sub := ResolveTable(lhs, keys).value.explicitKeys;
      var idx := IdentifierIndex(ts, rhs.region).value;
      var r := MapExpr(ts, BinaryExpr(".", lhs, rhs, region), keys, m);
      idx in r && r[idx] == KeyRef(sub[FindKey(sub, rhs.name)])
  {
  }

  /** Finding: as written, when the enclosing table also has a key named `b`, that key wins instead. */
  lemma PropertyRemappedAsWritten(ts: seq<Token>, lhs: Expr, rhs: Expr, keys: seq<KeyDefinition>, m: map<nat, ReprRef>)
    requires lhs.IdentifierExpr? && rhs.IdentifierExpr?
    requires FindKey(keys, rhs.name) < |keys| && IdentifierIndex(ts, rhs.region).Some?
    ensures var idx := IdentifierIndex(ts, rhs.region).value;
      var r := MapDotAsWritten(ts, lhs, rhs, keys, m);
      idx in r && r[idx] == KeyRef(keys[FindKey(keys, rhs.name)])
  {
  }

  // `server.host` with a key `server` opening a table with key `host`, beside an outer key `host`
  const ServerHostTokens: seq<Token> := [
    Token("server", "identifier", None, Region(Position(0, 0), Position(0, 6))),
    Token(".", "operator", None, Region(Position(0, 6), Position(0, 7))),
    Token("host", "identifier", None, Region(Position(0, 7), Position(0, 11)))]
  const InnerHost: KeyDefinition := KeyDefinition("host", false, false, PrimitiveType(NumberPrimitive, [], [], EmptyRegion), [], None, EmptyRegion)
  const OuterHost: KeyDefinition := KeyDefinition("host", false, false, PrimitiveType(StringPrimitive, [], [], EmptyRegion), [], None, EmptyRegion)
  const Server: KeyDefinition :=
    KeyDefinition("server", false, false, TableType([InnerHost], None, [], EmptyRegion), [], None, EmptyRegion)

  /** For `server.host`, the corrected pass maps `host` to the inner key and the pass as written to the outer one. */
  lemma ServerHostExample()
    ensures var lhs := IdentifierExpr("server", ServerHostTokens[0].range);
      var rhs := IdentifierExpr("host", ServerHostTokens[2].range);
      var fixed := MapExpr(ServerHostTokens, BinaryExpr(".", lhs, rhs, EmptyRegion), [Server, OuterHost], map[]);
      var written := MapDotAsWritten(ServerHostTokens, lhs, rhs, [Server, OuterHost], map[]);
      2 in fixed && fixed[2] == KeyRef(InnerHost) && 2 in written && written[2] == KeyRef(OuterHost)
      && InnerHost != OuterHost
  {
    var ts := ServerHostTokens;
    var lhs := IdentifierExpr("server", ts[0].range);
    var rhs := IdentifierExpr("host", ts[2].range);
    var keys := [Server, OuterHost];
    assert IsIdentifierAt(ts, 0, ts[0].range) && !IsIdentifierAt(ts, 0, ts[2].range) && !IsIdentifierAt(ts, 1, ts[2].range);
    assert IsIdentifierAt(ts, 2, ts[2].range);
    assert IdentifierIndex(ts, ts[0].range) == Some(0);
    assert IdentifierIndex(ts, ts[2].range) == Some(2);
    assert FindKey(keys, "server") == 0 && FindKey(keys, "host") == 1;
    assert ResolveTable(lhs, keys) == Some(Server.keyType);
    assert FindKey(Server.keyType.explicitKeys, "host") == 0;
    PropertyMapsToInnerKey(ts, lhs, rhs, EmptyRegion, keys, map[]);
    PropertyRemappedAsWritten(ts, lhs, rhs, keys, map[]);
  }

  // ---------------------------------------------------------------------
  // Annotation checks
  // ---------------------------------------------------------------------

  /**
   * validateAnnotationsForType only appends, and appends nothing exactly
   * when no annotation is misplaced on the primitive.
   */
  lemma {:induction false} CheckAnnotationsOfIff(prim: Primitive, anns: seq<Annotation>, errs: seq<Diagnostic>)
    ensures errs <= CheckAnnotationsOf(prim, anns, errs)
    ensures CheckAnnotationsOf(prim, anns, errs) == errs <==> forall i :: 0 <= i < |anns| ==> !Misplaced(prim, anns[i])
    decreases anns
  {
    if anns != [] {
      var e1 := errs + AnnotationError(prim, anns[0]);
      assert AnnotationError(prim, anns[0]) == [] <==> !Misplaced(prim, anns[0]);
      CheckAnnotationsOfIff(prim, anns[1..], e1);
      var r := CheckAnnotationsOf(prim, anns, errs);
      assert errs <= e1 <= r;
      if r == errs {
        assert |e1| == |errs|;
      }
      forall i | 1 <= i < |anns| ensures anns[1..][i - 1] == anns[i] { }
    }
  }

  // ---------------------------------------------------------------------
  // Precedence, key resolution, walks and defaults
  // ---------------------------------------------------------------------

  /** Exactly the listed binary operators have a binary precedence below the default 17. */
  lemma ListedPrecedence(op: string)
    ensures GetPrecedence(op, 2) < 17 <==> IsBinaryOperator(op)
  {
  }

  /** An expression ends at a token that is not a binary operator, whatever the minimum precedence. */
  lemma NonOperatorEndsLoop(ts: seq<Token>, st: PState, minPrec: nat, start: Position, lhs: Expr, at: AssocTable)
    requires st.pos < |ts| && !IsBinaryOperator(ts[st.pos].value)
    ensures BinaryLoop(ts, st, minPrec, start, lhs, at) == Parsed(lhs, st)
  {
  }

  /**
   * A bare identifier is mapped to the first key of that name when its token
   * is found, and leaves the mapping alone when no key has that name.
   */
  lemma IdentifierMapsToFirstKey(ts: seq<Token>, name: string, region: Region, keys: seq<KeyDefinition>, m: map<nat, ReprRef>)
    ensures var r := MapExpr(ts, IdentifierExpr(name, region), keys, m);
      (forall k :: 0 <= k < |keys| ==> keys[k].name != name) ==> r == m
    ensures var r := MapExpr(ts, IdentifierExpr(name, region), keys, m);
      forall k :: 0 <= k < |keys| && keys[k].name == name && (forall j :: 0 <= j < k ==> keys[j].name != name)
        && IdentifierIndex(ts, region).Some?
        ==> r == m[IdentifierIndex(ts, region).value := KeyRef(keys[k])]
  {
  }

  /** The unknown-identifier walks never look at the property after a '.'. */
  lemma WalkIgnoresProperty(ts: seq<Token>, lhs: Expr, p: Expr, q: Expr, r1: Region, r2: Region,
                            keys: seq<KeyDefinition>, m: map<nat, ReprRef>, mode: WalkMode)
    ensures Walk(ts, BinaryExpr(".", lhs, p, r1), keys, m, mode) == Walk(ts, BinaryExpr(".", lhs, q, r2), keys, m, mode)
  {
  }

  /** Nor at the list arguments of subset, nor at any list argument in a conflict. */
  lemma WalkIgnoresSubsetLists(ts: seq<Token>, name: string, xs: seq<Expr>, region: Region,
                               keys: seq<KeyDefinition>, m: map<nat, ReprRef>, mode: WalkMode)
    requires name == "subset" || mode == ConflictWalk
    ensures WalkArg(ts, name, FunctionArgExpr(ListArg(xs), region), keys, m, mode) == []
  {
  }

  /** A requires condition naming no explicit key is reported first, at the condition. */
  lemma MissingDependencyReported(ts: seq<Token>, d: Expr, name: string, region: Region, r: Region,
                                  keys: seq<KeyDefinition>, m: map<nat, ReprRef>)
    requires forall k :: 0 <= k < |keys| ==> keys[k].name != name
    ensures var errs := ConstraintErrors(ts, DependencyConstraint(d, IdentifierExpr(name, region), r), keys, m);
      |errs| >= 1 && errs[0] == Diag("Dependency references missing key: " + name, region)
  {
  }

  /** validateDefaultForKey reports one error, at the key name, exactly when the primitive does not admit the default. */
  lemma CheckDefaultAdmits(k: KeyDefinition, errs: seq<Diagnostic>)
    requires k.defaultValue.Some? && k.keyType.PrimitiveType?
    ensures CheckDefault(k, errs)
      == if Admits(k.keyType.primitive, k.defaultValue.value.prop) then errs
         else errs + [Diag("Default value type does not match declared type", k.nameRegion)]
  {
    DefaultMismatchIff(k.keyType.primitive, k.defaultValue.value.prop);
  }

  /** A key without a default, or not of a primitive type, is never reported. */
  lemma CheckDefaultOthers(k: KeyDefinition, errs: seq<Diagnostic>)
    requires k.defaultValue.None? || !k.keyType.PrimitiveType?
    ensures CheckDefault(k, errs) == errs
  {
  }

  /** A sign before a number token is fused with it into one default literal. */
  lemma SignFused(ts: seq<Token>, st: PState)
    requires st.pos + 1 < |ts| && !IsLiteralTokenType(ts[st.pos].tokenType)
    requires (ts[st.pos].value == "+" || ts[st.pos].value == "-") && ts[st.pos + 1].tokenType == "number"
    ensures var d := LiteralDefault(ts, st);
      d.value.Some? && d.value.value.value == LiteralValue(ts[st.pos].value + ts[st.pos + 1].value, PropOf(ts[st.pos + 1]))
      && d.st == st.(pos := st.pos + 2)
  {
  }

  // ---------------------------------------------------------------------
  // Table bodies and unions
  // ---------------------------------------------------------------------

  /**
   * The table loop only adds: keys and constraint blocks are appended in
   * order, a wildcard stays present (a later one replaces it), and a seen
   * constraints block stays seen.
   */
  lemma {:induction false} TableBodyGrows(ts: seq<Token>, st: PState, parts: TableParts)
    requires st.pos <= |ts|
    ensures var r := TableBody(ts, st, parts).value;
      parts.keys <= r.keys && parts.constraints <= r.constraints
      && (parts.wildcard.Some? ==> r.wildcard.Some?) && (parts.seen ==> r.seen)
    decreases |ts| - st.pos
  {
    if !(st.pos >= |ts| || ts[st.pos].value == "}") {
      var t := ts[st.pos];
      if t.value == "constraints" {
        var c := ParseConstraints(ts, if parts.seen then Push(st, "Duplicate constraints block", t.range) else st);
        TableBodyGrows(ts, c.st, parts.(constraints := parts.constraints + c.value, seen := true));
      } else if t.value == "*" {
        var w := ParseWildcardKey(ts, st);
        TableBodyGrows(ts, w.st, parts.(wildcard := Some(w.value)));
      } else if t.tokenType == "identifier" {
        var k := ParseKeyDefinition(ts, st);
        TableBodyGrows(ts, k.st, parts.(keys := parts.keys + [k.value]));
      } else if t.tokenType == "number" {
        TableBodyGrows(ts, Advance(ts, Push(st, "Key name must be an identifier", t.range)), parts);
      } else {
        TableBodyGrows(ts, Advance(ts, st), parts);
      }
    }
  }

  /**
   * A `*` key replaces the wildcard met before it: run from two different
   * wildcards, the loop reaches the same position, diagnostics, keys and
   * constraints, and either keeps each starting wildcard untouched (no `*`
   * followed) or ends in one and the same table.
   */
  lemma {:induction false} TableBodyWildcardReplaced(ts: seq<Token>, st: PState, parts: TableParts,
                                                     w1: Option<KeyDefinition>, w2: Option<KeyDefinition>)
    requires st.pos <= |ts|
    ensures var r1 := TableBody(ts, st, parts.(wildcard := w1));
      var r2 := TableBody(ts, st, parts.(wildcard := w2));
      r1.st == r2.st && r1.value.(wildcard := None) == r2.value.(wildcard := None)
      && ((r1.value.wildcard == w1 && r2.value.wildcard == w2) || r1.value == r2.value)
    decreases |ts| - st.pos
  {
    if !(st.pos >= |ts| || ts[st.pos].value == "}") {
      var t := ts[st.pos];
      if t.value == "constraints" {
        var c := ParseConstraints(ts, if parts.seen then Push(st, "Duplicate constraints block", t.range) else st);
        TableBodyWildcardReplaced(ts, c.st, parts.(constraints := parts.constraints + c.value, seen := true), w1, w2);
      } else if t.value == "*" {
      } else if t.tokenType == "identifier" {
        var k := ParseKeyDefinition(ts, st);
        TableBodyWildcardReplaced(ts, k.st, parts.(keys := parts.keys + [k.value]), w1, w2);
      } else if t.tokenType == "number" {
        TableBodyWildcardReplaced(ts, Advance(ts, Push(st, "Key name must be an identifier", t.range)), parts, w1, w2);
      } else {
        TableBodyWildcardReplaced(ts, Advance(ts, st), parts, w1, w2);
      }
    }
  }

  /**
   * At a `*` key the wildcard met before it no longer matters: the table
   * the loop finishes is the same whatever wildcard it started with, and
   * it has a wildcard.
   */
  lemma WildcardKeySets(ts: seq<Token>, st: PState, parts: TableParts, w1: Option<KeyDefinition>, w2: Option<KeyDefinition>)
    requires st.pos < |ts| && ts[st.pos].value == "*"
    ensures TableBody(ts, st, parts.(wildcard := w1)) == TableBody(ts, st, parts.(wildcard := w2))
    ensures TableBody(ts, st, parts.(wildcard := w1)).value.wildcard.Some?
  {
    var w := ParseWildcardKey(ts, st);
    TableBodyGrows(ts, w.st, parts.(wildcard := Some(w.value)));
  }

  /**
   * A `constraints` block after an earlier one is reported once, as
   * "Duplicate constraints block" at its keyword, and its constraints are
   * still appended, in order, after those gathered so far; the first block
   * is parsed without a diagnostic.
   */
  lemma ConstraintsBlockAppended(ts: seq<Token>, st: PState, parts: TableParts)
    requires st.pos < |ts| && ts[st.pos].value == "constraints"
    ensures var before := if parts.seen then st.(errors := st.errors + [Diag("Duplicate constraints block", ts[st.pos].range)]) else st;
      var c := ParseConstraints(ts, before);
      var r := TableBody(ts, st, parts);
      r == TableBody(ts, c.st, parts.(constraints := parts.constraints + c.value, seen := true))
      && parts.constraints + c.value <= r.value.constraints && r.value.seen
  {
    var t := ts[st.pos];
    var c := ParseConstraints(ts, if parts.seen then Push(st, "Duplicate constraints block", t.range) else st);
    TableBodyGrows(ts, c.st, parts.(constraints := parts.constraints + c.value, seen := true));
  }

  /** The '|' loop flattens: the members of what came before lead the union it builds. */
  lemma {:induction false} UnionLoopFlattens(ts: seq<Token>, st: PState, start: Position, t: CslType)
    requires st.pos <= |ts|
    ensures var r := UnionLoop(ts, st, start, t).value;
      (st.pos < |ts| && ts[st.pos].value == "|") ==> r.UnionType? && MembersOf(t) <= r.memberTypes
    ensures !(st.pos < |ts| && ts[st.pos].value == "|") ==> UnionLoop(ts, st, start, t).value == t
    decreases |ts| - st.pos
  {
    if st.pos < |ts| && ts[st.pos].value == "|" {
      var right := ParsePostfixType(ts, Advance(ts, st));
      var u := UnionType(MembersOf(t) + MembersOf(right.value), Region(start, PrevEnd(ts, right.st)));
      UnionLoopFlattens(ts, right.st, start, u);
      assert MembersOf(u) == MembersOf(t) + MembersOf(right.value);
    }
  }

  function Span(n: nat): Region
  {
    Region(Position(0, n), Position(0, n + 1))
  }

  // `string | number[]`
  const StringOrNumberArray: seq<Token> := [
    Token("string", "type", None, Span(0)), Token("|", "operator", None, Span(1)),
    Token("number", "type", None, Span(2)), Token("[", "punctuator", None, Span(3)), Token("]", "punctuator", None, Span(4))]

  /** The two members of `string | number[]`, each a primitive without annotations. */
  lemma ExampleMember(k: nat)
    requires k == 0 || k == 2
    ensures PrimaryMember(StringOrNumberArray, Start.(pos := k))
      == Parsed(Some(PrimitiveType(if k == 0 then StringPrimitive else NumberPrimitive, [], [], Span(k))), Start.(pos := k + 1))
  {
    assert Annotations(StringOrNumberArray, Start.(pos := k + 1), false, []) == Parsed([], Start.(pos := k + 1));
  }

  /** The primary type of `string | number[]` takes both members, up to '['. */
  lemma ExampleMembers()
    ensures PrimaryMembers(StringOrNumberArray, Start, [])
      == Parsed([PrimitiveType(StringPrimitive, [], [], Span(0)), PrimitiveType(NumberPrimitive, [], [], Span(2))], Start.(pos := 3))
  {
    var ts := StringOrNumberArray;
    var m0 := PrimitiveType(StringPrimitive, [], [], Span(0));
    var m2 := PrimitiveType(NumberPrimitive, [], [], Span(2));
    ExampleMember(0);
    ExampleMember(2);
    assert ts[3].value != "|" && ts[1].value == "|";
    assert PrimaryMembers(ts, Start.(pos := 2), [m0]) == Parsed([m0] + [m2], Start.(pos := 3));
    assert [] + [m0] == [m0] && [m0] + [m2] == [m0, m2];
  }

  /** `string | number[]` is an array of the union, since the primary type takes the '|' before '[]' applies. */
  lemma UnionBindsBeforeArray()
    ensures var t := ParseType(StringOrNumberArray, Start).value;
      t.ArrayType? && t.elementType.UnionType?
      && t.elementType.memberTypes == [PrimitiveType(StringPrimitive, [], [], Span(0)), PrimitiveType(NumberPrimitive, [], [], Span(2))]
  {
    var ts := StringOrNumberArray;
    var s3 := Start.(pos := 3);
    var m0 := PrimitiveType(StringPrimitive, [], [], Span(0));
    var m2 := PrimitiveType(NumberPrimitive, [], [], Span(2));
    ExampleMembers();
    var u := UnionType([m0, m2], Region(Span(0).start, PrevEnd(ts, s3)));
    assert ParsePrimaryType(ts, Start) == Parsed(u, s3);
    var a := ArrayType(u, Region(Span(3).start, Span(4).end));
    assert PostfixLoop(ts, Start.(pos := 5), a) == Parsed(a, Start.(pos := 5));
    assert PostfixLoop(ts, s3, u) == Parsed(a, Start.(pos := 5));
    assert UnionLoop(ts, Start.(pos := 5), Span(0).start, a) == Parsed(a, Start.(pos := 5));
  }
}
