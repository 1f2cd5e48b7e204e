// The recursive-descent parser of CSL as functions of the parser state.
//
// The source parser is an object that walks an iterator over the token
// list, pushes errors onto a vector and writes a token-to-declaration map.
// Here each of its methods is a function from the token list and a state
// (token index, errors, mapping) to the value it builds and the new state;
// the class in module CslParser runs the same steps in place and is proved
// to end in the state these functions give.  Each loop of the source is a
// recursive function that carries what the loop has collected so far.
//
// The expression functions take the associativity table as a parameter.
// The parser as a whole (ParserMain) uses the corrected table, inference,
// union check, list loop and member-access mapping; the source's own
// versions are the AsWritten definitions here and in ParserSemantics.
//
// Dereferencing the end iterator is undefined in the source; here the
// token "at" the end is EndToken, an empty token with an empty region, and
// the token before the first one ends at the origin.

module ParserSpec {

  import opened Wrappers
  import opened Positions
  import opened LiteralTypes
  import opened Tokens
  import opened Repr
  import opened ParserSemantics

  /** A parse result: the value built and the state after it. */
  datatype Parsed<T> = Parsed(value: T, st: PState)

  const EndToken: Token := Token("", "", None, EmptyRegion)

  // ---------------------------------------------------------------------
  // Tokens and the primitive steps
  // ---------------------------------------------------------------------

  function Cur(ts: seq<Token>, st: PState): Token
  {
    if st.pos < |ts| then ts[st.pos] else EndToken
  }

  /** std::prev(position)->range.end. */
  function PrevEnd(ts: seq<Token>, st: PState): Position
    requires st.pos <= |ts|
  {
    if st.pos == 0 then Origin else ts[st.pos - 1].range.end
  }

  function Push(st: PState, message: string, region: Region): PState
  {
    st.(errors := st.errors + [Diag(message, region)])
  }

  /** advance: one token on, or an error at the end of the input. */
  function Advance(ts: seq<Token>, st: PState): (r: PState)
    ensures r.mapping == st.mapping
  {
    if st.pos >= |ts| then Push(st, "Unexpected end of input.", EmptyRegion)
    else st.(pos := st.pos + 1)
  }

  /** expect: an error when the current token is not `token`; the position stays. */
  function Expect(ts: seq<Token>, st: PState, token: string, message: string): (r: PState)
    ensures r.pos == st.pos && r.mapping == st.mapping
  {
    if st.pos >= |ts| then Push(st, message + ". Found end of input.", EmptyRegion)
    else if ts[st.pos].value != token then Push(st, message + ". Found: " + ts[st.pos].value, ts[st.pos].range)
    else st
  }

  /** expectType: the same test on the token type. */
  function ExpectType(ts: seq<Token>, st: PState, tokenType: string, message: string): (r: PState)
    ensures r.pos == st.pos && r.mapping == st.mapping
  {
    if st.pos >= |ts| then Push(st, message + ". Found end of input.", EmptyRegion)
    else if ts[st.pos].tokenType != tokenType then Push(st, message + ". Found: " + ts[st.pos].value, ts[st.pos].range)
    else st
  }

  /** The literal kind a token carries; every literal token the lexer emits has one. */
  function PropOf(t: Token): LiteralType
  {
    if t.prop.Some? then t.prop.value else Invalid
  }

  predicate IsLiteralTokenType(tt: string)
  {
    tt == "string" || tt == "number" || tt == "boolean" || tt == "datetime" || tt == "duration"
  }

  /** Write the default-constructed entry for a name token, unless the token is mapped already. */
  function Reserve(st: PState, index: nat): PState
  {
    if index in st.mapping then st else st.(mapping := st.mapping[index := Reserved])
  }

  /** Replace the entry of a name token by its declaration, when there is an entry. */
  function Bind(st: PState, index: nat, target: ReprRef): PState
  {
    if index in st.mapping then st.(mapping := st.mapping[index := target]) else st
  }

  // ---------------------------------------------------------------------
  // Operator tables
  // ---------------------------------------------------------------------

  predicate IsBinaryOperator(op: string)
  {
    op in {".", "@", "[", "(", "*", "/", "%", "+", "-", "<<", ">>", "<", "<=", ">", ">=",
           "==", "!=", "&", "^", "|", "&&", "||", "="}
  }

  predicate IsUnaryOperator(op: string)
  {
    op == "~" || op == "!" || op == "+" || op == "-"
  }

  /** getPrecedence: the unary table for one operand, the binary table for two, and 17 for anything not listed. */
  function GetPrecedence(token: string, operands: nat): (p: nat)
    ensures p <= 17
  {
    if operands == 1 then
      if IsUnaryOperator(token) then 3 else 17
    else if operands == 2 then
      if token == "." || token == "@" then 1
      else if token == "[" || token == "(" then 2
      else if token == "*" || token == "/" || token == "%" then 5
      else if token == "+" || token == "-" then 6
      else if token == "<<" || token == ">>" then 7
      else if token == "<" || token == "<=" || token == ">" || token == ">=" then 8
      else if token == "==" || token == "!=" then 9
      else if token == "&" then 10
      else if token == "^" then 11
      else if token == "|" then 12
      else if token == "&&" then 13
      else if token == "||" then 14
      else if token == "=" then 15
      else 17
    else
      if token == "?" then 15 else 17
  }

  /** An associativity table as an initializer list: 1 for right-associative, 0 for left. */
  type AssocTable = seq<(string, nat)>

  // The lines of the initializer list of getAssociativity, in order.
  const UnaryAssoc: AssocTable := [("~", 1), ("!", 1), ("+", 1), ("-", 1)]
  const AccessAssoc: AssocTable := [(".", 0), ("@", 0), ("[", 0), ("(", 0)]
  const ArithmeticAssoc: AssocTable := [("*", 0), ("/", 0), ("%", 0), ("+", 0), ("-", 0)]
  const ShiftAssoc: AssocTable := [("<<", 0), (">>", 0)]
  const RelationalAssoc: AssocTable := [("<", 0), ("<=", 0), (">", 0), (">=", 0)]
  const BitwiseAssoc: AssocTable := [("==", 0), ("!=", 0), ("&", 0), ("^", 0), ("|", 0)]
  const LogicalAssoc: AssocTable := [("&&", 0), ("||", 0), ("=", 1)]
  const BracketAssoc: AssocTable := [("]", 0), (")", 0)]
  const TernaryAssoc: AssocTable := [("?", 1), (":", 1)]

  /** The entries after the unary line. */
  const BinaryAssoc: AssocTable :=
    AccessAssoc + (ArithmeticAssoc + (ShiftAssoc + (RelationalAssoc + (BitwiseAssoc + (LogicalAssoc + (BracketAssoc + TernaryAssoc))))))

  /**
   * The initializer list as written: the unary line gives "+" and "-" the
   * value 1, and the arithmetic line repeats both keys with 0.
   */
  const AssociativityAsWritten: AssocTable := UnaryAssoc + BinaryAssoc

  /** The table the binary loop needs: without the unary entries that shadow binary "+" and "-". */
  const Associativity: AssocTable := [("~", 1), ("!", 1)] + BinaryAssoc

  /**
   * A lookup in the map built from an initializer list: the first entry
   * with the key wins (what std::unordered_map's list constructor keeps in
   * libstdc++ and libc++), and a missing key gives 0.
   */
  function AssocOf(table: AssocTable, op: string): (a: nat)
    ensures forall j :: 0 <= j < |table| && table[j].0 == op && (forall i :: 0 <= i < j ==> table[i].0 != op) ==> a == table[j].1
    ensures (forall j :: 0 <= j < |table| ==> table[j].0 != op) ==> a == 0
    decreases |table|
  {
    if table == [] then 0
    else if table[0].0 == op then table[0].1
    else
      var a := AssocOf(table[1..], op);
      assert forall j :: 1 <= j < |table| ==> table[1..][j - 1] == table[j];
      a
  }

  // ---------------------------------------------------------------------
  // Expressions
  // ---------------------------------------------------------------------

  /** parseExpression(minPrecedence): a unary operand, the binary loop, then an optional ternary. */
  function ParseExpression(ts: seq<Token>, st: PState, minPrec: nat, at: AssocTable): (r: Parsed<Expr>)
    requires st.pos <= |ts|
    ensures st.pos <= r.st.pos <= |ts|
    decreases |ts| - st.pos, 4
  {
    var start := Cur(ts, st).range.start;
    var u := ParseUnary(ts, st, at);
    var l := BinaryLoop(ts, u.st, minPrec, start, u.value, at);
    Ternary(ts, l.st, start, l.value, at)
  }

  /** The while (true) loop: an operator binds while its precedence is below minPrecedence plus its associativity. */
  function BinaryLoop(ts: seq<Token>, st: PState, minPrec: nat, start: Position, lhs: Expr, at: AssocTable): (r: Parsed<Expr>)
    requires st.pos <= |ts|
    ensures st.pos <= r.st.pos <= |ts|
    decreases |ts| - st.pos, 3
  {
    if st.pos >= |ts| then Parsed(lhs, st)
    else
      var op := ts[st.pos].value;
      if !IsBinaryOperator(op) || GetPrecedence(op, 2) >= minPrec + AssocOf(at, op) then Parsed(lhs, st)
      else if op == "@" then
        var a := ParseAnnotation(ts, st, false, at);
        BinaryLoop(ts, a.st, minPrec, start, AnnotationExpr(lhs, a.value, a.value.region), at)
      else
        var rhs := ParseExpression(ts, Advance(ts, st), GetPrecedence(op, 2), at);
        BinaryLoop(ts, rhs.st, minPrec, start, BinaryExpr(op, lhs, rhs.value, Region(start, PrevEnd(ts, rhs.st))), at)
  }

  /** `cond ? a : b` after the binary loop, whatever the minimum precedence. */
  function Ternary(ts: seq<Token>, st: PState, start: Position, lhs: Expr, at: AssocTable): (r: Parsed<Expr>)
    requires st.pos <= |ts|
    ensures st.pos <= r.st.pos <= |ts|
    decreases |ts| - st.pos, 3
  {
    if st.pos < |ts| && ts[st.pos].value == "?" then
      var t := ParseExpression(ts, Advance(ts, st), 17, at);
      var s1 := Expect(ts, t.st, ":", "Expected ':' in ternary");
      var f := ParseExpression(ts, if s1.pos < |ts| then Advance(ts, s1) else s1, 17, at);
      Parsed(TernaryExpr(lhs, t.value, f.value, Region(start, PrevEnd(ts, f.st))), f.st)
    else Parsed(lhs, st)
  }

  /** parseUnary: an operator token among ~ ! + - applies to an expression of precedence below 3. */
  function ParseUnary(ts: seq<Token>, st: PState, at: AssocTable): (r: Parsed<Expr>)
    requires st.pos <= |ts|
    ensures st.pos <= r.st.pos <= |ts|
    decreases |ts| - st.pos, 3
  {
    if st.pos >= |ts| || ts[st.pos].tokenType != "operator" || !IsUnaryOperator(ts[st.pos].value) then
      ParsePrimary(ts, st, at)
    else
      var op := ts[st.pos].value;
      var e := ParseExpression(ts, Advance(ts, st), GetPrecedence(op, 1), at);
      Parsed(UnaryExpr(op, e.value, Region(ts[st.pos].range.start, PrevEnd(ts, e.st))), e.st)
  }

  /** parsePrimary: a literal, an identifier, a function call, a parenthesised expression, or an error. */
  function ParsePrimary(ts: seq<Token>, st: PState, at: AssocTable): (r: Parsed<Expr>)
    requires st.pos <= |ts|
    ensures st.pos <= r.st.pos <= |ts|
    decreases |ts| - st.pos, 2
  {
    if st.pos >= |ts| then Parsed(NullExpr, Push(st, "Unexpected end of input.", EmptyRegion))
    else
      var t := ts[st.pos];
      if IsLiteralTokenType(t.tokenType) then Parsed(LiteralExpr(PropOf(t), t.value, t.range), Advance(ts, st))
      else if t.tokenType == "identifier" then Parsed(IdentifierExpr(t.value, t.range), Advance(ts, st))
      else if t.tokenType == "keyword" then
        var s1 := Expect(ts, Advance(ts, st), "(", "Expected '(' after function name");
        var s2 := if s1.pos < |ts| then Advance(ts, s1) else s1;
        var args := DelimitedArgs(ts, s2, [], "function call", true, at);
        var s3 := if args.st.pos < |ts| then Advance(ts, args.st) else args.st;
        Parsed(FunctionCallExpr(t.value, args.value, Region(t.range.start, PrevEnd(ts, s3))), s3)
      else if t.value == "(" then
        var e := ParseExpression(ts, Advance(ts, st), 17, at);
        Parsed(e.value, Advance(ts, Expect(ts, e.st, ")", "Expected ')' after expression")))
      else Parsed(NullExpr, Push(st, "Unexpected primary token: " + t.value, t.range))
  }

  /** parseDelimitedArgs: arguments up to ')', separated by ','; anything else is reported and skipped. */
  function DelimitedArgs(ts: seq<Token>, st: PState, args: seq<Expr>, context: string, allowList: bool, at: AssocTable): (r: Parsed<seq<Expr>>)
    requires st.pos <= |ts|
    ensures st.pos <= r.st.pos <= |ts|
    decreases |ts| - st.pos, 6
  {
    if st.pos >= |ts| || ts[st.pos].value == ")" then Parsed(args, st)
    else
      var a := ParseArg(ts, st, allowList, at);
      var more := args + [a.value];
      if a.st.pos >= |ts| then Parsed(more, a.st)
      else if ts[a.st.pos].value == "," then DelimitedArgs(ts, Advance(ts, a.st), more, context, allowList, at)
      else if ts[a.st.pos].value != ")" then
        DelimitedArgs(ts, Advance(ts, Push(a.st, "Expected ',' or ')' in " + context, ts[a.st.pos].range)), more, context, allowList, at)
      else Parsed(more, a.st)
  }

  /** One argument of parseDelimitedArgs: a bracketed list, or an expression.
      The expression is parsed before its region is read, one of the two orders C++ allows. */
  function ParseArg(ts: seq<Token>, st: PState, allowList: bool, at: AssocTable): (r: Parsed<Expr>)
    requires st.pos < |ts|
    ensures st.pos <= r.st.pos <= |ts|
    ensures r.value.FunctionArgExpr?
    decreases |ts| - st.pos, 5
  {
    var start := ts[st.pos].range.start;
    if allowList && ts[st.pos].value == "[" then
      var l := ListElems(ts, Advance(ts, st), [], at);
      var s := if l.st.pos < |ts| then Advance(ts, l.st) else l.st;
      Parsed(FunctionArgExpr(ListArg(l.value), Region(start, PrevEnd(ts, s))), s)
    else
      var e := ParseExpression(ts, st, 17, at);
      Parsed(FunctionArgExpr(SingleArg(e.value), Region(start, PrevEnd(ts, e.st))), e.st)
  }

  /** One pass of the list-argument loop as written: an element, then a ',' if there is one. */
  function ListStepAsWritten(ts: seq<Token>, st: PState, at: AssocTable): (r: Parsed<Expr>)
    requires st.pos <= |ts|
    ensures st.pos <= r.st.pos <= |ts|
    decreases |ts| - st.pos, 5
  {
    var e := ParseExpression(ts, st, 17, at);
    Parsed(e.value, if e.st.pos < |ts| && ts[e.st.pos].value == "," then Advance(ts, e.st) else e.st)
  }

  /**
   * The elements of a list argument up to ']'.  As written, an element that
   * consumes no token is followed by the same attempt again forever; here
   * the offending token, which parsePrimary has already reported, is skipped.
   */
  function ListElems(ts: seq<Token>, st: PState, elems: seq<Expr>, at: AssocTable): (r: Parsed<seq<Expr>>)
    requires st.pos <= |ts|
    ensures st.pos <= r.st.pos <= |ts|
    decreases |ts| - st.pos, 6
  {
    if st.pos >= |ts| || ts[st.pos].value == "]" then Parsed(elems, st)
    else
      var step := ListStepAsWritten(ts, st, at);
      var next := if step.st.pos == st.pos then Advance(ts, step.st) else step.st;
      ListElems(ts, next, elems + [step.value], at)
  }

  predicate IsGlobalAnnotation(name: string)
  {
    name == "deprecated"
  }

  /** parseAnnotation: '@', a name (checked against the kind being parsed), and optional arguments. */
  function ParseAnnotation(ts: seq<Token>, st: PState, global: bool, at: AssocTable): (r: Parsed<Annotation>)
    requires st.pos <= |ts|
    ensures st.pos <= r.st.pos <= |ts|
    ensures st.pos < |ts| ==> st.pos < r.st.pos
    decreases |ts| - st.pos, 2
  {
    var start := Cur(ts, st).range.start;
    var s1 := Advance(ts, st);
    var nameTok := Cur(ts, s1);
    var name := nameTok.value;
    var s2 :=
      if global && !IsGlobalAnnotation(name) then Push(s1, "Found local annotation " + name + " when parsing global annotations", nameTok.range)
      else if !global && IsGlobalAnnotation(name) then Push(s1, "Found global annotation " + name + " when parsing local annotations", nameTok.range)
      else s1;
    var s3 := Advance(ts, s2);
    if s3.pos < |ts| && ts[s3.pos].value == "(" then
      var args := AnnotationArgs(ts, Advance(ts, s3), [], at);
      var s4 := if args.st.pos < |ts| then Advance(ts, args.st) else args.st;
      Parsed(Annotation(name, args.value, Region(start, PrevEnd(ts, s4))), s4)
    else Parsed(Annotation(name, [], Region(start, PrevEnd(ts, s3))), s3)
  }

  /** parseDelimitedAnnotationArgs. */
  function AnnotationArgs(ts: seq<Token>, st: PState, args: seq<Expr>, at: AssocTable): (r: Parsed<seq<Expr>>)
    requires st.pos <= |ts|
    ensures st.pos <= r.st.pos <= |ts|
    decreases |ts| - st.pos, 5
  {
    if st.pos >= |ts| || ts[st.pos].value == ")" then Parsed(args, st)
    else
      var e := ParseExpression(ts, st, 17, at);
      var more := args + [e.value];
      if e.st.pos >= |ts| then Parsed(more, e.st)
      else if ts[e.st.pos].value == "," then AnnotationArgs(ts, Advance(ts, e.st), more, at)
      else if ts[e.st.pos].value != ")" then
        AnnotationArgs(ts, Advance(ts, Push(e.st, "Expected ',' or ')' in annotation", ts[e.st.pos].range)), more, at)
      else Parsed(more, e.st)
  }

  /** parseAnnotations: annotations follow while the next one is of the kind being parsed. */
  function Annotations(ts: seq<Token>, st: PState, global: bool, acc: seq<Annotation>): (r: Parsed<seq<Annotation>>)
    requires st.pos <= |ts|
    ensures st.pos <= r.st.pos <= |ts|
    decreases |ts| - st.pos
  {
    if st.pos + 1 < |ts| && ts[st.pos].value == "@" && IsGlobalAnnotation(ts[st.pos + 1].value) == global then
      var a := ParseAnnotation(ts, st, global, Associativity);
      Annotations(ts, a.st, global, acc + [a.value])
    else Parsed(acc, st)
  }

  // ---------------------------------------------------------------------
  // Constraints
  // ---------------------------------------------------------------------

  /** parseConflictConstraint: conflicts a with b; */
  function ParseConflict(ts: seq<Token>, st: PState): (r: Parsed<Constraint>)
    requires st.pos < |ts|
    ensures st.pos < r.st.pos <= |ts|
  {
    var start := ts[st.pos].range.start;
    var a := ParseExpression(ts, Advance(ts, st), 17, Associativity);
    var s1 := Advance(ts, Expect(ts, a.st, "with", "Expected 'with' in conflict constraint"));
    var b := ParseExpression(ts, s1, 17, Associativity);
    var s2 := Expect(ts, b.st, ";", "Expected ';' after conflict");
    Parsed(ConflictConstraint(a.value, b.value, Region(start, Cur(ts, s2).range.end)), Advance(ts, s2))
  }

  /** parseDependencyConstraint: requires a => b; */
  function ParseDependency(ts: seq<Token>, st: PState): (r: Parsed<Constraint>)
    requires st.pos < |ts|
    ensures st.pos < r.st.pos <= |ts|
  {
    var start := ts[st.pos].range.start;
    var a := ParseExpression(ts, Advance(ts, st), 17, Associativity);
    var s1 := Advance(ts, Expect(ts, a.st, "=>", "Expected '=>' in dependency"));
    var b := ParseExpression(ts, s1, 17, Associativity);
    var s2 := Expect(ts, b.st, ";", "Expected ';' after dependency");
    Parsed(DependencyConstraint(a.value, b.value, Region(start, Cur(ts, s2).range.end)), Advance(ts, s2))
  }

  /** parseValidateConstraint: validate e; */
  function ParseValidate(ts: seq<Token>, st: PState): (r: Parsed<Constraint>)
    requires st.pos < |ts|
    ensures st.pos < r.st.pos <= |ts|
  {
    var start := ts[st.pos].range.start;
    var e := ParseExpression(ts, Advance(ts, st), 17, Associativity);
    var s1 := Expect(ts, e.st, ";", "Expected ';' after validate");
    Parsed(ValidateConstraint(e.value, Region(start, Cur(ts, s1).range.end)), Advance(ts, s1))
  }

  /** The loop of parseConstraints: constraints up to '}', other tokens skipped. */
  function ConstraintList(ts: seq<Token>, st: PState, acc: seq<Constraint>): (r: Parsed<seq<Constraint>>)
    requires st.pos <= |ts|
    ensures st.pos <= r.st.pos <= |ts|
    decreases |ts| - st.pos
  {
    if st.pos >= |ts| || ts[st.pos].value == "}" then Parsed(acc, st)
    else if ts[st.pos].value == "conflicts" then
      var c := ParseConflict(ts, st);
      ConstraintList(ts, c.st, acc + [c.value])
    else if ts[st.pos].value == "requires" then
      var c := ParseDependency(ts, st);
      ConstraintList(ts, c.st, acc + [c.value])
    else if ts[st.pos].value == "validate" then
      var c := ParseValidate(ts, st);
      ConstraintList(ts, c.st, acc + [c.value])
    else ConstraintList(ts, Advance(ts, st), acc)
  }

  /** parseConstraints: constraints { ... } with an optional ';'. */
  function ParseConstraints(ts: seq<Token>, st: PState): (r: Parsed<seq<Constraint>>)
    requires st.pos < |ts|
    ensures st.pos < r.st.pos <= |ts|
  {
    var s1 := Advance(ts, Expect(ts, Advance(ts, st), "{", "Expected '{' after constraints"));
    var l := ConstraintList(ts, s1, []);
    var s2 := Advance(ts, l.st);
    Parsed(l.value, if s2.pos < |ts| && ts[s2.pos].value == ";" then Advance(ts, s2) else s2)
  }

  // ---------------------------------------------------------------------
  // Types
  // ---------------------------------------------------------------------

  predicate IsPrimitiveName(v: string)
  {
    v == "string" || v == "number" || v == "boolean" || v == "datetime" || v == "duration"
  }

  /** The primitive a type name or a literal token type stands for. */
  function PrimitiveNamed(v: string): Primitive
    requires IsPrimitiveName(v)
  {
    if v == "number" then NumberPrimitive
    else if v == "boolean" then BooleanPrimitive
    else if v == "string" then StringPrimitive
    else if v == "datetime" then DatetimePrimitive
    else DurationPrimitive
  }

  /** The members a union contributes when it is extended: its own members, or itself. */
  function MembersOf(t: CslType): seq<CslType>
  {
    if t.UnionType? then t.memberTypes else [t]
  }

  /** The flags the union check of parseType collects. */
  datatype MixFlags = MixFlags(stringType: bool, stringLiteral: bool, numberType: bool, numberLiteral: bool)

  const NoFlags: MixFlags := MixFlags(false, false, false, false)

  predicate IsStringKindName(n: string)
  {
    n == "Basic" || n == "Raw" || n == "MultiLineBasic" || n == "MultiLineRaw"
  }

  /**
   * The flag step as written: a literal member marks a string literal when
   * its kind is a string kind and a number literal for every other kind,
   * booleans, date-times and durations included.
   */
  function MixStepAsWritten(f: MixFlags, m: CslType): MixFlags
  {
    if !m.PrimitiveType? then f
    else if |m.allowedValues| > 0 then
      if IsStringKindName(ToString(m.allowedValues[0].prop)) then f.(stringLiteral := true) else f.(numberLiteral := true)
    else if m.primitive == StringPrimitive then f.(stringType := true)
    else if m.primitive == NumberPrimitive then f.(numberType := true)
    else f
  }

  function MixFlagsOfAsWritten(ms: seq<CslType>, f: MixFlags): MixFlags
    decreases |ms|
  {
    if ms == [] then f else MixFlagsOfAsWritten(ms[1..], MixStepAsWritten(f, ms[0]))
  }

  predicate MixesLiteralAsWritten(ms: seq<CslType>)
  {
    var f := MixFlagsOfAsWritten(ms, NoFlags);
    (f.stringType && f.stringLiteral) || (f.numberType && f.numberLiteral)
  }

  /** The flag step with a number literal meaning a literal of a numeric kind. */
  function MixStep(f: MixFlags, m: CslType): MixFlags
  {
    if !m.PrimitiveType? then f
    else if |m.allowedValues| > 0 then
      if IsStringKindName(ToString(m.allowedValues[0].prop)) then f.(stringLiteral := true)
      else if IsNumeric(m.allowedValues[0].prop) then f.(numberLiteral := true)
      else f
    else if m.primitive == StringPrimitive then f.(stringType := true)
    else if m.primitive == NumberPrimitive then f.(numberType := true)
    else f
  }

  function MixFlagsOf(ms: seq<CslType>, f: MixFlags): MixFlags
    decreases |ms|
  {
    if ms == [] then f else MixFlagsOf(ms[1..], MixStep(f, ms[0]))
  }

  /** A union holds string with a string literal, or number with a number literal. */
  predicate MixesLiteral(ms: seq<CslType>)
  {
    var f := MixFlagsOf(ms, NoFlags);
    (f.stringType && f.stringLiteral) || (f.numberType && f.numberLiteral)
  }

  /** parseType: postfix types joined by '|', then the check against mixing a primitive with its literal. */
  function ParseType(ts: seq<Token>, st: PState): (r: Parsed<CslType>)
    requires st.pos <= |ts|
    ensures st.pos <= r.st.pos <= |ts|
    decreases |ts| - st.pos, 7
  {
    var start := Cur(ts, st).range.start;
    var p := ParsePostfixType(ts, st);
    var u := UnionLoop(ts, p.st, start, p.value);
    Parsed(u.value,
      if u.value.UnionType? && MixesLiteral(u.value.memberTypes)
      then Push(u.st, "Union type cannot mix a primitive type with its literal", Region(start, PrevEnd(ts, u.st)))
      else u.st)
  }

  /** The '|' loop of parseType: union members are flattened into one union. */
  function UnionLoop(ts: seq<Token>, st: PState, start: Position, t: CslType): (r: Parsed<CslType>)
    requires st.pos <= |ts|
    ensures st.pos <= r.st.pos <= |ts|
    decreases |ts| - st.pos, 6
  {
    if st.pos < |ts| && ts[st.pos].value == "|" then
      var right := ParsePostfixType(ts, Advance(ts, st));
      UnionLoop(ts, right.st, start, UnionType(MembersOf(t) + MembersOf(right.value), Region(start, PrevEnd(ts, right.st))))
    else Parsed(t, st)
  }

  /** parsePostfixType: a primary type followed by any number of '[]'. */
  function ParsePostfixType(ts: seq<Token>, st: PState): (r: Parsed<CslType>)
    requires st.pos <= |ts|
    ensures st.pos <= r.st.pos <= |ts|
    decreases |ts| - st.pos, 6
  {
    var p := ParsePrimaryType(ts, st);
    PostfixLoop(ts, p.st, p.value)
  }

  function PostfixLoop(ts: seq<Token>, st: PState, t: CslType): (r: Parsed<CslType>)
    requires st.pos <= |ts|
    ensures st.pos <= r.st.pos <= |ts|
    decreases |ts| - st.pos, 5
  {
    if st.pos < |ts| && ts[st.pos].value == "[" then
      var start := ts[st.pos].range.start;
      var s1 := Expect(ts, Advance(ts, st), "]", "Expected ']' after array type");
      PostfixLoop(ts, Advance(ts, s1), ArrayType(t, Region(start, Cur(ts, s1).range.end)))
    else Parsed(t, st)
  }

  /** parsePrimaryType: members separated by '|' are collected here already; one member stands alone. */
  function ParsePrimaryType(ts: seq<Token>, st: PState): (r: Parsed<CslType>)
    requires st.pos <= |ts|
    ensures st.pos <= r.st.pos <= |ts|
    decreases |ts| - st.pos, 5
  {
    var start := Cur(ts, st).range.start;
    var m := PrimaryMembers(ts, st, []);
    if |m.value| == 1 then Parsed(m.value[0], m.st)
    else Parsed(UnionType(m.value, Region(start, PrevEnd(ts, m.st))), m.st)
  }

  /** The do-while loop of parsePrimaryType. */
  function PrimaryMembers(ts: seq<Token>, st: PState, members: seq<CslType>): (r: Parsed<seq<CslType>>)
    requires st.pos <= |ts|
    ensures st.pos <= r.st.pos <= |ts|
    decreases |ts| - st.pos, 4
  {
    var one := PrimaryMember(ts, st);
    var more := members + (if one.value.Some? then [one.value.value] else []);
    if one.st.pos < |ts| && ts[one.st.pos].value == "|" then
      var s := Advance(ts, one.st);
      if s.pos < |ts| then PrimaryMembers(ts, s, more) else Parsed(more, s)
    else Parsed(more, one.st)
  }

  /** parseLiteralType: a literal token as a primitive type admitting exactly that literal. */
  function ParseLiteralType(ts: seq<Token>, st: PState): (r: Parsed<CslType>)
    requires st.pos < |ts| && IsLiteralTokenType(ts[st.pos].tokenType)
    ensures r.value.PrimitiveType? && |r.value.allowedValues| == 1
    ensures r.value.allowedValues[0] == LiteralValue(ts[st.pos].value, PropOf(ts[st.pos]))
    ensures r.st.pos == st.pos + 1
  {
    var t := ts[st.pos];
    Parsed(PrimitiveType(PrimitiveNamed(t.tokenType), [LiteralValue(t.value, PropOf(t))], [], t.range), Advance(ts, st))
  }

  /** One pass of the do-while body: a member, or an error and no member. */
  function PrimaryMember(ts: seq<Token>, st: PState): (r: Parsed<Option<CslType>>)
    requires st.pos <= |ts|
    ensures st.pos <= r.st.pos <= |ts|
    decreases |ts| - st.pos, 3
  {
    var t := Cur(ts, st);
    if st.pos < |ts| && IsLiteralTokenType(t.tokenType) then
      var l := ParseLiteralType(ts, st);
      Parsed(Some(l.value), l.st)
    else if IsPrimitiveName(t.value) then
      var s1 := Advance(ts, st);
      var anns := if s1.pos < |ts| then Annotations(ts, s1, false, []) else Parsed([], s1);
      Parsed(Some(PrimitiveType(PrimitiveNamed(t.value), [], anns.value, t.range)), anns.st)
    else if t.value == "any{}" then Parsed(Some(AnyTableType(t.range)), Advance(ts, st))
    else if t.value == "any[]" then Parsed(Some(AnyArrayType(t.range)), Advance(ts, st))
    else if t.value == "{" then
      var tt := ParseTableType(ts, st);
      Parsed(Some(tt.value), tt.st)
    else if t.value == "(" then
      var inner := ParseType(ts, Advance(ts, st));
      Parsed(Some(inner.value), Advance(ts, Expect(ts, inner.st, ")", "Expected ')' after parenthesized type")))
    else Parsed(None, Push(st, "Unexpected token in type: " + t.value, t.range))
  }

  // ---------------------------------------------------------------------
  // Tables and keys
  // ---------------------------------------------------------------------

  /** What the loop of parseTableType collects. */
  datatype TableParts = TableParts(keys: seq<KeyDefinition>, wildcard: Option<KeyDefinition>, constraints: seq<Constraint>, seen: bool)

  const NoParts: TableParts := TableParts([], None, [], false)

  /** parseTableType: '{', the body, '}', then the semantic passes over the finished table. */
  function ParseTableType(ts: seq<Token>, st: PState): (r: Parsed<CslType>)
    requires st.pos <= |ts|
    ensures st.pos <= r.st.pos <= |ts|
    ensures r.value.TableType?
    decreases |ts| - st.pos, 2
  {
    var s1 := Advance(ts, Expect(ts, st, "{", "Expected '{' after schema name"));
    var start := Cur(ts, s1).range.start;
    var b := TableBody(ts, s1, NoParts);
    var s2 := Expect(ts, b.st, "}", "Expected '}' after schema definition");
    var end := if s2.pos < |ts| then ts[s2.pos].range.end else PrevEnd(ts, s2);
    var s3 := CloseTable(ts, b.value.keys, b.value.constraints, s2);
    Parsed(TableType(b.value.keys, b.value.wildcard, b.value.constraints, Region(start, end)), Advance(ts, s3))
  }

  /** The loop of parseTableType up to '}'. */
  function TableBody(ts: seq<Token>, st: PState, parts: TableParts): (r: Parsed<TableParts>)
    requires st.pos <= |ts|
    ensures st.pos <= r.st.pos <= |ts|
    decreases |ts| - st.pos, 1
  {
    if st.pos >= |ts| || ts[st.pos].value == "}" then Parsed(parts, st)
    else
      var t := ts[st.pos];
      if t.value == "constraints" then
        var c := ParseConstraints(ts, if parts.seen then Push(st, "Duplicate constraints block", t.range) else st);
        TableBody(ts, c.st, parts.(constraints := parts.constraints + c.value, seen := true))
      else if t.value == "*" then
        var w := ParseWildcardKey(ts, st);
        TableBody(ts, w.st, parts.(wildcard := Some(w.value)))
      else if t.tokenType == "identifier" then
        var k := ParseKeyDefinition(ts, st);
        TableBody(ts, k.st, parts.(keys := parts.keys + [k.value]))
      else if t.tokenType == "number" then
        TableBody(ts, Advance(ts, Push(st, "Key name must be an identifier", t.range)), parts)
      else TableBody(ts, Advance(ts, st), parts)
  }

  /** parseWildcardKey: * : type annotations ; */
  function ParseWildcardKey(ts: seq<Token>, st: PState): (r: Parsed<KeyDefinition>)
    requires st.pos < |ts|
    ensures st.pos < r.st.pos <= |ts|
    ensures r.value.isWildcard && r.value.name == "*" && r.value.defaultValue.None?
    decreases |ts| - st.pos, 0
  {
    var region := ts[st.pos].range;
    var s1 := Advance(ts, Expect(ts, Advance(ts, st), ":", "Expected ':' after wildcard"));
    var ty := ParseType(ts, s1);
    var anns := Annotations(ts, ty.st, true, []);
    var s2 := Advance(ts, Expect(ts, anns.st, ";", "Expected ';' after wildcard key"));
    Parsed(KeyDefinition("*", true, false, ty.value, anns.value, None, region), s2)
  }

  /** What follows a key name: its type, its global annotations and its default. */
  datatype KeyParts = KeyParts(keyType: CslType, annotations: seq<Annotation>, defaultValue: Option<LiteralValue>)

  /** parseKeyDefinition: name, optional '?', the key body, and its terminator. */
  function ParseKeyDefinition(ts: seq<Token>, st: PState): (r: Parsed<KeyDefinition>)
    requires st.pos < |ts|
    ensures st.pos < r.st.pos <= |ts|
    decreases |ts| - st.pos, 0
  {
    var t := ts[st.pos];
    var s1 := if t.tokenType != "identifier" then Push(st, "Key name must be an identifier", t.range) else Reserve(st, st.pos);
    var s2 := Advance(ts, s1);
    var optional := s2.pos < |ts| && ts[s2.pos].value == "?";
    var body := KeyBody(ts, if optional then Advance(ts, s2) else s2);
    var s3 := KeyTerminator(ts, body.st);
    var key := KeyDefinition(t.value, false, optional, body.value.keyType, body.value.annotations, body.value.defaultValue, t.range);
    Parsed(key, Bind(s3, st.pos, KeyRef(key)))
  }

  /** The three forms of a key body: `: type [= literal]`, `= literal`, or nothing. */
  function KeyBody(ts: seq<Token>, st: PState): (r: Parsed<KeyParts>)
    requires st.pos <= |ts|
    ensures st.pos <= r.st.pos <= |ts|
    decreases |ts| - st.pos, 0
  {
    if st.pos < |ts| && ts[st.pos].value == ":" then
      var ty := ParseType(ts, Advance(ts, st));
      var anns := Annotations(ts, ty.st, true, []);
      var d := TypedDefault(ts, anns.st);
      Parsed(KeyParts(ty.value, anns.value, d.value), d.st)
    else if st.pos < |ts| && ts[st.pos].value == "=" then InferredKey(ts, Advance(ts, st))
    else if st.pos < |ts| && ts[st.pos].tokenType == "identifier" then Parsed(KeyParts(InvalidType, [], None), st)
    else
      var s1 := Expect(ts, Expect(ts, st, ":", "Expected ':' after key name"), "=", "Expected '=' after key name");
      Parsed(KeyParts(InvalidType, [], None), if s1.pos < |ts| then Advance(ts, s1) else s1)
  }

  /** A default literal and the region it spans. */
  datatype DefaultLiteral = DefaultLiteral(value: LiteralValue, region: Region)

  /** A literal token, or a sign followed by a number token; otherwise an error at the current token. */
  function LiteralDefault(ts: seq<Token>, st: PState): (r: Parsed<Option<DefaultLiteral>>)
    requires st.pos <= |ts|
    ensures st.pos <= r.st.pos <= |ts|
    ensures r.value.Some? ==> r.st.errors == st.errors
    ensures r.value.None? ==> r.st == Push(st, "Expected literal default value after '='", Cur(ts, st).range)
  {
    if st.pos < |ts| && IsLiteralTokenType(ts[st.pos].tokenType) then
      var t := ts[st.pos];
      Parsed(Some(DefaultLiteral(LiteralValue(t.value, PropOf(t)), t.range)), Advance(ts, st))
    else if st.pos + 1 < |ts| && (ts[st.pos].value == "+" || ts[st.pos].value == "-") && ts[st.pos + 1].tokenType == "number" then
      var t := ts[st.pos];
      var n := ts[st.pos + 1];
      Parsed(Some(DefaultLiteral(LiteralValue(t.value + n.value, PropOf(n)), Region(t.range.start, n.range.end))), Advance(ts, Advance(ts, st)))
    else Parsed(None, Push(st, "Expected literal default value after '='", Cur(ts, st).range))
  }

  /** `= literal` after a declared type. */
  function TypedDefault(ts: seq<Token>, st: PState): (r: Parsed<Option<LiteralValue>>)
    requires st.pos <= |ts|
    ensures st.pos <= r.st.pos <= |ts|
  {
    if st.pos < |ts| && ts[st.pos].value == "=" then
      var d := LiteralDefault(ts, Advance(ts, st));
      Parsed(if d.value.Some? then Some(d.value.value.value) else None, d.st)
    else Parsed(None, st)
  }

  /** `name = literal`: the type is the primitive inferred from the literal's kind. */
  function InferredKey(ts: seq<Token>, st: PState): (r: Parsed<KeyParts>)
    requires st.pos <= |ts|
    ensures st.pos <= r.st.pos <= |ts|
  {
    var d := LiteralDefault(ts, st);
    if d.value.Some? then
      var lit := d.value.value;
      var anns := Annotations(ts, d.st, true, []);
      Parsed(KeyParts(PrimitiveType(Infer(lit.value.prop), [], [], lit.region), anns.value, Some(lit.value)), anns.st)
    else Parsed(KeyParts(InvalidType, [], None), d.st)
  }

  /** A key ends with ';', or silently before a token that starts the next declaration. */
  function KeyTerminator(ts: seq<Token>, st: PState): (r: PState)
    requires st.pos <= |ts|
    ensures st.pos <= r.pos <= |ts|
  {
    if st.pos < |ts| && ts[st.pos].value == ";" then Advance(ts, st)
    else if st.pos >= |ts| || ts[st.pos].tokenType == "identifier" || ts[st.pos].value == ":" || ts[st.pos].value == "*"
            || ts[st.pos].value == "constraints" || ts[st.pos].value == "}" then st
    else Advance(ts, Expect(ts, st, ";", "Expected ';' after key definition"))
  }

  // ---------------------------------------------------------------------
  // Schemas
  // ---------------------------------------------------------------------

  /** parseConfigSchema: config name { ... }
      The table is parsed before the region is read, one of the two orders C++ allows. */
  function ParseConfigSchema(ts: seq<Token>, st: PState): (r: Parsed<ConfigSchema>)
    requires st.pos < |ts|
    ensures st.pos < r.st.pos <= |ts|
    ensures r.value.rootTable.TableType?
  {
    var start := ts[st.pos].range.start;
    var s1 := ExpectType(ts, Advance(ts, st), "identifier", "Expected schema name after 'config'");
    var nameTok := Cur(ts, s1);
    var s2 := if nameTok.tokenType == "identifier" then Reserve(s1, s1.pos) else s1;
    var t := ParseTableType(ts, Advance(ts, s2));
    var schema := ConfigSchema(nameTok.value, t.value, Region(start, Cur(ts, t.st).range.end), nameTok.range);
    Parsed(schema, Bind(t.st, s1.pos, SchemaRef(schema)))
  }

  /** parseSchemas: every 'config' starts a schema; other tokens are skipped. */
  function ParseSchemas(ts: seq<Token>, st: PState, acc: seq<ConfigSchema>): (r: Parsed<seq<ConfigSchema>>)
    requires st.pos <= |ts|
    ensures r.st.pos == |ts|
    decreases |ts| - st.pos
  {
    if st.pos >= |ts| then Parsed(acc, st)
    else if ts[st.pos].value == "config" then
      var s := ParseConfigSchema(ts, st);
      ParseSchemas(ts, s.st, acc + [s.value])
    else ParseSchemas(ts, Advance(ts, st), acc)
  }

  const Start: PState := PState(0, [], map[])

  /** What CslParserMain returns; the parser never reports a warning. */
  datatype ParseResult = ParseResult(schemas: seq<ConfigSchema>, errors: seq<Diagnostic>, warnings: seq<Diagnostic>, mapping: map<nat, ReprRef>)

  function ParserMain(ts: seq<Token>): (r: ParseResult)
    ensures r.warnings == []
  {
    var p := ParseSchemas(ts, Start, []);
    ParseResult(p.value, p.st.errors, [], p.st.mapping)
  }
}
