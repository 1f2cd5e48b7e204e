// The CSL parser as the object the source builds: a token list, a current
// token index, an error list and the token-to-declaration mapping, updated
// in place by one method per parsing routine.  Each method is proved to end
// in the state, and to return the value, that the function of the same name
// in module ParserSpec (or ParserSemantics) gives for the state it started in.

module CslParser {

  import opened Wrappers
  import opened Positions
  import opened LiteralTypes
  import opened Tokens
  import opened Repr
  import opened ParserSemantics
  import opened ParserSpec

  class Parser {

    const tokens: seq<Token>
    var pos: nat
    var errors: seq<Diagnostic>
    var mapping: map<nat, ReprRef>

    function State(): PState
      reads this
    {
      PState(pos, errors, mapping)
    }

    predicate Valid()
      reads this
    {
      pos <= |tokens|
    }

    constructor (input: seq<Token>)
      ensures tokens == input && State() == Start && Valid()
    {
      tokens := input;
      pos := 0;
      errors := [];
      mapping := map[];
    }

    // -------------------------------------------------------------------
    // Primitive steps
    // -------------------------------------------------------------------

    method PushError(message: string, region: Region)
      requires Valid()
      modifies this
      ensures Valid() && State() == Push(old(State()), message, region)
    {
      errors := errors + [Diag(message, region)];
    }

    /** Record a declaration's name token, unless it already has an entry. */
    method Reserve(index: nat)
      requires Valid()
      modifies this
      ensures Valid() && State() == ParserSpec.Reserve(old(State()), index)
    {
      if index !in mapping {
        mapping := mapping[index := Reserved];
      }
    }

    /** Point a reserved name token at the finished declaration. */
    method Bind(index: nat, target: ReprRef)
      requires Valid()
      modifies this
      ensures Valid() && State() == ParserSpec.Bind(old(State()), index, target)
    {
      if index in mapping {
        mapping := mapping[index := target];
      }
    }

    method Advance()
      requires Valid()
      modifies this
      ensures Valid() && State() == ParserSpec.Advance(tokens, old(State()))
    {
      if pos >= |tokens| {
        errors := errors + [Diag("Unexpected end of input.", EmptyRegion)];
      } else {
        pos := pos + 1;
      }
    }

    method Expect(token: string, message: string)
      requires Valid()
      modifies this
      ensures Valid() && State() == ParserSpec.Expect(tokens, old(State()), token, message)
    {
      if pos >= |tokens| {
        errors := errors + [Diag(message + ". Found end of input.", EmptyRegion)];
      } else if tokens[pos].value != token {
        errors := errors + [Diag(message + ". Found: " + tokens[pos].value, tokens[pos].range)];
      }
    }

    method ExpectType(tokenType: string, message: string)
      requires Valid()
      modifies this
      ensures Valid() && State() == ParserSpec.ExpectType(tokens, old(State()), tokenType, message)
    {
      if pos >= |tokens| {
        errors := errors + [Diag(message + ". Found end of input.", EmptyRegion)];
      } else if tokens[pos].tokenType != tokenType {
        errors := errors + [Diag(message + ". Found: " + tokens[pos].value, tokens[pos].range)];
      }
    }

    // -------------------------------------------------------------------
    // Expressions
    // -------------------------------------------------------------------

    method ParseExpression(minPrec: nat) returns (e: Expr)
      requires Valid()
      modifies this
      ensures Valid() && ParserSpec.ParseExpression(tokens, old(State()), minPrec, Associativity) == Parsed(e, State())
      decreases |tokens| - pos, 4
    {
      ghost var s0 := State();
      var start := Cur(tokens, State()).range.start;
      e := ParseUnary();
      ghost var s1 := State();
      ghost var u := e;
      while true
        invariant Valid() && s0.pos <= s1.pos <= pos
        invariant BinaryLoop(tokens, s1, minPrec, start, u, Associativity) == BinaryLoop(tokens, State(), minPrec, start, e, Associativity)
        decreases |tokens| - pos
      {
        if pos >= |tokens| {
          break;
        }
        var op := tokens[pos].value;
        if !IsBinaryOperator(op) || GetPrecedence(op, 2) >= minPrec + AssocOf(Associativity, op) {
          break;
        }
        if op == "@" {
          var a := ParseAnnotation(false);
          e := AnnotationExpr(e, a, a.region);
        } else {
          Advance();
          var rhs := ParseExpression(GetPrecedence(op, 2));
          e := BinaryExpr(op, e, rhs, Region(start, PrevEnd(tokens, State())));
        }
      }
      if pos < |tokens| && tokens[pos].value == "?" {
        Advance();
        var t := ParseExpression(17);
        Expect(":", "Expected ':' in ternary");
        if pos < |tokens| {
          Advance();
        }
        var f := ParseExpression(17);
        e := TernaryExpr(e, t, f, Region(start, PrevEnd(tokens, State())));
      }
    }

    method ParseUnary() returns (e: Expr)
      requires Valid()
      modifies this
      ensures Valid() && ParserSpec.ParseUnary(tokens, old(State()), Associativity) == Parsed(e, State())
      decreases |tokens| - pos, 3
    {
      if pos >= |tokens| || tokens[pos].tokenType != "operator" || !IsUnaryOperator(tokens[pos].value) {
        e := ParsePrimary();
      } else {
        var op := tokens[pos].value;
        var start := tokens[pos].range.start;
        Advance();
        var x := ParseExpression(GetPrecedence(op, 1));
        e := UnaryExpr(op, x, Region(start, PrevEnd(tokens, State())));
      }
    }

    method ParsePrimary() returns (e: Expr)
      requires Valid()
      modifies this
      ensures Valid() && ParserSpec.ParsePrimary(tokens, old(State()), Associativity) == Parsed(e, State())
      decreases |tokens| - pos, 2
    {
      if pos >= |tokens| {
        PushError("Unexpected end of input.", EmptyRegion);
        e := NullExpr;
        return;
      }
      var t := tokens[pos];
      if IsLiteralTokenType(t.tokenType) {
        e := LiteralExpr(PropOf(t), t.value, t.range);
        Advance();
      } else if t.tokenType == "identifier" {
        e := IdentifierExpr(t.value, t.range);
        Advance();
      } else if t.tokenType == "keyword" {
        Advance();
        Expect("(", "Expected '(' after function name");
        if pos < |tokens| {
          Advance();
        }
        var args := ParseDelimitedArgs("function call", true);
        if pos < |tokens| {
          Advance();
        }
        e := FunctionCallExpr(t.value, args, Region(t.range.start, PrevEnd(tokens, State())));
      } else if t.value == "(" {
        Advance();
        e := ParseExpression(17);
        Expect(")", "Expected ')' after expression");
        Advance();
      } else {
        PushError("Unexpected primary token: " + t.value, t.range);
        e := NullExpr;
      }
    }

    method ParseDelimitedArgs(context: string, allowList: bool) returns (args: seq<Expr>)
      requires Valid()
      modifies this
      ensures Valid() && DelimitedArgs(tokens, old(State()), [], context, allowList, Associativity) == Parsed(args, State())
      decreases |tokens| - pos, 6
    {
      ghost var s0 := State();
      args := [];
      while pos < |tokens| && tokens[pos].value != ")"
        invariant Valid() && s0.pos <= pos
        invariant DelimitedArgs(tokens, s0, [], context, allowList, Associativity) == DelimitedArgs(tokens, State(), args, context, allowList, Associativity)
        decreases |tokens| - pos
      {
        var a := ParseArg(allowList);
        args := args + [a];
        if pos >= |tokens| {
          break;
        }
        if tokens[pos].value == "," {
          Advance();
        } else if tokens[pos].value != ")" {
          PushError("Expected ',' or ')' in " + context, tokens[pos].range);
          Advance();
        } else {
          break;
        }
      }
    }

    /** One argument: a bracketed list (its elements parsed by the inner loop) or an expression. */
    method ParseArg(allowList: bool) returns (a: Expr)
      requires Valid() && pos < |tokens|
      modifies this
      ensures Valid() && ParserSpec.ParseArg(tokens, old(State()), allowList, Associativity) == Parsed(a, State())
      decreases |tokens| - pos, 5
    {
      var start := tokens[pos].range.start;
      if allowList && tokens[pos].value == "[" {
        Advance();
        ghost var s1 := State();
        var elems: seq<Expr> := [];
        while pos < |tokens| && tokens[pos].value != "]"
          invariant Valid() && s1.pos <= pos
          invariant ListElems(tokens, s1, [], Associativity) == ListElems(tokens, State(), elems, Associativity)
          decreases |tokens| - pos
        {
          var before := pos;
          var x := ParseExpression(17);
          elems := elems + [x];
          if pos < |tokens| && tokens[pos].value == "," {
            Advance();
          } else if pos == before {
            Advance();
          }
        }
        if pos < |tokens| {
          Advance();
        }
        a := FunctionArgExpr(ListArg(elems), Region(start, PrevEnd(tokens, State())));
      } else {
        var x := ParseExpression(17);
        a := FunctionArgExpr(SingleArg(x), Region(start, PrevEnd(tokens, State())));
      }
    }

    method ParseAnnotation(global: bool) returns (a: Annotation)
      requires Valid()
      modifies this
      ensures Valid() && ParserSpec.ParseAnnotation(tokens, old(State()), global, Associativity) == Parsed(a, State())
      decreases |tokens| - pos, 2
    {
      var start := Cur(tokens, State()).range.start;
      Advance();
      var nameTok := Cur(tokens, State());
      var name := nameTok.value;
      if global {
        if !IsGlobalAnnotation(name) {
          PushError("Found local annotation " + name + " when parsing global annotations", nameTok.range);
        }
      } else {
        if IsGlobalAnnotation(name) {
          PushError("Found global annotation " + name + " when parsing local annotations", nameTok.range);
        }
      }
      Advance();
      var args: seq<Expr> := [];
      if pos < |tokens| && tokens[pos].value == "(" {
        Advance();
        args := ParseDelimitedAnnotationArgs();
        if pos < |tokens| {
          Advance();
        }
      }
      a := Annotation(name, args, Region(start, PrevEnd(tokens, State())));
    }

    method ParseDelimitedAnnotationArgs() returns (args: seq<Expr>)
      requires Valid()
      modifies this
      ensures Valid() && AnnotationArgs(tokens, old(State()), [], Associativity) == Parsed(args, State())
      decreases |tokens| - pos, 5
    {
      ghost var s0 := State();
      args := [];
      while pos < |tokens| && tokens[pos].value != ")"
        invariant Valid() && s0.pos <= pos
        invariant AnnotationArgs(tokens, s0, [], Associativity) == AnnotationArgs(tokens, State(), args, Associativity)
        decreases |tokens| - pos
      {
        var x := ParseExpression(17);
        args := args + [x];
        if pos >= |tokens| {
          break;
        }
        if tokens[pos].value == "," {
          Advance();
        } else if tokens[pos].value != ")" {
          PushError("Expected ',' or ')' in annotation", tokens[pos].range);
          Advance();
        } else {
          break;
        }
      }
    }

    method ParseAnnotations(global: bool) returns (anns: seq<Annotation>)
      requires Valid()
      modifies this
      ensures Valid() && Annotations(tokens, old(State()), global, []) == Parsed(anns, State())
    {
      ghost var s0 := State();
      anns := [];
      while pos + 1 < |tokens| && tokens[pos].value == "@" && IsGlobalAnnotation(tokens[pos + 1].value) == global
        invariant Valid() && s0.pos <= pos
        invariant Annotations(tokens, s0, global, []) == Annotations(tokens, State(), global, anns)
        decreases |tokens| - pos
      {
        var a := ParseAnnotation(global);
        anns := anns + [a];
      }
    }

    // -------------------------------------------------------------------
    // Constraints
    // -------------------------------------------------------------------

    method ParseConstraints() returns (cs: seq<Constraint>)
      requires Valid() && pos < |tokens|
      modifies this
      ensures Valid() && ParserSpec.ParseConstraints(tokens, old(State())) == Parsed(cs, State())
    {
      Advance();
      Expect("{", "Expected '{' after constraints");
      Advance();
      ghost var s1 := State();
      cs := [];
      while pos < |tokens| && tokens[pos].value != "}"
        invariant Valid() && s1.pos <= pos
        invariant ConstraintList(tokens, s1, []) == ConstraintList(tokens, State(), cs)
        decreases |tokens| - pos
      {
        if tokens[pos].value == "conflicts" {
          var c := ParseConflictConstraint();
          cs := cs + [c];
        } else if tokens[pos].value == "requires" {
          var c := ParseDependencyConstraint();
          cs := cs + [c];
        } else if tokens[pos].value == "validate" {
          var c := ParseValidateConstraint();
          cs := cs + [c];
        } else {
          Advance();
        }
      }
      Advance();
      if pos < |tokens| && tokens[pos].value == ";" {
        Advance();
      }
    }

    method ParseConflictConstraint() returns (c: Constraint)
      requires Valid() && pos < |tokens|
      modifies this
      ensures Valid() && ParseConflict(tokens, old(State())) == Parsed(c, State())
    {
      var start := tokens[pos].range.start;
      Advance();
      var a := ParseExpression(17);
      Expect("with", "Expected 'with' in conflict constraint");
      Advance();
      var b := ParseExpression(17);
      Expect(";", "Expected ';' after conflict");
      var end := Cur(tokens, State()).range.end;
      Advance();
      c := ConflictConstraint(a, b, Region(start, end));
    }

    method ParseDependencyConstraint() returns (c: Constraint)
      requires Valid() && pos < |tokens|
      modifies this
      ensures Valid() && ParseDependency(tokens, old(State())) == Parsed(c, State())
    {
      var start := tokens[pos].range.start;
      Advance();
      var a := ParseExpression(17);
      Expect("=>", "Expected '=>' in dependency");
      Advance();
      var b := ParseExpression(17);
      Expect(";", "Expected ';' after dependency");
      var end := Cur(tokens, State()).range.end;
      Advance();
      c := DependencyConstraint(a, b, Region(start, end));
    }

    method ParseValidateConstraint() returns (c: Constraint)
      requires Valid() && pos < |tokens|
      modifies this
      ensures Valid() && ParseValidate(tokens, old(State())) == Parsed(c, State())
    {
      var start := tokens[pos].range.start;
      Advance();
      var x := ParseExpression(17);
      Expect(";", "Expected ';' after validate");
      var end := Cur(tokens, State()).range.end;
      Advance();
      c := ValidateConstraint(x, Region(start, end));
    }
      // -------------------------------------------------------------------
    // Types
    // -------------------------------------------------------------------

    /** The flag loop of parseType's union check. */
    method UnionMixes(ms: seq<CslType>) returns (mix: bool)
      ensures mix == MixesLiteral(ms)
    {
      var f := NoFlags;
      var i := 0;
      while i < |ms|
        invariant 0 <= i <= |ms|
        invariant MixFlagsOf(ms[i..], f) == MixFlagsOf(ms, NoFlags)
        decreases |ms| - i
      {
        assert ms[i..] == [ms[i]] + ms[i + 1..];
        var m := ms[i];
        if m.PrimitiveType? {
          if |m.allowedValues| > 0 {
            if IsStringKindName(ToString(m.allowedValues[0].prop)) {
              f := f.(stringLiteral := true);
            } else if IsNumeric(m.allowedValues[0].prop) {
              f := f.(numberLiteral := true);
            }
          } else if m.primitive == StringPrimitive {
            f := f.(stringType := true);
          } else if m.primitive == NumberPrimitive {
            f := f.(numberType := true);
          }
        }
        i := i + 1;
      }
      mix := (f.stringType && f.stringLiteral) || (f.numberType && f.numberLiteral);
    }

    method ParseType() returns (t: CslType)
      requires Valid()
      modifies this
      ensures Valid() && ParserSpec.ParseType(tokens, old(State())) == Parsed(t, State())
      decreases |tokens| - pos, 7
    {
      ghost var s0 := State();
      var start := Cur(tokens, State()).range.start;
      t := ParsePostfixType();
      ghost var s1 := State();
      ghost var t1 := t;
      while pos < |tokens| && tokens[pos].value == "|"
        invariant Valid() && s0.pos <= s1.pos <= pos
        invariant UnionLoop(tokens, s1, start, t1) == UnionLoop(tokens, State(), start, t)
        decreases |tokens| - pos
      {
        Advance();
        var right := ParsePostfixType();
        t := UnionType(MembersOf(t) + MembersOf(right), Region(start, PrevEnd(tokens, State())));
      }
      if t.UnionType? {
        var mix := UnionMixes(t.memberTypes);
        if mix {
          PushError("Union type cannot mix a primitive type with its literal", Region(start, PrevEnd(tokens, State())));
        }
      }
    }

    method ParsePostfixType() returns (t: CslType)
      requires Valid()
      modifies this
      ensures Valid() && ParserSpec.ParsePostfixType(tokens, old(State())) == Parsed(t, State())
      decreases |tokens| - pos, 6
    {
      t := ParsePrimaryType();
      ghost var s1 := State();
      ghost var t1 := t;
      while pos < |tokens| && tokens[pos].value == "["
        invariant Valid() && s1.pos <= pos
        invariant PostfixLoop(tokens, s1, t1) == PostfixLoop(tokens, State(), t)
        decreases |tokens| - pos
      {
        var start := tokens[pos].range.start;
        Advance();
        Expect("]", "Expected ']' after array type");
        var end := Cur(tokens, State()).range.end;
        Advance();
        t := ArrayType(t, Region(start, end));
      }
    }

    method ParsePrimaryType() returns (t: CslType)
      requires Valid()
      modifies this
      ensures Valid() && ParserSpec.ParsePrimaryType(tokens, old(State())) == Parsed(t, State())
      decreases |tokens| - pos, 5
    {
      ghost var s0 := State();
      var start := Cur(tokens, State()).range.start;
      var members: seq<CslType> := [];
      while true
        invariant Valid() && s0.pos <= pos
        invariant PrimaryMembers(tokens, s0, []) == PrimaryMembers(tokens, State(), members)
        decreases |tokens| - pos
      {
        ghost var sIter, mIter := State(), members;
        var one := PrimaryMember();
        if one.Some? {
          members := members + [one.value];
        }
        assert members == mIter + (if one.Some? then [one.value] else []);
        if pos < |tokens| && tokens[pos].value == "|" {
          ghost var sBar := State();
          Advance();
          assert State() == ParserSpec.Advance(tokens, sBar);
          if pos >= |tokens| {
            assert PrimaryMembers(tokens, sIter, mIter) == Parsed(members, State());
            break;
          }
        } else {
          assert PrimaryMembers(tokens, sIter, mIter) == Parsed(members, State());
          break;
        }
      }
      if |members| == 1 {
        t := members[0];
      } else {
        t := UnionType(members, Region(start, PrevEnd(tokens, State())));
      }
    }

    method ParseLiteralType() returns (t: CslType)
      requires Valid() && pos < |tokens| && IsLiteralTokenType(tokens[pos].tokenType)
      modifies this
      ensures Valid() && ParserSpec.ParseLiteralType(tokens, old(State())) == Parsed(t, State())
    {
      var tok := tokens[pos];
      t := PrimitiveType(PrimitiveNamed(tok.tokenType), [LiteralValue(tok.value, PropOf(tok))], [], tok.range);
      Advance();
    }

    /** One pass of the do-while body of parsePrimaryType. */
    method PrimaryMember() returns (m: Option<CslType>)
      requires Valid()
      modifies this
      ensures Valid() && ParserSpec.PrimaryMember(tokens, old(State())) == Parsed(m, State())
      decreases |tokens| - pos, 3
    {
      var t := Cur(tokens, State());
      if pos < |tokens| && IsLiteralTokenType(t.tokenType) {
        var l := ParseLiteralType();
        m := Some(l);
      } else if IsPrimitiveName(t.value) {
        Advance();
        var anns: seq<Annotation> := [];
        if pos < |tokens| {
          anns := ParseAnnotations(false);
        }
        m := Some(PrimitiveType(PrimitiveNamed(t.value), [], anns, t.range));
      } else if t.value == "any{}" {
        m := Some(AnyTableType(t.range));
        Advance();
      } else if t.value == "any[]" {
        m := Some(AnyArrayType(t.range));
        Advance();
      } else if t.value == "{" {
        var tt := ParseTableType();
        m := Some(tt);
      } else if t.value == "(" {
        Advance();
        var inner := ParseType();
        Expect(")", "Expected ')' after parenthesized type");
        Advance();
        m := Some(inner);
      } else {
        PushError("Unexpected token in type: " + t.value, t.range);
        m := None;
      }
    }

    // -------------------------------------------------------------------
    // Tables and keys
    // -------------------------------------------------------------------

    method ParseTableType() returns (t: CslType)
      requires Valid()
      modifies this
      ensures Valid() && ParserSpec.ParseTableType(tokens, old(State())) == Parsed(t, State())
      decreases |tokens| - pos, 2
    {
      Expect("{", "Expected '{' after schema name");
      Advance();
      var start := Cur(tokens, State()).range.start;
      ghost var s1 := State();
      var keys: seq<KeyDefinition> := [];
      var wildcard: Option<KeyDefinition> := None;
      var cs: seq<Constraint> := [];
      var seen := false;
      while pos < |tokens| && tokens[pos].value != "}"
        invariant Valid() && s1.pos <= pos
        invariant TableBody(tokens, s1, NoParts) == TableBody(tokens, State(), TableParts(keys, wildcard, cs, seen))
        decreases |tokens| - pos
      {
        if tokens[pos].value == "constraints" {
          if seen {
            PushError("Duplicate constraints block", tokens[pos].range);
          }
          seen := true;
          var c := ParseConstraints();
          cs := cs + c;
        } else if tokens[pos].value == "*" {
          var w := ParseWildcardKey();
          wildcard := Some(w);
        } else if tokens[pos].tokenType == "identifier" {
          var k := ParseKeyDefinition();
          keys := keys + [k];
        } else if tokens[pos].tokenType == "number" {
          PushError("Key name must be an identifier", tokens[pos].range);
          Advance();
        } else {
          Advance();
        }
      }
      Expect("}", "Expected '}' after schema definition");
      var end := if pos < |tokens| then tokens[pos].range.end else PrevEnd(tokens, State());
      CloseTable(keys, cs);
      Advance();
      t := TableType(keys, wildcard, cs, Region(start, end));
    }

    /** The semantic passes parseTableType runs over a finished table. */
    method CloseTable(keys: seq<KeyDefinition>, cs: seq<Constraint>)
      requires Valid()
      modifies this
      ensures Valid() && State() == ParserSemantics.CloseTable(tokens, keys, cs, old(State()))
    {
      MapIdentifiersInConstraints(cs, keys);
      ValidateConstraintsSemantics(cs, keys);
      ghost var s1 := State();
      var i := 0;
      while i < |keys|
        invariant 0 <= i <= |keys| && Valid()
        invariant CloseKeys(tokens, keys[i..], keys, State()) == CloseKeys(tokens, keys, keys, s1)
        decreases |keys| - i
      {
        assert keys[i..] == [keys[i]] + keys[i + 1..];
        var k := keys[i];
        MapIdentifiersInAnnotations(k.annotations, keys);
        MapIdentifiersInType(k.keyType, keys);
        ValidateAnnotationsForType(k.keyType);
        ValidateDefaultForKey(k);
        i := i + 1;
      }
    }

    method ParseWildcardKey() returns (k: KeyDefinition)
      requires Valid() && pos < |tokens|
      modifies this
      ensures Valid() && ParserSpec.ParseWildcardKey(tokens, old(State())) == Parsed(k, State())
      decreases |tokens| - pos, 0
    {
      var region := tokens[pos].range;
      Advance();
      Expect(":", "Expected ':' after wildcard");
      Advance();
      var ty := ParseType();
      var anns := ParseAnnotations(true);
      Expect(";", "Expected ';' after wildcard key");
      Advance();
      k := KeyDefinition("*", true, false, ty, anns, None, region);
    }

    method ParseKeyDefinition() returns (k: KeyDefinition)
      requires Valid() && pos < |tokens|
      modifies this
      ensures Valid() && ParserSpec.ParseKeyDefinition(tokens, old(State())) == Parsed(k, State())
      decreases |tokens| - pos, 0
    {
      var t := tokens[pos];
      var nameIndex := pos;
      if t.tokenType != "identifier" {
        PushError("Key name must be an identifier", t.range);
      } else {
        Reserve(nameIndex);
      }
      Advance();
      var optional := false;
      if pos < |tokens| && tokens[pos].value == "?" {
        optional := true;
        Advance();
      }
      var body := ParseKeyBody();
      KeyEnd();
      k := KeyDefinition(t.value, false, optional, body.keyType, body.annotations, body.defaultValue, t.range);
      Bind(nameIndex, KeyRef(k));
    }

    /** The part of parseKeyDefinition after the name and the '?'. */
    method ParseKeyBody() returns (body: KeyParts)
      requires Valid()
      modifies this
      ensures Valid() && KeyBody(tokens, old(State())) == Parsed(body, State())
      decreases |tokens| - pos, 0
    {
      if pos < |tokens| && tokens[pos].value == ":" {
        Advance();
        var ty := ParseType();
        var anns := ParseAnnotations(true);
        var d: Option<LiteralValue> := None;
        if pos < |tokens| && tokens[pos].value == "=" {
          Advance();
          var lit := ParseLiteralDefault();
          if lit.Some? {
            d := Some(lit.value.value);
          }
        }
        body := KeyParts(ty, anns, d);
      } else if pos < |tokens| && tokens[pos].value == "=" {
        Advance();
        var lit := ParseLiteralDefault();
        if lit.Some? {
          var anns := ParseAnnotations(true);
          body := KeyParts(PrimitiveType(Infer(lit.value.value.prop), [], [], lit.value.region), anns, Some(lit.value.value));
        } else {
          body := KeyParts(InvalidType, [], None);
        }
      } else if pos < |tokens| && tokens[pos].tokenType == "identifier" {
        body := KeyParts(InvalidType, [], None);
      } else {
        Expect(":", "Expected ':' after key name");
        Expect("=", "Expected '=' after key name");
        if pos < |tokens| {
          Advance();
        }
        body := KeyParts(InvalidType, [], None);
      }
    }

    /** The literal after '=': a literal token or a signed number. */
    method ParseLiteralDefault() returns (d: Option<DefaultLiteral>)
      requires Valid()
      modifies this
      ensures Valid() && LiteralDefault(tokens, old(State())) == Parsed(d, State())
    {
      if pos < |tokens| && IsLiteralTokenType(tokens[pos].tokenType) {
        var t := tokens[pos];
        d := Some(DefaultLiteral(LiteralValue(t.value, PropOf(t)), t.range));
        Advance();
      } else if pos + 1 < |tokens| && (tokens[pos].value == "+" || tokens[pos].value == "-") && tokens[pos + 1].tokenType == "number" {
        var t := tokens[pos];
        var n := tokens[pos + 1];
        d := Some(DefaultLiteral(LiteralValue(t.value + n.value, PropOf(n)), Region(t.range.start, n.range.end)));
        Advance();
        Advance();
      } else {
        PushError("Expected literal default value after '='", Cur(tokens, State()).range);
        d := None;
      }
    }

    /** The terminator of a key definition. */
    method KeyEnd()
      requires Valid()
      modifies this
      ensures Valid() && State() == KeyTerminator(tokens, old(State()))
    {
      if pos < |tokens| && tokens[pos].value == ";" {
        Advance();
      } else if pos >= |tokens| || tokens[pos].tokenType == "identifier" || tokens[pos].value == ":" || tokens[pos].value == "*"
                || tokens[pos].value == "constraints" || tokens[pos].value == "}" {
      } else {
        Expect(";", "Expected ';' after key definition");
        Advance();
      }
    }

    // -------------------------------------------------------------------
    // Schemas
    // -------------------------------------------------------------------

    method ParseConfigSchema() returns (schema: ConfigSchema)
      requires Valid() && pos < |tokens|
      modifies this
      ensures Valid() && ParserSpec.ParseConfigSchema(tokens, old(State())) == Parsed(schema, State())
    {
      var start := tokens[pos].range.start;
      Advance();
      ExpectType("identifier", "Expected schema name after 'config'");
      var nameIndex := pos;
      var nameTok := Cur(tokens, State());
      if nameTok.tokenType == "identifier" {
        Reserve(nameIndex);
      }
      Advance();
      var table := ParseTableType();
      schema := ConfigSchema(nameTok.value, table, Region(start, Cur(tokens, State()).range.end), nameTok.range);
      Bind(nameIndex, SchemaRef(schema));
    }

    method ParseSchemas() returns (schemas: seq<ConfigSchema>)
      requires Valid()
      modifies this
      ensures Valid() && ParserSpec.ParseSchemas(tokens, old(State()), []) == Parsed(schemas, State())
    {
      ghost var s0 := State();
      schemas := [];
      while pos < |tokens|
        invariant Valid() && s0.pos <= pos
        invariant ParserSpec.ParseSchemas(tokens, s0, []) == ParserSpec.ParseSchemas(tokens, State(), schemas)
        decreases |tokens| - pos
      {
        if tokens[pos].value == "config" {
          var s := ParseConfigSchema();
          schemas := schemas + [s];
        } else {
          Advance();
        }
      }
    }

    // -------------------------------------------------------------------
    // Semantic passes
    // -------------------------------------------------------------------

    method GetIdentifierTokenIndexFromRegion(region: Region) returns (r: Option<nat>)
      ensures r == IdentifierIndex(tokens, region)
    {
      var i := 0;
      while i < |tokens|
        invariant 0 <= i <= |tokens|
        invariant IdentifierFrom(tokens, region, i) == IdentifierFrom(tokens, region, 0)
        decreases |tokens| - i
      {
        if tokens[i].tokenType == "identifier" && tokens[i].range.start == region.start && tokens[i].range.end == region.end {
          return Some(i);
        }
        i := i + 1;
      }
      return None;
    }

    method MapIdentifiersInExpr(e: Expr, keys: seq<KeyDefinition>)
      requires Valid()
      modifies this
      ensures Valid() && State() == old(State()).(mapping := MapExpr(tokens, e, keys, old(mapping)))
      decreases e, 1
    {
      if e.IdentifierExpr? {
        var k := FindKey(keys, e.name);
        if k < |keys| {
          var idx := GetIdentifierTokenIndexFromRegion(e.region);
          if idx.Some? {
            mapping := mapping[idx.value := KeyRef(keys[k])];
          }
        }
      } else if e.BinaryExpr? {
        if e.op == "." {
          var ctx := ResolveTable(e.lhs, keys);
          if ctx.Some? && e.rhs.IdentifierExpr? {
            var sub := ctx.value.explicitKeys;
            var k := FindKey(sub, e.rhs.name);
            if k < |sub| {
              var idx := GetIdentifierTokenIndexFromRegion(e.rhs.region);
              if idx.Some? {
                mapping := mapping[idx.value := KeyRef(sub[k])];
              }
            }
          }
          MapIdentifiersInExpr(e.lhs, keys);
          if !e.rhs.IdentifierExpr? {
            MapIdentifiersInExpr(e.rhs, keys);
          }
        } else {
          MapIdentifiersInExpr(e.lhs, keys);
          MapIdentifiersInExpr(e.rhs, keys);
        }
      } else if e.UnaryExpr? {
        MapIdentifiersInExpr(e.operand, keys);
      } else if e.TernaryExpr? {
        MapIdentifiersInExpr(e.condition, keys);
        MapIdentifiersInExpr(e.trueExpr, keys);
        MapIdentifiersInExpr(e.falseExpr, keys);
      } else if e.FunctionCallExpr? {
        var i := 0;
        while i < |e.args|
          invariant 0 <= i <= |e.args| && Valid() && State() == old(State()).(mapping := mapping)
          invariant MapArgs(tokens, e.args[i..], keys, mapping) == MapArgs(tokens, e.args, keys, old(mapping))
          decreases |e.args| - i
        {
          assert e.args[i..] == [e.args[i]] + e.args[i + 1..];
          var a := e.args[i];
          if a.FunctionArgExpr? {
            if a.arg.SingleArg? {
              MapIdentifiersInExpr(a.arg.expr, keys);
            } else {
              MapEach(a.arg.exprs, keys);
            }
          }
          i := i + 1;
        }
      } else if e.AnnotationExpr? {
        MapIdentifiersInExpr(e.target, keys);
        MapEach(e.annotation.args, keys);
      }
    }

    /** `for (e : es) mapIdentifiersInExpr(e, keys)`, as the source writes it in several places. */
    method MapEach(es: seq<Expr>, keys: seq<KeyDefinition>)
      requires Valid()
      modifies this
      ensures Valid() && State() == old(State()).(mapping := MapExprs(tokens, es, keys, old(mapping)))
      decreases es, 0
    {
      var i := 0;
      while i < |es|
        invariant 0 <= i <= |es| && Valid() && State() == old(State()).(mapping := mapping)
        invariant MapExprs(tokens, es[i..], keys, mapping) == MapExprs(tokens, es, keys, old(mapping))
        decreases |es| - i
      {
        assert es[i..] == [es[i]] + es[i + 1..];
        MapIdentifiersInExpr(es[i], keys);
        i := i + 1;
      }
    }

    method MapIdentifiersInAnnotations(anns: seq<Annotation>, keys: seq<KeyDefinition>)
      requires Valid()
      modifies this
      ensures Valid() && State() == old(State()).(mapping := MapAnnotations(tokens, anns, keys, old(mapping)))
    {
      var i := 0;
      while i < |anns|
        invariant 0 <= i <= |anns| && Valid() && State() == old(State()).(mapping := mapping)
        invariant MapAnnotations(tokens, anns[i..], keys, mapping) == MapAnnotations(tokens, anns, keys, old(mapping))
        decreases |anns| - i
      {
        assert anns[i..] == [anns[i]] + anns[i + 1..];
        MapEach(anns[i].args, keys);
        i := i + 1;
      }
    }

    method MapIdentifiersInType(t: CslType, keys: seq<KeyDefinition>)
      requires Valid()
      modifies this
      ensures Valid() && State() == MapType(tokens, t, keys, old(State()))
      decreases t, 1
    {
      if t.PrimitiveType? {
        MapIdentifiersInAnnotations(t.annotations, keys);
      } else if t.ArrayType? {
        MapIdentifiersInType(t.elementType, keys);
      } else if t.UnionType? {
        var i := 0;
        while i < |t.memberTypes|
          invariant 0 <= i <= |t.memberTypes| && Valid()
          invariant MapTypes(tokens, t.memberTypes[i..], keys, State()) == MapTypes(tokens, t.memberTypes, keys, old(State()))
          decreases |t.memberTypes| - i
        {
          assert t.memberTypes[i..] == [t.memberTypes[i]] + t.memberTypes[i + 1..];
          MapIdentifiersInType(t.memberTypes[i], keys);
          i := i + 1;
        }
      } else if t.TableType? {
        var sub := t.explicitKeys;
        ValidateConstraintsSemantics(t.constraints, sub);
        ghost var s1 := State();
        var i := 0;
        while i < |sub|
          invariant 0 <= i <= |sub| && Valid()
          invariant MapKeys(tokens, sub[i..], sub, State()) == MapKeys(tokens, sub, sub, s1)
          decreases |sub| - i
        {
          assert sub[i..] == [sub[i]] + sub[i + 1..];
          MapIdentifiersInAnnotations(sub[i].annotations, sub);
          MapIdentifiersInType(sub[i].keyType, sub);
          i := i + 1;
        }
      }
    }

    method MapIdentifiersInConstraints(cs: seq<Constraint>, keys: seq<KeyDefinition>)
      requires Valid()
      modifies this
      ensures Valid() && State() == old(State()).(mapping := MapConstraints(tokens, cs, keys, old(mapping)))
    {
      var i := 0;
      while i < |cs|
        invariant 0 <= i <= |cs| && Valid() && State() == old(State()).(mapping := mapping)
        invariant MapConstraints(tokens, cs[i..], keys, mapping) == MapConstraints(tokens, cs, keys, old(mapping))
        decreases |cs| - i
      {
        assert cs[i..] == [cs[i]] + cs[i + 1..];
        var c := cs[i];
        if c.ConflictConstraint? {
          MapIdentifiersInExpr(c.firstExpr, keys);
          MapIdentifiersInExpr(c.secondExpr, keys);
        } else if c.DependencyConstraint? {
          MapIdentifiersInExpr(c.dependentExpr, keys);
          MapIdentifiersInExpr(c.condition, keys);
        } else {
          MapIdentifiersInExpr(c.expr, keys);
        }
        i := i + 1;
      }
    }

    method ValidateConstraintsSemantics(cs: seq<Constraint>, keys: seq<KeyDefinition>)
      requires Valid()
      modifies this
      ensures Valid() && State() == CheckConstraints(tokens, cs, keys, old(State()))
    {
      var i := 0;
      while i < |cs|
        invariant 0 <= i <= |cs| && Valid()
        invariant CheckConstraints(tokens, cs[i..], keys, State()) == CheckConstraints(tokens, cs, keys, old(State()))
        decreases |cs| - i
      {
        assert cs[i..] == [cs[i]] + cs[i + 1..];
        errors := errors + ConstraintErrors(tokens, cs[i], keys, mapping);
        i := i + 1;
      }
    }

    method ValidateAnnotationsForType(t: CslType)
      requires Valid()
      modifies this
      ensures Valid() && State() == old(State()).(errors := CheckAnnotations(t, old(errors)))
    {
      if !t.PrimitiveType? {
        return;
      }
      var i := 0;
      while i < |t.annotations|
        invariant 0 <= i <= |t.annotations| && Valid() && State() == old(State()).(errors := errors)
        invariant CheckAnnotationsOf(t.primitive, t.annotations[i..], errors) == CheckAnnotationsOf(t.primitive, t.annotations, old(errors))
        decreases |t.annotations| - i
      {
        assert t.annotations[i..] == [t.annotations[i]] + t.annotations[i + 1..];
        errors := errors + AnnotationError(t.primitive, t.annotations[i]);
        i := i + 1;
      }
    }

    method ValidateDefaultForKey(k: KeyDefinition)
      requires Valid()
      modifies this
      ensures Valid() && State() == old(State()).(errors := CheckDefault(k, old(errors)))
    {
      if k.defaultValue.Some? && k.keyType.PrimitiveType? && DefaultMismatch(k.keyType.primitive, ToString(k.defaultValue.value.prop)) {
        errors := errors + [Diag("Default value type does not match declared type", k.nameRegion)];
      }
    }
  }

  /** CslParserMain: parse every schema of a token list. */
  method CslParserMain(input: seq<Token>) returns (r: ParseResult)
    ensures r == ParserMain(input)
  {
    var p := new Parser(input);
    var schemas := p.ParseSchemas();
    r := ParseResult(schemas, p.errors, [], p.mapping);
  }
}
