// The text the canonical CSL printer produces for each part of a schema,
// stated as functions over the representation, with the properties of
// identifier quoting and of the key map the table printer fills.

module FormatterText {

  import opened Wrappers
  import opened Positions
  import opened Repr
  import opened StringOrder

  function Indent(level: nat): (s: string)
    ensures |s| == 2 * level && forall i :: 0 <= i < |s| ==> s[i] == ' '
  {
    if level == 0 then "" else Indent(level - 1) + "  "
  }

  predicate IsIdentStart(c: char)
  {
    ('A' <= c <= 'Z') || ('a' <= c <= 'z') || c == '_'
  }

  predicate IsIdentPart(c: char)
  {
    IsIdentStart(c) || ('0' <= c <= '9')
  }

  /** The loop of isIdentifier from index i on. */
  predicate IdentTailFrom(name: string, i: nat)
    requires i <= |name|
    decreases |name| - i
  {
    i == |name| || (IsIdentPart(name[i]) && IdentTailFrom(name, i + 1))
  }

  predicate IsIdentifier(name: string)
  {
    |name| > 0 && IsIdentStart(name[0]) && IdentTailFrom(name, 1)
  }

  lemma {:induction false} IdentTailFromIff(name: string, i: nat)
    requires i <= |name|
    ensures IdentTailFrom(name, i) <==> forall k :: i <= k < |name| ==> IsIdentPart(name[k])
    decreases |name| - i
  {
    if i < |name| {
      IdentTailFromIff(name, i + 1);
    }
  }

  /** isIdentifier: non-empty, a letter or underscore first, letters, digits and underscores after. */
  lemma IsIdentifierIff(name: string)
    ensures IsIdentifier(name) <==> |name| > 0 && IsIdentStart(name[0]) && forall k :: 1 <= k < |name| ==> IsIdentPart(name[k])
  {
    if |name| > 0 {
      IdentTailFromIff(name, 1);
    }
  }

  /** Every backquote and backslash preceded by a backslash. */
  function Escaped(s: string): (r: string)
    ensures |r| >= |s|
  {
    if |s| == 0 then ""
    else (if s[0] == '`' || s[0] == '\\' then ['\\', s[0]] else [s[0]]) + Escaped(s[1..])
  }

  /** quoteIdentifier's result. */
  function Quoted(name: string): string
  {
    if name == "*" || IsIdentifier(name) then name else "`" + Escaped(name) + "`"
  }

  /** The inverse of Escaped: a backslash makes the next character literal. */
  function Unescaped(s: string): string
  {
    if |s| == 0 then ""
    else if s[0] == '\\' && |s| > 1 then [s[1]] + Unescaped(s[2..])
    else [s[0]] + Unescaped(s[1..])
  }

  /** Reading a printed key name back: a backquoted name is unescaped, any other is taken as it is. */
  function Unquoted(q: string): string
  {
    if |q| >= 2 && q[0] == '`' && q[|q| - 1] == '`' then Unescaped(q[1..|q| - 1]) else q
  }

  lemma {:induction false} UnescapeEscaped(s: string)
    ensures Unescaped(Escaped(s)) == s
  {
    if |s| > 0 {
      UnescapeEscaped(s[1..]);
      var head: string := if s[0] == '`' || s[0] == '\\' then ['\\', s[0]] else [s[0]];
      assert Escaped(s) == head + Escaped(s[1..]);
      if s[0] == '`' || s[0] == '\\' {
        assert (head + Escaped(s[1..]))[2..] == Escaped(s[1..]);
      } else {
        assert (head + Escaped(s[1..]))[1..] == Escaped(s[1..]);
      }
      assert s == [s[0]] + s[1..];
    }
  }

  /** Every key name survives quoting: reading the printed name back gives the name. */
  lemma QuotedRoundTrip(name: string)
    ensures Unquoted(Quoted(name)) == name
  {
    if !(name == "*" || IsIdentifier(name)) {
      var q := "`" + Escaped(name) + "`";
      assert q[1..|q| - 1] == Escaped(name);
      UnescapeEscaped(name);
    }
  }

  /** A name left unquoted is "*" or an identifier; any other is wrapped in backquotes. */
  lemma QuotedShape(name: string)
    ensures Quoted(name) == name <==> name == "*" || IsIdentifier(name)
    ensures Quoted(name) != name ==> |Quoted(name)| >= |name| + 2 && Quoted(name)[0] == '`' && Quoted(name)[|Quoted(name)| - 1] == '`'
  {
  }

  // ---------------------------------------------------------------------
  // The text of each part.

  function ExprText(e: Expr): string
    decreases e, 1
  {
    match e
    case NullExpr => ""
    case BinaryExpr(op, lhs, rhs, _) => ExprText(lhs) + " " + op + " " + ExprText(rhs)
    case UnaryExpr(op, operand, _) => op + ExprText(operand)
    case TernaryExpr(c, t, f, _) => ExprText(c) + " ? " + ExprText(t) + " : " + ExprText(f)
    case LiteralExpr(_, value, _) => value
    case IdentifierExpr(name, _) => name
    case FunctionArgExpr(SingleArg(x), _) => ExprText(x)
    case FunctionArgExpr(ListArg(xs), _) => "[" + ExprListText(xs) + "]"
    case FunctionCallExpr(name, args, _) => name + "(" + ExprListText(args) + ")"
    case AnnotationExpr(target, a, _) => ExprText(target) + AnnotationText(a)
  }

  /** Expressions separated by ", ". */
  function ExprListText(es: seq<Expr>): string
    decreases es, 0
  {
    if |es| == 0 then "" else if |es| == 1 then ExprText(es[0]) else ExprListText(es[..|es| - 1]) + ", " + ExprText(es[|es| - 1])
  }

  /** One annotation: a space, '@', the name and the parenthesised arguments. */
  function AnnotationText(a: Annotation): string
    decreases a, 0
  {
    " @" + a.name + "(" + ExprListText(a.args) + ")"
  }

  function AnnotationsText(anns: seq<Annotation>): string
  {
    if |anns| == 0 then "" else AnnotationsText(anns[..|anns| - 1]) + AnnotationText(anns[|anns| - 1])
  }

  function PrimitiveName(p: Primitive): string
  {
    match p
    case StringPrimitive => "string"
    case NumberPrimitive => "number"
    case BooleanPrimitive => "boolean"
    case DatetimePrimitive => "datetime"
    case DurationPrimitive => "duration"
  }

  /** The allowed values separated by " | ". */
  function AllowedText(vs: seq<LiteralValue>): string
  {
    if |vs| == 0 then "" else if |vs| == 1 then vs[0].text else AllowedText(vs[..|vs| - 1]) + " | " + vs[|vs| - 1].text
  }

  function TypeText(t: CslType, indent: nat): string
    decreases t, 3
  {
    match t
    case PrimitiveType(_, _, _, _) => PrimitiveText(t)
    case TableType(_, _, _, _) => TableText(t, indent)
    case ArrayType(_, _) => ArrayText(t, indent)
    case UnionType(members, _) => MembersText(members, indent)
    case AnyTableType(_) => "any{}"
    case AnyArrayType(_) => "any[]"
    case InvalidType => ""
  }

  /** A primitive type: its allowed values if it has any, otherwise its name; then its annotations. */
  function PrimitiveText(t: CslType): string
    requires t.PrimitiveType?
  {
    (if |t.allowedValues| > 0 then AllowedText(t.allowedValues) else PrimitiveName(t.primitive)) + AnnotationsText(t.annotations)
  }

  /** A table type: its body between braces, one level deeper. */
  function TableText(t: CslType, indent: nat): string
    requires t.TableType?
    decreases t, 2
  {
    "{\n" + TableBodyText(t, indent + 1) + Indent(indent) + "}"
  }

  /** printArrayType: a table element is printed in place, any other by the type printer; then "[]". */
  function ArrayText(t: CslType, indent: nat): string
    requires t.ArrayType?
    decreases t, 2
  {
    if t.elementType.TableType? then "{\n" + TableBodyText(t.elementType, indent + 1) + Indent(indent) + "}" + "[]"
    else TypeText(t.elementType, indent) + "[]"
  }

  /** The member types separated by " | ". */
  function MembersText(ms: seq<CslType>, indent: nat): string
    decreases ms, 0
  {
    if |ms| == 0 then "" else if |ms| == 1 then TypeText(ms[0], indent) else MembersText(ms[..|ms| - 1], indent) + " | " + TypeText(ms[|ms| - 1], indent)
  }

  /** One key line: the head, the type, the tail. */
  function KeyLine(kd: KeyDefinition, name: string, indent: nat): string
    decreases kd, 0
  {
    KeyHead(kd, name, indent) + TypeText(kd.keyType, indent) + KeyTail(kd)
  }

  /** The indentation, the name, the optional mark and the colon. */
  function KeyHead(kd: KeyDefinition, name: string, indent: nat): string
  {
    Indent(indent) + name + (if kd.isOptional then "?" else "") + ": "
  }

  /** The default value, the annotations and the terminating semicolon. */
  function KeyTail(kd: KeyDefinition): string
  {
    (if kd.defaultValue.Some? then " = " + kd.defaultValue.value.text else "") + AnnotationsText(kd.annotations) + ";\n"
  }

  /** The names of the keys, in definition order. */
  function KeyNames(keys: seq<KeyDefinition>): seq<string>
  {
    seq(|keys|, i requires 0 <= i < |keys| => keys[i].name)
  }

  /** The name-to-definition map filled in key order: a later definition replaces an earlier one. */
  function KeyMap(keys: seq<KeyDefinition>): map<string, KeyDefinition>
  {
    if |keys| == 0 then map[] else KeyMap(keys[..|keys| - 1])[keys[|keys| - 1].name := keys[|keys| - 1]]
  }

  /** The index of the last key with the given name, or |keys| when there is none. */
  function LastKey(keys: seq<KeyDefinition>, name: string): (k: nat)
    ensures k <= |keys|
    ensures k < |keys| ==> keys[k].name == name && forall j :: k < j < |keys| ==> keys[j].name != name
    ensures k == |keys| ==> !HasKey(keys, name)
  {
    if |keys| == 0 then 0
    else if keys[|keys| - 1].name == name then |keys| - 1
    else
      var k := LastKey(keys[..|keys| - 1], name);
      if k == |keys| - 1 then
        assert !HasKey(keys, name) by {
          forall j | 0 <= j < |keys| ensures keys[j].name != name {
            if j < |keys| - 1 { assert keys[..|keys| - 1][j] == keys[j]; }
          }
        }
        |keys|
      else k
  }

  /** The map holds exactly the names of the keys, each with its last definition. */
  lemma {:induction false} KeyMapLastWins(keys: seq<KeyDefinition>)
    ensures forall name :: name in KeyMap(keys) <==> HasKey(keys, name)
    ensures forall name :: name in KeyMap(keys) ==> LastKey(keys, name) < |keys| && KeyMap(keys)[name] == keys[LastKey(keys, name)]
  {
    if |keys| > 0 {
      var init := keys[..|keys| - 1];
      KeyMapLastWins(init);
      forall name ensures HasKey(keys, name) <==> HasKey(init, name) || name == keys[|keys| - 1].name {
        if HasKey(init, name) {
          var i :| 0 <= i < |init| && init[i].name == name;
          assert keys[i] == init[i];
        }
        if HasKey(keys, name) && name != keys[|keys| - 1].name {
          var i :| 0 <= i < |keys| && keys[i].name == name;
          assert init[i] == keys[i];
        }
      }
    }
  }

  /** The sorted key names are all names of keys: each finds a definition. */
  lemma SortedNamesAreKeys(keys: seq<KeyDefinition>)
    ensures forall n :: n in SortNames(KeyNames(keys)) ==> LastKey(keys, n) < |keys|
  {
    forall n | n in SortNames(KeyNames(keys)) ensures LastKey(keys, n) < |keys| {
      assert n in multiset(KeyNames(keys));
      var i :| 0 <= i < |keys| && KeyNames(keys)[i] == n;
      assert HasKey(keys, n);
    }
  }

  /** The printed name of an explicit key: quoted, or "*" for a wildcard. */
  function KeyLabel(kd: KeyDefinition): string
  {
    Quoted(if kd.isWildcard then "*" else kd.name)
  }

  /** The line printed for one name: its last definition's line. */
  function NamedKeyLine(t: CslType, name: string, indent: nat): string
    requires t.TableType?
    decreases t, 0, 0
  {
    var k := LastKey(t.explicitKeys, name);
    if k < |t.explicitKeys| then KeyLine(t.explicitKeys[k], KeyLabel(t.explicitKeys[k]), indent) else ""
  }

  /** The lines of the explicit keys, in the given name order. */
  function KeyLinesText(t: CslType, names: seq<string>, indent: nat): string
    requires t.TableType?
    decreases t, 0, |names| + 1
  {
    if |names| == 0 then "" else KeyLinesText(t, names[..|names| - 1], indent) + NamedKeyLine(t, names[|names| - 1], indent)
  }

  function ConstraintLine(c: Constraint, indent: nat): string
  {
    match c
    case ConflictConstraint(a, b, _) => Indent(indent) + "conflicts " + ExprText(a) + " with " + ExprText(b) + ";\n"
    case DependencyConstraint(d, cond, _) => Indent(indent) + "requires " + ExprText(d) + " => " + ExprText(cond) + ";\n"
    case ValidateConstraint(e, _) => Indent(indent) + "validate " + ExprText(e) + ";\n"
  }

  function ConstraintLinesText(cs: seq<Constraint>, indent: nat): string
  {
    if |cs| == 0 then "" else ConstraintLinesText(cs[..|cs| - 1], indent) + ConstraintLine(cs[|cs| - 1], indent)
  }

  /** The explicit keys sorted by name, the wildcard key, then the constraints block. */
  function TableBodyText(t: CslType, indent: nat): string
    requires t.TableType?
    decreases t, 1
  {
    KeyLinesText(t, SortNames(KeyNames(t.explicitKeys)), indent) + WildcardText(t, indent) + ConstraintsBlock(t.constraints, indent)
  }

  /** The wildcard key's line, always named "*". */
  function WildcardText(t: CslType, indent: nat): string
    requires t.TableType?
    decreases t, 0
  {
    if t.wildcardKey.Some? then KeyLine(t.wildcardKey.value, "*", indent) else ""
  }

  /** The constraints block, present only when there are constraints. */
  function ConstraintsBlock(cs: seq<Constraint>, indent: nat): string
  {
    if |cs| > 0 then Indent(indent) + "constraints {\n" + ConstraintLinesText(cs, indent + 1) + Indent(indent) + "};\n" else ""
  }

  function SchemaText(s: ConfigSchema): string
    requires s.rootTable.TableType?
  {
    "config " + s.name + " {\n" + TableBodyText(s.rootTable, 1) + "}"
  }

  predicate WellFormedSchemas(ss: seq<ConfigSchema>)
  {
    forall i :: 0 <= i < |ss| ==> ss[i].rootTable.TableType?
  }

  /** The text of several schemas: each followed by a blank line. */
  function SchemasText(ss: seq<ConfigSchema>): string
    requires WellFormedSchemas(ss)
  {
    if |ss| == 0 then "" else SchemasText(ss[..|ss| - 1]) + SchemaText(ss[|ss| - 1]) + "\n\n"
  }

  /** Appending a schema appends its text and a blank line. */
  lemma SchemasTextAppend(ss: seq<ConfigSchema>, s: ConfigSchema)
    requires WellFormedSchemas(ss) && s.rootTable.TableType?
    ensures WellFormedSchemas(ss + [s])
    ensures SchemasText(ss + [s]) == SchemasText(ss) + SchemaText(s) + "\n\n"
  {
    assert (ss + [s])[..|ss|] == ss;
  }

  /** The text of the first i + 1 schemas extends the text of the first i. */
  lemma SchemasTextPrefix(ss: seq<ConfigSchema>, i: nat)
    requires WellFormedSchemas(ss) && i < |ss|
    ensures WellFormedSchemas(ss[..i]) && WellFormedSchemas(ss[..i + 1])
    ensures SchemasText(ss[..i + 1]) == SchemasText(ss[..i]) + SchemaText(ss[i]) + "\n\n"
  {
    assert ss[..i + 1][..i] == ss[..i];
  }

  // ---------------------------------------------------------------------
  // Regrouping appended text.  The printers append piece by piece; these
  // say that appending the pieces one by one appends their concatenation.

  lemma Append2(s: string, a: string, b: string)
    ensures s + a + b == s + (a + b)
  {
  }

  lemma Append3(s: string, a: string, b: string, c: string)
    ensures s + a + b + c == s + (a + b + c)
  {
  }

  lemma Append4(s: string, a: string, b: string, c: string, d: string)
    ensures s + a + b + c + d == s + (a + b + c + d)
  {
  }

  lemma Append5(s: string, a: string, b: string, c: string, d: string, e: string)
    ensures s + a + b + c + d + e == s + (a + b + c + d + e)
  {
  }
}
