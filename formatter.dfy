// The canonical CSL printer.  The OutStream class and the Print methods
// append text to a stream the way the source's printers do; each method is
// proved to append exactly the text its function in FormatterText gives.

module Formatter {

  import opened Wrappers
  import opened Positions
  import opened Repr
  import opened StringOrder
  import opened FormatterText


  /** An output string stream: text is appended, never removed. */
  class OutStream {
    var text: string

    constructor ()
      ensures text == ""
    {
      text := "";
    }

    method Write(s: string)
      modifies this
      ensures text == old(text) + s
    {
      text := text + s;
    }
  }

  /** quoteIdentifier: the loop over the characters of the name. */
  method QuoteIdentifier(name: string) returns (q: string)
    ensures q == Quoted(name)
  {
    if name == "*" || IsIdentifier(name) {
      return name;
    }
    var body := "";
    var i := 0;
    while i < |name|
      invariant 0 <= i <= |name|
      invariant body + Escaped(name[i..]) == Escaped(name)
    {
      assert name[i..] == [name[i]] + name[i + 1..];
      if name[i] == '`' || name[i] == '\\' {
        body := body + ['\\', name[i]];
      } else {
        body := body + [name[i]];
      }
      i := i + 1;
    }
    q := "`" + body + "`";
  }

  /** printExpr: nothing for a null expression, otherwise the printer of its kind. */
  method PrintExpr(e: Expr, os: OutStream)
    modifies os
    ensures os.text == old(os.text) + ExprText(e)
    decreases e, 1
  {
    match e
    case NullExpr =>
    case BinaryExpr(_, _, _, _) => PrintBinary(e, os);
    case UnaryExpr(op, operand, _) =>
      os.Write(op);
      PrintExpr(operand, os);
    case TernaryExpr(_, _, _, _) => PrintTernary(e, os);
    case LiteralExpr(_, value, _) => os.Write(value);
    case IdentifierExpr(name, _) => os.Write(name);
    case FunctionArgExpr(_, _) => PrintFunctionArg(e, os);
    case FunctionCallExpr(_, _, _) => PrintFunctionCall(e, os);
    case AnnotationExpr(target, a, _) =>
      PrintExpr(target, os);
      PrintAnnotation(a, os);
  }

  method PrintBinary(e: Expr, os: OutStream)
    requires e.BinaryExpr?
    modifies os
    ensures os.text == old(os.text) + ExprText(e)
    decreases e, 0
  {
    ghost var start := os.text;
    PrintExpr(e.lhs, os);
    os.Write(" ");
    os.Write(e.op);
    os.Write(" ");
    PrintExpr(e.rhs, os);
    Append5(start, ExprText(e.lhs), " ", e.op, " ", ExprText(e.rhs));
  }

  method PrintTernary(e: Expr, os: OutStream)
    requires e.TernaryExpr?
    modifies os
    ensures os.text == old(os.text) + ExprText(e)
    decreases e, 0
  {
    ghost var start := os.text;
    PrintExpr(e.condition, os);
    os.Write(" ? ");
    PrintExpr(e.trueExpr, os);
    os.Write(" : ");
    PrintExpr(e.falseExpr, os);
    Append5(start, ExprText(e.condition), " ? ", ExprText(e.trueExpr), " : ", ExprText(e.falseExpr));
  }

  /** printFunctionArg: a single expression, or a bracketed list. */
  method PrintFunctionArg(e: Expr, os: OutStream)
    requires e.FunctionArgExpr?
    modifies os
    ensures os.text == old(os.text) + ExprText(e)
    decreases e, 0
  {
    match e.arg
    case SingleArg(x) => PrintExpr(x, os);
    case ListArg(xs) =>
      ghost var start := os.text;
      os.Write("[");
      PrintExprList(xs, os);
      os.Write("]");
      Append3(start, "[", ExprListText(xs), "]");
  }

  /** printFunctionCall: the name and the parenthesised arguments. */
  method PrintFunctionCall(e: Expr, os: OutStream)
    requires e.FunctionCallExpr?
    modifies os
    ensures os.text == old(os.text) + ExprText(e)
    decreases e, 0
  {
    ghost var start := os.text;
    os.Write(e.funcName);
    os.Write("(");
    PrintExprList(e.args, os);
    os.Write(")");
    Append4(start, e.funcName, "(", ExprListText(e.args), ")");
  }

  /** The source's loop that writes ", " before every expression but the first. */
  method PrintExprList(es: seq<Expr>, os: OutStream)
    modifies os
    ensures os.text == old(os.text) + ExprListText(es)
    decreases es, 0
  {
    var i := 0;
    while i < |es|
      invariant 0 <= i <= |es|
      invariant os.text == old(os.text) + ExprListText(es[..i])
    {
      assert es[..i + 1][..i] == es[..i];
      if i > 0 {
        os.Write(", ");
        PrintExpr(es[i], os);
        Append3(old(os.text), ExprListText(es[..i]), ", ", ExprText(es[i]));
      } else {
        PrintExpr(es[i], os);
      }
      i := i + 1;
    }
    assert es[..|es|] == es;
  }

  method PrintAnnotation(a: Annotation, os: OutStream)
    modifies os
    ensures os.text == old(os.text) + AnnotationText(a)
    decreases a, 0
  {
    ghost var start := os.text;
    os.Write(" @");
    os.Write(a.name);
    os.Write("(");
    PrintExprList(a.args, os);
    os.Write(")");
    Append5(start, " @", a.name, "(", ExprListText(a.args), ")");
  }

  method PrintAnnotations(anns: seq<Annotation>, os: OutStream)
    modifies os
    ensures os.text == old(os.text) + AnnotationsText(anns)
  {
    var i := 0;
    while i < |anns|
      invariant 0 <= i <= |anns|
      invariant os.text == old(os.text) + AnnotationsText(anns[..i])
    {
      assert anns[..i + 1][..i] == anns[..i];
      PrintAnnotation(anns[i], os);
      Append2(old(os.text), AnnotationsText(anns[..i]), AnnotationText(anns[i]));
      i := i + 1;
    }
    assert anns[..|anns|] == anns;
  }

  method PrintAllowed(vs: seq<LiteralValue>, os: OutStream)
    modifies os
    ensures os.text == old(os.text) + AllowedText(vs)
  {
    var i := 0;
    while i < |vs|
      invariant 0 <= i <= |vs|
      invariant os.text == old(os.text) + AllowedText(vs[..i])
    {
      assert vs[..i + 1][..i] == vs[..i];
      if i > 0 {
        os.Write(" | ");
        os.Write(vs[i].text);
        Append3(old(os.text), AllowedText(vs[..i]), " | ", vs[i].text);
      } else {
        os.Write(vs[i].text);
      }
      i := i + 1;
    }
    assert vs[..|vs|] == vs;
  }

  /** printType: the printer of the type's kind. */
  method PrintType(t: CslType, os: OutStream, indent: nat)
    modifies os
    ensures os.text == old(os.text) + TypeText(t, indent)
    decreases t, 3
  {
    match t
    case PrimitiveType(_, _, _, _) => PrintPrimitive(t, os);
    case TableType(_, _, _, _) => PrintTable(t, os, indent);
    case ArrayType(_, _) => PrintArrayType(t, os, indent);
    case UnionType(members, _) => PrintUnionType(members, os, indent);
    case AnyTableType(_) => os.Write("any{}");
    case AnyArrayType(_) => os.Write("any[]");
    case InvalidType => os.Write("");
  }

  method PrintPrimitive(t: CslType, os: OutStream)
    requires t.PrimitiveType?
    modifies os
    ensures os.text == old(os.text) + PrimitiveText(t)
  {
    ghost var start := os.text;
    if |t.allowedValues| > 0 {
      PrintAllowed(t.allowedValues, os);
    } else {
      os.Write(PrimitiveName(t.primitive));
    }
    PrintAnnotations(t.annotations, os);
    Append2(start, if |t.allowedValues| > 0 then AllowedText(t.allowedValues) else PrimitiveName(t.primitive), AnnotationsText(t.annotations));
  }

  method PrintTable(t: CslType, os: OutStream, indent: nat)
    requires t.TableType?
    modifies os
    ensures os.text == old(os.text) + TableText(t, indent)
    decreases t, 2
  {
    ghost var start := os.text;
    os.Write("{\n");
    PrintTableBody(t, os, indent + 1);
    os.Write(Indent(indent));
    os.Write("}");
    Append4(start, "{\n", TableBodyText(t, indent + 1), Indent(indent), "}");
  }

  /** printArrayType. */
  method PrintArrayType(t: CslType, os: OutStream, indent: nat)
    requires t.ArrayType?
    modifies os
    ensures os.text == old(os.text) + ArrayText(t, indent)
    decreases t, 2
  {
    ghost var start := os.text;
    var elem := t.elementType;
    if elem.TableType? {
      os.Write("{\n");
      PrintTableBody(elem, os, indent + 1);
      os.Write(Indent(indent));
      os.Write("}");
      os.Write("[]");
      Append5(start, "{\n", TableBodyText(elem, indent + 1), Indent(indent), "}", "[]");
    } else {
      PrintType(elem, os, indent);
      os.Write("[]");
    }
  }

  /** printUnionType: the members separated by " | ". */
  method PrintUnionType(ms: seq<CslType>, os: OutStream, indent: nat)
    modifies os
    ensures os.text == old(os.text) + MembersText(ms, indent)
    decreases ms, 0
  {
    var i := 0;
    while i < |ms|
      invariant 0 <= i <= |ms|
      invariant os.text == old(os.text) + MembersText(ms[..i], indent)
    {
      assert ms[..i + 1][..i] == ms[..i];
      if i > 0 {
        os.Write(" | ");
        PrintType(ms[i], os, indent);
        Append3(old(os.text), MembersText(ms[..i], indent), " | ", TypeText(ms[i], indent));
      } else {
        PrintType(ms[i], os, indent);
      }
      i := i + 1;
    }
    assert ms[..|ms|] == ms;
  }

  method PrintKeyLine(kd: KeyDefinition, name: string, os: OutStream, indent: nat)
    modifies os
    ensures os.text == old(os.text) + KeyLine(kd, name, indent)
    decreases kd, 0
  {
    ghost var start := os.text;
    PrintKeyHead(kd, name, os, indent);
    PrintType(kd.keyType, os, indent);
    PrintKeyTail(kd, os);
    Append3(start, KeyHead(kd, name, indent), TypeText(kd.keyType, indent), KeyTail(kd));
  }

  method PrintKeyHead(kd: KeyDefinition, name: string, os: OutStream, indent: nat)
    modifies os
    ensures os.text == old(os.text) + KeyHead(kd, name, indent)
  {
    ghost var start := os.text;
    os.Write(Indent(indent));
    os.Write(name);
    if kd.isOptional {
      os.Write("?");
    }
    os.Write(": ");
    var mark := if kd.isOptional then "?" else "";
    assert kd.isOptional || start + Indent(indent) + name == start + Indent(indent) + name + mark;
    Append4(start, Indent(indent), name, mark, ": ");
  }

  method PrintKeyTail(kd: KeyDefinition, os: OutStream)
    modifies os
    ensures os.text == old(os.text) + KeyTail(kd)
  {
    ghost var start := os.text;
    var dflt := "";
    if kd.defaultValue.Some? {
      os.Write(" = ");
      os.Write(kd.defaultValue.value.text);
      dflt := " = " + kd.defaultValue.value.text;
      Append2(start, " = ", kd.defaultValue.value.text);
    }
    assert os.text == start + dflt;
    PrintAnnotations(kd.annotations, os);
    os.Write(";\n");
    Append3(start, dflt, AnnotationsText(kd.annotations), ";\n");
  }

  method PrintConstraints(cs: seq<Constraint>, os: OutStream, indent: nat)
    modifies os
    ensures os.text == old(os.text) + ConstraintLinesText(cs, indent)
  {
    var i := 0;
    while i < |cs|
      invariant 0 <= i <= |cs|
      invariant os.text == old(os.text) + ConstraintLinesText(cs[..i], indent)
    {
      assert cs[..i + 1][..i] == cs[..i];
      PrintConstraint(cs[i], os, indent);
      Append2(old(os.text), ConstraintLinesText(cs[..i], indent), ConstraintLine(cs[i], indent));
      i := i + 1;
    }
    assert cs[..|cs|] == cs;
  }

  method PrintConstraint(c: Constraint, os: OutStream, indent: nat)
    modifies os
    ensures os.text == old(os.text) + ConstraintLine(c, indent)
  {
    ghost var start := os.text;
    match c
    case ConflictConstraint(a, b, _) =>
      os.Write(Indent(indent));
      os.Write("conflicts ");
      PrintExpr(a, os);
      os.Write(" with ");
      PrintExpr(b, os);
      os.Write(";\n");
      Append5(start + Indent(indent), "conflicts ", ExprText(a), " with ", ExprText(b), ";\n");
      Append2(start, Indent(indent), "conflicts " + ExprText(a) + " with " + ExprText(b) + ";\n");
      Append5(Indent(indent), "conflicts ", ExprText(a), " with ", ExprText(b), ";\n");
    case DependencyConstraint(d, cond, _) =>
      os.Write(Indent(indent));
      os.Write("requires ");
      PrintExpr(d, os);
      os.Write(" => ");
      PrintExpr(cond, os);
      os.Write(";\n");
      Append5(start + Indent(indent), "requires ", ExprText(d), " => ", ExprText(cond), ";\n");
      Append2(start, Indent(indent), "requires " + ExprText(d) + " => " + ExprText(cond) + ";\n");
      Append5(Indent(indent), "requires ", ExprText(d), " => ", ExprText(cond), ";\n");
    case ValidateConstraint(e, _) =>
      os.Write(Indent(indent));
      os.Write("validate ");
      PrintExpr(e, os);
      os.Write(";\n");
      Append4(start, Indent(indent), "validate ", ExprText(e), ";\n");
  }

  /** printTableBody: collect and sort the names, fill the map, print each name's definition. */
  method PrintTableBody(t: CslType, os: OutStream, indent: nat)
    requires t.TableType?
    modifies os
    ensures os.text == old(os.text) + TableBodyText(t, indent)
    decreases t, 1
  {
    var keys := t.explicitKeys;
    var keyOrder := CollectKeyNames(keys);
    keyOrder := SortNames(keyOrder);
    var m := FillKeyMap(keys);
    ghost var start := os.text;
    SortedNamesAreKeys(keys);
    PrintKeyLines(t, m, keyOrder, os, indent);
    PrintWildcard(t, os, indent);
    PrintConstraintsBlock(t.constraints, os, indent);
    Append3(start, KeyLinesText(t, keyOrder, indent), WildcardText(t, indent), ConstraintsBlock(t.constraints, indent));
  }

  /** The names of the keys, in definition order. */
  method CollectKeyNames(keys: seq<KeyDefinition>) returns (names: seq<string>)
    ensures names == KeyNames(keys)
  {
    names := [];
    var i := 0;
    while i < |keys|
      invariant 0 <= i <= |keys| && names == KeyNames(keys[..i])
    {
      assert keys[..i + 1][..i] == keys[..i];
      names := names + [keys[i].name];
      i := i + 1;
    }
    assert keys[..|keys|] == keys;
  }

  /** The name-to-definition map, each key stored over any earlier one of the same name. */
  method FillKeyMap(keys: seq<KeyDefinition>) returns (m: map<string, KeyDefinition>)
    ensures m == KeyMap(keys)
  {
    m := map[];
    var i := 0;
    while i < |keys|
      invariant 0 <= i <= |keys| && m == KeyMap(keys[..i])
    {
      assert keys[..i + 1][..i] == keys[..i];
      m := m[keys[i].name := keys[i]];
      i := i + 1;
    }
    assert keys[..|keys|] == keys;
  }

  /** The loop over the sorted names, each printed from the map. */
  method PrintKeyLines(t: CslType, m: map<string, KeyDefinition>, names: seq<string>, os: OutStream, indent: nat)
    requires t.TableType? && m == KeyMap(t.explicitKeys)
    requires forall n :: n in names ==> LastKey(t.explicitKeys, n) < |t.explicitKeys|
    modifies os
    ensures os.text == old(os.text) + KeyLinesText(t, names, indent)
    decreases t, 0, |names| + 1
  {
    KeyMapLastWins(t.explicitKeys);
    var j := 0;
    while j < |names|
      invariant 0 <= j <= |names|
      invariant os.text == old(os.text) + KeyLinesText(t, names[..j], indent)
    {
      assert names[..j + 1][..j] == names[..j];
      var k := LastKey(t.explicitKeys, names[j]);
      assert HasKey(t.explicitKeys, names[j]);
      var kd := m[names[j]];
      assert kd == t.explicitKeys[k];
      var q := QuoteIdentifier(if kd.isWildcard then "*" else kd.name);
      PrintKeyLine(kd, q, os, indent);
      Append2(old(os.text), KeyLinesText(t, names[..j], indent), NamedKeyLine(t, names[j], indent));
      j := j + 1;
    }
    assert names[..|names|] == names;
  }

  method PrintWildcard(t: CslType, os: OutStream, indent: nat)
    requires t.TableType?
    modifies os
    ensures os.text == old(os.text) + WildcardText(t, indent)
    decreases t, 0, 0
  {
    if t.wildcardKey.Some? {
      PrintKeyLine(t.wildcardKey.value, "*", os, indent);
    } else {
      assert os.text == old(os.text) + "";
    }
  }

  method PrintConstraintsBlock(cs: seq<Constraint>, os: OutStream, indent: nat)
    modifies os
    ensures os.text == old(os.text) + ConstraintsBlock(cs, indent)
  {
    ghost var start := os.text;
    if |cs| > 0 {
      os.Write(Indent(indent));
      os.Write("constraints {\n");
      PrintConstraints(cs, os, indent + 1);
      os.Write(Indent(indent));
      os.Write("};\n");
      Append5(start, Indent(indent), "constraints {\n", ConstraintLinesText(cs, indent + 1), Indent(indent), "};\n");
    } else {
      assert os.text == start + "";
    }
  }

  /** toCsl of one schema, onto a stream. */
  method ToCsl(s: ConfigSchema, os: OutStream)
    requires s.rootTable.TableType?
    modifies os
    ensures os.text == old(os.text) + SchemaText(s)
  {
    ghost var start := os.text;
    os.Write("config ");
    os.Write(s.name);
    os.Write(" {\n");
    PrintTableBody(s.rootTable, os, 1);
    os.Write("}");
    Append5(start, "config ", s.name, " {\n", TableBodyText(s.rootTable, 1), "}");
  }

  /** toCsl of one schema, into a fresh string. */
  method SchemaToCsl(s: ConfigSchema) returns (text: string)
    requires s.rootTable.TableType?
    ensures text == SchemaText(s)
  {
    var os := new OutStream();
    ToCsl(s, os);
    text := os.text;
  }

  /** toCsl of several schemas, into a fresh string. */
  method SchemasToCsl(ss: seq<ConfigSchema>) returns (text: string)
    requires WellFormedSchemas(ss)
    ensures text == SchemasText(ss)
  {
    var os := new OutStream();
    WriteSchemas(ss, os);
    assert os.text == "" + SchemasText(ss);
    text := os.text;
  }

  /** The loop of toCsl over several schemas: each schema, then a blank line. */
  method WriteSchemas(ss: seq<ConfigSchema>, os: OutStream)
    requires WellFormedSchemas(ss)
    modifies os
    ensures os.text == old(os.text) + SchemasText(ss)
  {
    var i := 0;
    while i < |ss|
      invariant 0 <= i <= |ss| && WellFormedSchemas(ss[..i]) && os.text == old(os.text) + SchemasText(ss[..i])
    {
      WriteSchemaBlock(ss[i], os);
      Append3(old(os.text), SchemasText(ss[..i]), SchemaText(ss[i]), "\n\n");
      SchemasTextPrefix(ss, i);
      i := i + 1;
    }
    assert ss[..|ss|] == ss;
  }

  /** One schema and the blank line after it. */
  method WriteSchemaBlock(s: ConfigSchema, os: OutStream)
    requires s.rootTable.TableType?
    modifies os
    ensures os.text == old(os.text) + SchemaText(s) + "\n\n"
  {
    ToCsl(s, os);
    os.Write("\n\n");
  }
}
