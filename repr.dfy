// The CSL representation the parser builds and the formatter, the
// documentation generator and the language server read: schemas, tables,
// key definitions, types, constraints and expressions.  The source keeps
// them behind shared pointers to a class hierarchy with a kind tag; here
// every hierarchy is one closed datatype.
//
// Null pointers: an expression pointer may be null (a primary expression
// that failed to parse), which is NullExpr here.  A key definition without
// a type holds a null type pointer in the source; here it holds InvalidType,
// which every function that tests for null treats the same way.

module Repr {

  import opened Wrappers
  import opened Positions
  import opened LiteralTypes

  datatype Primitive = StringPrimitive | NumberPrimitive | BooleanPrimitive | DatetimePrimitive | DurationPrimitive

  /** A literal as written in the source text, with its literal kind. */
  datatype LiteralValue = LiteralValue(text: string, prop: LiteralType)

  datatype Annotation = Annotation(name: string, args: seq<Expr>, region: Region)

  /** A function argument is an expression or a bracketed list of expressions. */
  datatype FunctionArg = SingleArg(expr: Expr) | ListArg(exprs: seq<Expr>)

  datatype Expr =
    | NullExpr
    | BinaryExpr(op: string, lhs: Expr, rhs: Expr, region: Region)
    | UnaryExpr(op: string, operand: Expr, region: Region)
    | TernaryExpr(condition: Expr, trueExpr: Expr, falseExpr: Expr, region: Region)
    | LiteralExpr(prop: LiteralType, value: string, region: Region)
    | IdentifierExpr(name: string, region: Region)
    | FunctionArgExpr(arg: FunctionArg, region: Region)
    | FunctionCallExpr(funcName: string, args: seq<Expr>, region: Region)
    | AnnotationExpr(target: Expr, annotation: Annotation, region: Region)

  datatype Constraint =
    | ConflictConstraint(firstExpr: Expr, secondExpr: Expr, region: Region)
    | DependencyConstraint(dependentExpr: Expr, condition: Expr, region: Region)
    | ValidateConstraint(expr: Expr, region: Region)

  datatype CslType =
    | PrimitiveType(primitive: Primitive, allowedValues: seq<LiteralValue>, annotations: seq<Annotation>, region: Region)
    | TableType(explicitKeys: seq<KeyDefinition>, wildcardKey: Option<KeyDefinition>, constraints: seq<Constraint>, region: Region)
    | ArrayType(elementType: CslType, region: Region)
    | UnionType(memberTypes: seq<CslType>, region: Region)
    | AnyTableType(region: Region)
    | AnyArrayType(region: Region)
    | InvalidType

  datatype KeyDefinition = KeyDefinition(
    name: string,
    isWildcard: bool,
    isOptional: bool,
    keyType: CslType,
    annotations: seq<Annotation>,
    defaultValue: Option<LiteralValue>,
    nameRegion: Region)

  datatype ConfigSchema = ConfigSchema(name: string, rootTable: CslType, region: Region, nameRegion: Region)

  /** The index of the first key named `name`, or |keys| when there is none (std::find_if). */
  function FindKey(keys: seq<KeyDefinition>, name: string): (k: nat)
    ensures k <= |keys|
    ensures k < |keys| ==> keys[k].name == name
    ensures forall j :: 0 <= j < k ==> keys[j].name != name
  {
    if |keys| == 0 then 0
    else if keys[0].name == name then 0
    else 1 + FindKey(keys[1..], name)
  }

  /** Whether some key is named `name`. */
  predicate HasKey(keys: seq<KeyDefinition>, name: string)
  {
    exists k :: 0 <= k < |keys| && keys[k].name == name
  }

  lemma FindKeyFinds(keys: seq<KeyDefinition>, name: string)
    ensures FindKey(keys, name) < |keys| <==> HasKey(keys, name)
  {
  }
}
