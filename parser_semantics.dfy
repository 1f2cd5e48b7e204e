// The semantic passes the CSL parser runs when it closes a table: the
// mapping from identifier tokens to the key definitions they name, the
// checks of constraint expressions against the keys of the table, and the
// checks of annotations and default values against a key's type.
//
// The parser keeps these as methods that push onto its error list and write
// into its token mapping; here each pass is a function of the parser state
// (the token index, the errors so far and the mapping so far), and the
// class in module CslParser runs them in place.

module ParserSemantics {

  import opened Wrappers
  import opened Positions
  import opened LiteralTypes
  import opened Tokens
  import opened Repr
  import LexerSpec

  type Diagnostic = LexerSpec.Diagnostic

  function Diag(message: string, region: Region): Diagnostic
  {
    LexerSpec.Diagnostic(message, region)
  }

  /**
   * What a token index maps to: a schema or a key definition.  Reserved is
   * the default-constructed entry (a null schema pointer) the parser writes
   * when it meets a name and replaces once the declaration is built.
   */
  datatype ReprRef = Reserved | SchemaRef(schema: ConfigSchema) | KeyRef(key: KeyDefinition)

  /** The parser's state: the index of the current token, the errors and the token mapping. */
  datatype PState = PState(pos: nat, errors: seq<Diagnostic>, mapping: map<nat, ReprRef>)

  // ---------------------------------------------------------------------
  // Token lookup and table resolution
  // ---------------------------------------------------------------------

  predicate IsIdentifierAt(ts: seq<Token>, i: nat, region: Region)
    requires i < |ts|
  {
    ts[i].tokenType == "identifier" && ts[i].range == region
  }

  function IdentifierFrom(ts: seq<Token>, region: Region, i: nat): (r: Option<nat>)
    ensures r.Some? ==> i <= r.value < |ts| && IsIdentifierAt(ts, r.value, region)
    ensures r.Some? ==> forall j :: i <= j < r.value ==> !IsIdentifierAt(ts, j, region)
    ensures r.None? ==> forall j :: i <= j < |ts| ==> !IsIdentifierAt(ts, j, region)
    decreases |ts| - i
  {
    if i >= |ts| then None
    else if IsIdentifierAt(ts, i, region) then Some(i)
    else IdentifierFrom(ts, region, i + 1)
  }

  /** The index of the first identifier token whose range is `region`, if any. */
  function IdentifierIndex(ts: seq<Token>, region: Region): (r: Option<nat>)
    ensures r.Some? ==> r.value < |ts| && IsIdentifierAt(ts, r.value, region)
    ensures r.Some? ==> forall j :: 0 <= j < r.value ==> !IsIdentifierAt(ts, j, region)
    ensures r.None? ==> forall j :: 0 <= j < |ts| ==> !IsIdentifierAt(ts, j, region)
  {
    IdentifierFrom(ts, region, 0)
  }

  /** The first table among union members, if any. */
  function FirstTable(ms: seq<CslType>): (r: Option<CslType>)
    ensures r.Some? ==> r.value.TableType? && r.value in ms
    ensures r.None? ==> forall j :: 0 <= j < |ms| ==> !ms[j].TableType?
    ensures forall j :: 0 <= j < |ms| && ms[j].TableType? ==> r.Some?
  {
    if ms == [] then None
    else if ms[0].TableType? then Some(ms[0])
    else FirstTable(ms[1..])
  }

  /**
   * The table a key of this type opens for a '.' lookup: the type itself,
   * the first table of a union, or the element of an array (itself a table
   * or a union with one).
   */
  function TableOf(t: CslType): (r: Option<CslType>)
    ensures r.Some? ==> r.value.TableType?
    ensures t.TableType? ==> r == Some(t)
    ensures t.UnionType? ==> r == FirstTable(t.memberTypes)
    ensures t.ArrayType? && t.elementType.TableType? ==> r == Some(t.elementType)
    ensures t.ArrayType? && t.elementType.UnionType? ==> r == FirstTable(t.elementType.memberTypes)
    ensures !t.TableType? && !t.UnionType? && !t.ArrayType? ==> r.None?
  {
    if t.TableType? then Some(t)
    else if t.UnionType? then FirstTable(t.memberTypes)
    else if t.ArrayType? then
      if t.elementType.TableType? then Some(t.elementType)
      else if t.elementType.UnionType? then FirstTable(t.elementType.memberTypes)
      else None
    else None
  }

  /** The table an identifier or a chain of '.' lookups denotes among `keys`, if any. */
  function ResolveTable(e: Expr, keys: seq<KeyDefinition>): (r: Option<CslType>)
    ensures r.Some? ==> r.value.TableType?
    ensures r.Some? ==> e.IdentifierExpr? || (e.BinaryExpr? && e.op == "." && e.rhs.IdentifierExpr?)
  {
    match e
    case IdentifierExpr(name, _) =>
      var k := FindKey(keys, name);
      if k < |keys| then TableOf(keys[k].keyType) else None
    case BinaryExpr(op, lhs, rhs, _) =>
      if op != "." then None
      else
        var left := ResolveTable(lhs, keys);
        if left.None? || !rhs.IdentifierExpr? then None
        else
          var sub := left.value.explicitKeys;
          var k := FindKey(sub, rhs.name);
          if k < |sub| then TableOf(sub[k].keyType) else None
    case _ => None
  }

  // ---------------------------------------------------------------------
  // The token mapping
  // ---------------------------------------------------------------------

  /** Map the token of an identifier expression to key `key`, when the token is found. */
  function MapToken(ts: seq<Token>, region: Region, key: KeyDefinition, m: map<nat, ReprRef>): (r: map<nat, ReprRef>)
    ensures IdentifierIndex(ts, region).Some? ==> r == m[IdentifierIndex(ts, region).value := KeyRef(key)]
    ensures IdentifierIndex(ts, region).None? ==> r == m
  {
    var idx := IdentifierIndex(ts, region);
    if idx.Some? then m[idx.value := KeyRef(key)] else m
  }

  /** The '.' step: the right-hand identifier names a key of the table the left-hand side resolves to. */
  function MapProperty(ts: seq<Token>, lhs: Expr, rhs: Expr, keys: seq<KeyDefinition>, m: map<nat, ReprRef>): map<nat, ReprRef>
  {
    var ctx := ResolveTable(lhs, keys);
    if ctx.None? || !rhs.IdentifierExpr? then m
    else
      var sub := ctx.value.explicitKeys;
      var k := FindKey(sub, rhs.name);
      if k < |sub| then MapToken(ts, rhs.region, sub[k], m) else m
  }

  /**
   * The '.' case of mapIdentifiersInExpr as written: the property is
   * mapped to the key of the resolved table, and then the right-hand side
   * is mapped once more against `keys`, the keys of the enclosing table.
   */
  function MapDotAsWritten(ts: seq<Token>, lhs: Expr, rhs: Expr, keys: seq<KeyDefinition>, m: map<nat, ReprRef>): map<nat, ReprRef>
  {
    MapExpr(ts, rhs, keys, MapExpr(ts, lhs, keys, MapProperty(ts, lhs, rhs, keys, m)))
  }

  /**
   * mapIdentifiersInExpr: every identifier naming one of `keys`, and every
   * property of a resolved table, is mapped to its key.  The property name
   * of `a.b` is resolved in the table `a` denotes only: it is not mapped
   * a second time against the enclosing table's keys.
   */
  function MapExpr(ts: seq<Token>, e: Expr, keys: seq<KeyDefinition>, m: map<nat, ReprRef>): map<nat, ReprRef>
    decreases e, 1
  {
    match e
    case IdentifierExpr(name, region) =>
      var k := FindKey(keys, name);
      if k < |keys| then MapToken(ts, region, keys[k], m) else m
    case BinaryExpr(op, lhs, rhs, _) =>
      if op == "." then
        var m1 := MapExpr(ts, lhs, keys, MapProperty(ts, lhs, rhs, keys, m));
        if rhs.IdentifierExpr? then m1 else MapExpr(ts, rhs, keys, m1)
      else MapExpr(ts, rhs, keys, MapExpr(ts, lhs, keys, m))
    case UnaryExpr(_, operand, _) => MapExpr(ts, operand, keys, m)
    case TernaryExpr(c, t, f, _) => MapExpr(ts, f, keys, MapExpr(ts, t, keys, MapExpr(ts, c, keys, m)))
    case FunctionCallExpr(_, args, _) => MapArgs(ts, args, keys, m)
    case AnnotationExpr(target, ann, _) => MapExprs(ts, ann.args, keys, MapExpr(ts, target, keys, m))
    case _ => m
  }

  /** The expressions in order. */
  function MapExprs(ts: seq<Token>, es: seq<Expr>, keys: seq<KeyDefinition>, m: map<nat, ReprRef>): map<nat, ReprRef>
    decreases es, 0
  {
    if es == [] then m else MapExprs(ts, es[1..], keys, MapExpr(ts, es[0], keys, m))
  }

  /** One function argument: its expression, or each element of its list. */
  function MapArg(ts: seq<Token>, a: Expr, keys: seq<KeyDefinition>, m: map<nat, ReprRef>): map<nat, ReprRef>
    decreases a, 0
  {
    if !a.FunctionArgExpr? then m
    else match a.arg
      case SingleArg(x) => MapExpr(ts, x, keys, m)
      case ListArg(xs) => MapExprs(ts, xs, keys, m)
  }

  function MapArgs(ts: seq<Token>, args: seq<Expr>, keys: seq<KeyDefinition>, m: map<nat, ReprRef>): map<nat, ReprRef>
    decreases args, 0
  {
    if args == [] then m else MapArgs(ts, args[1..], keys, MapArg(ts, args[0], keys, m))
  }

  /** mapIdentifiersInAnnotations: the arguments of each annotation in order. */
  function MapAnnotations(ts: seq<Token>, anns: seq<Annotation>, keys: seq<KeyDefinition>, m: map<nat, ReprRef>): map<nat, ReprRef>
    decreases anns
  {
    if anns == [] then m else MapAnnotations(ts, anns[1..], keys, MapExprs(ts, anns[0].args, keys, m))
  }

  /** mapIdentifiersInConstraints for one constraint. */
  function MapConstraint(ts: seq<Token>, c: Constraint, keys: seq<KeyDefinition>, m: map<nat, ReprRef>): map<nat, ReprRef>
  {
    match c
    case ConflictConstraint(a, b, _) => MapExpr(ts, b, keys, MapExpr(ts, a, keys, m))
    case DependencyConstraint(d, cond, _) => MapExpr(ts, cond, keys, MapExpr(ts, d, keys, m))
    case ValidateConstraint(x, _) => MapExpr(ts, x, keys, m)
  }

  function MapConstraints(ts: seq<Token>, cs: seq<Constraint>, keys: seq<KeyDefinition>, m: map<nat, ReprRef>): map<nat, ReprRef>
    decreases cs
  {
    if cs == [] then m else MapConstraints(ts, cs[1..], keys, MapConstraint(ts, cs[0], keys, m))
  }

  // ---------------------------------------------------------------------
  // Constraint checks
  // ---------------------------------------------------------------------

  /** The three expression walkers of validateConstraintsSemantics. */
  datatype WalkMode = DependencyWalk | ValidateWalk | ConflictWalk

  /** The argument of a subset call as resolveTableTypeFromExpr receives it: its expression, or null for a list. */
  function SingleOf(a: Expr): Expr
  {
    if a.FunctionArgExpr? && a.arg.SingleArg? then a.arg.expr else NullExpr
  }

  /** An identifier is unknown when no key has its name and its token was not mapped. */
  function UnknownCheck(ts: seq<Token>, name: string, region: Region, keys: seq<KeyDefinition>, m: map<nat, ReprRef>): seq<Diagnostic>
  {
    var idx := IdentifierIndex(ts, region);
    if FindKey(keys, name) == |keys| && (idx.None? || idx.value !in m)
    then [Diag("Unknown identifier in current context: " + name, region)]
    else []
  }

  /** The validate walker's test of subset(a, b, [...]): both sets must resolve to tables. */
  function SubsetCheck(name: string, args: seq<Expr>, region: Region, keys: seq<KeyDefinition>): seq<Diagnostic>
  {
    if name == "subset" && |args| >= 3
       && (ResolveTable(SingleOf(args[0]), keys).None? || ResolveTable(SingleOf(args[1]), keys).None?)
    then [Diag("subset with property list requires table arrays", region)]
    else []
  }

  /** The errors a walker reports on an expression, in the order it visits it. */
  function Walk(ts: seq<Token>, e: Expr, keys: seq<KeyDefinition>, m: map<nat, ReprRef>, mode: WalkMode): seq<Diagnostic>
    decreases e, 1
  {
    match e
    case IdentifierExpr(name, region) => UnknownCheck(ts, name, region, keys, m)
    case BinaryExpr(op, lhs, rhs, _) =>
      if op == "." then Walk(ts, lhs, keys, m, mode)
      else Walk(ts, lhs, keys, m, mode) + Walk(ts, rhs, keys, m, mode)
    case UnaryExpr(_, operand, _) => Walk(ts, operand, keys, m, mode)
    case TernaryExpr(c, t, f, _) =>
      if mode == ConflictWalk then []
      else Walk(ts, c, keys, m, mode) + Walk(ts, t, keys, m, mode) + Walk(ts, f, keys, m, mode)
    case FunctionCallExpr(name, args, region) =>
      (if mode == ValidateWalk then SubsetCheck(name, args, region, keys) else [])
      + WalkArgs(ts, name, args, keys, m, mode)
    case _ => []
  }

  function WalkList(ts: seq<Token>, es: seq<Expr>, keys: seq<KeyDefinition>, m: map<nat, ReprRef>, mode: WalkMode): seq<Diagnostic>
    decreases es, 0
  {
    if es == [] then [] else Walk(ts, es[0], keys, m, mode) + WalkList(ts, es[1..], keys, m, mode)
  }

  /** Arguments: single expressions are walked; lists only outside subset, and never by the conflict walker. */
  function WalkArg(ts: seq<Token>, name: string, a: Expr, keys: seq<KeyDefinition>, m: map<nat, ReprRef>, mode: WalkMode): seq<Diagnostic>
    decreases a, 0
  {
    if !a.FunctionArgExpr? then []
    else match a.arg
      case SingleArg(x) => Walk(ts, x, keys, m, mode)
      case ListArg(xs) => if mode == ConflictWalk || name == "subset" then [] else WalkList(ts, xs, keys, m, mode)
  }

  function WalkArgs(ts: seq<Token>, name: string, args: seq<Expr>, keys: seq<KeyDefinition>, m: map<nat, ReprRef>, mode: WalkMode): seq<Diagnostic>
    decreases args, 0
  {
    if args == [] then [] else WalkArg(ts, name, args[0], keys, m, mode) + WalkArgs(ts, name, args[1..], keys, m, mode)
  }

  /** The errors validateConstraintsSemantics reports for one constraint. */
  function ConstraintErrors(ts: seq<Token>, c: Constraint, keys: seq<KeyDefinition>, m: map<nat, ReprRef>): seq<Diagnostic>
  {
    match c
    case DependencyConstraint(d, cond, _) =>
      (if cond.IdentifierExpr? && FindKey(keys, cond.name) == |keys|
       then [Diag("Dependency references missing key: " + cond.name, cond.region)] else [])
      + Walk(ts, d, keys, m, DependencyWalk)
    case ValidateConstraint(x, _) => Walk(ts, x, keys, m, ValidateWalk)
    case ConflictConstraint(a, b, _) => Walk(ts, a, keys, m, ConflictWalk) + Walk(ts, b, keys, m, ConflictWalk)
  }

  /** validateConstraintsSemantics: the errors of each constraint appended in order. */
  function CheckConstraints(ts: seq<Token>, cs: seq<Constraint>, keys: seq<KeyDefinition>, st: PState): (r: PState)
    ensures r.pos == st.pos && r.mapping == st.mapping
    decreases cs
  {
    if cs == [] then st
    else CheckConstraints(ts, cs[1..], keys, st.(errors := st.errors + ConstraintErrors(ts, cs[0], keys, st.mapping)))
  }

  // ---------------------------------------------------------------------
  // Annotation and default-value checks
  // ---------------------------------------------------------------------

  /** A numeric annotation on a string, or a string annotation on a number. */
  predicate Misplaced(prim: Primitive, a: Annotation)
  {
    ((a.name == "min" || a.name == "max") && prim == StringPrimitive) || (a.name == "regex" && prim == NumberPrimitive)
  }

  function AnnotationError(prim: Primitive, a: Annotation): (e: seq<Diagnostic>)
  {
    (if (a.name == "min" || a.name == "max") && prim == StringPrimitive
     then [Diag("Numeric annotation '@" + a.name + "' is not allowed on string", a.region)] else [])
    + (if a.name == "regex" && prim == NumberPrimitive
       then [Diag("String annotation '@regex' is not allowed on number", a.region)] else [])
  }

  function CheckAnnotationsOf(prim: Primitive, anns: seq<Annotation>, errs: seq<Diagnostic>): seq<Diagnostic>
    decreases anns
  {
    if anns == [] then errs else CheckAnnotationsOf(prim, anns[1..], errs + AnnotationError(prim, anns[0]))
  }

  /** validateAnnotationsForType: only a primitive type's annotations are checked. */
  function CheckAnnotations(t: CslType, errs: seq<Diagnostic>): seq<Diagnostic>
  {
    if t.PrimitiveType? then CheckAnnotationsOf(t.primitive, t.annotations, errs) else errs
  }

  /** The literal kinds, by name, validateDefaultForKey accepts for a primitive. */
  predicate DefaultMismatch(prim: Primitive, name: string)
  {
    match prim
    case StringPrimitive => !(name == "Basic" || name == "Raw" || name == "MultiLineBasic" || name == "MultiLineRaw")
    case NumberPrimitive => !(name == "Integer" || name == "Float" || name == "NaN" || name == "Infinity")
    case BooleanPrimitive => name != "Boolean"
    case DatetimePrimitive => !(name == "OffsetDateTime" || name == "LocalDateTime" || name == "LocalDate" || name == "LocalTime")
    case DurationPrimitive => name != "Duration"
  }

  /** The kinds of literal a primitive admits, stated over the kinds themselves. */
  predicate Admits(prim: Primitive, t: LiteralType)
  {
    match prim
    case StringPrimitive => t.String?
    case NumberPrimitive => IsNumeric(t)
    case BooleanPrimitive => t.Boolean?
    case DatetimePrimitive => t.DateTime?
    case DurationPrimitive => t.Duration?
  }

  /** validateDefaultForKey: a default whose kind the declared primitive does not admit is reported at the key name. */
  function CheckDefault(k: KeyDefinition, errs: seq<Diagnostic>): seq<Diagnostic>
  {
    if k.defaultValue.Some? && k.keyType.PrimitiveType?
       && DefaultMismatch(k.keyType.primitive, ToString(k.defaultValue.value.prop))
    then errs + [Diag("Default value type does not match declared type", k.nameRegion)]
    else errs
  }

  /** The primitive `name = literal` infers, as the kind names are tested in the source: a duration counts as a number. */
  function InferAsWritten(t: LiteralType): Primitive
  {
    var n := ToString(t);
    if n == "Boolean" then BooleanPrimitive
    else if n == "Basic" || n == "MultiLineBasic" || n == "Raw" || n == "MultiLineRaw" then StringPrimitive
    else if n == "OffsetDateTime" || n == "LocalDateTime" || n == "LocalDate" || n == "LocalTime" then DatetimePrimitive
    else if n == "Duration" || n == "NaN" || n == "Infinity" || n == "Integer" || n == "Float" then NumberPrimitive
    else NumberPrimitive
  }

  /** The inference with a duration literal giving a duration key. */
  function Infer(t: LiteralType): Primitive
  {
    if t.Duration? then DurationPrimitive else InferAsWritten(t)
  }

  // ---------------------------------------------------------------------
  // Closing a table
  // ---------------------------------------------------------------------

  function MapTypes(ts: seq<Token>, ms: seq<CslType>, keys: seq<KeyDefinition>, st: PState): (r: PState)
    ensures r.pos == st.pos
    decreases ms, 0
  {
    if ms == [] then st else MapTypes(ts, ms[1..], keys, MapType(ts, ms[0], keys, st))
  }

  /**
   * mapIdentifiersInType: annotations of primitives are mapped against
   * `keys`; a nested table checks its own constraints against its own keys
   * and maps each of its keys' annotations and types against them.
   */
  function MapType(ts: seq<Token>, t: CslType, keys: seq<KeyDefinition>, st: PState): (r: PState)
    ensures r.pos == st.pos
    decreases t, 1
  {
    match t
    case PrimitiveType(_, _, anns, _) => st.(mapping := MapAnnotations(ts, anns, keys, st.mapping))
    case ArrayType(elem, _) => MapType(ts, elem, keys, st)
    case UnionType(ms, _) => MapTypes(ts, ms, keys, st)
    case TableType(sub, _, cs, _) => MapKeys(ts, sub, sub, CheckConstraints(ts, cs, sub, st))
    case _ => st
  }

  /** The loop over a nested table's keys inside mapIdentifiersInType. */
  function MapKeys(ts: seq<Token>, ks: seq<KeyDefinition>, sub: seq<KeyDefinition>, st: PState): (r: PState)
    ensures r.pos == st.pos
    decreases ks, 0
  {
    if ks == [] then st
    else
      var s1 := st.(mapping := MapAnnotations(ts, ks[0].annotations, sub, st.mapping));
      MapKeys(ts, ks[1..], sub, MapType(ts, ks[0].keyType, sub, s1))
  }

  /** One key of the loop that closes a table: map, then check annotations and default. */
  function CloseKey(ts: seq<Token>, k: KeyDefinition, keys: seq<KeyDefinition>, st: PState): (r: PState)
    ensures r.pos == st.pos
  {
    var s1 := st.(mapping := MapAnnotations(ts, k.annotations, keys, st.mapping));
    var s2 := MapType(ts, k.keyType, keys, s1);
    s2.(errors := CheckDefault(k, CheckAnnotations(k.keyType, s2.errors)))
  }

  function CloseKeys(ts: seq<Token>, ks: seq<KeyDefinition>, keys: seq<KeyDefinition>, st: PState): (r: PState)
    ensures r.pos == st.pos
    decreases ks
  {
    if ks == [] then st else CloseKeys(ts, ks[1..], keys, CloseKey(ts, ks[0], keys, st))
  }

  /** What parseTableType does with a finished table before consuming its closing brace. */
  function CloseTable(ts: seq<Token>, keys: seq<KeyDefinition>, cs: seq<Constraint>, st: PState): (r: PState)
    ensures r.pos == st.pos
  {
    var s1 := st.(mapping := MapConstraints(ts, cs, keys, st.mapping));
    CloseKeys(ts, keys, keys, CheckConstraints(ts, cs, keys, s1))
  }
}
