// The literal-kind hierarchy: the "prop" of a lexer token and the type of a
// literal expression.  The source's class hierarchy is closed, so it becomes
// one datatype whose subtype tags are the enumerations of the source.

module LiteralTypes {

  import opened Wrappers

  datatype SpecialNumberType = NaN | Infinity

  datatype StringType = Basic | MultiLineBasic | Raw | MultiLineRaw

  datatype DateTimeType = OffsetDateTime | LocalDateTime | LocalDate | LocalTime

  datatype LiteralType =
    | Invalid
    | Boolean
    | Integer
    | Float
    | SpecialNumber(special: SpecialNumberType)
    | String(str: StringType)
    | DateTime(dateTime: DateTimeType)
    | Duration

  /** The intermediate classes of the hierarchy. */
  predicate IsValid(t: LiteralType) { !t.Invalid? }

  predicate IsNumeric(t: LiteralType) { t.Integer? || t.Float? || t.SpecialNumber? }

  /** The numbering of the string enumeration, used by the lexer's validator. */
  function StringTypeIndex(s: StringType): (n: nat)
    ensures n < 4
  {
    match s
    case Basic => 0
    case MultiLineBasic => 1
    case Raw => 2
    case MultiLineRaw => 3
  }

  function StringTypeOfIndex(n: nat): (s: StringType)
    requires n < 4
  {
    if n == 0 then Basic
    else if n == 1 then MultiLineBasic
    else if n == 2 then Raw
    else MultiLineRaw
  }

  /** The numbering is a bijection between the four kinds and 0..3. */
  lemma StringTypeNumbering(s: StringType, n: nat)
    requires n < 4
    ensures StringTypeOfIndex(StringTypeIndex(s)) == s
    ensures StringTypeIndex(StringTypeOfIndex(n)) == n
  {
  }

  /** The two multi-line kinds are the odd-numbered ones. */
  lemma MultiLineIsOdd(s: StringType)
    ensures (s.MultiLineBasic? || s.MultiLineRaw?) <==> StringTypeIndex(s) % 2 == 1
  {
  }

  function SpecialToString(s: SpecialNumberType): (r: string)
    ensures r == "NaN" <==> s == NaN
    ensures r != "NaN" ==> r == "Infinity"
  {
    if s == NaN then "NaN" else "Infinity"
  }

  function StringTypeToString(s: StringType): string
  {
    match s
    case Basic => "Basic"
    case MultiLineBasic => "MultiLineBasic"
    case Raw => "Raw"
    case MultiLineRaw => "MultiLineRaw"
  }

  function DateTimeToString(d: DateTimeType): string
  {
    match d
    case OffsetDateTime => "OffsetDateTime"
    case LocalDateTime => "LocalDateTime"
    case LocalDate => "LocalDate"
    case LocalTime => "LocalTime"
  }

  /** The name each concrete kind reports. */
  function ToString(t: LiteralType): string
  {
    match t
    case Invalid => "Invalid"
    case Boolean => "Boolean"
    case Integer => "Integer"
    case Float => "Float"
    case SpecialNumber(s) => SpecialToString(s)
    case String(s) => StringTypeToString(s)
    case DateTime(d) => DateTimeToString(d)
    case Duration => "Duration"
  }

  /** The reverse lookup the parser performs when it branches on a name. */
  function FromName(name: string): (r: Option<LiteralType>)
    ensures r.Some? ==> ToString(r.value) == name
  {
    if name == "Invalid" then Some(Invalid)
    else if name == "Boolean" then Some(Boolean)
    else if name == "Integer" then Some(Integer)
    else if name == "Float" then Some(Float)
    else if name == "NaN" then Some(SpecialNumber(NaN))
    else if name == "Infinity" then Some(SpecialNumber(Infinity))
    else if name == "Basic" then Some(String(Basic))
    else if name == "MultiLineBasic" then Some(String(MultiLineBasic))
    else if name == "Raw" then Some(String(Raw))
    else if name == "MultiLineRaw" then Some(String(MultiLineRaw))
    else if name == "OffsetDateTime" then Some(DateTime(OffsetDateTime))
    else if name == "LocalDateTime" then Some(DateTime(LocalDateTime))
    else if name == "LocalDate" then Some(DateTime(LocalDate))
    else if name == "LocalTime" then Some(DateTime(LocalTime))
    else if name == "Duration" then Some(Duration)
    else None
  }

  /** Every name is recognised again, so the names are pairwise distinct. */
  lemma NamesIdentifyKinds(t: LiteralType)
    ensures FromName(ToString(t)) == Some(t)
  {
  }

  lemma ToStringInjective(a: LiteralType, b: LiteralType)
    ensures ToString(a) == ToString(b) ==> a == b
  {
    if ToString(a) == ToString(b) {
      NamesIdentifyKinds(a);
      NamesIdentifyKinds(b);
    }
  }

  /** A copy with the same kind and the same subtype. */
  function Clone(t: LiteralType): (c: LiteralType)
    ensures c == t
    ensures ToString(c) == ToString(t)
  {
    match t
    case SpecialNumber(s) => SpecialNumber(s)
    case String(s) => String(s)
    case DateTime(d) => DateTime(d)
    case _ => t
  }

  /** setType on a SpecialNumber, String or DateTime: only the subtype changes. */
  function SetSpecialType(t: LiteralType, s: SpecialNumberType): (r: LiteralType)
    requires t.SpecialNumber?
    ensures r.SpecialNumber? && r.special == s
  {
    t.(special := s)
  }

  function SetStringType(t: LiteralType, s: StringType): (r: LiteralType)
    requires t.String?
    ensures r.String? && r.str == s
  {
    t.(str := s)
  }

  function SetDateTimeType(t: LiteralType, d: DateTimeType): (r: LiteralType)
    requires t.DateTime?
    ensures r.DateTime? && r.dateTime == d
  {
    t.(dateTime := d)
  }
}
