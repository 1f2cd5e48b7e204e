// What the jsonio reader computes, as functions of the input bytes and a position:
// every piece of the recursive-descent parser either yields its value and the
// position after it, or fails at a position with the parser's message.

module JsonReaderSpec {

  import opened Wrappers
  import opened Utf8
  import opened JsonBigInt
  import opened JsonNumber
  import opened JsonValue

  /** A parse that succeeded with a value and the position after it, or failed at a position. */
  datatype Res<T> = Ok(value: T, next: nat) | Fail(at: nat, msg: string)

  /** The outcome the caller sees: the value, or the error with the line and column it was raised at. */
  datatype Outcome<T> = Got(value: T) | Raised(line: nat, col: nat, msg: string)

  // ---------------------------------------------------------------------
  // Positions
  // ---------------------------------------------------------------------

  /** The 1-based line and column after reading s[..p]: a newline starts a new line at column 1. */
  function LineCol(s: seq<Byte>, p: nat): (lc: (nat, nat))
    requires p <= |s|
    ensures lc.0 >= 1 && lc.1 >= 1
  {
    if p == 0 then (1, 1)
    else
      var prev := LineCol(s, p - 1);
      if s[p - 1] == 0x0A then (prev.0 + 1, 1) else (prev.0, prev.1 + 1)
  }

  /** What the caller of a parse sees: errors carry the line and column of the failing position. */
  function Report<T>(s: seq<Byte>, r: Res<T>): Outcome<T>
  {
    match r
    case Ok(v, _) => Got(v)
    case Fail(at, msg) =>
      if at <= |s| then Raised(LineCol(s, at).0, LineCol(s, at).1, msg) else Raised(0, 0, msg)
  }

  // ---------------------------------------------------------------------
  // White space, delimiters, literals
  // ---------------------------------------------------------------------

  /** The four white-space bytes of section 4 of ECMA-404. */
  predicate IsWS(b: Byte)
  {
    b == 0x20 || b == 0x09 || b == 0x0A || b == 0x0D
  }

  /** What may follow a literal or a number: white space, ',', ']' or '}'. */
  predicate IsDelim(b: Byte)
  {
    IsWS(b) || b == 0x2C || b == 0x5D || b == 0x7D
  }

  /** ws(): the first position at or after i that is not white space. */
  function SkipWS(s: seq<Byte>, i: nat): (j: nat)
    requires i <= |s|
    ensures i <= j <= |s|
    decreases |s| - i
  {
    if i < |s| && IsWS(s[i]) then SkipWS(s, i + 1) else i
  }

  /** ws() stops at the first byte that is not white space and skips only white space. */
  lemma {:induction false} SkipWSFacts(s: seq<Byte>, i: nat)
    requires i <= |s|
    ensures forall k :: i <= k < SkipWS(s, i) ==> IsWS(s[k])
    ensures SkipWS(s, i) < |s| ==> !IsWS(s[SkipWS(s, i)])
    decreases |s| - i
  {
    if i < |s| && IsWS(s[i]) {
      SkipWSFacts(s, i + 1);
    }
  }

  /** How many bytes of kw match the input from i on. */
  function KeywordMatch(s: seq<Byte>, i: nat, kw: seq<Byte>, k: nat): (m: nat)
    requires k <= |kw|
    ensures k <= m <= |kw|
    ensures m > k ==> i + m <= |s|
    ensures forall j :: k <= j < m ==> s[i + j] == kw[j]
    ensures m < |kw| ==> i + m >= |s| || s[i + m] != kw[m]
    decreases |kw| - k
  {
    if k < |kw| && i + k < |s| && s[i + k] == kw[k] then KeywordMatch(s, i, kw, k + 1)
    else k
  }

  /** parseLiteral: the keyword byte by byte, then a delimiter or the end. */
  function LiteralAt(s: seq<Byte>, i: nat, kw: seq<Byte>, v: Value): (r: Res<Value>)
    requires |kw| > 0
    ensures r.Ok? ==> i < r.next <= |s|
  {
    var m := KeywordMatch(s, i, kw, 0);
    if m < |kw| then Fail(i + m, "invalid literal")
    else
      var e := i + |kw|;
      if e < |s| && !IsDelim(s[e]) then Fail(e, "invalid character following literal")
      else Ok(v, e)
  }

  const NullWord: seq<Byte> := [0x6E, 0x75, 0x6C, 0x6C]
  const TrueWord: seq<Byte> := [0x74, 0x72, 0x75, 0x65]
  const FalseWord: seq<Byte> := [0x66, 0x61, 0x6C, 0x73, 0x65]

  // ---------------------------------------------------------------------
  // Strings
  // ---------------------------------------------------------------------

  /** The value of a hexadecimal digit, or -1. */
  function HexValue(b: Byte): (h: int)
    ensures -1 <= h < 16
  {
    if 0x30 <= b <= 0x39 then b - 0x30
    else if 0x61 <= b <= 0x66 then 10 + (b - 0x61)
    else if 0x41 <= b <= 0x46 then 10 + (b - 0x41)
    else -1
  }

  /** 16^k for the digits read so far. */
  function HexScale(k: nat): nat
    requires k <= 4
  {
    if k == 0 then 1 else if k == 1 then 0x10 else if k == 2 then 0x100 else if k == 3 then 0x1000 else 0x10000
  }

  /** hex4 from its k-th digit on, with the value read so far. */
  function Hex4From(s: seq<Byte>, i: nat, k: nat, acc: nat): (r: Res<nat>)
    requires k <= 4 && i + k <= |s| && acc < HexScale(k)
    ensures r.Ok? ==> r.next == i + 4 <= |s| && r.value < 0x10000
    decreases 4 - k
  {
    if k == 4 then Ok(acc, i + 4)
    else if i + k >= |s| then Fail(i + k, "unexpected end while reading \\uXXXX")
    else
      var h := HexValue(s[i + k]);
      if h < 0 then Fail(i + k, "invalid hex digit in \\uXXXX escape")
      else Hex4From(s, i, k + 1, acc * 16 + h)
  }

  /** hex4: four hexadecimal digits at i. */
  function Hex4At(s: seq<Byte>, i: nat): (r: Res<nat>)
    requires i <= |s|
    ensures r.Ok? ==> r.next == i + 4 <= |s| && r.value < 0x10000
  {
    Hex4From(s, i, 0, 0)
  }

  /** The code point a surrogate pair stands for. */
  function PairCodePoint(hi: nat, lo: nat): nat
    requires 0xD800 <= hi <= 0xDBFF && 0xDC00 <= lo <= 0xDFFF
  {
    0x10000 + (hi - 0xD800) * 0x400 + (lo - 0xDC00)
  }

  /** The \u escape after its 'u' at i: one code unit, or a high and a low surrogate, emitted as UTF-8. */
  function EscapeUAt(s: seq<Byte>, i: nat): (r: Res<seq<Byte>>)
    requires i <= |s|
    ensures r.Ok? ==> i < r.next <= |s|
  {
    match Hex4At(s, i)
    case Fail(at, msg) => Fail(at, msg)
    case Ok(u, j) =>
      if 0xD800 <= u <= 0xDBFF then LowSurrogateAt(s, j, u)
      else if 0xDC00 <= u <= 0xDFFF then Fail(j, "lone low surrogate")
      else Ok(Encode(u), j)
  }

  /** After a high surrogate hi, at j: '\', 'u' and a low surrogate; the pair's code point as UTF-8. */
  function LowSurrogateAt(s: seq<Byte>, j: nat, hi: nat): (r: Res<seq<Byte>>)
    requires j <= |s| && 0xD800 <= hi <= 0xDBFF
    ensures r.Ok? ==> j < r.next <= |s|
  {
    if j >= |s| || s[j] != 0x5C then Fail(j, "expected second surrogate: missing backslash")
    else if j + 1 >= |s| || s[j + 1] != 0x75 then Fail(j + 1, "expected 'u' starting second surrogate")
    else
      match Hex4At(s, j + 2)
      case Fail(at, msg) => Fail(at, msg)
      case Ok(lo, k) =>
        if !(0xDC00 <= lo <= 0xDFFF) then Fail(k, "invalid low surrogate")
        else Ok(Encode(PairCodePoint(hi, lo)), k)
  }

  /** readUtf8Validated: one UTF-8 sequence at i, copied as it is, or the encoding error at i. */
  function Utf8At(s: seq<Byte>, i: nat): (r: Res<seq<Byte>>)
    requires i < |s|
    ensures r.Ok? ==> i < r.next <= |s| && r.value == s[i..r.next]
  {
    if s[i] < 0x80 then Ok([s[i]], i + 1)
    else match LeadDecode(s, i)
      case None => Fail(i, "invalid UTF-8 encoding in string")
      case Some(d) =>
        LeadDecodeMatchesSyntax(s, i);
        Ok(s[i..i + d.length], i + d.length)
  }

  /** The byte a one-character escape stands for, if e is one. */
  function SimpleEscape(e: Byte): Option<Byte>
  {
    if e == 0x22 then Some(0x22)
    else if e == 0x5C then Some(0x5C)
    else if e == 0x2F then Some(0x2F)
    else if e == 0x62 then Some(0x08)
    else if e == 0x66 then Some(0x0C)
    else if e == 0x6E then Some(0x0A)
    else if e == 0x72 then Some(0x0D)
    else if e == 0x74 then Some(0x09)
    else None
  }

  /** The loop of parseString from i on, with the bytes decoded so far. */
  function StringBody(s: seq<Byte>, i: nat, acc: seq<Byte>): (r: Res<seq<Byte>>)
    requires i <= |s|
    ensures r.Ok? ==> i < r.next <= |s|
    decreases |s| - i
  {
    if i >= |s| then Fail(i, "unterminated string")
    else
      var c := s[i];
      if c == 0x22 then Ok(acc, i + 1)
      else if c <= 0x1F then Fail(i, "unescaped control character in string")
      else if c == 0x5C then
        if i + 1 >= |s| then Fail(i + 1, "unterminated escape sequence")
        else
          var e := s[i + 1];
          if SimpleEscape(e).Some? then StringBody(s, i + 2, acc + [SimpleEscape(e).value])
          else if e == 0x75 then
            match EscapeUAt(s, i + 2)
            case Fail(at, msg) => Fail(at, msg)
            case Ok(bytes, j) => StringBody(s, j, acc + bytes)
          else Fail(i + 2, "invalid escape in string")
      else if c < 0x80 then StringBody(s, i + 1, acc + [c])
      else
        match Utf8At(s, i)
        case Fail(at, msg) => Fail(at, msg)
        case Ok(bytes, j) => StringBody(s, j, acc + bytes)
  }

  /** The body at a backslash: the escape decides how it goes on. */
  lemma EscapeBody(s: seq<Byte>, i: nat, acc: seq<Byte>)
    requires i < |s| && s[i] == 0x5C
    ensures i + 1 >= |s| ==> StringBody(s, i, acc) == Fail(i + 1, "unterminated escape sequence")
    ensures i + 1 < |s| && SimpleEscape(s[i + 1]).Some? ==>
      StringBody(s, i, acc) == StringBody(s, i + 2, acc + [SimpleEscape(s[i + 1]).value])
    ensures i + 1 < |s| && SimpleEscape(s[i + 1]).None? && s[i + 1] == 0x75 && EscapeUAt(s, i + 2).Fail? ==>
      StringBody(s, i, acc) == Fail(EscapeUAt(s, i + 2).at, EscapeUAt(s, i + 2).msg)
    ensures i + 1 < |s| && SimpleEscape(s[i + 1]).None? && s[i + 1] == 0x75 && EscapeUAt(s, i + 2).Ok? ==>
      StringBody(s, i, acc) == StringBody(s, EscapeUAt(s, i + 2).next, acc + EscapeUAt(s, i + 2).value)
    ensures i + 1 < |s| && SimpleEscape(s[i + 1]).None? && s[i + 1] != 0x75 ==>
      StringBody(s, i, acc) == Fail(i + 2, "invalid escape in string")
  {
  }

  /** parseString: the opening quote, then the body. */
  function StringAt(s: seq<Byte>, i: nat): (r: Res<seq<Byte>>)
    requires i <= |s|
    ensures r.Ok? ==> i < r.next <= |s|
  {
    if i >= |s| || s[i] != 0x22 then Fail(i, "expected '\"'")
    else StringBody(s, i + 1, [])
  }

  // ---------------------------------------------------------------------
  // Numbers
  // ---------------------------------------------------------------------

  /** The end of the run of digits starting at i. */
  function DigitsEnd(s: seq<Byte>, i: nat): (j: nat)
    requires i <= |s|
    ensures i <= j <= |s|
    ensures forall k :: i <= k < j ==> IsDigitByte(s[k])
    ensures j < |s| ==> !IsDigitByte(s[j])
    decreases |s| - i
  {
    if i < |s| && IsDigitByte(s[i]) then DigitsEnd(s, i + 1) else i
  }

  /** The integer part at j: a single '0', or a non-zero digit and the digits after it; the end on success. */
  function IntPartAt(s: seq<Byte>, j: nat): (r: Res<nat>)
    requires j <= |s|
    ensures r.Ok? ==> j < r.next <= |s| && r.value == r.next
    ensures r.Ok? ==> forall k :: j <= k < r.value ==> IsDigitByte(s[k])
  {
    if j >= |s| then Fail(j, "incomplete number")
    else if s[j] == 0x30 then
      if j + 1 < |s| && IsDigitByte(s[j + 1]) then Fail(j + 1, "leading zeros are not allowed")
      else Ok(j + 1, j + 1)
    else if IsDigitByte(s[j]) then Ok(DigitsEnd(s, j), DigitsEnd(s, j))
    else Fail(j, "invalid number")
  }

  /** The optional fraction at i: the start and end of its digits (equal when there is no fraction). */
  function FracPartAt(s: seq<Byte>, i: nat): (r: Res<(nat, nat)>)
    requires i <= |s|
    ensures r.Ok? ==> i <= r.value.0 <= r.value.1 == r.next <= |s|
    ensures r.Ok? ==> forall k :: r.value.0 <= k < r.value.1 ==> IsDigitByte(s[k])
  {
    if i < |s| && s[i] == 0x2E then
      if i + 1 >= |s| || !IsDigitByte(s[i + 1]) then Fail(i + 1, "fraction requires at least one digit")
      else Ok((i + 1, DigitsEnd(s, i + 1)), DigitsEnd(s, i + 1))
    else Ok((i, i), i)
  }

  /** The optional exponent at i: its sign, and the start and end of its digits. */
  function ExpPartAt(s: seq<Byte>, i: nat): (r: Res<(bool, nat, nat)>)
    requires i <= |s|
    ensures r.Ok? ==> i <= r.value.1 <= r.value.2 == r.next <= |s|
    ensures r.Ok? ==> forall k :: r.value.1 <= k < r.value.2 ==> IsDigitByte(s[k])
  {
    if i < |s| && (s[i] == 0x65 || s[i] == 0x45) then
      var m := if i + 1 < |s| && (s[i + 1] == 0x2B || s[i + 1] == 0x2D) then i + 2 else i + 1;
      var neg := i + 1 < |s| && s[i + 1] == 0x2D;
      if m >= |s| || !IsDigitByte(s[m]) then Fail(m, "exponent requires at least one digit")
      else Ok((neg, m, DigitsEnd(s, m)), DigitsEnd(s, m))
    else Ok((false, i, i), i)
  }

  /** The exponent value parseNumber accumulates: clamped to 2·10^9, then negated for '-'. */
  function ExponentValue(s: seq<Byte>, neg: bool, m: nat, e: nat): int
    requires m <= e <= |s| && forall k :: m <= k < e ==> IsDigitByte(s[k])
  {
    var v: int := ClampedExp(s[m..e]);
    if neg then -v else v
  }

  /** parseNumber: sign, integer part, fraction, exponent, a delimiter or the end, then the exact value. */
  function NumberAt(s: seq<Byte>, i: nat): (r: Res<Value>)
    requires i <= |s|
    ensures r.Ok? ==> i < r.next <= |s|
  {
    var neg := i < |s| && s[i] == 0x2D;
    var j := if neg then i + 1 else i;
    match IntPartAt(s, j)
    case Fail(at, msg) => Fail(at, msg)
    case Ok(intEnd, _) =>
      match FracPartAt(s, intEnd)
      case Fail(at, msg) => Fail(at, msg)
      case Ok(frac, fracEnd) =>
        match ExpPartAt(s, fracEnd)
        case Fail(at, msg) => Fail(at, msg)
        case Ok(ex, e) =>
          if e < |s| && !IsDelim(s[e]) then Fail(e, "invalid character following number")
          else
            Ok(Number(Normalize(neg, s[j..intEnd], s[frac.0..frac.1], ExponentValue(s, ex.0, ex.1, ex.2))), e)
  }

  // ---------------------------------------------------------------------
  // Values
  // ---------------------------------------------------------------------

  /** parseValue at i, entered with the nesting depth depth. */
  function ValueAt(s: seq<Byte>, i: nat, depth: nat, maxDepth: nat): (r: Res<Value>)
    requires i <= |s|
    ensures r.Ok? ==> i < r.next <= |s|
    decreases |s| - i, 2
  {
    if depth + 1 > maxDepth then Fail(i, "exceeded maximum nesting depth")
    else
      var j := SkipWS(s, i);
      if j >= |s| then Fail(j, "unexpected end of input")
      else
        var c := s[j];
        if c == 0x6E then LiteralAt(s, j, NullWord, Null)
        else if c == 0x74 then LiteralAt(s, j, TrueWord, Bool(true))
        else if c == 0x66 then LiteralAt(s, j, FalseWord, Bool(false))
        else if c == 0x22 then
          match StringAt(s, j)
          case Fail(at, msg) => Fail(at, msg)
          case Ok(x, k) => Ok(String(x), k)
        else if c == 0x7B then ObjectAt(s, j, depth + 1, maxDepth)
        else if c == 0x5B then ArrayAt(s, j, depth + 1, maxDepth)
        else if c == 0x2D || IsDigitByte(c) then NumberAt(s, j)
        else Fail(j, "unexpected character")
  }

  /** parseArray at its '['. */
  function ArrayAt(s: seq<Byte>, i: nat, depth: nat, maxDepth: nat): (r: Res<Value>)
    requires i < |s|
    ensures r.Ok? ==> i < r.next <= |s|
    decreases |s| - i, 1
  {
    var j := SkipWS(s, i + 1);
    if j < |s| && s[j] == 0x5D then Ok(Array([]), j + 1)
    else ArrayItems(s, j, depth, maxDepth, [])
  }

  /** The element loop of parseArray from i on, with the elements read so far. */
  function ArrayItems(s: seq<Byte>, i: nat, depth: nat, maxDepth: nat, acc: seq<Value>): (r: Res<Value>)
    requires i <= |s|
    ensures r.Ok? ==> i < r.next <= |s|
    decreases |s| - i, 3
  {
    match ValueAt(s, i, depth, maxDepth)
    case Fail(at, msg) => Fail(at, msg)
    case Ok(v, k) => ArrayRest(s, k, depth, maxDepth, acc + [v])
  }

  /** What follows an element at k: ',' and the next element, or the closing ']'. */
  function ArrayRest(s: seq<Byte>, k: nat, depth: nat, maxDepth: nat, acc: seq<Value>): (r: Res<Value>)
    requires k <= |s|
    ensures r.Ok? ==> k < r.next <= |s|
    decreases |s| - k, 0
  {
    var j := SkipWS(s, k);
    if j < |s| && s[j] == 0x2C then ArrayItems(s, SkipWS(s, j + 1), depth, maxDepth, acc)
    else if j < |s| && s[j] == 0x5D then Ok(Array(acc), j + 1)
    else Fail(j, "expected ',' or ']'")
  }

  /** parseObject at its '{'. */
  function ObjectAt(s: seq<Byte>, i: nat, depth: nat, maxDepth: nat): (r: Res<Value>)
    requires i < |s|
    ensures r.Ok? ==> i < r.next <= |s|
    decreases |s| - i, 1
  {
    var j := SkipWS(s, i + 1);
    if j < |s| && s[j] == 0x7D then Ok(Object([]), j + 1)
    else Members(s, j, depth, maxDepth, [])
  }

  /** One member of parseObject at i: the quoted name, then the rest of the member. */
  function MemberAt(s: seq<Byte>, i: nat, depth: nat, maxDepth: nat): (r: Res<KeyPair>)
    requires i <= |s|
    ensures r.Ok? ==> i < r.next <= |s|
    decreases |s| - i, 4
  {
    if i >= |s| || s[i] != 0x22 then Fail(i, "object member must start with string name")
    else
      match StringAt(s, i)
      case Fail(at, msg) => Fail(at, msg)
      case Ok(name, k) => MemberValueAt(s, k, name, depth, maxDepth)
  }

  /** After a member's name, at k: ':' and the value. */
  function MemberValueAt(s: seq<Byte>, k: nat, name: seq<Byte>, depth: nat, maxDepth: nat): (r: Res<KeyPair>)
    requires k <= |s|
    ensures r.Ok? ==> k < r.next <= |s|
    decreases |s| - k, 2
  {
    var j := SkipWS(s, k);
    if j >= |s| || s[j] != 0x3A then Fail(j, "expected ':'")
    else NamedValueAt(s, SkipWS(s, j + 1), name, depth, maxDepth)
  }

  /** The value of a member called name, at i. */
  function NamedValueAt(s: seq<Byte>, i: nat, name: seq<Byte>, depth: nat, maxDepth: nat): (r: Res<KeyPair>)
    requires i <= |s|
    ensures r.Ok? ==> i < r.next <= |s|
    decreases |s| - i, 3
  {
    match ValueAt(s, i, depth, maxDepth)
    case Fail(at, msg) => Fail(at, msg)
    case Ok(v, k) => Ok(KeyPair(name, v), k)
  }

  /** The member loop of parseObject from i on, with the members read so far. */
  function Members(s: seq<Byte>, i: nat, depth: nat, maxDepth: nat, acc: seq<KeyPair>): (r: Res<Value>)
    requires i <= |s|
    ensures r.Ok? ==> i < r.next <= |s|
    decreases |s| - i, 5
  {
    match MemberAt(s, i, depth, maxDepth)
    case Fail(at, msg) => Fail(at, msg)
    case Ok(m, k) => MembersRest(s, k, depth, maxDepth, acc + [m])
  }

  /** What follows a member at k: ',' and the next member, or the closing '}'. */
  function MembersRest(s: seq<Byte>, k: nat, depth: nat, maxDepth: nat, acc: seq<KeyPair>): (r: Res<Value>)
    requires k <= |s|
    ensures r.Ok? ==> k < r.next <= |s|
    decreases |s| - k, 0
  {
    var j := SkipWS(s, k);
    if j < |s| && s[j] == 0x2C then Members(s, SkipWS(s, j + 1), depth, maxDepth, acc)
    else if j < |s| && s[j] == 0x7D then Ok(Object(acc), j + 1)
    else Fail(j, "expected ',' or '}'")
  }

  /** parseText: one value, surrounded by white space only. */
  function TextAt(s: seq<Byte>, maxDepth: nat): Res<Value>
  {
    match ValueAt(s, SkipWS(s, 0), 0, maxDepth)
    case Fail(at, msg) => Fail(at, msg)
    case Ok(v, k) =>
      var e := SkipWS(s, k);
      if e != |s| then Fail(e, "trailing content after top-level value") else Ok(v, e)
  }

  /** parseText(text, maxDepth), as its caller sees it. */
  function ParseText(s: seq<Byte>, maxDepth: nat): Outcome<Value>
  {
    Report(s, TextAt(s, maxDepth))
  }
}
