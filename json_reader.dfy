// The jsonio reader as the class it is: a cursor over the input that advances its
// position, line and column one byte at a time and tracks the nesting depth.  Every
// parsing method is proved to compute exactly its function in JsonReaderSpec and to
// leave the cursor after the value, or at the byte the error is reported at.

module JsonReader {

  import opened Wrappers
  import opened Utf8
  import opened JsonBigInt
  import opened JsonNumber
  import opened JsonValue
  import opened JsonReaderSpec

  /** parseText's default nesting limit. */
  const DefaultMaxDepth: nat := 1000

  /** Where a parse leaves the cursor: after the value, or at the error. */
  function Stop<T>(r: Res<T>): nat
  {
    if r.Ok? then r.next else r.at
  }

  /** One turn of a parsing loop: finished (or failed) with a result, or going on with what was read so far. */
  datatype Step<R, A> = Done(result: Res<R>) | More(acc: A)

  class Parser {
    const input: seq<Byte>
    const maxDepth: nat
    var p: nat
    var line: nat
    var col: nat
    var depth: nat

    /** The line and column always describe the position p. */
    ghost predicate Valid()
      reads this
    {
      p <= |input| && (line, col) == LineCol(input, p)
    }

    constructor(text: seq<Byte>, limit: nat)
      ensures input == text && maxDepth == limit
      ensures p == 0 && depth == 0 && Valid()
    {
      input := text;
      maxDepth := limit;
      p := 0;
      line := 1;
      col := 1;
      depth := 0;
    }

    /** advance: one byte forward; a newline moves to column 1 of the next line. */
    method Advance()
      requires Valid()
      modifies this
      ensures Valid() && depth == old(depth)
      ensures p == if old(p) < |input| then old(p) + 1 else old(p)
    {
      if p >= |input| { return; }
      if input[p] == 0x0A {
        line := line + 1;
        col := 1;
      } else {
        col := col + 1;
      }
      p := p + 1;
    }

    /** advanceN: n bytes forward, stopping at the end. */
    method AdvanceN(n: nat)
      requires Valid()
      modifies this
      ensures Valid() && depth == old(depth)
      ensures p == if old(p) + n <= |input| then old(p) + n else |input|
    {
      var k: nat := n;
      while k > 0
        invariant Valid() && depth == old(depth) && k <= n
        invariant p == if old(p) + (n - k) <= |input| then old(p) + (n - k) else |input|
      {
        Advance();
        k := k - 1;
      }
    }

    /** ws: skips white space. */
    method Ws()
      requires Valid()
      modifies this
      ensures Valid() && depth == old(depth)
      ensures p == SkipWS(input, old(p))
    {
      while p < |input| && IsWS(input[p])
        invariant Valid() && depth == old(depth) && old(p) <= p
        invariant SkipWS(input, p) == SkipWS(input, old(p))
        decreases |input| - p
      {
        Advance();
      }
    }

    /** parseLiteral: the keyword byte by byte, then a delimiter or the end. */
    method ParseLiteral(kw: seq<Byte>, v: Value) returns (r: Res<Value>)
      requires Valid() && |kw| > 0
      modifies this
      ensures Valid() && depth == old(depth)
      ensures r == LiteralAt(input, old(p), kw, v) && p == Stop(r)
    {
      ghost var i := p;
      var k := 0;
      while k < |kw|
        invariant Valid() && depth == old(depth)
        invariant k <= |kw| && p == i + k
        invariant KeywordMatch(input, i, kw, k) == KeywordMatch(input, i, kw, 0)
      {
        if p >= |input| || input[p] != kw[k] {
          return Fail(p, "invalid literal");
        }
        Advance();
        k := k + 1;
      }
      if p < |input| && !IsDelim(input[p]) {
        return Fail(p, "invalid character following literal");
      }
      return Ok(v, p);
    }

    /** hex4: four hexadecimal digits, most significant first. */
    method Hex4() returns (r: Res<nat>)
      requires Valid()
      modifies this
      ensures Valid() && depth == old(depth)
      ensures r == Hex4At(input, old(p)) && p == Stop(r)
    {
      ghost var i := p;
      var v: nat := 0;
      for k := 0 to 4
        invariant Valid() && depth == old(depth)
        invariant p == i + k <= |input| && v < HexScale(k)
        invariant Hex4From(input, i, k, v) == Hex4At(input, i)
      {
        if p >= |input| {
          return Fail(p, "unexpected end while reading \\uXXXX");
        }
        var h := HexValue(input[p]);
        if h < 0 {
          return Fail(p, "invalid hex digit in \\uXXXX escape");
        }
        HexStep(v, h, k);
        v := v * 16 + h;
        Advance();
      }
      return Ok(v, p);
    }

    /** The \u escape after its 'u': one code unit, or a surrogate pair combined into one code point. */
    method EscapeU() returns (r: Res<seq<Byte>>)
      requires Valid()
      modifies this
      ensures Valid() && depth == old(depth)
      ensures r == EscapeUAt(input, old(p)) && p == Stop(r)
    {
      var u := Hex4();
      if u.Fail? {
        return Fail(u.at, u.msg);
      }
      var hi := u.value;
      if 0xD800 <= hi <= 0xDBFF {
        r := LowSurrogate(hi);
        return;
      } else if 0xDC00 <= hi <= 0xDFFF {
        return Fail(p, "lone low surrogate");
      }
      var bytes := EmitUtf8([], hi);
      assert bytes == Encode(hi);
      return Ok(bytes, p);
    }

    /** The second half of a surrogate pair after the high surrogate hi. */
    method LowSurrogate(hi: nat) returns (r: Res<seq<Byte>>)
      requires Valid() && 0xD800 <= hi <= 0xDBFF
      modifies this
      ensures Valid() && depth == old(depth)
      ensures r == LowSurrogateAt(input, old(p), hi) && p == Stop(r)
    {
      if p >= |input| || input[p] != 0x5C {
        return Fail(p, "expected second surrogate: missing backslash");
      }
      Advance();
      if p >= |input| || input[p] != 0x75 {
        return Fail(p, "expected 'u' starting second surrogate");
      }
      Advance();
      var u2 := Hex4();
      if u2.Fail? {
        return Fail(u2.at, u2.msg);
      }
      var lo := u2.value;
      if !(0xDC00 <= lo <= 0xDFFF) {
        return Fail(p, "invalid low surrogate");
      }
      var cp := 0x10000 + (hi - 0xD800) * 0x400 + (lo - 0xDC00);
      var bytes := EmitUtf8([], cp);
      assert bytes == Encode(PairCodePoint(hi, lo));
      return Ok(bytes, p);
    }

    /** readUtf8Validated: one non-ASCII UTF-8 sequence, copied as it is. */
    method ReadUtf8Validated() returns (r: Res<seq<Byte>>)
      requires Valid() && p < |input|
      modifies this
      ensures Valid() && depth == old(depth)
      ensures r == Utf8At(input, old(p)) && p == Stop(r)
    {
      var c0 := input[p];
      if c0 < 0x80 {
        Advance();
        return Ok([c0], p);
      }
      var decoded := LeadDecode(input, p);
      if decoded.None? {
        return Fail(p, "invalid UTF-8 encoding in string");
      }
      LeadDecodeMatchesSyntax(input, p);
      var need := decoded.value.length;
      var bytes := input[p..p + need];
      AdvanceN(need);
      return Ok(bytes, p);
    }

    /** One turn of parseString's loop at a byte that is not the end of the input. */
    method StringStep(out: seq<Byte>) returns (st: Step<seq<Byte>, seq<Byte>>)
      requires Valid() && p < |input|
      modifies this
      ensures Valid() && depth == old(depth)
      ensures st.Done? ==> st.result == StringBody(input, old(p), out) && p == Stop(st.result)
      ensures st.More? ==> old(p) < p <= |input| && StringBody(input, p, st.acc) == StringBody(input, old(p), out)
    {
      var c := input[p];
      if c == 0x22 {
        Advance();
        return Done(Ok(out, p));
      }
      if c <= 0x1F {
        return Done(Fail(p, "unescaped control character in string"));
      }
      if c == 0x5C {
        st := EscapeStep(out);
        return;
      }
      if c < 0x80 {
        Advance();
        return More(out + [c]);
      }
      var u := ReadUtf8Validated();
      if u.Fail? {
        return Done(Fail(u.at, u.msg));
      }
      return More(out + u.value);
    }

    /** A backslash escape inside a string. */
    method EscapeStep(out: seq<Byte>) returns (st: Step<seq<Byte>, seq<Byte>>)
      requires Valid() && p < |input| && input[p] == 0x5C
      modifies this
      ensures Valid() && depth == old(depth)
      ensures st.Done? ==> st.result == StringBody(input, old(p), out) && p == Stop(st.result)
      ensures st.More? ==> old(p) < p <= |input| && StringBody(input, p, st.acc) == StringBody(input, old(p), out)
    {
      EscapeBody(input, p, out);
      Advance();
      if p >= |input| {
        return Done(Fail(p, "unterminated escape sequence"));
      }
      var e := input[p];
      Advance();
      var simple := SimpleEscape(e);
      if simple.Some? {
        return More(out + [simple.value]);
      }
      if e == 0x75 {
        var u := EscapeU();
        if u.Fail? {
          return Done(Fail(u.at, u.msg));
        }
        return More(out + u.value);
      }
      return Done(Fail(p, "invalid escape in string"));
    }

    /** parseString: the opening quote, then bytes up to the closing quote. */
    method ParseString() returns (r: Res<seq<Byte>>)
      requires Valid()
      modifies this
      ensures Valid() && depth == old(depth)
      ensures r == StringAt(input, old(p)) && p == Stop(r)
    {
      ghost var i := p;
      if p >= |input| || input[p] != 0x22 {
        return Fail(p, "expected '\"'");
      }
      Advance();
      var out: seq<Byte> := [];
      while p < |input|
        invariant Valid() && depth == old(depth) && i < p
        invariant StringBody(input, p, out) == StringAt(input, i)
        decreases |input| - p
      {
        var st := StringStep(out);
        if st.Done? {
          return st.result;
        }
        out := st.acc;
      }
      return Fail(p, "unterminated string");
    }

    /** The digits from p on. */
    method ReadDigits() returns (digits: seq<Byte>)
      requires Valid()
      modifies this
      ensures Valid() && depth == old(depth)
      ensures p == DigitsEnd(input, old(p)) && digits == input[old(p)..p]
    {
      digits := [];
      while p < |input| && IsDigitByte(input[p])
        invariant Valid() && depth == old(depth) && old(p) <= p
        invariant DigitsEnd(input, p) == DigitsEnd(input, old(p)) && digits == input[old(p)..p]
        decreases |input| - p
      {
        digits := digits + [input[p]];
        Advance();
      }
    }

    /** The integer part: a single '0', or a non-zero digit and the digits after it. */
    method ReadIntPart() returns (r: Res<nat>, digits: seq<Byte>)
      requires Valid()
      modifies this
      ensures Valid() && depth == old(depth)
      ensures r == IntPartAt(input, old(p)) && p == Stop(r)
      ensures r.Ok? ==> digits == input[old(p)..r.next]
    {
      if p >= |input| {
        return Fail(p, "incomplete number"), [];
      }
      if input[p] == 0x30 {
        Advance();
        if p < |input| && IsDigitByte(input[p]) {
          return Fail(p, "leading zeros are not allowed"), [];
        }
        return Ok(p, p), [0x30];
      }
      if IsDigitByte(input[p]) {
        digits := ReadDigits();
        return Ok(p, p), digits;
      }
      return Fail(p, "invalid number"), [];
    }

    /** The optional fraction: '.' and at least one digit. */
    method ReadFracPart() returns (r: Res<(nat, nat)>, digits: seq<Byte>)
      requires Valid()
      modifies this
      ensures Valid() && depth == old(depth)
      ensures r == FracPartAt(input, old(p)) && p == Stop(r)
      ensures r.Ok? ==> digits == input[r.value.0..r.value.1]
    {
      if p < |input| && input[p] == 0x2E {
        Advance();
        if p >= |input| || !IsDigitByte(input[p]) {
          return Fail(p, "fraction requires at least one digit"), [];
        }
        var start := p;
        digits := ReadDigits();
        return Ok((start, p), p), digits;
      }
      return Ok((p, p), p), [];
    }

    /** The exponent digits, accumulated with the clamp at 2*10^9 after every digit. */
    method ReadExpDigits() returns (v: nat)
      requires Valid()
      modifies this
      ensures Valid() && depth == old(depth)
      ensures p == DigitsEnd(input, old(p))
      ensures AllDigits(input[old(p)..p]) && v == ClampedExp(input[old(p)..p])
    {
      v := 0;
      while p < |input| && IsDigitByte(input[p])
        invariant Valid() && depth == old(depth) && old(p) <= p
        invariant DigitsEnd(input, p) == DigitsEnd(input, old(p))
        invariant AllDigits(input[old(p)..p]) && v == ClampedExp(input[old(p)..p])
        decreases |input| - p
      {
        assert input[old(p)..p + 1][..p - old(p)] == input[old(p)..p];
        v := v * 10 + DigitOf(input[p]);
        if v > ExpClamp {
          v := ExpClamp;
        }
        Advance();
      }
    }

    /** The optional exponent: 'e' or 'E', an optional sign, at least one digit; its signed value. */
    method ReadExpPart() returns (r: Res<(bool, nat, nat)>, expPart: int)
      requires Valid()
      modifies this
      ensures Valid() && depth == old(depth)
      ensures r == ExpPartAt(input, old(p)) && p == Stop(r)
      ensures r.Ok? ==> expPart == ExponentValue(input, r.value.0, r.value.1, r.value.2)
    {
      if p < |input| && (input[p] == 0x65 || input[p] == 0x45) {
        Advance();
        var neg := false;
        if p < |input| && (input[p] == 0x2B || input[p] == 0x2D) {
          neg := input[p] == 0x2D;
          Advance();
        }
        if p >= |input| || !IsDigitByte(input[p]) {
          return Fail(p, "exponent requires at least one digit"), 0;
        }
        var start := p;
        var v := ReadExpDigits();
        expPart := if neg then -(v as int) else v;
        return Ok((neg, start, p), p), expPart;
      }
      return Ok((false, p, p), p), 0;
    }

    /** parseNumber: sign, integer part, fraction, exponent, a delimiter or the end, then the exact value. */
    method ParseNumber() returns (r: Res<Value>)
      requires Valid()
      modifies this
      ensures Valid() && depth == old(depth)
      ensures r == NumberAt(input, old(p)) && p == Stop(r)
    {
      var neg := false;
      if p < |input| && input[p] == 0x2D {
        neg := true;
        Advance();
      }
      var ir, intDigits := ReadIntPart();
      if ir.Fail? {
        return Fail(ir.at, ir.msg);
      }
      var fr, fracDigits := ReadFracPart();
      if fr.Fail? {
        return Fail(fr.at, fr.msg);
      }
      var er, expPart := ReadExpPart();
      if er.Fail? {
        return Fail(er.at, er.msg);
      }
      if p < |input| && !IsDelim(input[p]) {
        return Fail(p, "invalid character following number");
      }
      var d := NormalizeDigits(neg, intDigits, fracDigits, expPart);
      return Ok(Number(d), p);
    }

    /** parseValue: one nesting level deeper, white space, then a value chosen by its first byte. */
    method ParseValue() returns (r: Res<Value>)
      requires Valid()
      modifies this
      ensures Valid() && depth == old(depth)
      ensures r == ValueAt(input, old(p), old(depth), maxDepth) && p == Stop(r)
      decreases |input| - p, 2
    {
      depth := depth + 1;
      if depth > maxDepth {
        depth := depth - 1;
        return Fail(p, "exceeded maximum nesting depth");
      }
      Ws();
      if p >= |input| {
        r := Fail(p, "unexpected end of input");
      } else {
        var c := input[p];
        if c == 0x6E {
          r := ParseLiteral(NullWord, Null);
        } else if c == 0x74 {
          r := ParseLiteral(TrueWord, Bool(true));
        } else if c == 0x66 {
          r := ParseLiteral(FalseWord, Bool(false));
        } else if c == 0x22 {
          var x := ParseString();
          r := if x.Ok? then Ok(String(x.value), x.next) else Fail(x.at, x.msg);
        } else if c == 0x7B {
          r := ParseObject();
        } else if c == 0x5B {
          r := ParseArray();
        } else if c == 0x2D || IsDigitByte(c) {
          r := ParseNumber();
        } else {
          r := Fail(p, "unexpected character");
        }
      }
      depth := depth - 1;
    }

    /** parseArray at its '[' (parseValue has seen it, so expect('[') cannot fail). */
    method ParseArray() returns (r: Res<Value>)
      requires Valid() && p < |input| && input[p] == 0x5B
      modifies this
      ensures Valid() && depth == old(depth)
      ensures r == ArrayAt(input, old(p), depth, maxDepth) && p == Stop(r)
      decreases |input| - p, 1
    {
      ghost var i := p;
      Advance();
      Ws();
      if p < |input| && input[p] == 0x5D {
        Advance();
        return Ok(Array([]), p);
      }
      var arr: seq<Value> := [];
      while true
        invariant Valid() && depth == old(depth) && i < p
        invariant ArrayItems(input, p, depth, maxDepth, arr) == ArrayAt(input, i, depth, maxDepth)
        decreases |input| - p
      {
        var st := ArrayElement(arr);
        if st.Done? {
          return st.result;
        }
        arr := st.acc;
      }
    }

    /** One turn of parseArray's loop: a value, then ',' to go on or ']' to finish. */
    method ArrayElement(arr: seq<Value>) returns (st: Step<Value, seq<Value>>)
      requires Valid()
      modifies this
      ensures Valid() && depth == old(depth)
      ensures st.Done? ==> st.result == ArrayItems(input, old(p), depth, maxDepth, arr) && p == Stop(st.result)
      ensures st.More? ==> old(p) < p && ArrayItems(input, p, depth, maxDepth, st.acc) == ArrayItems(input, old(p), depth, maxDepth, arr)
      decreases |input| - p, 3
    {
      var v := ParseValue();
      if v.Fail? {
        return Done(Fail(v.at, v.msg));
      }
      st := ArraySeparator(arr + [v.value]);
    }

    /** After an element: ',' to go on or ']' to finish. */
    method ArraySeparator(arr: seq<Value>) returns (st: Step<Value, seq<Value>>)
      requires Valid()
      modifies this
      ensures Valid() && depth == old(depth)
      ensures st.Done? ==> st.result == ArrayRest(input, old(p), depth, maxDepth, arr) && p == Stop(st.result)
      ensures st.More? ==> old(p) < p && ArrayItems(input, p, depth, maxDepth, arr) == ArrayRest(input, old(p), depth, maxDepth, arr) && st.acc == arr
    {
      Ws();
      if p < |input| && input[p] == 0x2C {
        Advance();
        Ws();
        return More(arr);
      }
      if p < |input| && input[p] == 0x5D {
        Advance();
        return Done(Ok(Array(arr), p));
      }
      return Done(Fail(p, "expected ',' or ']'"));
    }

    /** One member of parseObject: the name, ':', the value. */
    method ParseMember() returns (r: Res<KeyPair>)
      requires Valid()
      modifies this
      ensures Valid() && depth == old(depth)
      ensures r == MemberAt(input, old(p), depth, maxDepth) && p == Stop(r)
      decreases |input| - p, 4
    {
      if p >= |input| || input[p] != 0x22 {
        return Fail(p, "object member must start with string name");
      }
      var name := ParseString();
      if name.Fail? {
        return Fail(name.at, name.msg);
      }
      r := MemberValue(name.value);
    }

    /** After a member's name: ':' and the value. */
    method MemberValue(name: seq<Byte>) returns (r: Res<KeyPair>)
      requires Valid()
      modifies this
      ensures Valid() && depth == old(depth)
      ensures r == MemberValueAt(input, old(p), name, depth, maxDepth) && p == Stop(r)
      decreases |input| - p, 2
    {
      Ws();
      if p >= |input| || input[p] != 0x3A {
        return Fail(p, "expected ':'");
      }
      Advance();
      Ws();
      r := NamedValue(name);
    }

    /** The value of a member called name. */
    method NamedValue(name: seq<Byte>) returns (r: Res<KeyPair>)
      requires Valid()
      modifies this
      ensures Valid() && depth == old(depth)
      ensures r == NamedValueAt(input, old(p), name, depth, maxDepth) && p == Stop(r)
      decreases |input| - p, 3
    {
      var v := ParseValue();
      if v.Fail? {
        return Fail(v.at, v.msg);
      }
      return Ok(KeyPair(name, v.value), p);
    }

    /** parseObject at its '{' (parseValue has seen it, so expect('{') cannot fail); members keep their order. */
    method ParseObject() returns (r: Res<Value>)
      requires Valid() && p < |input| && input[p] == 0x7B
      modifies this
      ensures Valid() && depth == old(depth)
      ensures r == ObjectAt(input, old(p), depth, maxDepth) && p == Stop(r)
      decreases |input| - p, 1
    {
      ghost var i := p;
      Advance();
      Ws();
      if p < |input| && input[p] == 0x7D {
        Advance();
        return Ok(Object([]), p);
      }
      var obj: seq<KeyPair> := [];
      while true
        invariant Valid() && depth == old(depth) && i < p
        invariant Members(input, p, depth, maxDepth, obj) == ObjectAt(input, i, depth, maxDepth)
        decreases |input| - p
      {
        var st := ObjectMember(obj);
        if st.Done? {
          return st.result;
        }
        obj := st.acc;
      }
    }

    /** One turn of parseObject's loop: a member, then ',' to go on or '}' to finish. */
    method ObjectMember(obj: seq<KeyPair>) returns (st: Step<Value, seq<KeyPair>>)
      requires Valid()
      modifies this
      ensures Valid() && depth == old(depth)
      ensures st.Done? ==> st.result == Members(input, old(p), depth, maxDepth, obj) && p == Stop(st.result)
      ensures st.More? ==> old(p) < p && Members(input, p, depth, maxDepth, st.acc) == Members(input, old(p), depth, maxDepth, obj)
      decreases |input| - p, 5
    {
      var m := ParseMember();
      if m.Fail? {
        return Done(Fail(m.at, m.msg));
      }
      st := ObjectSeparator(obj + [m.value]);
    }

    /** After a member: ',' to go on or '}' to finish. */
    method ObjectSeparator(obj: seq<KeyPair>) returns (st: Step<Value, seq<KeyPair>>)
      requires Valid()
      modifies this
      ensures Valid() && depth == old(depth)
      ensures st.Done? ==> st.result == MembersRest(input, old(p), depth, maxDepth, obj) && p == Stop(st.result)
      ensures st.More? ==> old(p) < p && Members(input, p, depth, maxDepth, obj) == MembersRest(input, old(p), depth, maxDepth, obj) && st.acc == obj
    {
      Ws();
      if p < |input| && input[p] == 0x2C {
        Advance();
        Ws();
        return More(obj);
      }
      if p < |input| && input[p] == 0x7D {
        Advance();
        return Done(Ok(Object(obj), p));
      }
      return Done(Fail(p, "expected ',' or '}'"));
    }

    /** parseText: one value surrounded by white space; an error carries the line and column it was raised at. */
    method ParseText() returns (r: Outcome<Value>)
      requires Valid() && p == 0 && depth == 0
      modifies this
      ensures r == Report(input, TextAt(input, maxDepth))
    {
      Ws();
      var v := ParseValue();
      if v.Fail? {
        return Raised(line, col, v.msg);
      }
      Ws();
      if p != |input| {
        return Raised(line, col, "trailing content after top-level value");
      }
      return Got(v.value);
    }
  }

  /** emit_utf8: the bytes of a code point, pushed one by one. */
  method EmitUtf8(out: seq<Byte>, cp: nat) returns (o: seq<Byte>)
    requires cp <= 0x10FFFF
    ensures o == out + Encode(cp)
  {
    if cp <= 0x7F {
      o := out + [cp];
    } else if cp <= 0x7FF {
      o := out + [0xC0 + (cp / 0x40) % 0x20];
      o := o + [0x80 + cp % 0x40];
    } else if cp <= 0xFFFF {
      o := out + [0xE0 + (cp / 0x1000) % 0x10];
      o := o + [0x80 + (cp / 0x40) % 0x40];
      o := o + [0x80 + cp % 0x40];
    } else {
      o := out + [0xF0 + (cp / 0x40000) % 0x08];
      o := o + [0x80 + (cp / 0x1000) % 0x40];
      o := o + [0x80 + (cp / 0x40) % 0x40];
      o := o + [0x80 + cp % 0x40];
    }
  }

  /** One more hex digit keeps the value below the next power of 16. */
  lemma HexStep(v: nat, h: int, k: nat)
    requires k < 4 && v < HexScale(k) && 0 <= h < 16
    ensures v * 16 + h < HexScale(k + 1)
  {
  }

  /** The first position of s that holds no '0', by the loop find_first_not_of runs. */
  lemma {:induction false} FirstNonZeroIs(s: seq<Byte>, i: nat)
    requires i <= |s| && (forall j :: 0 <= j < i ==> s[j] == 0x30) && (i < |s| ==> s[i] != 0x30)
    ensures FirstNonZero(s) == i
    decreases i
  {
    if i > 0 {
      assert s[0] == 0x30;
      var t := s[1..];
      assert forall j :: 0 <= j < i - 1 ==> t[j] == s[j + 1];
      FirstNonZeroIs(t, i - 1);
    }
  }

  /** The first loop of the normalisation: skip the leading '0' digits. */
  method SkipLeadingZeros(combined: seq<Byte>) returns (i: nat)
    ensures i == FirstNonZero(combined)
  {
    i := 0;
    while i < |combined| && combined[i] == 0x30
      invariant i <= |combined| && forall j :: 0 <= j < i ==> combined[j] == 0x30
    {
      i := i + 1;
    }
    FirstNonZeroIs(combined, i);
  }

  /** The second loop: pop the trailing '0' digits, counting them. */
  method PopTrailingZeros(stripped: seq<Byte>) returns (core: seq<Byte>, tz: nat)
    ensures tz == TrailingZeros(stripped) && core == stripped[..|stripped| - tz]
  {
    core := stripped;
    tz := 0;
    while |core| > 0 && core[|core| - 1] == 0x30
      invariant tz <= |stripped| && core == stripped[..|stripped| - tz]
      invariant forall j :: |stripped| - tz <= j < |stripped| ==> stripped[j] == 0x30
      decreases |core|
    {
      core := core[..|core| - 1];
      tz := tz + 1;
    }
    TrailingZerosUnique(stripped, |stripped| - tz);
  }

  /** parseNumber's normalisation: strip the leading zeros, pop the trailing ones, build the BigInt. */
  method NormalizeDigits(neg: bool, intDigits: seq<Byte>, fracDigits: seq<Byte>, expPart: int) returns (d: Decimal)
    requires AllDigits(intDigits) && AllDigits(fracDigits)
    ensures d == Normalize(neg, intDigits, fracDigits, expPart)
  {
    var combined := intDigits + fracDigits;
    assert AllDigits(combined);
    var i := SkipLeadingZeros(combined);
    if i == |combined| {
      return Zero;
    }
    var stripped := combined[i..];
    assert stripped == Stripped(combined);
    var core, tz := PopTrailingZeros(stripped);
    assert core == Core(stripped);
    var n := BigInt.FromDecimalDigits(core);
    CanonicalLimbs(n.limb);
    var negOut := neg;
    if n.IsZero() {
      negOut := false;
    }
    d := Decimal(negOut, n.limb, Int32(expPart - |fracDigits| + tz));
  }

  /** jsonio::parseText(text, maxDepth): a fresh reader over the text. */
  method Parse(text: seq<Byte>, maxDepth: nat) returns (r: Outcome<Value>)
    ensures r == ParseText(text, maxDepth)
  {
    var reader := new Parser(text, maxDepth);
    r := reader.ParseText();
  }
}
