// Properties of the jsonio reader and writer: literals need a delimiter, strings
// read and escaped follow RFC 3629 and section 9 of ECMA-404, escaping is undone by
// reading, and nesting is bounded by maxDepth.

module JsonProps {

  import opened Utf8
  import opened JsonBigInt
  import opened JsonNumber
  import opened JsonValue
  import opened JsonReaderSpec
  import opened JsonDump

  // ---------------------------------------------------------------------
  // Literals
  // ---------------------------------------------------------------------

  /** parseLiteral succeeds exactly when the keyword is there and a delimiter or the end follows it. */
  lemma LiteralAtIff(s: seq<Byte>, i: nat, kw: seq<Byte>, v: Value)
    requires |kw| > 0
    ensures LiteralAt(s, i, kw, v).Ok? <==>
              i + |kw| <= |s| && s[i..i + |kw|] == kw && (i + |kw| == |s| || IsDelim(s[i + |kw|]))
    ensures LiteralAt(s, i, kw, v).Ok? ==> LiteralAt(s, i, kw, v) == Ok(v, i + |kw|)
  {
    var m := KeywordMatch(s, i, kw, 0);
    if m == |kw| {
      assert forall j :: 0 <= j < |kw| ==> s[i..i + |kw|][j] == kw[j];
    }
  }

  // ---------------------------------------------------------------------
  // UTF-8 in strings
  // ---------------------------------------------------------------------

  /** The first character of a is recognised in its own bytes. */
  lemma CharLengthOfPrefix(a: seq<Byte>)
    requires CharLength(a) > 0
    ensures CharLength(a[..CharLength(a)]) == CharLength(a)
  {
    var n := CharLength(a);
    var p := a[..n];
    assert p[0] == a[0];
    if n >= 2 { assert p[1] == a[1]; }
    if n >= 3 { assert p[2] == a[2]; }
    if n >= 4 { assert p[3] == a[3]; }
  }

  /** A single ASCII byte is well-formed UTF-8. */
  lemma AsciiWellFormed(b: Byte)
    requires b < 0x80
    ensures Utf8.WellFormed([b])
  {
    assert [b][1..] == [];
  }

  /** readUtf8Validated accepts exactly the UTF8-char rule of section 4 of RFC 3629 and copies one character. */
  lemma Utf8AtIsRfc3629(s: seq<Byte>, i: nat)
    requires i < |s|
    ensures Utf8At(s, i).Ok? <==> CharLength(s[i..]) > 0
    ensures Utf8At(s, i).Ok? ==> Utf8At(s, i).next == i + CharLength(s[i..])
    ensures Utf8At(s, i).Ok? ==> Utf8.WellFormed(Utf8At(s, i).value)
  {
    LeadDecodeMatchesSyntax(s, i);
    var t := s[i..];
    assert t[0] == s[i];
    if CharLength(t) > 0 {
      var n := CharLength(t);
      CharLengthOfPrefix(t);
      assert t[..n] == s[i..i + n];
      assert s[i..i + n][n..] == [];
    }
  }

  /** The second half of a surrogate pair that is read yields the UTF-8 of one scalar value. */
  lemma LowSurrogateWellFormed(s: seq<Byte>, j: nat, hi: nat)
    requires j <= |s| && 0xD800 <= hi <= 0xDBFF
    ensures LowSurrogateAt(s, j, hi).Ok? ==> Utf8.WellFormed(LowSurrogateAt(s, j, hi).value)
  {
    if j + 1 < |s| && s[j] == 0x5C && s[j + 1] == 0x75 {
      match Hex4At(s, j + 2)
      case Fail(_, _) =>
      case Ok(lo, k) =>
        if 0xDC00 <= lo <= 0xDFFF {
          EncodeDecode(PairCodePoint(hi, lo));
        }
    }
  }

  /** A \u escape that is read yields the UTF-8 of one scalar value. */
  lemma EscapeUWellFormed(s: seq<Byte>, i: nat)
    requires i <= |s|
    ensures EscapeUAt(s, i).Ok? ==> Utf8.WellFormed(EscapeUAt(s, i).value)
  {
    match Hex4At(s, i)
    case Fail(_, _) =>
    case Ok(u, j) =>
      if 0xD800 <= u <= 0xDBFF {
        LowSurrogateWellFormed(s, j, u);
      } else if !(0xDC00 <= u <= 0xDFFF) {
        EncodeDecode(u);
      }
  }

  /** Whatever parseString reads from i on, appended to well-formed bytes, is well-formed. */
  lemma {:induction false} StringBodyWellFormed(s: seq<Byte>, i: nat, acc: seq<Byte>)
    requires i <= |s| && Utf8.WellFormed(acc)
    ensures StringBody(s, i, acc).Ok? ==> Utf8.WellFormed(StringBody(s, i, acc).value)
    decreases |s| - i
  {
    if i < |s| {
      var c := s[i];
      if c == 0x22 || c <= 0x1F {
      } else if c == 0x5C {
        if i + 1 < |s| {
          var e := s[i + 1];
          if SimpleEscape(e).Some? {
            AsciiWellFormed(SimpleEscape(e).value);
            DecodeConcat(acc, [SimpleEscape(e).value]);
            StringBodyWellFormed(s, i + 2, acc + [SimpleEscape(e).value]);
          } else if e == 0x75 {
            EscapeUWellFormed(s, i + 2);
            match EscapeUAt(s, i + 2)
            case Fail(_, _) =>
            case Ok(bytes, j) =>
              DecodeConcat(acc, bytes);
              StringBodyWellFormed(s, j, acc + bytes);
          }
        }
      } else if c < 0x80 {
        AsciiWellFormed(c);
        DecodeConcat(acc, [c]);
        StringBodyWellFormed(s, i + 1, acc + [c]);
      } else {
        Utf8AtIsRfc3629(s, i);
        match Utf8At(s, i)
        case Fail(_, _) =>
        case Ok(bytes, j) =>
          DecodeConcat(acc, bytes);
          StringBodyWellFormed(s, j, acc + bytes);
      }
    }
  }

  /** A string parseString accepts is well-formed UTF-8. */
  lemma StringAtWellFormed(s: seq<Byte>, i: nat)
    requires i <= |s|
    ensures StringAt(s, i).Ok? ==> Utf8.WellFormed(StringAt(s, i).value)
  {
    if i < |s| && s[i] == 0x22 {
      assert Utf8.WellFormed([]);
      StringBodyWellFormed(s, i + 1, []);
    }
  }

  // ---------------------------------------------------------------------
  // Escaping is undone by reading
  // ---------------------------------------------------------------------

  /** Bytes that need no escape are written as they are. */
  lemma {:induction false} RawEscaped(a: seq<Byte>)
    requires forall k :: 0 <= k < |a| ==> a[k] >= 0x80
    ensures Escaped(a) == a
    decreases |a|
  {
    if |a| > 0 {
      RawEscaped(a[1..]);
    }
  }

  /** Every byte of a non-ASCII UTF-8 character is at least 0x80. */
  lemma NonAsciiChar(x: seq<Byte>)
    requires CharLength(x) > 0 && x[0] >= 0x80
    ensures forall k :: 0 <= k < CharLength(x) ==> x[k] >= 0x80
  {
  }

  /** A slice holding a + b holds a and then b. */
  lemma SliceSplit(t: seq<Byte>, i: nat, a: seq<Byte>, b: seq<Byte>)
    requires i + |a| + |b| <= |t| && t[i..i + |a| + |b|] == a + b
    ensures t[i..i + |a|] == a && t[i + |a|..i + |a| + |b|] == b
  {
    var u := t[i..i + |a| + |b|];
    assert t[i..i + |a|] == u[..|a|];
    assert t[i + |a|..i + |a| + |b|] == u[|a|..];
    assert (a + b)[..|a|] == a;
    assert (a + b)[|a|..] == b;
  }

  /** The \u00XX escape of a control byte reads back as that byte. */
  lemma ControlEscapeReads(t: seq<Byte>, i: nat, c: Byte, acc: seq<Byte>)
    requires c <= 0x1F && i + 6 <= |t|
    requires t[i..i + 6] == [0x5C, 0x75, 0x30, 0x30, HexUpper(c / 16), HexUpper(c % 16)]
    ensures StringBody(t, i, acc) == StringBody(t, i + 6, acc + [c])
  {
    assert t[i] == 0x5C && t[i + 1] == 0x75 && t[i + 2] == 0x30 && t[i + 3] == 0x30;
    assert t[i + 4] == HexUpper(c / 16) && t[i + 5] == HexUpper(c % 16);
    var j := i + 2;
    assert Hex4From(t, j, 4, c) == Ok(c, j + 4);
    assert Hex4From(t, j, 3, c / 16) == Ok(c, j + 4);
    assert Hex4From(t, j, 2, 0) == Ok(c, j + 4);
    assert Hex4From(t, j, 1, 0) == Ok(c, j + 4);
    assert Hex4At(t, j) == Ok(c, j + 4);
    assert Encode(c) == [c];
    assert EscapeUAt(t, j) == Ok([c], i + 6);
    assert SimpleEscape(0x75).None?;
  }

  /** The escape of an ASCII byte reads back as that byte. */
  lemma EscapedByteReads(t: seq<Byte>, i: nat, c: Byte, acc: seq<Byte>)
    requires c < 0x80 && i + |EscapeByte(c)| <= |t| && t[i..i + |EscapeByte(c)|] == EscapeByte(c)
    ensures StringBody(t, i, acc) == StringBody(t, i + |EscapeByte(c)|, acc + [c])
  {
    var e := EscapeByte(c);
    assert t[i] == e[0];
    if |e| == 2 {
      assert t[i + 1] == e[1];
    } else if |e| == 6 {
      ControlEscapeReads(t, i, c, acc);
    }
  }

  /** parseString's loop takes a non-ASCII character as one step. */
  lemma NonAsciiStep(t: seq<Byte>, i: nat, x: seq<Byte>, acc: seq<Byte>)
    requires CharLength(x) > 0 && x[0] >= 0x80
    requires i + CharLength(x) <= |t| && t[i..i + CharLength(x)] == x[..CharLength(x)]
    ensures StringBody(t, i, acc) == StringBody(t, i + CharLength(x), acc + x[..CharLength(x)])
  {
    Utf8ReadsChar(t, i, x);
    assert t[i] == t[i..i + CharLength(x)][0];
  }

  /** readUtf8Validated copies a non-ASCII character exactly. */
  lemma Utf8ReadsChar(t: seq<Byte>, i: nat, x: seq<Byte>)
    requires CharLength(x) > 0 && x[0] >= 0x80
    requires i + CharLength(x) <= |t| && t[i..i + CharLength(x)] == x[..CharLength(x)]
    ensures Utf8At(t, i) == Ok(x[..CharLength(x)], i + CharLength(x))
  {
    var n := CharLength(x);
    var head := x[..n];
    CharLengthOfPrefix(x);
    CharLengthOfConcat(head, t[i + n..]);
    assert t[i..] == head + t[i + n..];
    assert t[i] == head[0];
    LeadDecodeMatchesSyntax(t, i);
  }

  /** The escape of well-formed x, from i to k, is the escape of its first character, n bytes, from i to j, then the escape of the rest. */
  lemma FirstCharShape(t: seq<Byte>, i: nat, x: seq<Byte>, acc: seq<Byte>, k: nat, out: seq<Byte>) returns (n: nat, j: nat)
    requires Utf8.WellFormed(x) && |x| > 0 && k == i + |Escaped(x)| && out == acc + x
    requires k <= |t| && t[i..k] == Escaped(x)
    ensures n == CharLength(x) && 0 < n <= |x|
    ensures Utf8.WellFormed(x[n..]) && k == j + |Escaped(x[n..])| && out == (acc + x[..n]) + x[n..]
    ensures t[j..k] == Escaped(x[n..])
    ensures i <= j <= k && j == i + |Escaped(x[..n])| && t[i..j] == Escaped(x[..n])
  {
    n := CharLength(x);
    j := i + |Escaped(x[..n])|;
    AppendAssoc(acc, x[..n], x[n..]);
    assert x[..n] + x[n..] == x;
    EscapedAppend(x[..n], x[n..]);
    SliceSplit(t, i, Escaped(x[..n]), Escaped(x[n..]));
  }

  /** parseString's loop reads the escape of the first character of well-formed x, from i to j, back as that character. */
  lemma FirstCharStep(t: seq<Byte>, i: nat, x: seq<Byte>, acc: seq<Byte>, n: nat, j: nat)
    requires n == CharLength(x) && 0 < n <= |x|
    requires i <= j <= |t| && j == i + |Escaped(x[..n])| && t[i..j] == Escaped(x[..n])
    ensures StringBody(t, i, acc) == StringBody(t, j, acc + x[..n])
  {
    if x[0] < 0x80 {
      AsciiFirstStep(t, i, x, acc, n, j);
    } else {
      NonAsciiChar(x);
      RawEscaped(x[..n]);
      NonAsciiStep(t, i, x, acc);
    }
  }

  /** FirstCharStep for an ASCII first character. */
  lemma AsciiFirstStep(t: seq<Byte>, i: nat, x: seq<Byte>, acc: seq<Byte>, n: nat, j: nat)
    requires n == CharLength(x) && 0 < n <= |x| && x[0] < 0x80
    requires i <= j <= |t| && j == i + |Escaped(x[..n])| && t[i..j] == Escaped(x[..n])
    ensures StringBody(t, i, acc) == StringBody(t, j, acc + x[..n])
  {
    assert x[..n] == [x[0]];
    assert Escaped([x[0]]) == EscapeByte(x[0]) + Escaped([]);
    EscapedByteReads(t, i, x[0], acc);
  }

  /** Two steps of parseString's loop compose. */
  lemma ReadsChain(a: Res<seq<Byte>>, b: Res<seq<Byte>>, c: Res<seq<Byte>>)
    requires a == b && b == c
    ensures a == c
  {
  }

  /** parseString's loop reads the escape of well-formed x, which ends at k, back as x. */
  lemma {:induction false} EscapedReads(t: seq<Byte>, i: nat, x: seq<Byte>, acc: seq<Byte>, k: nat, out: seq<Byte>)
    requires Utf8.WellFormed(x) && k == i + |Escaped(x)| && out == acc + x
    requires k <= |t| && t[i..k] == Escaped(x)
    ensures StringBody(t, i, acc) == StringBody(t, k, out)
    decreases |x|
  {
    if |x| == 0 {
      assert x == [] && k == i && out == acc;
    } else {
      var n, j := FirstCharShape(t, i, x, acc, k, out);
      EscapedReads(t, j, x[n..], acc + x[..n], k, out);
      FirstCharStep(t, i, x, acc, n, j);
      ReadsChain(StringBody(t, i, acc), StringBody(t, j, acc + x[..n]), StringBody(t, k, out));
    }
  }

  /** escape then parseString gives back s, for any well-formed UTF-8 s and whatever follows. */
  lemma EscapeRoundTrip(s: seq<Byte>, rest: seq<Byte>)
    requires Utf8.WellFormed(s)
    ensures StringAt(Escape(s) + rest, 0) == Ok(s, |Escape(s)|)
  {
    var t := Escape(s) + rest;
    var body := Escaped(s);
    assert t[1..1 + |body|] == body;
    EscapedReads(t, 1, s, [], 1 + |body|, s);
    assert t[1 + |body|] == 0x22;
    assert [] + s == s;
  }

  // ---------------------------------------------------------------------
  // Nesting depth
  // ---------------------------------------------------------------------

  /** v nests at most n levels: a scalar is one level, an array or object one more than its deepest child. */
  predicate NestedWithin(v: Value, n: nat)
    decreases v
  {
    match v
    case Array(a) => n >= 1 && forall k :: 0 <= k < |a| ==> NestedWithin(a[k], n - 1)
    case Object(o) => n >= 1 && forall k :: 0 <= k < |o| ==> NestedWithin(o[k].value, n - 1)
    case _ => n >= 1
  }

  /** parseValue at depth d accepts only values nesting at most maxDepth - d levels. */
  lemma {:induction false} ValueDepth(s: seq<Byte>, i: nat, d: nat, maxDepth: nat)
    requires i <= |s|
    ensures ValueAt(s, i, d, maxDepth).Ok? ==>
              d < maxDepth && NestedWithin(ValueAt(s, i, d, maxDepth).value, maxDepth - d)
    decreases |s| - i, 2
  {
    if d + 1 <= maxDepth {
      var j := SkipWS(s, i);
      if j < |s| {
        if s[j] == 0x7B {
          ObjectDepth(s, j, d + 1, maxDepth);
        } else if s[j] == 0x5B {
          ArrayDepth(s, j, d + 1, maxDepth);
        }
      }
    }
  }

  /** parseArray at depth d: every element nests at most maxDepth - d levels. */
  lemma {:induction false} ArrayDepth(s: seq<Byte>, i: nat, d: nat, maxDepth: nat)
    requires i < |s| && d <= maxDepth
    ensures ArrayAt(s, i, d, maxDepth).Ok? ==>
              ArrayAt(s, i, d, maxDepth).value.Array? &&
              forall k :: 0 <= k < |ArrayAt(s, i, d, maxDepth).value.a| ==>
                NestedWithin(ArrayAt(s, i, d, maxDepth).value.a[k], maxDepth - d)
    decreases |s| - i, 1
  {
    var j := SkipWS(s, i + 1);
    if !(j < |s| && s[j] == 0x5D) {
      ArrayItemsDepth(s, j, d, maxDepth, []);
    }
  }

  /** The element loop keeps every element within maxDepth - d levels. */
  lemma {:induction false} ArrayItemsDepth(s: seq<Byte>, i: nat, d: nat, maxDepth: nat, acc: seq<Value>)
    requires i <= |s| && d <= maxDepth
    requires forall k :: 0 <= k < |acc| ==> NestedWithin(acc[k], maxDepth - d)
    ensures ArrayItems(s, i, d, maxDepth, acc).Ok? ==>
              ArrayItems(s, i, d, maxDepth, acc).value.Array? &&
              forall k :: 0 <= k < |ArrayItems(s, i, d, maxDepth, acc).value.a| ==>
                NestedWithin(ArrayItems(s, i, d, maxDepth, acc).value.a[k], maxDepth - d)
    decreases |s| - i, 3
  {
    ValueDepth(s, i, d, maxDepth);
    match ValueAt(s, i, d, maxDepth)
    case Fail(_, _) =>
    case Ok(v, k) =>
      ArrayRestDepth(s, k, d, maxDepth, acc + [v]);
  }

  /** What follows an element keeps every element within maxDepth - d levels. */
  lemma {:induction false} ArrayRestDepth(s: seq<Byte>, k: nat, d: nat, maxDepth: nat, acc: seq<Value>)
    requires k <= |s| && d <= maxDepth
    requires forall m :: 0 <= m < |acc| ==> NestedWithin(acc[m], maxDepth - d)
    ensures ArrayRest(s, k, d, maxDepth, acc).Ok? ==>
              ArrayRest(s, k, d, maxDepth, acc).value.Array? &&
              forall m :: 0 <= m < |ArrayRest(s, k, d, maxDepth, acc).value.a| ==>
                NestedWithin(ArrayRest(s, k, d, maxDepth, acc).value.a[m], maxDepth - d)
    decreases |s| - k, 0
  {
    var j := SkipWS(s, k);
    if j < |s| && s[j] == 0x2C {
      ArrayItemsDepth(s, SkipWS(s, j + 1), d, maxDepth, acc);
    }
  }

  /** parseObject at depth d: every member's value nests at most maxDepth - d levels. */
  lemma {:induction false} ObjectDepth(s: seq<Byte>, i: nat, d: nat, maxDepth: nat)
    requires i < |s| && d <= maxDepth
    ensures ObjectAt(s, i, d, maxDepth).Ok? ==>
              ObjectAt(s, i, d, maxDepth).value.Object? &&
              forall k :: 0 <= k < |ObjectAt(s, i, d, maxDepth).value.o| ==>
                NestedWithin(ObjectAt(s, i, d, maxDepth).value.o[k].value, maxDepth - d)
    decreases |s| - i, 1
  {
    var j := SkipWS(s, i + 1);
    if !(j < |s| && s[j] == 0x7D) {
      MembersDepth(s, j, d, maxDepth, []);
    }
  }

  /** The member loop keeps every member's value within maxDepth - d levels. */
  lemma {:induction false} MembersDepth(s: seq<Byte>, i: nat, d: nat, maxDepth: nat, acc: seq<KeyPair>)
    requires i <= |s| && d <= maxDepth
    requires forall k :: 0 <= k < |acc| ==> NestedWithin(acc[k].value, maxDepth - d)
    ensures Members(s, i, d, maxDepth, acc).Ok? ==>
              Members(s, i, d, maxDepth, acc).value.Object? &&
              forall k :: 0 <= k < |Members(s, i, d, maxDepth, acc).value.o| ==>
                NestedWithin(Members(s, i, d, maxDepth, acc).value.o[k].value, maxDepth - d)
    decreases |s| - i, 5
  {
    MemberDepth(s, i, d, maxDepth);
    match MemberAt(s, i, d, maxDepth)
    case Fail(_, _) =>
    case Ok(m, k) =>
      MembersRestDepth(s, k, d, maxDepth, acc + [m]);
  }

  /** What follows a member keeps every member's value within maxDepth - d levels. */
  lemma {:induction false} MembersRestDepth(s: seq<Byte>, k: nat, d: nat, maxDepth: nat, acc: seq<KeyPair>)
    requires k <= |s| && d <= maxDepth
    requires forall m :: 0 <= m < |acc| ==> NestedWithin(acc[m].value, maxDepth - d)
    ensures MembersRest(s, k, d, maxDepth, acc).Ok? ==>
              MembersRest(s, k, d, maxDepth, acc).value.Object? &&
              forall m :: 0 <= m < |MembersRest(s, k, d, maxDepth, acc).value.o| ==>
                NestedWithin(MembersRest(s, k, d, maxDepth, acc).value.o[m].value, maxDepth - d)
    decreases |s| - k, 0
  {
    var j := SkipWS(s, k);
    if j < |s| && s[j] == 0x2C {
      MembersDepth(s, SkipWS(s, j + 1), d, maxDepth, acc);
    }
  }

  /** One member at depth d: its value nests at most maxDepth - d levels. */
  lemma {:induction false} MemberDepth(s: seq<Byte>, i: nat, d: nat, maxDepth: nat)
    requires i <= |s| && d <= maxDepth
    ensures MemberAt(s, i, d, maxDepth).Ok? ==> NestedWithin(MemberAt(s, i, d, maxDepth).value.value, maxDepth - d)
    decreases |s| - i, 4
  {
    if i < |s| && s[i] == 0x22 {
      match StringAt(s, i)
      case Fail(_, _) =>
      case Ok(name, k) =>
        assert MemberAt(s, i, d, maxDepth) == MemberValueAt(s, k, name, d, maxDepth);
        var j := SkipWS(s, k);
        if j < |s| && s[j] == 0x3A {
          NamedValueDepth(s, SkipWS(s, j + 1), name, d, maxDepth);
        }
    }
  }

  /** A member's value at depth d nests at most maxDepth - d levels. */
  lemma {:induction false} NamedValueDepth(s: seq<Byte>, i: nat, name: seq<Byte>, d: nat, maxDepth: nat)
    requires i <= |s| && d <= maxDepth
    ensures NamedValueAt(s, i, name, d, maxDepth).Ok? ==>
              NestedWithin(NamedValueAt(s, i, name, d, maxDepth).value.value, maxDepth - d)
    decreases |s| - i, 3
  {
    ValueDepth(s, i, d, maxDepth);
  }

  /** parseText accepts only values nesting at most maxDepth levels. */
  lemma TextDepth(s: seq<Byte>, maxDepth: nat)
    ensures ParseText(s, maxDepth).Got? ==> NestedWithin(ParseText(s, maxDepth).value, maxDepth)
  {
    ValueDepth(s, SkipWS(s, 0), 0, maxDepth);
  }

  // ---------------------------------------------------------------------
  // The number grammar of section 8 of ECMA-404
  // ---------------------------------------------------------------------

  /** s[i..e] is one or more digits. */
  predicate DigitsSpan(s: seq<Byte>, i: nat, e: nat)
  {
    i < e <= |s| && forall k :: i <= k < e ==> IsDigitByte(s[k])
  }

  /** s[i..e] is an int: '0', or a digit 1-9 followed by digits. */
  predicate IntSpan(s: seq<Byte>, i: nat, e: nat)
  {
    DigitsSpan(s, i, e) && (s[i] == 0x30 ==> e == i + 1)
  }

  /** s[i..e] is a frac: '.' followed by one or more digits. */
  predicate FracSpan(s: seq<Byte>, i: nat, e: nat)
  {
    i < e <= |s| && s[i] == 0x2E && DigitsSpan(s, i + 1, e)
  }

  /** s[i..e] is an exp: empty, or 'e' or 'E', an optional sign, and one or more digits. */
  predicate ExpSpan(s: seq<Byte>, i: nat, e: nat)
  {
    i == e ||
    (i < e <= |s| && (s[i] == 0x65 || s[i] == 0x45) &&
     (DigitsSpan(s, i + 1, e) || (i + 1 < e && (s[i + 1] == 0x2B || s[i + 1] == 0x2D) && DigitsSpan(s, i + 2, e))))
  }

  /** s[j..e] is an int, an optional frac and an optional exp. */
  predicate UnsignedSpan(s: seq<Byte>, j: nat, e: nat)
  {
    exists m1: nat, m2: nat :: j < m1 <= m2 <= e && IntSpan(s, j, m1) && (m2 == m1 || FracSpan(s, m1, m2)) && ExpSpan(s, m2, e)
  }

  /** s[i..e] is a number: an optional '-', then an int, an optional frac and an optional exp. */
  predicate NumberSpan(s: seq<Byte>, i: nat, e: nat)
  {
    if i < |s| && s[i] == 0x2D then UnsignedSpan(s, i + 1, e) else UnsignedSpan(s, i, e)
  }

  /** The run of digits from i on ends at e when s[i..e] is digits and no digit follows. */
  lemma {:induction false} DigitsEndAt(s: seq<Byte>, i: nat, e: nat)
    requires i <= e <= |s| && forall k :: i <= k < e ==> IsDigitByte(s[k])
    requires e == |s| || !IsDigitByte(s[e])
    ensures DigitsEnd(s, i) == e
    decreases e - i
  {
    if i < e {
      DigitsEndAt(s, i + 1, e);
    }
  }

  /** parseNumber succeeds exactly when its three parts do and a delimiter or the end follows; it ends where the exponent does. */
  lemma NumberAtParts(s: seq<Byte>, i: nat)
    requires i <= |s|
    ensures var j := if i < |s| && s[i] == 0x2D then i + 1 else i;
            NumberAt(s, i).Ok? ==>
              IntPartAt(s, j).Ok? && FracPartAt(s, IntPartAt(s, j).next).Ok? &&
              ExpPartAt(s, FracPartAt(s, IntPartAt(s, j).next).next).Ok? &&
              NumberAt(s, i).next == ExpPartAt(s, FracPartAt(s, IntPartAt(s, j).next).next).next
    ensures NumberAt(s, i).Ok? ==> NumberAt(s, i).next == |s| || IsDelim(s[NumberAt(s, i).next])
  {
  }

  /** The three parts of a number, when read, are the grammar's int, frac and exp. */
  lemma PartsSpan(s: seq<Byte>, j: nat)
    requires j <= |s|
    ensures IntPartAt(s, j).Ok? ==> IntSpan(s, j, IntPartAt(s, j).next)
    ensures IntPartAt(s, j).Ok? && FracPartAt(s, IntPartAt(s, j).next).Ok? ==>
              var m1 := IntPartAt(s, j).next;
              var m2 := FracPartAt(s, m1).next;
              m2 == m1 || FracSpan(s, m1, m2)
  {
  }

  /** The exp part, when read, is the grammar's exp. */
  lemma ExpSpanOf(s: seq<Byte>, m2: nat)
    requires m2 <= |s|
    ensures ExpPartAt(s, m2).Ok? ==> ExpSpan(s, m2, ExpPartAt(s, m2).next)
  {
  }

  /** The three parts, when all are read, span an unsigned number of the grammar. */
  lemma PartsUnsigned(s: seq<Byte>, j: nat)
    requires j <= |s| && IntPartAt(s, j).Ok? && FracPartAt(s, IntPartAt(s, j).next).Ok?
    requires ExpPartAt(s, FracPartAt(s, IntPartAt(s, j).next).next).Ok?
    ensures UnsignedSpan(s, j, ExpPartAt(s, FracPartAt(s, IntPartAt(s, j).next).next).next)
  {
    var m1 := IntPartAt(s, j).next;
    var m2 := FracPartAt(s, m1).next;
    var e := ExpPartAt(s, m2).next;
    PartsSpan(s, j);
    ExpSpanOf(s, m2);
    assert j < m1 <= m2 <= e && IntSpan(s, j, m1) && (m2 == m1 || FracSpan(s, m1, m2)) && ExpSpan(s, m2, e);
  }

  /** parseNumber accepts only numbers of the grammar, followed by a delimiter or the end. */
  lemma NumberAtSound(s: seq<Byte>, i: nat)
    requires i <= |s|
    ensures NumberAt(s, i).Ok? ==>
              NumberSpan(s, i, NumberAt(s, i).next) &&
              (NumberAt(s, i).next == |s| || IsDelim(s[NumberAt(s, i).next]))
  {
    if NumberAt(s, i).Ok? {
      var j := if i < |s| && s[i] == 0x2D then i + 1 else i;
      NumberAtParts(s, i);
      PartsUnsigned(s, j);
    }
  }

  /** parseNumber accepts every number of the grammar that a delimiter or the end follows, and reads all of it. */
  lemma NumberAtComplete(s: seq<Byte>, i: nat, e: nat)
    requires i <= e <= |s| && NumberSpan(s, i, e) && (e == |s| || IsDelim(s[e]))
    ensures NumberAt(s, i).Ok? && NumberAt(s, i).next == e
  {
    var j := if i < |s| && s[i] == 0x2D then i + 1 else i;
    assert UnsignedSpan(s, j, e);
    var m1: nat, m2: nat :| j < m1 <= m2 <= e && IntSpan(s, j, m1) && (m2 == m1 || FracSpan(s, m1, m2)) && ExpSpan(s, m2, e);
    IntPartAtSpan(s, j, m1, m2, e);
    FracPartAtSpan(s, m1, m2, e);
    ExpPartAtSpan(s, m2, e);
  }

  /** The int part of a number of the grammar is read to its end. */
  lemma IntPartAtSpan(s: seq<Byte>, j: nat, m1: nat, m2: nat, e: nat)
    requires j < m1 <= m2 <= e <= |s| && IntSpan(s, j, m1) && (m2 == m1 || FracSpan(s, m1, m2)) && ExpSpan(s, m2, e)
    requires e == |s| || IsDelim(s[e])
    ensures IntPartAt(s, j) == Ok(m1, m1)
  {
    assert m1 == |s| || !IsDigitByte(s[m1]);
    if s[j] != 0x30 {
      DigitsEndAt(s, j, m1);
    }
  }

  /** The frac part of a number of the grammar is read to its end. */
  lemma FracPartAtSpan(s: seq<Byte>, m1: nat, m2: nat, e: nat)
    requires m1 <= m2 <= e <= |s| && (m2 == m1 || FracSpan(s, m1, m2)) && ExpSpan(s, m2, e)
    requires e == |s| || IsDelim(s[e])
    ensures FracPartAt(s, m1).Ok? && FracPartAt(s, m1).next == m2
  {
    if m2 > m1 {
      assert m2 == |s| || !IsDigitByte(s[m2]);
      DigitsEndAt(s, m1 + 1, m2);
    } else {
      assert m1 == |s| || s[m1] != 0x2E;
    }
  }

  /** The exp part of a number of the grammar is read to its end. */
  lemma ExpPartAtSpan(s: seq<Byte>, m2: nat, e: nat)
    requires m2 <= e <= |s| && ExpSpan(s, m2, e)
    requires e == |s| || IsDelim(s[e])
    ensures ExpPartAt(s, m2).Ok? && ExpPartAt(s, m2).next == e
  {
    if m2 < e {
      if DigitsSpan(s, m2 + 1, e) {
        DigitsEndAt(s, m2 + 1, e);
      } else {
        DigitsEndAt(s, m2 + 2, e);
      }
    } else {
      assert m2 == |s| || (s[m2] != 0x65 && s[m2] != 0x45);
    }
  }
}
