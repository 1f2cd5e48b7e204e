// UTF-8 as defined by RFC 3629.
//
// Two descriptions of the same encoding are given here and proved to agree:
//  * WellFormed / Decode follow the byte-range syntax of section 4 of
//    RFC 3629 (UTF8-char = UTF8-1 / UTF8-2 / UTF8-3 / UTF8-4);
//  * LeadDecode is the check both the CSL lexer and the JSON reader perform:
//    classify the lead byte by its high bits, require continuation bytes,
//    assemble the code point and reject overlong forms, surrogates and
//    values above U+10FFFF (section 3 of RFC 3629).
// Encode is the encoder of the JSON reader (the bit layout of section 3).

module Utf8 {

  import opened Wrappers

  type Byte = x: int | 0 <= x < 256

  predicate IsTail(b: Byte) { 0x80 <= b <= 0xBF }

  /** Unicode scalar values: code points that are not surrogates. */
  predicate IsScalar(cp: nat) { cp <= 0x10FFFF && !(0xD800 <= cp <= 0xDFFF) }

  /**
   * Length of the UTF8-char at the front of s according to the syntax of
   * section 4 of RFC 3629, or 0 when s does not start with one.
   */
  function CharLength(s: seq<Byte>): (n: nat)
    ensures n <= 4 && n <= |s|
    ensures |s| > 0 && s[0] < 0x80 ==> n == 1
  {
    if |s| == 0 then 0
    else
      var b0 := s[0];
      if b0 <= 0x7F then 1
      else if 0xC2 <= b0 <= 0xDF then
        if |s| >= 2 && IsTail(s[1]) then 2 else 0
      else if b0 == 0xE0 then
        if |s| >= 3 && 0xA0 <= s[1] <= 0xBF && IsTail(s[2]) then 3 else 0
      else if (0xE1 <= b0 <= 0xEC) || (0xEE <= b0 <= 0xEF) then
        if |s| >= 3 && IsTail(s[1]) && IsTail(s[2]) then 3 else 0
      else if b0 == 0xED then
        if |s| >= 3 && 0x80 <= s[1] <= 0x9F && IsTail(s[2]) then 3 else 0
      else if b0 == 0xF0 then
        if |s| >= 4 && 0x90 <= s[1] <= 0xBF && IsTail(s[2]) && IsTail(s[3]) then 4 else 0
      else if 0xF1 <= b0 <= 0xF3 then
        if |s| >= 4 && IsTail(s[1]) && IsTail(s[2]) && IsTail(s[3]) then 4 else 0
      else if b0 == 0xF4 then
        if |s| >= 4 && 0x80 <= s[1] <= 0x8F && IsTail(s[2]) && IsTail(s[3]) then 4 else 0
      else 0
  }

  /** The code point carried by the first n bytes (the x bits of section 3). */
  function CodePointOf(s: seq<Byte>, n: nat): nat
    requires 1 <= n <= 4 && n <= |s|
  {
    var b0: int := s[0];
    if n == 1 then b0
    else
      var b1: int := s[1];
      if n == 2 then (b0 % 0x20) * 0x40 + b1 % 0x40
      else
        var b2: int := s[2];
        if n == 3 then (b0 % 0x10) * 0x1000 + (b1 % 0x40) * 0x40 + b2 % 0x40
        else
          var b3: int := s[3];
          (b0 % 0x08) * 0x40000 + (b1 % 0x40) * 0x1000 + (b2 % 0x40) * 0x40 + b3 % 0x40
  }

  predicate WellFormed(s: seq<Byte>)
    decreases |s|
  {
    |s| == 0 || (CharLength(s) > 0 && WellFormed(s[CharLength(s)..]))
  }

  /** The code points of a well-formed byte sequence, in order. */
  function Decode(s: seq<Byte>): seq<nat>
    requires WellFormed(s)
    decreases |s|
  {
    if |s| == 0 then []
    else [CodePointOf(s, CharLength(s))] + Decode(s[CharLength(s)..])
  }

  datatype Decoded = Decoded(codePoint: nat, length: nat)

  /**
   * The decoding step of the implementation.  The lead byte is classified by
   * its high bits ((c & 0x80) == 0, (c & 0xE0) == 0xC0, (c & 0xF0) == 0xE0,
   * (c & 0xF8) == 0xF0, written here as ranges), every continuation byte must
   * satisfy (c & 0xC0) == 0x80, and the assembled code point must not be an
   * overlong form, a surrogate or above U+10FFFF.
   */
  function LeadDecode(s: seq<Byte>, i: nat): Option<Decoded>
    requires i < |s|
  {
    var c: int := s[i];
    if c < 0x80 then Some(Decoded(c, 1))
    else if 0xC0 <= c <= 0xDF then
      if i + 1 >= |s| then None
      else if !IsTail(s[i + 1]) then None
      else
        var c1: int := s[i + 1];
        var cp := (c % 0x20) * 0x40 + c1 % 0x40;
        if cp < 0x80 then None else Some(Decoded(cp, 2))
    else if 0xE0 <= c <= 0xEF then
      if i + 2 >= |s| then None
      else if !IsTail(s[i + 1]) || !IsTail(s[i + 2]) then None
      else
        var c1: int, c2: int := s[i + 1], s[i + 2];
        var cp := (c % 0x10) * 0x1000 + (c1 % 0x40) * 0x40 + c2 % 0x40;
        if cp < 0x800 then None
        else if 0xD800 <= cp <= 0xDFFF then None
        else Some(Decoded(cp, 3))
    else if 0xF0 <= c <= 0xF7 then
      if i + 3 >= |s| then None
      else if !IsTail(s[i + 1]) || !IsTail(s[i + 2]) || !IsTail(s[i + 3]) then None
      else
        var c1: int, c2: int, c3: int := s[i + 1], s[i + 2], s[i + 3];
        var cp := (c % 0x08) * 0x40000 + (c1 % 0x40) * 0x1000 + (c2 % 0x40) * 0x40 + c3 % 0x40;
        if cp < 0x10000 || cp > 0x10FFFF then None
        else Some(Decoded(cp, 4))
    else None
  }

  /** What the syntax and the implementation's checks must agree on at the front of t. */
  predicate AgreeAtFront(t: seq<Byte>)
    requires |t| > 0
  {
    (LeadDecode(t, 0).None? <==> CharLength(t) == 0)
    && (LeadDecode(t, 0).Some? ==>
          LeadDecode(t, 0).value.length == CharLength(t)
          && LeadDecode(t, 0).value.codePoint == CodePointOf(t, CharLength(t))
          && IsScalar(LeadDecode(t, 0).value.codePoint))
  }

  lemma AgreeTwo(t: seq<Byte>)
    requires |t| > 0 && 0xC0 <= t[0] <= 0xDF
    ensures AgreeAtFront(t)
  {
  }

  lemma AgreeThree(t: seq<Byte>)
    requires |t| > 0 && 0xE0 <= t[0] <= 0xEF
    ensures AgreeAtFront(t)
  {
  }

  lemma AgreeFour(t: seq<Byte>)
    requires |t| > 0 && 0xF0 <= t[0] <= 0xF7
    ensures AgreeAtFront(t)
  {
  }

  lemma LeadDecodeOfSuffix(s: seq<Byte>, i: nat)
    requires i < |s|
    ensures LeadDecode(s, i) == LeadDecode(s[i..], 0)
  {
    var t := s[i..];
    assert t[0] == s[i];
    if |t| >= 2 { assert t[1] == s[i + 1]; }
    if |t| >= 3 { assert t[2] == s[i + 2]; }
    if |t| >= 4 { assert t[3] == s[i + 3]; }
  }

  /** The implementation's checks accept exactly the byte ranges of section 4. */
  lemma LeadDecodeMatchesSyntax(s: seq<Byte>, i: nat)
    requires i < |s|
    ensures LeadDecode(s, i).None? <==> CharLength(s[i..]) == 0
    ensures LeadDecode(s, i).Some? ==>
              LeadDecode(s, i).value.length == CharLength(s[i..])
              && LeadDecode(s, i).value.codePoint == CodePointOf(s[i..], CharLength(s[i..]))
              && IsScalar(LeadDecode(s, i).value.codePoint)
  {
    var t := s[i..];
    LeadDecodeOfSuffix(s, i);
    if t[0] < 0x80 {
    } else if t[0] <= 0xBF {
    } else if t[0] <= 0xDF {
      AgreeTwo(t);
    } else if t[0] <= 0xEF {
      AgreeThree(t);
    } else if t[0] <= 0xF7 {
      AgreeFour(t);
    }
    assert AgreeAtFront(t);
  }

  /** The encoder: one to four bytes following the bit layout of section 3. */
  function Encode(cp: nat): (r: seq<Byte>)
    requires cp <= 0x10FFFF
    ensures 1 <= |r| <= 4
  {
    if cp <= 0x7F then [cp]
    else if cp <= 0x7FF then [0xC0 + (cp / 0x40) % 0x20, 0x80 + cp % 0x40]
    else if cp <= 0xFFFF then
      [0xE0 + (cp / 0x1000) % 0x10, 0x80 + (cp / 0x40) % 0x40, 0x80 + cp % 0x40]
    else
      [0xF0 + (cp / 0x40000) % 0x08, 0x80 + (cp / 0x1000) % 0x40, 0x80 + (cp / 0x40) % 0x40, 0x80 + cp % 0x40]
  }

  /** Encoding a scalar value gives one well-formed character that decodes back. */
  lemma EncodeDecode(cp: nat)
    requires IsScalar(cp)
    ensures CharLength(Encode(cp)) == |Encode(cp)|
    ensures WellFormed(Encode(cp))
    ensures Decode(Encode(cp)) == [cp]
  {
    var e := Encode(cp);
    if cp <= 0x7F {
    } else if cp <= 0x7FF {
      EncodeTwo(cp);
    } else if cp <= 0xFFFF {
      EncodeThree(cp);
    } else {
      EncodeFour(cp);
    }
    assert e[CharLength(e)..] == [];
    assert WellFormed(e[CharLength(e)..]);
  }

  lemma EncodeTwo(cp: nat)
    requires 0x80 <= cp <= 0x7FF
    ensures CharLength(Encode(cp)) == 2 && CodePointOf(Encode(cp), 2) == cp
  {
    var hi, lo := cp / 0x40, cp % 0x40;
    assert cp == hi * 0x40 + lo;
    assert 2 <= hi < 0x20;
  }

  lemma EncodeThree(cp: nat)
    requires 0x800 <= cp <= 0xFFFF && !(0xD800 <= cp <= 0xDFFF)
    ensures CharLength(Encode(cp)) == 3 && CodePointOf(Encode(cp), 3) == cp
  {
    var q := cp / 0x40;
    var a, b, c := q / 0x40, q % 0x40, cp % 0x40;
    assert cp == q * 0x40 + c;
    assert q == a * 0x40 + b;
    assert a < 0x10;
    assert cp / 0x1000 == a;
    var e := Encode(cp);
    assert e == [0xE0 + a, 0x80 + b, 0x80 + c];
    assert e[0] % 0x10 == a && e[1] % 0x40 == b && e[2] % 0x40 == c;
    assert a == 0 ==> b >= 0x20;
    assert a == 0xD ==> b < 0x20;
  }

  lemma EncodeFour(cp: nat)
    requires 0x10000 <= cp <= 0x10FFFF
    ensures CharLength(Encode(cp)) == 4 && CodePointOf(Encode(cp), 4) == cp
  {
    var q := cp / 0x40;
    var r := q / 0x40;
    var a, b, c, d := r / 0x40, r % 0x40, q % 0x40, cp % 0x40;
    assert cp == q * 0x40 + d;
    assert q == r * 0x40 + c;
    assert r == a * 0x40 + b;
    assert a <= 4;
    assert cp / 0x1000 == r;
    assert cp / 0x40000 == a;
    var e := Encode(cp);
    assert e == [0xF0 + a, 0x80 + b, 0x80 + c, 0x80 + d];
    assert e[0] % 0x08 == a && e[1] % 0x40 == b && e[2] % 0x40 == c && e[3] % 0x40 == d;
    assert a == 0 ==> b >= 0x10;
    assert a == 4 ==> b < 0x10;
  }

  /** Only scalar values are ever decoded. */
  lemma {:induction false} DecodedAreScalars(s: seq<Byte>)
    requires WellFormed(s)
    ensures forall k :: 0 <= k < |Decode(s)| ==> IsScalar(Decode(s)[k])
    decreases |s|
  {
    if |s| > 0 {
      LeadDecodeMatchesSyntax(s, 0);
      assert s[0..] == s;
      DecodedAreScalars(s[CharLength(s)..]);
    }
  }

  /** The first character of a is recognised the same way when bytes follow it. */
  lemma CharLengthOfConcat(a: seq<Byte>, b: seq<Byte>)
    requires CharLength(a) > 0
    ensures CharLength(a + b) == CharLength(a)
    ensures CodePointOf(a + b, CharLength(a)) == CodePointOf(a, CharLength(a))
  {
    var ab := a + b;
    assert ab[0] == a[0];
    if |a| >= 2 { assert ab[1] == a[1]; }
    if |a| >= 3 { assert ab[2] == a[2]; }
    if |a| >= 4 { assert ab[3] == a[3]; }
  }

  /** Concatenation of well-formed sequences decodes piecewise. */
  lemma AppendIsAssociative<T>(x: seq<T>, y: seq<T>, z: seq<T>)
    ensures (x + y) + z == x + (y + z)
  {
  }

  lemma {:induction false} DecodeConcat(a: seq<Byte>, b: seq<Byte>)
    requires WellFormed(a) && WellFormed(b)
    ensures WellFormed(a + b)
    ensures Decode(a + b) == Decode(a) + Decode(b)
    decreases |a|
  {
    if |a| == 0 {
      assert a + b == b;
    } else {
      var n := CharLength(a);
      var ab := a + b;
      var cp := CodePointOf(a, n);
      CharLengthOfConcat(a, b);
      assert ab[n..] == a[n..] + b;
      DecodeConcat(a[n..], b);
      var rest := Decode(a[n..]);
      assert Decode(ab) == [cp] + (rest + Decode(b));
      AppendIsAssociative([cp], rest, Decode(b));
      assert Decode(a) == [cp] + rest;
    }
  }

  /** Encoding a sequence of scalar values, one after the other. */
  function EncodeAll(cps: seq<nat>): seq<Byte>
    requires forall k :: 0 <= k < |cps| ==> IsScalar(cps[k])
  {
    assert |cps| > 0 ==> IsScalar(cps[0]);
    if |cps| == 0 then [] else Encode(cps[0]) + EncodeAll(cps[1..])
  }

  /** Encoding is inverted by decoding, for any sequence of scalar values. */
  lemma {:induction false} EncodeAllDecode(cps: seq<nat>)
    requires forall k :: 0 <= k < |cps| ==> IsScalar(cps[k])
    ensures WellFormed(EncodeAll(cps))
    ensures Decode(EncodeAll(cps)) == cps
  {
    if |cps| > 0 {
      EncodeDecode(cps[0]);
      EncodeAllDecode(cps[1..]);
      DecodeConcat(Encode(cps[0]), EncodeAll(cps[1..]));
    }
  }
}
