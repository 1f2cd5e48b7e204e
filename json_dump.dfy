// The jsonio writer: escapeString and dump.  The text is compact: no white space is
// written between tokens, members and elements are separated by ',' alone, and a
// member's name is followed by ':' alone.

module JsonDump {

  import opened Utf8
  import opened JsonBigInt
  import opened JsonNumber
  import opened JsonValue
  import opened JsonReaderSpec

  /** An upper-case hexadecimal digit, as %04X writes it. */
  function HexUpper(n: nat): (b: Byte)
    requires n < 16
    ensures HexValue(b) == n
  {
    if n < 10 then 0x30 + n else 0x41 + (n - 10)
  }

  /** How escapeString writes one byte: seven two-character escapes, \u00XX for the other control bytes, else the byte itself. */
  function EscapeByte(c: Byte): (e: seq<Byte>)
  {
    if c == 0x22 then [0x5C, 0x22]
    else if c == 0x5C then [0x5C, 0x5C]
    else if c == 0x08 then [0x5C, 0x62]
    else if c == 0x0C then [0x5C, 0x66]
    else if c == 0x0A then [0x5C, 0x6E]
    else if c == 0x0D then [0x5C, 0x72]
    else if c == 0x09 then [0x5C, 0x74]
    else if c <= 0x1F then [0x5C, 0x75, 0x30, 0x30, HexUpper(c / 16), HexUpper(c % 16)]
    else [c]
  }

  /** The escaped bytes of s, in order. */
  function Escaped(s: seq<Byte>): seq<Byte>
  {
    if |s| == 0 then [] else EscapeByte(s[0]) + Escaped(s[1..])
  }

  /** escape(s): the quoted, escaped string. */
  function Escape(s: seq<Byte>): seq<Byte>
  {
    [0x22] + Escaped(s) + [0x22]
  }

  /** Escaping works byte by byte, so it distributes over concatenation. */
  lemma {:induction false} EscapedAppend(a: seq<Byte>, b: seq<Byte>)
    ensures Escaped(a + b) == Escaped(a) + Escaped(b)
    decreases |a|
  {
    if |a| == 0 {
      assert a + b == b;
    } else {
      assert (a + b)[0] == a[0];
      assert (a + b)[1..] == a[1..] + b;
      EscapedAppend(a[1..], b);
    }
  }

  /** One more byte of s escaped. */
  lemma EscapedSnoc(s: seq<Byte>, i: nat)
    requires i < |s|
    ensures Escaped(s[..i + 1]) == Escaped(s[..i]) + EscapeByte(s[i])
  {
    assert s[..i + 1] == s[..i] + [s[i]];
    EscapedAppend(s[..i], [s[i]]);
    assert Escaped([s[i]]) == EscapeByte(s[i]) + Escaped([]);
  }

  /** The byte a two-character escape stands for is escaped, and no escape is empty. */
  lemma EscapeByteShape(c: Byte)
    ensures |EscapeByte(c)| == 1 <==> (c > 0x1F && c != 0x22 && c != 0x5C)
    ensures |EscapeByte(c)| == 1 ==> EscapeByte(c) == [c]
    ensures |EscapeByte(c)| > 1 ==> EscapeByte(c)[0] == 0x5C
  {
  }

  /** One byte of escapeString's loop. */
  method EscapeChar(out: seq<Byte>, c: Byte) returns (o: seq<Byte>)
    ensures o == out + EscapeByte(c)
  {
    if c == 0x22 {
      o := out + [0x5C, 0x22];
    } else if c == 0x5C {
      o := out + [0x5C, 0x5C];
    } else if c == 0x08 {
      o := out + [0x5C, 0x62];
    } else if c == 0x0C {
      o := out + [0x5C, 0x66];
    } else if c == 0x0A {
      o := out + [0x5C, 0x6E];
    } else if c == 0x0D {
      o := out + [0x5C, 0x72];
    } else if c == 0x09 {
      o := out + [0x5C, 0x74];
    } else if c <= 0x1F {
      o := out + [0x5C, 0x75, 0x30, 0x30, HexUpper(c / 16), HexUpper(c % 16)];
    } else {
      o := out + [c];
    }
  }

  /** escapeString: appends the quoted, escaped string to out. */
  method EscapeString(out: seq<Byte>, s: seq<Byte>) returns (o: seq<Byte>)
    ensures o == out + Escape(s)
  {
    o := out + [0x22];
    for i := 0 to |s|
      invariant o == out + [0x22] + Escaped(s[..i])
    {
      EscapedSnoc(s, i);
      o := EscapeChar(o, s[i]);
    }
    assert s[..|s|] == s;
    o := o + [0x22];
  }

  /** escape: a fresh string holding the escaped s. */
  method EscapeText(s: seq<Byte>) returns (out: seq<Byte>)
    ensures out == Escape(s)
  {
    out := EscapeString([], s);
  }

  // ---------------------------------------------------------------------
  // dump
  // ---------------------------------------------------------------------

  /** Every number inside v has base-10^9 limbs, as every BigInt the library builds does. */
  predicate Dumpable(v: Value)
    decreases v
  {
    match v
    case Number(n) => Limbs(n.unscaled)
    case Array(a) => forall k :: 0 <= k < |a| ==> Dumpable(a[k])
    case Object(o) => forall k :: 0 <= k < |o| ==> Dumpable(o[k].value)
    case _ => true
  }

  /** The text dump writes for v. */
  function Dump(v: Value): seq<Byte>
    requires Dumpable(v)
    decreases v, 1
  {
    match v
    case Null => NullWord
    case Bool(b) => if b then TrueWord else FalseWord
    case Number(n) => NumberText(n)
    case String(s) => Escape(s)
    case Array(a) => [0x5B] + DumpItems(a) + [0x5D]
    case Object(o) => [0x7B] + DumpMembers(o) + [0x7D]
  }

  /** The elements of an array, separated by ','. */
  function DumpItems(a: seq<Value>): seq<Byte>
    requires forall k :: 0 <= k < |a| ==> Dumpable(a[k])
    decreases a, 0
  {
    if |a| == 0 then []
    else DumpItems(a[..|a| - 1]) + (if |a| > 1 then [0x2C] else []) + Dump(a[|a| - 1])
  }

  /** The members of an object in their order, each as name ':' value, separated by ','. */
  function DumpMembers(o: seq<KeyPair>): seq<Byte>
    requires forall k :: 0 <= k < |o| ==> Dumpable(o[k].value)
    decreases o, 0
  {
    if |o| == 0 then []
    else
      DumpMembers(o[..|o| - 1]) + MemberText(o[|o| - 1], |o| > 1)
  }

  /** dumpImpl: appends the text of v to out. */
  method DumpImpl(v: Value, out: seq<Byte>) returns (o: seq<Byte>)
    requires Dumpable(v)
    ensures o == out + Dump(v)
    decreases v
  {
    match v
    case Null =>
      o := out + NullWord;
    case Bool(b) =>
      o := out + (if b then TrueWord else FalseWord);
    case Number(n) =>
      o := EmitNumber(n, out);
    case String(s) =>
      o := EscapeString(out, s);
    case Array(a) =>
      o := DumpArray(a, out);
    case Object(ms) =>
      o := DumpObject(ms, out);
  }

  /** The array case of dumpImpl: '[', the elements separated by ',', ']'. */
  method DumpArray(a: seq<Value>, out: seq<Byte>) returns (o: seq<Byte>)
    requires forall k :: 0 <= k < |a| ==> Dumpable(a[k])
    ensures o == out + [0x5B] + DumpItems(a) + [0x5D]
    decreases a
  {
    o := out + [0x5B];
    for i := 0 to |a|
      invariant o == out + [0x5B] + DumpItems(a[..i])
    {
      assert a[..i + 1][..i] == a[..i];
      if i > 0 {
        o := o + [0x2C];
      }
      o := DumpImpl(a[i], o);
    }
    assert a[..|a|] == a;
    o := o + [0x5D];
  }

  /** The object case of dumpImpl: '{', the members separated by ',', '}'. */
  method DumpObject(ms: seq<KeyPair>, out: seq<Byte>) returns (o: seq<Byte>)
    requires forall k :: 0 <= k < |ms| ==> Dumpable(ms[k].value)
    ensures o == out + [0x7B] + DumpMembers(ms) + [0x7D]
    decreases ms
  {
    o := out + [0x7B];
    for i := 0 to |ms|
      invariant o == out + [0x7B] + DumpMembers(ms[..i])
    {
      assert ms[..i + 1][..i] == ms[..i];
      ghost var before := o;
      o := DumpMember(o, ms[i], i > 0);
      AppendAssoc(out + [0x7B], DumpMembers(ms[..i]), MemberText(ms[i], i > 0));
    }
    assert ms[..|ms|] == ms;
    o := o + [0x7D];
  }

  /** The text of one member, after a ',' unless it is the first. */
  function MemberText(m: KeyPair, comma: bool): seq<Byte>
    requires Dumpable(m.value)
  {
    (if comma then [0x2C] else []) + Escape(m.name) + [0x3A] + Dump(m.value)
  }

  /** One member of the object case of dumpImpl. */
  method DumpMember(out: seq<Byte>, m: KeyPair, comma: bool) returns (o: seq<Byte>)
    requires Dumpable(m.value)
    ensures o == out + MemberText(m, comma)
    decreases m
  {
    var sep: seq<Byte> := if comma then [0x2C] else [];
    o := out + sep;
    o := EscapeString(o, m.name);
    AppendAssoc(out, sep, Escape(m.name));
    o := o + [0x3A];
    AppendAssoc(out, sep + Escape(m.name), [0x3A]);
    o := DumpImpl(m.value, o);
    AppendAssoc(out, sep + Escape(m.name) + [0x3A], Dump(m.value));
  }

  /** dump: a fresh string holding the text of v. */
  method DumpText(v: Value) returns (s: seq<Byte>)
    requires Dumpable(v)
    ensures s == Dump(v)
  {
    s := DumpImpl(v, []);
  }
}
