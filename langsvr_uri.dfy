// normalizeUri: the key under which the language server caches a document.
//
// The first seven bytes (the "file://" of the client's URI) are dropped
// unconditionally and the rest, the path, is percent-encoded: a valid %XX
// escape is kept with its hex digits lower-cased (section 2.1 of RFC 3986
// recommends upper case but treats both as equivalent), a byte of the
// unreserved or reserved sets (sections 2.2 and 2.3, without ':') is
// copied, and any other byte becomes %xx.  A Windows
// drive path ("C:" or "C%3A" first, with or without one leading '/') gets a
// leading '/', and a path that then starts "/C%3A" is lower-cased outside
// its escapes.  The result is "file://" followed by the path.

module LangSvrUri {

  import opened Utf8
  import JsonReaderSpec

  const Percent: Byte := 0x25
  const Slash: Byte := 0x2F
  const Colon: Byte := 0x3A

  /** The prefix written in front of every normalised path. */
  const Scheme: seq<Byte> := [0x66, 0x69, 0x6C, 0x65, 0x3A, 0x2F, 0x2F]

  predicate IsHex(c: Byte)
  {
    JsonReaderSpec.HexValue(c) >= 0
  }

  predicate IsLowerHex(c: Byte)
  {
    0x30 <= c <= 0x39 || 0x61 <= c <= 0x66
  }

  predicate IsAlpha(c: Byte)
  {
    0x41 <= c <= 0x5A || 0x61 <= c <= 0x7A
  }

  /**
   * Letters, digits and - . _ ~ / ? # [ ] @ ! $ & ' ( ) * + , ; =
   * (the colon, a reserved character, is not among them).
   */
  predicate IsAllowed(c: Byte)
  {
    IsAlpha(c) || 0x30 <= c <= 0x39
    || c == 0x2D || c == 0x2E || c == 0x5F || c == 0x7E
    || c == 0x2F || c == 0x3F || c == 0x23 || c == 0x5B || c == 0x5D || c == 0x40
    || c == 0x21 || c == 0x24 || c == 0x26 || c == 0x27 || c == 0x28 || c == 0x29
    || c == 0x2A || c == 0x2B || c == 0x2C || c == 0x3B || c == 0x3D
  }

  /** std::tolower in the C locale: only A-Z change. */
  function ToLower(c: Byte): (l: Byte)
    ensures 0x41 <= c <= 0x5A ==> l == c + 0x20
    ensures !(0x41 <= c <= 0x5A) ==> l == c
  {
    if 0x41 <= c <= 0x5A then c + 0x20 else c
  }

  /** The hexDigits table: a lower-case hexadecimal digit. */
  function HexDigit(n: nat): (b: Byte)
    requires n < 16
    ensures IsLowerHex(b) && JsonReaderSpec.HexValue(b) == n
  {
    if n < 10 then 0x30 + n else 0x61 + (n - 10)
  }

  /** Whether the path starts with a valid escape at i (the test of line 286). */
  predicate EscapeAt(u: seq<Byte>, i: nat)
  {
    i + 2 < |u| && u[i] == Percent && IsHex(u[i + 1]) && IsHex(u[i + 2])
  }

  /** What the encoding loop appends for the bytes of u from index i on. */
  function EncodeFrom(u: seq<Byte>, i: nat): seq<Byte>
    decreases |u| - i
  {
    if i >= |u| then []
    else if EscapeAt(u, i) then [Percent, ToLower(u[i + 1]), ToLower(u[i + 2])] + EncodeFrom(u, i + 3)
    else if IsAllowed(u[i]) then [u[i]] + EncodeFrom(u, i + 1)
    else [Percent, HexDigit(u[i] / 16), HexDigit(u[i] % 16)] + EncodeFrom(u, i + 1)
  }

  predicate HasLeadingSlash(u: seq<Byte>)
  {
    7 < |u| && u[7] == Slash
  }

  function DriveIndex(u: seq<Byte>): nat
  {
    if HasLeadingSlash(u) then 8 else 7
  }

  /** A drive letter followed by ':' or by "%3A" / "%3a". */
  predicate DrivePattern(u: seq<Byte>)
  {
    var d := DriveIndex(u);
    d + 1 < |u| && IsAlpha(u[d])
    && (u[d + 1] == Colon || (u[d + 1] == Percent && d + 3 < |u| && u[d + 2] == 0x33 && (u[d + 3] == 0x41 || u[d + 3] == 0x61)))
  }

  /** The path after the encoding loop, with the '/' inserted before a bare drive. */
  function Path(u: seq<Byte>): seq<Byte>
  {
    (if !HasLeadingSlash(u) && DrivePattern(u) then [Slash] else []) + EncodeFrom(u, 7)
  }

  /** The test of lowerCaseWindowsPath: "/", a letter, then "%3A" or "%3a". */
  predicate WindowsPath(p: seq<Byte>)
  {
    |p| >= 5 && p[0] == Slash && IsAlpha(p[1]) && p[2] == Percent && p[3] == 0x33 && (p[4] == 0x41 || p[4] == 0x61)
  }

  /** The lower-casing loop from index j on, in place: an escape and its two digits are stepped over. */
  function LowerFrom(p: seq<Byte>, j: nat): seq<Byte>
    decreases |p| - j
  {
    if j >= |p| then p
    else if p[j] == Percent && j + 2 < |p| then LowerFrom(p, j + 3)
    else LowerFrom(p[j := ToLower(p[j])], j + 1)
  }

  /** normalizeUri as a function. */
  function Normalize(u: seq<Byte>): seq<Byte>
  {
    var p := Path(u);
    Scheme + (if WindowsPath(p) then LowerFrom(p, 0) else p)
  }

  /** normalizeUri. */
  method NormalizeUri(uri: seq<Byte>) returns (r: seq<Byte>)
    ensures r == Normalize(uri)
  {
    var pathOut: seq<Byte> := [];
    var i := 7;
    var hasLeadingSlash := i < |uri| && uri[i] == Slash;
    var driveIdx := if hasLeadingSlash then i + 1 else i;
    var drivePattern := false;
    if driveIdx + 1 < |uri| && IsAlpha(uri[driveIdx]) {
      if uri[driveIdx + 1] == Colon {
        drivePattern := true;
      } else if uri[driveIdx + 1] == Percent && driveIdx + 3 < |uri| && uri[driveIdx + 2] == 0x33 && (uri[driveIdx + 3] == 0x41 || uri[driveIdx + 3] == 0x61) {
        drivePattern := true;
      }
    }
    assert drivePattern == DrivePattern(uri);
    if !hasLeadingSlash && drivePattern {
      pathOut := pathOut + [Slash];
    }
    pathOut := EncodePath(uri, pathOut);
    assert pathOut == Path(uri);
    var lowerCaseWindowsPath := false;
    if |pathOut| >= 5 && pathOut[0] == Slash && IsAlpha(pathOut[1]) && pathOut[2] == Percent && pathOut[3] == 0x33 && (pathOut[4] == 0x41 || pathOut[4] == 0x61) {
      lowerCaseWindowsPath := true;
    }
    if lowerCaseWindowsPath {
      pathOut := LowerPath(pathOut);
    }
    r := Scheme + pathOut;
  }

  lemma EncodeEscapeStep(u: seq<Byte>, i: nat)
    requires i < |u| && EscapeAt(u, i)
    ensures EncodeFrom(u, i) == [Percent, ToLower(u[i + 1]), ToLower(u[i + 2])] + EncodeFrom(u, i + 3)
  {
  }

  lemma EncodeAllowedStep(u: seq<Byte>, i: nat)
    requires i < |u| && !EscapeAt(u, i) && IsAllowed(u[i])
    ensures EncodeFrom(u, i) == [u[i]] + EncodeFrom(u, i + 1)
  {
  }

  lemma EncodeOtherStep(u: seq<Byte>, i: nat)
    requires i < |u| && !EscapeAt(u, i) && !IsAllowed(u[i])
    ensures EncodeFrom(u, i) == [Percent, HexDigit(u[i] / 16), HexDigit(u[i] % 16)] + EncodeFrom(u, i + 1)
  {
  }

  lemma AppendAssoc(a: seq<Byte>, b: seq<Byte>, c: seq<Byte>)
    ensures a + (b + c) == (a + b) + c
  {
  }

  /** The encoding loop of normalizeUri: appends the encoded path to pathOut. */
  method EncodePath(uri: seq<Byte>, pathOut0: seq<Byte>) returns (pathOut: seq<Byte>)
    ensures pathOut == pathOut0 + EncodeFrom(uri, 7)
  {
    pathOut := pathOut0;
    var i := 7;
    while i < |uri|
      invariant 7 <= i
      invariant pathOut + EncodeFrom(uri, i) == pathOut0 + EncodeFrom(uri, 7)
      decreases |uri| - i
    {
      var c := uri[i];
      if c == Percent && i + 2 < |uri| && IsHex(uri[i + 1]) && IsHex(uri[i + 2]) {
        var chunk := [Percent, ToLower(uri[i + 1]), ToLower(uri[i + 2])];
        EncodeEscapeStep(uri, i);
        AppendAssoc(pathOut, chunk, EncodeFrom(uri, i + 3));
        pathOut := pathOut + chunk;
        i := i + 3;
      } else if IsAllowed(c) {
        EncodeAllowedStep(uri, i);
        AppendAssoc(pathOut, [c], EncodeFrom(uri, i + 1));
        pathOut := pathOut + [c];
        i := i + 1;
      } else {
        var chunk := [Percent, HexDigit(c / 16), HexDigit(c % 16)];
        EncodeOtherStep(uri, i);
        AppendAssoc(pathOut, chunk, EncodeFrom(uri, i + 1));
        pathOut := pathOut + chunk;
        i := i + 1;
      }
    }
    assert EncodeFrom(uri, i) == [];
  }

  /** The lower-casing loop of normalizeUri, in place on the path. */
  method LowerPath(p: seq<Byte>) returns (pathOut: seq<Byte>)
    ensures pathOut == LowerFrom(p, 0)
  {
    pathOut := p;
    var j := 0;
    while j < |pathOut|
      invariant LowerFrom(pathOut, j) == LowerFrom(p, 0)
      decreases |pathOut| - j
    {
      if pathOut[j] == Percent && j + 2 < |pathOut| {
        j := j + 3;
      } else {
        pathOut := pathOut[j := ToLower(pathOut[j])];
        j := j + 1;
      }
    }
  }

  // ---------------------------------------------------------------------
  // What the encoding guarantees
  // ---------------------------------------------------------------------

  /** At index k: a '%' begins two lower-case hex digits, and any other byte is an allowed one. */
  predicate EncodedAt(p: seq<Byte>, k: nat)
    requires k < |p|
  {
    (p[k] == Percent ==> k + 2 < |p| && IsLowerHex(p[k + 1]) && IsLowerHex(p[k + 2]))
    && (p[k] == Percent || IsAllowed(p[k]))
  }

  /** Every '%' begins two lower-case hex digits, and every other byte is an allowed one. */
  predicate Encoded(p: seq<Byte>)
  {
    forall k :: 0 <= k < |p| ==> EncodedAt(p, k)
  }

  /** Each byte of p passed through ToLower. */
  function Lowered(p: seq<Byte>): (l: seq<Byte>)
    ensures |l| == |p| && forall k :: 0 <= k < |p| ==> l[k] == ToLower(p[k])
  {
    seq(|p|, k requires 0 <= k < |p| => ToLower(p[k]))
  }

  lemma EncodedConcat(a: seq<Byte>, b: seq<Byte>)
    requires Encoded(a) && Encoded(b)
    ensures Encoded(a + b)
  {
    var c := a + b;
    forall k | 0 <= k < |c|
      ensures EncodedAt(c, k)
    {
      if k < |a| {
        assert EncodedAt(a, k);
        if a[k] == Percent {
          assert c[k + 1] == a[k + 1] && c[k + 2] == a[k + 2];
        }
      } else {
        assert EncodedAt(b, k - |a|);
        if b[k - |a|] == Percent {
          assert c[k + 1] == b[k - |a| + 1] && c[k + 2] == b[k - |a| + 2];
        }
      }
    }
  }

  /** What one round of the encoding loop appends is encoded. */
  lemma HeadEncoded(u: seq<Byte>, i: nat)
    requires i < |u|
    ensures EscapeAt(u, i) ==> Encoded([Percent, ToLower(u[i + 1]), ToLower(u[i + 2])])
    ensures !EscapeAt(u, i) && IsAllowed(u[i]) ==> Encoded([u[i]])
    ensures !EscapeAt(u, i) && !IsAllowed(u[i]) ==> Encoded([Percent, HexDigit(u[i] / 16), HexDigit(u[i] % 16)])
  {
    if EscapeAt(u, i) {
      var h := [Percent, ToLower(u[i + 1]), ToLower(u[i + 2])];
      assert EncodedAt(h, 0) && EncodedAt(h, 1) && EncodedAt(h, 2);
    } else if IsAllowed(u[i]) {
      assert EncodedAt([u[i]], 0);
    } else {
      var h := [Percent, HexDigit(u[i] / 16), HexDigit(u[i] % 16)];
      assert EncodedAt(h, 0) && EncodedAt(h, 1) && EncodedAt(h, 2);
    }
  }

  /** The encoding loop writes only escapes and allowed bytes. */
  lemma {:induction false} EncodeFromEncoded(u: seq<Byte>, i: nat)
    ensures Encoded(EncodeFrom(u, i))
    decreases |u| - i
  {
    if i < |u| {
      HeadEncoded(u, i);
      if EscapeAt(u, i) {
        EncodeFromEncoded(u, i + 3);
        EncodedConcat([Percent, ToLower(u[i + 1]), ToLower(u[i + 2])], EncodeFrom(u, i + 3));
      } else if IsAllowed(u[i]) {
        EncodeFromEncoded(u, i + 1);
        EncodedConcat([u[i]], EncodeFrom(u, i + 1));
      } else {
        EncodeFromEncoded(u, i + 1);
        EncodedConcat([Percent, HexDigit(u[i] / 16), HexDigit(u[i] % 16)], EncodeFrom(u, i + 1));
      }
    }
  }

  /** Lower-casing an encoded path leaves it encoded. */
  lemma LoweredEncoded(p: seq<Byte>)
    requires Encoded(p)
    ensures Encoded(Lowered(p))
  {
    var l := Lowered(p);
    forall k | 0 <= k < |l|
      ensures EncodedAt(l, k)
    {
      assert EncodedAt(p, k);
    }
  }

  /** Lower-casing one byte of an encoded path leaves it encoded. */
  lemma LowerOneEncoded(p: seq<Byte>, j: nat)
    requires Encoded(p) && j < |p|
    ensures Encoded(p[j := ToLower(p[j])])
  {
    var q := p[j := ToLower(p[j])];
    forall k | 0 <= k < |q|
      ensures EncodedAt(q, k)
    {
      assert EncodedAt(p, k);
      if p[k] == Percent {
        assert EncodedAt(p, k + 1) && EncodedAt(p, k + 2);
      }
    }
  }

  /** The bytes p would hold once the loop has lower-cased everything from j on. */
  function LoweredFrom(p: seq<Byte>, j: nat): (l: seq<Byte>)
    ensures |l| == |p|
  {
    seq(|p|, k requires 0 <= k < |p| => if k < j then p[k] else ToLower(p[k]))
  }

  /**
   * On an encoded path the in-place loop lower-cases every byte: the
   * bytes it steps over are '%' and lower-case digits, which ToLower keeps.
   */
  lemma {:induction false} LowerFromLowers(p: seq<Byte>, j: nat)
    requires Encoded(p) && j <= |p|
    ensures LowerFrom(p, j) == LoweredFrom(p, j)
    decreases |p| - j
  {
    if j < |p| {
      assert EncodedAt(p, j);
      if p[j] == Percent && j + 2 < |p| {
        LowerFromLowers(p, j + 3);
        assert LoweredFrom(p, j + 3) == LoweredFrom(p, j);
      } else {
        var q := p[j := ToLower(p[j])];
        LowerOneEncoded(p, j);
        LowerFromLowers(q, j + 1);
        assert LoweredFrom(q, j + 1) == LoweredFrom(p, j);
      }
    } else {
      assert LoweredFrom(p, j) == p;
    }
  }

  lemma LowerFromIsLowered(p: seq<Byte>)
    requires Encoded(p)
    ensures LowerFrom(p, 0) == Lowered(p)
  {
    LowerFromLowers(p, 0);
    assert LoweredFrom(p, 0) == Lowered(p);
  }

  /** The path the encoding loop builds is encoded, the inserted '/' included. */
  lemma PathEncoded(u: seq<Byte>)
    ensures Encoded(Path(u))
  {
    EncodeFromEncoded(u, 7);
    if !HasLeadingSlash(u) && DrivePattern(u) {
      assert EncodedAt([Slash], 0);
      EncodedConcat([Slash], EncodeFrom(u, 7));
    } else {
      assert Path(u) == EncodeFrom(u, 7);
    }
  }

  /** The normalised URI, path lower-cased or not. */
  lemma NormalizeShape(u: seq<Byte>)
    ensures Normalize(u) == Scheme + (if WindowsPath(Path(u)) then Lowered(Path(u)) else Path(u))
  {
    PathEncoded(u);
    if WindowsPath(Path(u)) {
      LowerFromIsLowered(Path(u));
    }
  }

  /**
   * Every normalised URI starts with "file://", and in the rest every '%'
   * begins two lower-case hex digits and every other byte is unreserved or
   * reserved, so it needs no further escaping.
   */
  lemma NormalizedIsEncoded(u: seq<Byte>)
    ensures Normalize(u)[..7] == Scheme
    ensures Encoded(Normalize(u)[7..])
  {
    NormalizeShape(u);
    PathEncoded(u);
    var p := Path(u);
    var body := if WindowsPath(p) then Lowered(p) else p;
    assert Normalize(u)[7..] == body;
    if WindowsPath(p) {
      LoweredEncoded(p);
    }
  }

  // ---------------------------------------------------------------------
  // Encoding keeps the octets the path denotes
  // ---------------------------------------------------------------------

  /** The octets a percent-encoded string denotes: a valid escape stands for its byte, anything else for itself. */
  function Decode(s: seq<Byte>): seq<Byte>
    decreases |s|
  {
    if |s| == 0 then []
    else if EscapeAt(s, 0) then [16 * JsonReaderSpec.HexValue(s[1]) + JsonReaderSpec.HexValue(s[2])] + Decode(s[3..])
    else [s[0]] + Decode(s[1..])
  }

  lemma HexValueOfLower(c: Byte)
    requires IsHex(c)
    ensures IsHex(ToLower(c)) && JsonReaderSpec.HexValue(ToLower(c)) == JsonReaderSpec.HexValue(c)
  {
  }

  /**
   * The encoding loop keeps what the path means: decoding its output gives
   * the bytes the input denotes (section 6.2.2.2 of RFC 3986: normalising an
   * escape's case and escaping a byte are equivalences).
   */
  lemma {:induction false} EncodeFromKeepsOctets(u: seq<Byte>, i: nat)
    requires i <= |u|
    ensures Decode(EncodeFrom(u, i)) == Decode(u[i..])
    decreases |u| - i
  {
    if i < |u| {
      var rest := u[i..];
      if EscapeAt(u, i) {
        var out := [Percent, ToLower(u[i + 1]), ToLower(u[i + 2])] + EncodeFrom(u, i + 3);
        HexValueOfLower(u[i + 1]);
        HexValueOfLower(u[i + 2]);
        assert EscapeAt(out, 0);
        assert out[3..] == EncodeFrom(u, i + 3);
        assert EscapeAt(rest, 0);
        assert rest[3..] == u[i + 3..];
        EncodeFromKeepsOctets(u, i + 3);
      } else if IsAllowed(u[i]) {
        var out := [u[i]] + EncodeFrom(u, i + 1);
        assert out[1..] == EncodeFrom(u, i + 1);
        assert !EscapeAt(out, 0);
        assert rest[1..] == u[i + 1..];
        EncodeFromKeepsOctets(u, i + 1);
      } else {
        var out := [Percent, HexDigit(u[i] / 16), HexDigit(u[i] % 16)] + EncodeFrom(u, i + 1);
        assert EscapeAt(out, 0);
        assert out[3..] == EncodeFrom(u, i + 1);
        assert !EscapeAt(rest, 0);
        assert rest[1..] == u[i + 1..];
        EncodeFromKeepsOctets(u, i + 1);
      }
    }
  }

  /** Away from drive paths the normalised path denotes the same bytes as the path the client sent. */
  lemma NormalizeKeepsOctets(u: seq<Byte>)
    requires |u| >= 7 && !DrivePattern(u)
    ensures Decode(Normalize(u)[7..]) == Decode(u[7..])
  {
    NormalizeShape(u);
    assert Path(u) == EncodeFrom(u, 7);
    EncodeFromKeepsOctets(u, 7);
    WindowsPathIsDrive(u);
    assert Normalize(u)[7..] == Path(u);
  }

  // ---------------------------------------------------------------------
  // Normalising twice
  // ---------------------------------------------------------------------

  /** An encoded path goes through the encoding loop unchanged. */
  lemma {:induction false} EncodeFromFixed(u: seq<Byte>, i: nat)
    requires i <= |u| && Encoded(u[i..])
    ensures EncodeFrom(u, i) == u[i..]
    decreases |u| - i
  {
    if i < |u| {
      var w := u[i..];
      assert EncodedAt(w, 0);
      if u[i] == Percent {
        assert w[1] == u[i + 1] && w[2] == u[i + 2];
        assert EscapeAt(u, i);
        var v := u[i + 3..];
        assert Encoded(v) by {
          forall k | 0 <= k < |v|
            ensures EncodedAt(v, k)
          {
            assert EncodedAt(w, k + 3);
          }
        }
        EncodeFromFixed(u, i + 3);
        assert w == [u[i], u[i + 1], u[i + 2]] + u[i + 3..];
      } else {
        assert !EscapeAt(u, i);
        var v := u[i + 1..];
        assert Encoded(v) by {
          forall k | 0 <= k < |v|
            ensures EncodedAt(v, k)
          {
            assert EncodedAt(w, k + 1);
          }
        }
        EncodeFromFixed(u, i + 1);
        assert w == [u[i]] + u[i + 1..];
      }
    }
  }

  /** The encoding loop writes a letter and then "%3a" from d on only for a drive letter at d. */
  lemma LetterThenColon(u: seq<Byte>, d: nat)
    ensures var e := EncodeFrom(u, d);
      (|e| >= 4 && IsAlpha(e[0]) && e[1] == Percent && e[2] == 0x33 && e[3] == 0x61) ==>
        (d + 1 < |u| && IsAlpha(u[d])
         && (u[d + 1] == Colon || (u[d + 1] == Percent && d + 3 < |u| && u[d + 2] == 0x33 && (u[d + 3] == 0x41 || u[d + 3] == 0x61))))
  {
    if d < |u| && !EscapeAt(u, d) && IsAllowed(u[d]) {
      var e := EncodeFrom(u, d);
      assert e == [u[d]] + EncodeFrom(u, d + 1);
      if d + 1 < |u| {
        var f := EncodeFrom(u, d + 1);
        if EscapeAt(u, d + 1) {
          assert f[..3] == [Percent, ToLower(u[d + 2]), ToLower(u[d + 3])];
        } else if IsAllowed(u[d + 1]) {
          assert f[0] == u[d + 1];
        } else {
          assert f[..3] == [Percent, HexDigit(u[d + 1] / 16), HexDigit(u[d + 1] % 16)];
        }
      }
    }
  }

  /** The encoding loop starts a letter, then "%3a", only for a drive path without a '/'. */
  lemma EncodeStart(u: seq<Byte>)
    ensures var e := EncodeFrom(u, 7);
      (|e| >= 4 && IsAlpha(e[0]) && e[1] == Percent && e[2] == 0x33 && e[3] == 0x61) ==> (!HasLeadingSlash(u) && DrivePattern(u))
  {
    LetterThenColon(u, 7);
  }

  /** The encoding loop starts "/", a letter, then "%3a" only for a drive path after one '/'. */
  lemma WindowsPathIsDrive(u: seq<Byte>)
    ensures WindowsPath(EncodeFrom(u, 7)) ==> DrivePattern(u)
  {
    LetterThenColon(u, 8);
    EncodeFromEncoded(u, 7);
    if 7 < |u| && !EscapeAt(u, 7) && IsAllowed(u[7]) {
      var e := EncodeFrom(u, 7);
      assert e == [u[7]] + EncodeFrom(u, 8);
      if |e| >= 5 {
        assert EncodedAt(e, 2);
        assert e[1..5] == EncodeFrom(u, 8)[..4];
      }
    }
  }

  /** No path starts with a letter and "%3a": the '/' is inserted before such a drive. */
  lemma NoBareDrive(u: seq<Byte>)
    ensures var p := Path(u); !(|p| >= 4 && IsAlpha(p[0]) && p[1] == Percent && p[2] == 0x33 && p[3] == 0x61)
  {
    EncodeStart(u);
    if !HasLeadingSlash(u) && DrivePattern(u) {
      assert Path(u)[0] == Slash;
    } else {
      assert Path(u) == EncodeFrom(u, 7);
    }
  }

  lemma WindowsPathLowered(p: seq<Byte>)
    ensures WindowsPath(Lowered(p)) <==> WindowsPath(p)
  {
  }

  lemma LoweredTwice(p: seq<Byte>)
    ensures Lowered(Lowered(p)) == Lowered(p)
  {
  }

  /** The second pass over a normalised URI inserts no '/'. */
  lemma NoSecondSlash(u: seq<Byte>)
    ensures var n := Normalize(u); HasLeadingSlash(n) || !DrivePattern(n)
  {
    var p := Path(u);
    var n := Normalize(u);
    NormalizeShape(u);
    NormalizedIsEncoded(u);
    NoBareDrive(u);
    PathEncoded(u);
    var body := if WindowsPath(p) then Lowered(p) else p;
    assert n == Scheme + body;
    if 8 < |n| {
      assert n[8] == body[1];
      assert EncodedAt(body, 1);
    }
    if 10 < |n| {
      assert n[7] == body[0] && n[9] == body[2] && n[10] == body[3];
      assert EncodedAt(body, 1);
      if body[1] == Percent {
        assert EncodedAt(p, 1);
      }
    }
  }

  /**
   * Normalising is idempotent: a normalised URI is its own normal form, so
   * a document keeps its cache key however often its URI is normalised.
   */
  lemma NormalizeIdempotent(u: seq<Byte>)
    ensures Normalize(Normalize(u)) == Normalize(u)
  {
    var p := Path(u);
    var n := Normalize(u);
    NormalizeShape(u);
    NormalizedIsEncoded(u);
    var body := if WindowsPath(p) then Lowered(p) else p;
    assert n[7..] == body;
    NoSecondSlash(u);
    EncodeFromFixed(n, 7);
    assert Path(n) == body;
    NormalizeShape(n);
    if WindowsPath(p) {
      WindowsPathLowered(p);
      LoweredTwice(p);
    }
  }

  /**
   * A drive path ("C:", "C%3A" or "C%3a", after at most one '/') always
   * comes out as "file:///" followed by the lower-cased path.
   */
  lemma DrivePathsLowered(u: seq<Byte>)
    requires DrivePattern(u)
    ensures Normalize(u) == Scheme + Lowered(Path(u))
    ensures Normalize(u)[7] == Slash
  {
    NormalizeShape(u);
    var p := Path(u);
    var d := DriveIndex(u);
    var e := EncodeFrom(u, d);
    assert !EscapeAt(u, d) && IsAllowed(u[d]);
    assert e == [u[d]] + EncodeFrom(u, d + 1);
    if u[d + 1] == Colon {
      assert !EscapeAt(u, d + 1) && !IsAllowed(u[d + 1]);
    } else {
      assert EscapeAt(u, d + 1);
    }
    assert e[1..4] == [Percent, 0x33, 0x61];
    if HasLeadingSlash(u) {
      assert !EscapeAt(u, 7) && IsAllowed(u[7]);
      assert p == [Slash] + e;
    } else {
      assert p == [Slash] + e;
    }
    assert WindowsPath(p);
  }
}
