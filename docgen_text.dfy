// The string helpers of the HTML documentation generator, as functions:
// HTML and JSON escaping, slugs, the lower-camel key placeholder, display
// paths, path keys and page file names, and the measures nestedDepth,
// countKeys and typeLabel.  Each helper's C++ loop is a method in module
// DocGen proved to compute the function here.
//
// The generator works on std::string bytes; each character of the model
// stands for one byte, and the character classes are the ASCII ones of the
// C locale (std::isalnum, std::tolower, std::toupper).

module DocGenText {

  import opened Wrappers
  import opened Repr
  import opened Chars
  import FormatterText

  // ---------------------------------------------------------------------
  // Character-wise rewriting
  // ---------------------------------------------------------------------

  /** Each character of s replaced by f of it, in order. */
  function FlatMap(s: string, f: char -> string): (r: string)
    ensures |s| == 0 ==> r == ""
  {
    if |s| == 0 then "" else f(s[0]) + FlatMap(s[1..], f)
  }

  lemma {:induction false} FlatMapAppend(s: string, t: string, f: char -> string)
    ensures FlatMap(s + t, f) == FlatMap(s, f) + FlatMap(t, f)
    decreases |s|
  {
    if |s| > 0 {
      assert (s + t)[1..] == s[1..] + t;
      FlatMapAppend(s[1..], t, f);
    } else {
      assert s + t == t;
    }
  }

  /** The loop step: one more character appends its replacement. */
  lemma FlatMapSnoc(s: string, i: nat, f: char -> string)
    requires i < |s|
    ensures FlatMap(s[..i + 1], f) == FlatMap(s[..i], f) + f(s[i])
  {
    assert s[..i + 1] == s[..i] + [s[i]];
    FlatMapAppend(s[..i], [s[i]], f);
    assert FlatMap([s[i]], f) == f(s[i]) + FlatMap([], f);
  }

  predicate IsAlnum(c: char) { IsAlpha(c) || IsDigit(c) }

  function ToLower(c: char): (d: char)
    ensures 'A' <= c <= 'Z' ==> 'a' <= d <= 'z' && d as int == c as int + 32
    ensures !('A' <= c <= 'Z') ==> d == c
  {
    if 'A' <= c <= 'Z' then (c as int + 32) as char else c
  }

  function ToUpper(c: char): (d: char)
    ensures 'a' <= c <= 'z' ==> 'A' <= d <= 'Z' && d as int == c as int - 32
    ensures !('a' <= c <= 'z') ==> d == c
  {
    if 'a' <= c <= 'z' then (c as int - 32) as char else c
  }

  // ---------------------------------------------------------------------
  // htmlEscape
  // ---------------------------------------------------------------------

  /** The five characters HTML markup reserves, as entities; everything else as is. */
  function HtmlEntity(c: char): string
  {
    if c == '&' then "&amp;"
    else if c == '<' then "&lt;"
    else if c == '>' then "&gt;"
    else if c == '"' then "&quot;"
    else if c == '\'' then "&#39;"
    else [c]
  }

  function HtmlEscaped(s: string): string
  {
    FlatMap(s, HtmlEntity)
  }

  /** The inverse reading: each of the five entities back to its character. */
  function HtmlUnescaped(r: string): string
    decreases |r|
  {
    if |r| == 0 then ""
    else if r[0] != '&' || |r| < 4 then [r[0]] + HtmlUnescaped(r[1..])
    else if r[1] == 'l' && r[2] == 't' && r[3] == ';' then "<" + HtmlUnescaped(r[4..])
    else if r[1] == 'g' && r[2] == 't' && r[3] == ';' then ">" + HtmlUnescaped(r[4..])
    else if |r| >= 5 && r[1] == 'a' && r[2] == 'm' && r[3] == 'p' && r[4] == ';' then "&" + HtmlUnescaped(r[5..])
    else if |r| >= 5 && r[1] == '#' && r[2] == '3' && r[3] == '9' && r[4] == ';' then "'" + HtmlUnescaped(r[5..])
    else if |r| >= 6 && r[1] == 'q' && r[2] == 'u' && r[3] == 'o' && r[4] == 't' && r[5] == ';' then "\"" + HtmlUnescaped(r[6..])
    else [r[0]] + HtmlUnescaped(r[1..])
  }

  /** Reading the entities back gives the original text: nothing is lost or invented. */
  lemma {:induction false} HtmlRoundTrip(s: string)
    ensures HtmlUnescaped(HtmlEscaped(s)) == s
    decreases |s|
  {
    if |s| > 0 {
      var c, e, rest := s[0], HtmlEntity(s[0]), HtmlEscaped(s[1..]);
      assert HtmlEscaped(s) == e + rest;
      HtmlRoundTrip(s[1..]);
      EntityThenRest(c, rest);
      assert s == [c] + s[1..];
    }
  }

  lemma EntityThenRest(c: char, rest: string)
    ensures HtmlUnescaped(HtmlEntity(c) + rest) == [c] + HtmlUnescaped(rest)
  {
    var r := HtmlEntity(c) + rest;
    if c == '&' {
      assert r[..5] == "&amp;" && r[5..] == rest;
    } else if c == '<' {
      assert r[..4] == "&lt;" && r[4..] == rest;
    } else if c == '>' {
      assert r[..4] == "&gt;" && r[4..] == rest;
    } else if c == '"' {
      assert r[..6] == "&quot;" && r[6..] == rest;
    } else if c == '\'' {
      assert r[..5] == "&#39;" && r[5..] == rest;
    } else {
      assert r[0] == c && r[1..] == rest;
    }
  }

  /** The escaped text holds none of < > " ' and every & opens one of the five entities. */
  lemma {:induction false} HtmlEscapedIsInert(s: string)
    ensures forall k :: 0 <= k < |HtmlEscaped(s)| ==> HtmlEscaped(s)[k] !in "<>\"'"
    decreases |s|
  {
    if |s| > 0 {
      HtmlEscapedIsInert(s[1..]);
      var e, rest := HtmlEntity(s[0]), HtmlEscaped(s[1..]);
      assert HtmlEscaped(s) == e + rest;
      forall k | 0 <= k < |e + rest| ensures (e + rest)[k] !in "<>\"'" {
        if k >= |e| { assert (e + rest)[k] == rest[k - |e|]; }
      }
    }
  }

  // ---------------------------------------------------------------------
  // jsonEscape
  // ---------------------------------------------------------------------

  function HexDigit(n: nat): (d: char)
    requires n < 16
    ensures '0' <= d <= '9' || 'A' <= d <= 'F'
  {
    "0123456789ABCDEF"[n]
  }

  /** The value of a hex digit in either case, for the decoder. */
  function HexValue(d: char): (n: nat)
    ensures n < 16
  {
    if '0' <= d <= '9' then d as int - '0' as int
    else if 'A' <= d <= 'F' then d as int - 'A' as int + 10
    else if 'a' <= d <= 'f' then d as int - 'a' as int + 10
    else 0
  }

  lemma HexDigitValue(n: nat)
    requires n < 16
    ensures HexValue(HexDigit(n)) == n
  {
  }

  /** A control character (below 0x20, or 0x7F) with no short escape. */
  predicate NeedsUnicodeEscape(c: char)
  {
    c as int < 0x20 || c as int == 0x7F
  }

  /** The seven short escapes, \u00XX with upper-case hex for other control characters. */
  function JsonEscapeChar(c: char): string
  {
    if c == '"' then "\\\""
    else if c == '\\' then "\\\\"
    else if c == '\U{8}' then "\\b"
    else if c == '\U{C}' then "\\f"
    else if c == '\n' then "\\n"
    else if c == '\r' then "\\r"
    else if c == '\t' then "\\t"
    else if NeedsUnicodeEscape(c) then "\\u00" + [HexDigit(c as int / 16), HexDigit(c as int % 16)]
    else [c]
  }

  function JsonEscaped(s: string): string
  {
    FlatMap(s, JsonEscapeChar)
  }

  /** The decoding of a JSON string body: the escapes back to characters. */
  function JsonUnescaped(r: string): string
    decreases |r|
  {
    if |r| == 0 then ""
    else if r[0] == '\\' && |r| >= 6 && r[1] == 'u' then
      [CodeUnit(4096 * HexValue(r[2]) + 256 * HexValue(r[3]) + 16 * HexValue(r[4]) + HexValue(r[5]))] + JsonUnescaped(r[6..])
    else if r[0] == '\\' && |r| >= 2 then [ShortEscaped(r[1])] + JsonUnescaped(r[2..])
    else [r[0]] + JsonUnescaped(r[1..])
  }

  /** The character of a \\u escape; a surrogate code unit, which needs its pair, reads as U+FFFD here. */
  function CodeUnit(v: nat): char
    requires v < 0x10000
  {
    if 0xD800 <= v < 0xE000 then '\U{FFFD}' else v as char
  }

  /** The character a short escape stands for. */
  function ShortEscaped(d: char): char
  {
    if d == 'b' then '\U{8}'
    else if d == 'f' then '\U{C}'
    else if d == 'n' then '\n'
    else if d == 'r' then '\r'
    else if d == 't' then '\t'
    else d
  }

  /** Decoding the escaped text gives the original back. */
  lemma {:induction false} JsonRoundTrip(s: string)
    ensures JsonUnescaped(JsonEscaped(s)) == s
    decreases |s|
  {
    if |s| > 0 {
      var c, rest := s[0], JsonEscaped(s[1..]);
      assert JsonEscaped(s) == JsonEscapeChar(c) + rest;
      JsonRoundTrip(s[1..]);
      JsonEscapeThenRest(c, rest);
      assert s == [c] + s[1..];
    }
  }

  lemma JsonEscapeThenRest(c: char, rest: string)
    ensures JsonUnescaped(JsonEscapeChar(c) + rest) == [c] + JsonUnescaped(rest)
  {
    var e := JsonEscapeChar(c);
    if |e| == 6 {
      UnicodeEscapeThenRest(c, rest);
    } else {
      var r := e + rest;
      assert r[|e|..] == rest;
      assert r[0] == e[0];
      if |e| == 2 { assert r[1] == e[1]; }
    }
  }

  lemma UnicodeEscapeThenRest(c: char, rest: string)
    requires NeedsUnicodeEscape(c) && c !in "\U{8}\U{C}\n\r\t"
    ensures JsonUnescaped(JsonEscapeChar(c) + rest) == [c] + JsonUnescaped(rest)
  {
    var hi, lo := c as int / 16, c as int % 16;
    var e := "\\u00" + [HexDigit(hi), HexDigit(lo)];
    assert JsonEscapeChar(c) == e;
    var r := e + rest;
    assert r[6..] == rest;
    assert r[0] == '\\' && r[1] == 'u' && r[2] == '0' && r[3] == '0' && r[4] == HexDigit(hi) && r[5] == HexDigit(lo);
    HexDigitValue(hi);
    HexDigitValue(lo);
  }

  /** The escaped text holds no control character: JSON admits none unescaped. */
  lemma {:induction false} JsonEscapedHasNoControl(s: string)
    ensures forall k :: 0 <= k < |JsonEscaped(s)| ==> !NeedsUnicodeEscape(JsonEscaped(s)[k])
    decreases |s|
  {
    if |s| > 0 {
      JsonEscapedHasNoControl(s[1..]);
      var e, rest := JsonEscapeChar(s[0]), JsonEscaped(s[1..]);
      assert JsonEscaped(s) == e + rest;
      forall k | 0 <= k < |e + rest| ensures !NeedsUnicodeEscape((e + rest)[k]) {
        if k >= |e| { assert (e + rest)[k] == rest[k - |e|]; }
      }
    }
  }

  // ---------------------------------------------------------------------
  // slugify
  // ---------------------------------------------------------------------

  /** Upper case lowered, letters and digits kept, backquotes dropped, everything else '-'. */
  function SlugChar(c: char): string
  {
    if 'A' <= c <= 'Z' then [ToLower(c)]
    else if 'a' <= c <= 'z' || '0' <= c <= '9' then [c]
    else if c == '_' || c == '-' then "-"
    else if c == '`' then ""
    else "-"
  }

  predicate IsSlugChar(c: char) { 'a' <= c <= 'z' || '0' <= c <= '9' || c == '-' }

  /** r without its trailing '-' characters (the pop_back loop). */
  function TrimEnd(r: string): (t: string)
    ensures |t| <= |r| && t == r[..|t|]
    ensures t == "" || t[|t| - 1] != '-'
    ensures forall k :: |t| <= k < |r| ==> r[k] == '-'
  {
    if |r| > 0 && r[|r| - 1] == '-' then TrimEnd(r[..|r| - 1]) else r
  }

  /** r without its leading '-' characters (the erase loop). */
  function TrimStart(r: string): (t: string)
    ensures |t| <= |r| && t == r[|r| - |t|..]
    ensures t == "" || t[0] != '-'
    ensures forall k :: 0 <= k < |r| - |t| ==> r[k] == '-'
  {
    if |r| > 0 && r[0] == '-' then TrimStart(r[1..]) else r
  }

  /** The mapped text with the dashes at both ends trimmed. */
  function SlugBody(s: string): string
  {
    TrimStart(TrimEnd(FlatMap(s, SlugChar)))
  }

  function Slug(s: string): string
  {
    if s == "*" then "wildcard"
    else if s == "*[]" then "wildcard-array"
    else if s == "[]" then "array"
    else if SlugBody(s) == "" then "page"
    else SlugBody(s)
  }

  predicate IsSlug(t: string)
  {
    t != "" && t[0] != '-' && t[|t| - 1] != '-' && AllSlugChars(t)
  }

  lemma {:induction false} SlugCharsOfMap(s: string)
    ensures AllSlugChars(FlatMap(s, SlugChar))
    decreases |s|
  {
    if |s| > 0 {
      SlugCharsOfMap(s[1..]);
      var e, rest := SlugChar(s[0]), FlatMap(s[1..], SlugChar);
      forall k | 0 <= k < |e + rest| ensures IsSlugChar((e + rest)[k]) {
        if k >= |e| { assert (e + rest)[k] == rest[k - |e|]; }
      }
    }
  }

  predicate AllSlugChars(t: string)
  {
    forall k :: 0 <= k < |t| ==> IsSlugChar(t[k])
  }

  lemma SlugCharsSlice(m: string, i: nat, j: nat)
    requires AllSlugChars(m) && i <= j <= |m|
    ensures AllSlugChars(m[i..j])
  {
    var t := m[i..j];
    forall k | 0 <= k < |t| ensures IsSlugChar(t[k]) {
      assert t[k] == m[i + k];
    }
  }

  /** Trimming dashes at both ends of text in the slug alphabet keeps the alphabet and leaves no dash at either end. */
  lemma TrimShape(m: string)
    requires AllSlugChars(m)
    ensures AllSlugChars(TrimStart(TrimEnd(m)))
    ensures TrimStart(TrimEnd(m)) == "" || (TrimStart(TrimEnd(m))[0] != '-' && TrimStart(TrimEnd(m))[|TrimStart(TrimEnd(m))| - 1] != '-')
  {
    var e := TrimEnd(m);
    var b := TrimStart(e);
    assert AllSlugChars(e) by {
      SlugCharsSlice(m, 0, |e|);
      assert m[0..|e|] == e;
    }
    assert AllSlugChars(b) by {
      SlugCharsSlice(e, |e| - |b|, |e|);
      assert e[|e| - |b|..|e|] == b;
    }
    if b != "" {
      assert b[|b| - 1] == e[|e| - 1];
    }
  }

  /** Trimming keeps the alphabet, leaves no dash at either end. */
  lemma SlugBodyShape(s: string)
    ensures AllSlugChars(SlugBody(s))
    ensures SlugBody(s) == "" || (SlugBody(s)[0] != '-' && SlugBody(s)[|SlugBody(s)| - 1] != '-')
  {
    SlugCharsOfMap(s);
    TrimShape(FlatMap(s, SlugChar));
  }

  /** A slug is non-empty, made of [a-z0-9-] only, and neither starts nor ends with '-'. */
  lemma SlugShape(s: string)
    ensures IsSlug(Slug(s))
  {
    if s == "*" {
      assert IsSlug("wildcard");
    } else if s == "*[]" {
      assert IsSlug("wildcard-array");
    } else if s == "[]" {
      assert IsSlug("array");
    } else if SlugBody(s) == "" {
      assert IsSlug("page");
    } else {
      SlugBodyShape(s);
    }
  }

  /** Text already in the slug alphabet maps to itself. */
  lemma {:induction false} SlugMapKeeps(t: string)
    requires AllSlugChars(t)
    ensures FlatMap(t, SlugChar) == t
    decreases |t|
  {
    if |t| > 0 {
      SlugMapKeeps(t[1..]);
      assert t == [t[0]] + t[1..];
    }
  }

  /** Slugs are fixed points: slugifying a slug changes nothing. */
  lemma SlugIdempotent(s: string)
    ensures Slug(Slug(s)) == Slug(s)
  {
    var t := Slug(s);
    SlugShape(s);
    SlugMapKeeps(t);
    assert t != "*" && t != "*[]" && t != "[]" by {
      assert IsSlugChar(t[0]);
    }
    assert SlugBody(t) == t;
  }

  // ---------------------------------------------------------------------
  // toLowerCamelAlphaNum and dynamicKeyPlaceholder
  // ---------------------------------------------------------------------

  /** The loop's state: the output so far and whether the next alphanumeric is upper-cased. */
  datatype CamelState = CamelState(out: string, upperNext: bool)

  /** One character: an alphanumeric is appended lowered (upper-cased after a separator); any other marks a separator once output exists. */
  function CamelStep(st: CamelState, c: char): CamelState
  {
    if IsAlnum(c) then
      var lower := ToLower(c);
      if st.out == "" then CamelState([lower], st.upperNext)
      else if st.upperNext then CamelState(st.out + [ToUpper(lower)], false)
      else CamelState(st.out + [lower], st.upperNext)
    else CamelState(st.out, st.out != "")
  }

  function CamelScan(s: string): CamelState
  {
    if |s| == 0 then CamelState("", false) else CamelStep(CamelScan(s[..|s| - 1]), s[|s| - 1])
  }

  /** The camel-cased alphanumerics, one trailing 's' dropped from two or more, "key" for none. */
  function Camel(s: string): string
  {
    var o := CamelScan(s).out;
    var p := if |o| > 1 && o[|o| - 1] == 's' then o[..|o| - 1] else o;
    if p == "" then "key" else p
  }

  /** An alphanumeric lowered, any other character dropped. */
  function AlnumLowered(c: char): string
  {
    if IsAlnum(c) then [ToLower(c)] else ""
  }

  /** toLowerAlphaNum: the alphanumerics, lowered. */
  function LowerAlphaNum(s: string): string
  {
    FlatMap(s, AlnumLowered)
  }

  function Lowered(s: string): (r: string)
    ensures |r| == |s| && forall k :: 0 <= k < |s| ==> r[k] == ToLower(s[k])
  {
    seq(|s|, k requires 0 <= k < |s| => ToLower(s[k]))
  }

  /**
   * The camel scan only changes case: lowered, its output is the
   * alphanumerics of the input, lowered; it starts lower-case, and a
   * pending upper-casing implies output exists.
   */
  lemma {:induction false} CamelScanIsLowerAlphaNum(s: string)
    ensures Lowered(CamelScan(s).out) == LowerAlphaNum(s)
    ensures CamelScan(s).out == "" || !('A' <= CamelScan(s).out[0] <= 'Z')
    ensures CamelScan(s).upperNext ==> CamelScan(s).out != ""
    ensures forall k :: 0 <= k < |CamelScan(s).out| ==> IsAlnum(CamelScan(s).out[k])
    decreases |s|
  {
    if |s| > 0 {
      var n := |s| - 1;
      var c := s[n];
      CamelScanIsLowerAlphaNum(s[..n]);
      FlatMapSnoc(s, n, AlnumLowered);
      assert s[..n + 1] == s;
      var st := CamelScan(s[..n]);
      var o := CamelScan(s).out;
      if IsAlnum(c) && st.out != "" {
        assert o[..|st.out|] == st.out;
        assert Lowered(o) == Lowered(st.out) + [ToLower(c)];
      }
    }
  }

  /** The name of the comment in the source: "bin-dependencies" gives "binDependencie". */
  lemma CamelOfDependencies()
    ensures Camel("bin-dependencies") == "binDependencie"
  {
    var s := "bin-dependencies";
    assert s[..0] == "";
    CamelPrefixStep(s, 0);
    CamelPrefixStep(s, 1);
    CamelPrefixStep(s, 2);
    CamelPrefixStep(s, 3);
    CamelPrefixStep(s, 4);
    assert CamelScan(s[..5]) == CamelState("binD", false);
    CamelRunOfLower(s, 5, 16, "binD");
    assert s[..16] == s;
    var o := "binD" + s[5..16];
    assert o[|o| - 1] == 's' && o[..|o| - 1] == "binDependencie";
  }

  lemma CamelPrefixStep(s: string, i: nat)
    requires i < |s|
    ensures CamelScan(s[..i + 1]) == CamelStep(CamelScan(s[..i]), s[i])
  {
    assert s[..i + 1][..i] == s[..i];
  }

  /** Lower-case letters after the output has started are appended as they are. */
  lemma {:induction false} CamelRunOfLower(s: string, i: nat, j: nat, out: string)
    requires i <= j <= |s| && out != ""
    requires CamelScan(s[..i]) == CamelState(out, false)
    requires forall k :: i <= k < j ==> 'a' <= s[k] <= 'z'
    ensures CamelScan(s[..j]) == CamelState(out + s[i..j], false)
    decreases j - i
  {
    if i < j {
      CamelPrefixStep(s, i);
      assert CamelScan(s[..i + 1]) == CamelState(out + [s[i]], false);
      CamelRunOfLower(s, i + 1, j, out + [s[i]]);
      assert out + [s[i]] + s[i + 1..j] == out + s[i..j];
    }
  }

  /** The last segment of a path with a trailing "[]" removed. */
  function PlaceholderBase(seg: string): string
  {
    if |seg| >= 2 && seg[|seg| - 2..] == "[]" then seg[..|seg| - 2] else seg
  }

  /** dynamicKeyPlaceholder: the name readers see for a wildcard key under parentPath. */
  function Placeholder(parentPath: seq<string>): string
  {
    if |parentPath| == 0 then "<key>"
    else
      var base := PlaceholderBase(parentPath[|parentPath| - 1]);
      if base == "*" || base == "" then "<key>" else "<" + Camel(base) + "Key>"
  }

  /** A placeholder is bracketed, and names a key only through the parent's last segment. */
  lemma PlaceholderShape(parentPath: seq<string>, other: seq<string>)
    requires |parentPath| > 0 && |other| > 0 && parentPath[|parentPath| - 1] == other[|other| - 1]
    ensures Placeholder(parentPath) == Placeholder(other)
    ensures |Placeholder(parentPath)| >= 5 && Placeholder(parentPath)[0] == '<' && Placeholder(parentPath)[|Placeholder(parentPath)| - 1] == '>'
  {
  }

  /** An array segment stands for the same placeholder as its element segment. */
  lemma PlaceholderIgnoresArraySuffix(prefix: seq<string>, name: string)
    requires !(|name| >= 2 && name[|name| - 2..] == "[]")
    ensures Placeholder(prefix + [name + "[]"]) == Placeholder(prefix + [name])
  {
    var seg := name + "[]";
    var p1, p2 := prefix + [seg], prefix + [name];
    assert p1[|p1| - 1] == seg && p2[|p2| - 1] == name;
    assert PlaceholderBase(seg) == name by {
      assert seg[|seg| - 2..] == "[]" && seg[..|seg| - 2] == name;
    }
    assert PlaceholderBase(name) == name;
  }

  // ---------------------------------------------------------------------
  // Paths
  // ---------------------------------------------------------------------

  /** The segments joined with sep between neighbours. */
  function Join(segs: seq<string>, sep: char): string
  {
    if |segs| == 0 then ""
    else if |segs| == 1 then segs[0]
    else Join(segs[..|segs| - 1], sep) + [sep] + segs[|segs| - 1]
  }

  /** The last occurrence of c in s, if any. */
  function LastIndexOf(s: string, c: char): (r: Option<nat>)
    ensures r.Some? ==> r.value < |s| && s[r.value] == c && forall k :: r.value < k < |s| ==> s[k] != c
    ensures r.None? ==> forall k :: 0 <= k < |s| ==> s[k] != c
  {
    if |s| == 0 then None
    else if s[|s| - 1] == c then Some(|s| - 1)
    else LastIndexOf(s[..|s| - 1], c)
  }

  /** The text cut at every sep into segments. */
  function Split(s: string, sep: char): (r: seq<string>)
    ensures |r| > 0
    decreases |s|
  {
    match LastIndexOf(s, sep)
    case None => [s]
    case Some(j) => Split(s[..j], sep) + [s[j + 1..]]
  }

  predicate Free(segs: seq<string>, sep: char)
  {
    forall i, k :: 0 <= i < |segs| && 0 <= k < |segs[i]| ==> segs[i][k] != sep
  }

  /** Cutting a text whose last part avoids sep: the cut falls just before that part. */
  lemma SplitLast(j: string, sep: char, last: string)
    requires forall k :: 0 <= k < |last| ==> last[k] != sep
    ensures Split(j + [sep] + last, sep) == Split(j, sep) + [last]
  {
    var s := j + [sep] + last;
    assert s[|j|] == sep;
    assert forall k :: |j| < k < |s| ==> s[k] == last[k - |j| - 1];
    assert LastIndexOf(s, sep) == Some(|j|);
    assert s[..|j|] == j && s[|j| + 1..] == last;
  }

  /** A non-empty path whose segments avoid the separator is recovered from its join. */
  lemma {:induction false} SplitJoin(segs: seq<string>, sep: char)
    requires |segs| > 0 && Free(segs, sep)
    ensures Split(Join(segs, sep), sep) == segs
    decreases |segs|
  {
    var n := |segs| - 1;
    var last := segs[n];
    assert forall k :: 0 <= k < |last| ==> last[k] != sep;
    if n == 0 {
      assert LastIndexOf(last, sep).None?;
    } else {
      var init := segs[..n];
      assert Free(init, sep) by {
        forall i, k | 0 <= i < |init| && 0 <= k < |init[i]| ensures init[i][k] != sep {
          assert init[i] == segs[i];
        }
      }
      assert Join(segs, sep) == Join(init, sep) + [sep] + last;
      SplitLast(Join(init, sep), sep, last);
      SplitJoin(init, sep);
      assert init + [last] == segs;
    }
  }

  /** pathKey: the segments joined with the unit separator 0x1F. */
  function PathKey(path: seq<string>): string
  {
    Join(path, '\U{1F}')
  }

  /** Distinct non-empty paths of separator-free segments have distinct keys. */
  lemma PathKeyInjective(a: seq<string>, b: seq<string>)
    requires |a| > 0 && |b| > 0 && Free(a, '\U{1F}') && Free(b, '\U{1F}')
    requires PathKey(a) == PathKey(b)
    ensures a == b
  {
    SplitJoin(a, '\U{1F}');
    SplitJoin(b, '\U{1F}');
  }

  /** displaySegment: a wildcard segment shows as the placeholder of its parent path. */
  function DisplaySegment(prefix: seq<string>, seg: string): string
  {
    if seg == "*" then Placeholder(prefix)
    else if seg == "*[]" then Placeholder(prefix) + "[]"
    else seg
  }

  /** Each segment of path as displaySegment shows it after the segments before it. */
  function DisplaySegments(path: seq<string>): (r: seq<string>)
    ensures |r| == |path|
  {
    seq(|path|, i requires 0 <= i < |path| => DisplaySegment(path[..i], path[i]))
  }

  function DisplayPath(path: seq<string>): string
  {
    Join(DisplaySegments(path), '.')
  }

  /** A path without wildcard segments is shown as its segments joined with dots. */
  lemma DisplayPathOfNamedPath(path: seq<string>)
    requires forall i :: 0 <= i < |path| ==> path[i] != "*" && path[i] != "*[]"
    ensures DisplayPath(path) == Join(path, '.')
  {
    assert DisplaySegments(path) == path;
  }

  /** pageFileFor without ".html": the schema slug, then '-' and the slug of each segment. */
  function PageStem(schemaName: string, path: seq<string>): string
  {
    if |path| == 0 then Slug(schemaName)
    else PageStem(schemaName, path[..|path| - 1]) + "-" + Slug(path[|path| - 1])
  }

  function PageFile(schemaName: string, path: seq<string>): string
  {
    PageStem(schemaName, path) + ".html"
  }

  function SchemaFile(schemaName: string): string
  {
    Slug(schemaName) + ".html"
  }

  /** The root path names the schema's own page. */
  lemma PageFileOfRoot(schemaName: string)
    ensures PageFile(schemaName, []) == SchemaFile(schemaName)
  {
  }

  lemma SlugJoin(a: string, b: string)
    requires AllSlugChars(a) && AllSlugChars(b)
    ensures AllSlugChars(a + "-" + b)
  {
    var r := a + "-" + b;
    forall k | 0 <= k < |r| ensures IsSlugChar(r[k]) {
      if k < |a| { assert r[k] == a[k]; }
      else if k > |a| { assert r[k] == b[k - |a| - 1]; }
    }
  }

  /** A page name is a slug-alphabet stem, of at least one slug per path segment, then ".html". */
  lemma {:induction false} PageStemShape(schemaName: string, path: seq<string>)
    ensures forall k :: 0 <= k < |PageStem(schemaName, path)| ==> IsSlugChar(PageStem(schemaName, path)[k])
    ensures |PageStem(schemaName, path)| >= 2 * |path| + 1
    decreases |path|
  {
    if |path| == 0 {
      SlugShape(schemaName);
    } else {
      var a := PageStem(schemaName, path[..|path| - 1]);
      var b := Slug(path[|path| - 1]);
      assert PageStem(schemaName, path) == a + "-" + b;
      assert AllSlugChars(a) && |a| >= 2 * (|path| - 1) + 1 by {
        PageStemShape(schemaName, path[..|path| - 1]);
      }
      assert AllSlugChars(b) && |b| >= 1 by {
        SlugShape(path[|path| - 1]);
      }
      SlugJoin(a, b);
    }
  }

  // ---------------------------------------------------------------------
  // Measures of types
  // ---------------------------------------------------------------------

  /** countKeys: the explicit keys and the wildcard key, if any. */
  function CountKeys(t: CslType): (n: nat)
    requires t.TableType?
    ensures n == 0 <==> |t.explicitKeys| == 0 && t.wildcardKey.None?
    ensures |t.explicitKeys| <= n <= |t.explicitKeys| + 1
  {
    |t.explicitKeys| + if t.wildcardKey.Some? then 1 else 0
  }

  /** nestedDepth: how many table and array levels a type nests. */
  function NestedDepth(t: CslType): nat
    decreases t, 1
  {
    match t
    case TableType(keys, wildcard, _, _) =>
      var d := KeysDepth(keys);
      if wildcard.Some? then Max(d, 1 + NestedDepth(wildcard.value.keyType)) else d
    case ArrayType(elem, _) => 1 + NestedDepth(elem)
    case UnionType(members, _) => MembersDepth(members)
    case _ => 0
  }

  function Max(a: nat, b: nat): nat { if a < b then b else a }

  /** The table loop over explicit keys: the maximum of 1 and one more than each key type's depth. */
  function KeysDepth(keys: seq<KeyDefinition>): (d: nat)
    ensures d >= 1
    ensures forall i :: 0 <= i < |keys| ==> d >= 1 + NestedDepth(keys[i].keyType)
    ensures d == 1 || exists i :: 0 <= i < |keys| && d == 1 + NestedDepth(keys[i].keyType)
    decreases keys, 0
  {
    if |keys| == 0 then 1
    else
      var init := keys[..|keys| - 1];
      var d := KeysDepth(init);
      assert forall i :: 0 <= i < |init| ==> init[i] == keys[i];
      Max(d, 1 + NestedDepth(keys[|keys| - 1].keyType))
  }

  /** The union loop: the maximum of the member depths, 0 for no members. */
  function MembersDepth(ms: seq<CslType>): (d: nat)
    ensures forall i :: 0 <= i < |ms| ==> d >= NestedDepth(ms[i])
    ensures d == 0 || exists i :: 0 <= i < |ms| && d == NestedDepth(ms[i])
    decreases ms, 0
  {
    if |ms| == 0 then 0
    else
      var init := ms[..|ms| - 1];
      var d := MembersDepth(init);
      assert forall i :: 0 <= i < |init| ==> init[i] == ms[i];
      Max(d, NestedDepth(ms[|ms| - 1]))
  }

  /** A table is at least one level deep and one level deeper than any of its keys' types. */
  lemma TableDepth(t: CslType)
    requires t.TableType?
    ensures NestedDepth(t) >= 1
    ensures forall i :: 0 <= i < |t.explicitKeys| ==> NestedDepth(t) >= 1 + NestedDepth(t.explicitKeys[i].keyType)
    ensures t.wildcardKey.Some? ==> NestedDepth(t) >= 1 + NestedDepth(t.wildcardKey.value.keyType)
  {
  }

  /** Every listed union member counts: a union is as deep as its deepest member. */
  lemma UnionDepth(t: CslType)
    requires t.UnionType?
    ensures forall i :: 0 <= i < |t.memberTypes| ==> NestedDepth(t) >= NestedDepth(t.memberTypes[i])
    ensures |t.memberTypes| == 0 ==> NestedDepth(t) == 0
  {
  }

  /** typeLabel: a short name for a type in a key table. */
  function TypeLabel(t: CslType): string
    decreases t, 1
  {
    match t
    case PrimitiveType(p, allowed, _, _) =>
      if |allowed| > 0 then FormatterText.AllowedText(allowed) else FormatterText.PrimitiveName(p)
    case TableType(_, _, _, _) => "table"
    case ArrayType(elem, _) => TypeLabel(elem) + "[]"
    case UnionType(members, _) => MemberLabels(members)
    case AnyTableType(_) => "any{}"
    case AnyArrayType(_) => "any[]"
    case InvalidType => ""
  }

  function MemberLabels(ms: seq<CslType>): string
    decreases ms, 0
  {
    if |ms| == 0 then "" else if |ms| == 1 then TypeLabel(ms[0]) else MemberLabels(ms[..|ms| - 1]) + " | " + TypeLabel(ms[|ms| - 1])
  }

  /** isEnumPrimitive: a primitive with a list of allowed values. */
  predicate IsEnumPrimitive(t: CslType)
  {
    t.PrimitiveType? && |t.allowedValues| > 0
  }

  /** A type with no table and no annotation anywhere in it. */
  predicate Plain(t: CslType)
    decreases t, 1
  {
    match t
    case PrimitiveType(_, _, annotations, _) => |annotations| == 0
    case TableType(_, _, _, _) => false
    case ArrayType(elem, _) => Plain(elem)
    case UnionType(members, _) => PlainMembers(members)
    case _ => true
  }

  predicate PlainMembers(ms: seq<CslType>)
    decreases ms, 0
  {
    |ms| == 0 || (PlainMembers(ms[..|ms| - 1]) && Plain(ms[|ms| - 1]))
  }

  /**
   * On types without tables and annotations the label is exactly the
   * canonical CSL text the formatter prints; the label differs only in
   * naming a table "table" and leaving annotations out.
   */
  lemma {:induction false} LabelIsCanonicalText(t: CslType, indent: nat)
    requires Plain(t)
    ensures TypeLabel(t) == FormatterText.TypeText(t, indent)
    decreases t, 1
  {
    match t
    case PrimitiveType(_, _, _, _) =>
    case ArrayType(elem, _) =>
      LabelIsCanonicalText(elem, indent);
    case UnionType(members, _) =>
      MemberLabelsAreCanonicalText(members, indent);
    case _ =>
  }

  lemma {:induction false} MemberLabelsAreCanonicalText(ms: seq<CslType>, indent: nat)
    requires PlainMembers(ms)
    ensures MemberLabels(ms) == FormatterText.MembersText(ms, indent)
    decreases ms, 0
  {
    if |ms| == 1 {
      LabelIsCanonicalText(ms[0], indent);
    } else if |ms| > 1 {
      MemberLabelsAreCanonicalText(ms[..|ms| - 1], indent);
      LabelIsCanonicalText(ms[|ms| - 1], indent);
    }
  }
}
