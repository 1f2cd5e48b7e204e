// The lexer's recognisers.  Each one skips leading white space (the `^(\s*)`
// group of its pattern) and then matches one lexeme at the start of what
// remains.  The patterns are deterministic once the leading white space is
// fixed, so each recogniser is written as a scanner, and its contract states
// the language the match belongs to and, where the pattern is greedy, that
// no longer prefix would do.

module LexerRecognizers {

  import opened Wrappers
  import opened LiteralTypes
  import opened Chars
  import LexerContent

  /** Where a match starts (after white space) and what it covers; "" is no match. */
  datatype Lexeme = Lexeme(lead: nat, content: string)

  /** A literal match also carries its literal kind; None is no match. */
  datatype Literal = Literal(prop: Option<LiteralType>, lead: nat, content: string)

  const NoMatch := Lexeme(0, "")
  const NoLiteral := Literal(None, 0, "")

  /** The length of the `\s*` group. */
  function LeadingSpace(s: string): (n: nat)
    ensures n <= |s|
  {
    if |s| > 0 && IsSpace(s[0]) then 1 + LeadingSpace(s[1..]) else 0
  }

  /** The white space group is all white space and as long as possible. */
  lemma {:induction false} LeadingSpaceIsMaximal(s: string)
    ensures forall k :: 0 <= k < LeadingSpace(s) ==> IsSpace(s[k])
    ensures LeadingSpace(s) == |s| || !IsSpace(s[LeadingSpace(s)])
  {
    if |s| > 0 && IsSpace(s[0]) {
      LeadingSpaceIsMaximal(s[1..]);
      assert forall k :: 1 <= k < LeadingSpace(s) ==> s[k] == s[1..][k - 1];
    }
  }

  predicate StartsWith(s: string, i: nat, w: string)
  {
    i + |w| <= |s| && s[i..i + |w|] == w
  }

  /** The negative look-ahead `(?![-\w])`: no word character or hyphen follows. */
  predicate WordEnds(s: string, i: nat)
  {
    i >= |s| || !(IsWordChar(s[i]) || s[i] == '-')
  }

  /** A match of s[i..j] reported as a lexeme. */
  predicate IsMatchOf(s: string, r: Lexeme)
  {
    r.content != "" ==> r.lead == LeadingSpace(s) && StartsWith(s, r.lead, r.content)
  }

  predicate IsLiteralMatchOf(s: string, r: Literal)
  {
    (r.prop.Some? <==> r.content != "") && IsMatchOf(s, Lexeme(r.lead, r.content))
  }

  /** The match of s[i..e] after the leading white space. */
  function Span(s: string, i: nat, e: nat): (r: Lexeme)
    requires i == LeadingSpace(s) && i < e <= |s|
    ensures IsMatchOf(s, r) && r.lead == i && r.content == s[i..e] && |r.content| == e - i
    ensures r.content[0] == s[i]
  {
    Lexeme(i, s[i..e])
  }

  function LiteralSpan(kind: LiteralType, s: string, i: nat, e: nat): (r: Literal)
    requires i == LeadingSpace(s) && i < e <= |s|
    ensures IsLiteralMatchOf(s, r) && r.prop == Some(kind) && r.lead == i && r.content == s[i..e] && |r.content| == e - i
    ensures r.content[0] == s[i]
  {
    Literal(Some(kind), i, s[i..e])
  }

  // ---------------------------------------------------------------------
  // Fixed word lists: keywords, type names, punctuators, operators, literals
  // ---------------------------------------------------------------------

  predicate Hits(s: string, i: nat, w: string, delimited: bool)
  {
    StartsWith(s, i, w) && (delimited ==> WordEnds(s, i + |w|))
  }

  /** The first word of the list found at i (the pattern's alternation order). */
  function FirstHit(s: string, i: nat, words: seq<string>, delimited: bool): (r: Option<string>)
    ensures r.Some? ==> r.value in words && Hits(s, i, r.value, delimited)
    ensures r.None? ==> forall w :: w in words ==> !Hits(s, i, w, delimited)
    ensures |words| > 0 && Hits(s, i, words[0], delimited) ==> r == Some(words[0])
  {
    if |words| == 0 then None
    else if Hits(s, i, words[0], delimited) then Some(words[0])
    else FirstHit(s, i, words[1..], delimited)
  }

  predicate ByNonIncreasingLength(words: seq<string>)
  {
    forall a, b :: 0 <= a < b < |words| ==> |words[a]| >= |words[b]|
  }

  /** In a list sorted longest first, the first word found is the longest one found. */
  lemma {:induction false} FirstHitIsLongest(s: string, i: nat, words: seq<string>, delimited: bool)
    requires ByNonIncreasingLength(words)
    ensures FirstHit(s, i, words, delimited).Some? ==>
      forall w :: w in words && Hits(s, i, w, delimited) ==> |w| <= |FirstHit(s, i, words, delimited).value|
  {
    if |words| > 0 && !Hits(s, i, words[0], delimited) {
      assert ByNonIncreasingLength(words[1..]) by {
        forall a, b | 0 <= a < b < |words| - 1 ensures |words[1..][a]| >= |words[1..][b]| {
          assert words[1..][a] == words[a + 1] && words[1..][b] == words[b + 1];
        }
      }
      FirstHitIsLongest(s, i, words[1..], delimited);
      forall w | w in words && Hits(s, i, w, delimited)
        ensures w in words[1..]
      {
        assert w != words[0];
      }
    } else if |words| > 0 {
      forall w | w in words && Hits(s, i, w, delimited)
        ensures |w| <= |words[0]|
      {
        var k :| 0 <= k < |words| && words[k] == w;
        assert k == 0 || |words[0]| >= |words[k]|;
      }
    }
  }

  function MatchWord(s: string, words: seq<string>, delimited: bool): (r: Lexeme)
    requires forall w :: w in words ==> w != ""
    ensures IsMatchOf(s, r)
    ensures r.content != "" <==> exists w :: w in words && Hits(s, LeadingSpace(s), w, delimited)
    ensures r.content != "" ==> r.content in words && Hits(s, r.lead, r.content, delimited)
  {
    var i := LeadingSpace(s);
    match FirstHit(s, i, words, delimited)
    case Some(w) => Lexeme(i, w)
    case None => NoMatch
  }

  const Keywords: seq<string> := ["config", "constraints", "requires", "conflicts", "with", "validate",
    "exists", "count_keys", "all_keys", "wildcard_keys", "subset", "*"]

  const TypeNames: seq<string> := ["any{}", "any[]", "string", "number", "boolean", "datetime", "duration"]

  const Punctuators: seq<string> := ["{", "}", "[", "]", ",", ":", ";", "@", "=>"]

  /** The operator list after the sort by decreasing length: the two-character operators first. */
  const TwoCharOperators: seq<string> := ["<<", ">>", "<=", ">=", "==", "!=", "&&", "||"]

  /**
   * The one-character operators, in three rows.  The source's sort is not
   * stable, but the order among operators of one length cannot change the
   * match: no two of them match at the same place.
   */
  const OneCharOperators: seq<string> := OneCharRow1 + OneCharRow2 + OneCharRow3

  const OneCharRow1: seq<string> := ["~", "!", "+", "-", ".", "@", "["]
  const OneCharRow2: seq<string> := ["(", "*", "/", "%", "<", ">", "&"]
  const OneCharRow3: seq<string> := ["^", "|", "=", "]", ")", "?", ":"]

  const Operators: seq<string> := TwoCharOperators + OneCharOperators

  function ParseKeyword(s: string): (r: Lexeme)
    ensures IsMatchOf(s, r)
    ensures r.content != "" ==> r.content in Keywords && WordEnds(s, r.lead + |r.content|)
    ensures r.content == "" <==> forall w :: w in Keywords ==> !Hits(s, LeadingSpace(s), w, true)
  {
    MatchWord(s, Keywords, true)
  }

  function ParseType(s: string): (r: Lexeme)
    ensures IsMatchOf(s, r)
    ensures r.content != "" ==> r.content in TypeNames && WordEnds(s, r.lead + |r.content|)
    ensures r.content == "" <==> forall w :: w in TypeNames ==> !Hits(s, LeadingSpace(s), w, true)
  {
    MatchWord(s, TypeNames, true)
  }

  function ParsePunctuator(s: string): (r: Lexeme)
    ensures IsMatchOf(s, r)
    ensures r.content != "" ==> r.content in Punctuators
    ensures r.content == "" <==> forall w :: w in Punctuators ==> !StartsWith(s, LeadingSpace(s), w)
  {
    MatchWord(s, Punctuators, false)
  }

  /** The longest operator at the start of the text. */
  function ParseOperator(s: string): (r: Lexeme)
    ensures IsMatchOf(s, r)
    ensures r.content != "" ==> r.content in Operators
    ensures r.content != "" ==> forall w :: w in Operators && StartsWith(s, r.lead, w) ==> |w| <= |r.content|
    ensures r.content == "" <==> forall w :: w in Operators ==> !StartsWith(s, LeadingSpace(s), w)
  {
    OperatorLengths();
    LongerListFirst(s, TwoCharOperators, OneCharOperators);
    var two := MatchWord(s, TwoCharOperators, false);
    if two.content != "" then two else MatchWord(s, OneCharOperators, false)
  }

  lemma OperatorLengths()
    ensures forall w :: w in TwoCharOperators ==> |w| == 2
    ensures forall w :: w in OneCharOperators ==> |w| == 1
  {
    AllOfLength(TwoCharOperators, 2);
    RowLengths();
    forall w | w in OneCharOperators ensures |w| == 1 {
      assert w in OneCharRow1 || w in OneCharRow2 || w in OneCharRow3;
    }
  }

  lemma RowLengths()
    ensures forall w :: w in OneCharRow1 ==> |w| == 1
    ensures forall w :: w in OneCharRow2 ==> |w| == 1
    ensures forall w :: w in OneCharRow3 ==> |w| == 1
  {
    AllOfLength(OneCharRow1, 1);
    AllOfLength(OneCharRow2, 1);
    AllOfLength(OneCharRow3, 1);
  }

  /** Membership in a word list of uniform length, checked word by word. */
  lemma AllOfLength(words: seq<string>, n: nat)
    requires forall k :: 0 <= k < |words| ==> |words[k]| == n
    ensures forall w :: w in words ==> |w| == n
  {
  }

  /** Trying every two-character word before every one-character word finds the longest word. */
  lemma LongerListFirst(s: string, two: seq<string>, one: seq<string>)
    requires forall w :: w in two ==> |w| == 2
    requires forall w :: w in one ==> |w| == 1
    ensures var r := if MatchWord(s, two, false).content != "" then MatchWord(s, two, false) else MatchWord(s, one, false);
      && IsMatchOf(s, r)
      && (r.content != "" ==> r.content in two + one)
      && (r.content != "" ==> forall w :: w in two + one && StartsWith(s, r.lead, w) ==> |w| <= |r.content|)
      && (r.content == "" <==> forall w :: w in two + one ==> !StartsWith(s, LeadingSpace(s), w))
  {
    var i := LeadingSpace(s);
    var m2 := MatchWord(s, two, false);
    if m2.content == "" {
      var m1 := MatchWord(s, one, false);
      forall w | w in two + one && m1.content != "" && StartsWith(s, m1.lead, w)
        ensures |w| <= |m1.content|
      {
        if w in two { assert Hits(s, i, w, false); }
      }
    }
  }

  function ParseBooleanLiteral(s: string): (r: Literal)
    ensures IsLiteralMatchOf(s, r)
    ensures r.prop.Some? ==> r.prop == Some(Boolean) && (r.content == "true" || r.content == "false")
    ensures r.prop.Some? ==> WordEnds(s, r.lead + |r.content|)
  {
    var m := MatchWord(s, ["true", "false"], true);
    if m.content != "" then Literal(Some(Boolean), m.lead, m.content) else NoLiteral
  }

  // ---------------------------------------------------------------------
  // Comments
  // ---------------------------------------------------------------------

  function LineEnd(s: string, j: nat): (e: nat)
    requires j <= |s|
    ensures j <= e <= |s|
    ensures forall k :: j <= k < e ==> s[k] != '\n'
    ensures e == |s| || s[e] == '\n'
    decreases |s| - j
  {
    if j == |s| || s[j] == '\n' then j else LineEnd(s, j + 1)
  }

  /** `//` and the rest of the line. */
  function ParseComment(s: string): (r: Lexeme)
    ensures IsMatchOf(s, r)
    ensures r.content != "" <==> StartsWith(s, LeadingSpace(s), "//")
    ensures r.content != "" ==> |r.content| >= 2 && r.content[..2] == "//" && '\n' !in r.content
    ensures r.content != "" ==> r.lead + |r.content| == |s| || s[r.lead + |r.content|] == '\n'
  {
    var i := LeadingSpace(s);
    if StartsWith(s, i, "//") then
      var e := LineEnd(s, i + 2);
      CommentLine(s, i, e);
      Span(s, i, e)
    else NoMatch
  }

  lemma CommentLine(s: string, i: nat, e: nat)
    requires StartsWith(s, i, "//") && i + 2 <= e <= |s|
    requires forall k :: i + 2 <= k < e ==> s[k] != '\n'
    ensures s[i..e][..2] == "//" && '\n' !in s[i..e]
  {
    assert s[i..e][..2] == s[i..i + 2];
    assert forall k :: 0 <= k < e - i ==> s[i..e][k] == s[i + k];
  }

  // ---------------------------------------------------------------------
  // Quoted forms: strings, quoted identifiers
  // ---------------------------------------------------------------------

  /**
   * The body of `q([^q\\]|\\.)*q` from just after the opening quote: the index
   * just past the closing quote, if the body is well formed.
   */
  function QuotedEnd(s: string, j: nat, q: char): (r: Option<nat>)
    requires j <= |s|
    requires q != '\\'
    ensures r.Some? ==> j < r.value <= |s| && s[r.value - 1] == q
    decreases |s| - j
  {
    if j >= |s| then None
    else if s[j] == q then Some(j + 1)
    else if s[j] == '\\' then
      if j + 1 < |s| && s[j + 1] != '\n' && s[j + 1] != '\r' then QuotedEnd(s, j + 2, q) else None
    else QuotedEnd(s, j + 1, q)
  }

  /** The run of delimiter characters starting at j. */
  function DelimRunEnd(s: string, j: nat): (e: nat)
    requires j <= |s|
    ensures j <= e <= |s|
    ensures forall k :: j <= k < e ==> IsDelimChar(s[k])
    ensures e == |s| || !IsDelimChar(s[e])
    decreases |s| - j
  {
    if j < |s| && IsDelimChar(s[j]) then DelimRunEnd(s, j + 1) else j
  }

  /** The lazy `(.|\n)*?` followed by the closing sequence: the end of the first closing found. */
  function LazyClose(s: string, j: nat, closing: string): (r: Option<nat>)
    requires j <= |s|
    requires |closing| > 0
    ensures r.Some? ==> j + |closing| <= r.value <= |s| && StartsWith(s, r.value - |closing|, closing)
    ensures r.Some? ==> forall k :: j <= k < r.value - |closing| ==> !StartsWith(s, k, closing)
    ensures r.Some? ==> forall k :: j <= k < r.value - |closing| ==> DotOrNewline(s[k])
    decreases |s| - j
  {
    if StartsWith(s, j, closing) then Some(j + |closing|)
    else if j < |s| && DotOrNewline(s[j]) then LazyClose(s, j + 1, closing)
    else None
  }

  /**
   * `R q delim ( body ) delim q` starting at i with s[i..i+2] == "R" + q: the
   * delimiter is the run of at most 16 delimiter characters before `(` and
   * the body ends at the first `)delim q`.
   */
  function RawEnd(s: string, i: nat, q: char): (r: Option<nat>)
    requires i + 2 <= |s|
    ensures r.Some? ==> i + 2 < r.value <= |s| && s[r.value - 1] == q
  {
    var d := DelimRunEnd(s, i + 2);
    if d - (i + 2) <= 16 && d < |s| && s[d] == '(' then
      LazyClose(s, d + 1, ")" + s[i + 2..d] + [q])
    else None
  }

  /** The end of a basic or raw string starting at i. */
  function StringEnd(s: string, i: nat): (r: Option<nat>)
    requires i <= |s|
    ensures r.Some? ==> i + 2 <= r.value <= |s|
    ensures r.Some? ==> s[i] == '"' || (s[i] == 'R' && s[i + 1] == '"')
  {
    if i < |s| && s[i] == '"' then QuotedEnd(s, i + 1, '"')
    else if i + 2 <= |s| && s[i] == 'R' && s[i + 1] == '"' then RawEnd(s, i, '"')
    else None
  }

  /** Both forms end with the closing double quote. */
  lemma StringEndQuote(s: string, i: nat)
    requires i <= |s|
    ensures StringEnd(s, i).Some? ==> s[StringEnd(s, i).value - 1] == '"'
  {
    if i < |s| && s[i] == '"' {
      var e := QuotedEnd(s, i + 1, '"');
      assert StringEnd(s, i) == e;
    } else if i + 2 <= |s| && s[i] == 'R' && s[i + 1] == '"' {
      var e := RawEnd(s, i, '"');
      assert StringEnd(s, i) == e;
    }
  }

  /** The kind of a matched string: raw by its `R`, multi-line by a newline in it. */
  function StringKind(c: string): (k: StringType)
    requires |c| > 0
    ensures k.MultiLineBasic? || k.MultiLineRaw? <==> '\n' in c
    ensures k.Raw? || k.MultiLineRaw? <==> c[0] == 'R'
  {
    var multi := '\n' in c;
    if c[0] == 'R' then (if multi then MultiLineRaw else Raw) else (if multi then MultiLineBasic else Basic)
  }

  /** Basic ("...") and raw (R"delim(...)delim") strings; "multi-line" when a newline occurs. */
  function ParseStringLiteral(s: string): (r: Literal)
    ensures IsLiteralMatchOf(s, r)
    ensures r.prop.Some? ==> r.prop.value.String? && |r.content| >= 2 && r.content[|r.content| - 1] == '"'
    ensures r.prop.Some? ==> (r.prop.value.str.MultiLineBasic? || r.prop.value.str.MultiLineRaw? <==> '\n' in r.content)
    ensures r.prop.Some? ==> (r.prop.value.str.Raw? || r.prop.value.str.MultiLineRaw? <==> r.content[0] == 'R')
    ensures r.prop.Some? ==> r.content[0] == '"' || (r.content[0] == 'R' && r.content[1] == '"')
  {
    var i := LeadingSpace(s);
    StringEndQuote(s, i);
    match StringEnd(s, i)
    case Some(e) =>
      var c := s[i..e];
      assert c[1] == s[i + 1] && c[|c| - 1] == s[e - 1];
      LiteralSpan(String(StringKind(c)), s, i, e)
    case None => NoLiteral
  }

  /** A bare identifier: `[a-zA-Z_][a-zA-Z0-9_]*`. */
  function WordRunEnd(s: string, j: nat): (e: nat)
    requires j <= |s|
    ensures j <= e <= |s|
    ensures forall k :: j <= k < e ==> IsWordChar(s[k])
    ensures e == |s| || !IsWordChar(s[e])
    decreases |s| - j
  {
    if j < |s| && IsWordChar(s[j]) then WordRunEnd(s, j + 1) else j
  }

  predicate IsBareIdentifier(w: string)
  {
    |w| > 0 && (IsAlpha(w[0]) || w[0] == '_') && forall k :: 0 <= k < |w| ==> IsWordChar(w[k])
  }

  /** The bare identifier from i covers the word run from i. */
  lemma BareRunIsIdentifier(s: string, i: nat)
    requires i < |s| && (IsAlpha(s[i]) || s[i] == '_')
    ensures IsBareIdentifier(s[i..WordRunEnd(s, i + 1)])
    ensures WordRunEnd(s, i) == WordRunEnd(s, i + 1)
  {
    var w := s[i..WordRunEnd(s, i + 1)];
    assert forall k :: 0 <= k < |w| ==> w[k] == s[i + k];
  }

  /** A run of n word characters not followed by another one. */
  lemma {:induction false} WordRunOf(s: string, i: nat, n: nat)
    requires i + n <= |s|
    requires forall k :: i <= k < i + n ==> IsWordChar(s[k])
    requires WordEnds(s, i + n)
    ensures WordRunEnd(s, i) == i + n
    decreases n
  {
    if n > 0 {
      WordRunOf(s, i + 1, n - 1);
    }
  }

  /** The quoted forms of an identifier: `` `...` `` and `` R`delim(...)delim` ``. */
  function QuotedIdentifierEnd(s: string, i: nat): (r: Option<nat>)
    requires i <= |s|
    ensures r.Some? ==> i + 2 <= r.value <= |s| && s[r.value - 1] == '`'
    ensures r.Some? ==> s[i] == '`' || (s[i] == 'R' && s[i + 1] == '`')
  {
    if i < |s| && s[i] == '`' then QuotedEnd(s, i + 1, '`')
    else if i + 2 <= |s| && s[i] == 'R' && s[i + 1] == '`' then RawEnd(s, i, '`')
    else None
  }

  /**
   * The identifier recogniser as the source has it.  The bare pattern is
   * tried first and stops at the first non-word character, so at the `R` of
   * a raw quoted identifier it matches the single letter `R`.
   */
  function ParseIdentifierAsWritten(s: string): (r: Lexeme)
    ensures IsMatchOf(s, r)
    ensures r.content != "" && r.content[0] != '`' ==> IsBareIdentifier(r.content) && WordRunEnd(s, r.lead) == r.lead + |r.content|
    ensures r.content != "" && r.content[0] == '`' ==> |r.content| >= 2 && r.content[|r.content| - 1] == '`'
    ensures r.content != "" ==> r.content != "true" && r.content != "false"
  {
    var i := LeadingSpace(s);
    if i < |s| && (IsAlpha(s[i]) || s[i] == '_') then
      var e := WordRunEnd(s, i + 1);
      BareRunIsIdentifier(s, i);
      var w := s[i..e];
      if w == "true" || w == "false" then NoMatch else Span(s, i, e)
    else
      match QuotedIdentifierEnd(s, i)
      case Some(e) =>
        var r := Span(s, i, e);
        assert r.content[|r.content| - 1] == s[e - 1];
        assert r.content[0] == '`' by { assert s[i] != 'R'; }
        r
      case None => NoMatch
  }

  /** The raw quoted form `` R`delim(...)delim` `` at i, if one is there. */
  predicate RawIdentifierAt(s: string, i: nat)
  {
    i + 2 <= |s| && s[i] == 'R' && s[i + 1] == '`' && RawEnd(s, i, '`').Some?
  }

  /**
   * The identifier recogniser with the raw quoted form tried before the bare
   * form, so that `` R`delim(...)delim` `` is one identifier.
   */
  function ParseIdentifier(s: string): (r: Lexeme)
    ensures IsMatchOf(s, r)
    ensures RawIdentifierAt(s, LeadingSpace(s)) ==> r.content == s[LeadingSpace(s)..RawEnd(s, LeadingSpace(s), '`').value]
    ensures !RawIdentifierAt(s, LeadingSpace(s)) ==> r == ParseIdentifierAsWritten(s)
    ensures r.content != "" ==> r.content != "true" && r.content != "false"
  {
    var i := LeadingSpace(s);
    if RawIdentifierAt(s, i) then
      var r := Span(s, i, RawEnd(s, i, '`').value);
      assert r.content[0] == 'R';
      r
    else
      ParseIdentifierAsWritten(s)
  }

  /** A bare `true` or `false` is never an identifier, and is the boolean literal. */
  lemma BooleanIsNotIdentifier(s: string, w: string)
    requires w == "true" || w == "false"
    requires StartsWith(s, LeadingSpace(s), w) && WordEnds(s, LeadingSpace(s) + |w|)
    ensures ParseIdentifier(s).content == "" && ParseIdentifierAsWritten(s).content == ""
    ensures ParseBooleanLiteral(s).content == w
  {
    BooleanWordIsKeyword(s, w);
    BooleanWordIsLiteral(s, w);
  }

  lemma BooleanWordIsKeyword(s: string, w: string)
    requires w == "true" || w == "false"
    requires StartsWith(s, LeadingSpace(s), w) && WordEnds(s, LeadingSpace(s) + |w|)
    ensures ParseIdentifier(s).content == "" && ParseIdentifierAsWritten(s).content == ""
  {
    var i := LeadingSpace(s);
    assert forall k :: i <= k < i + |w| ==> s[k] == w[k - i];
    WordRunOf(s, i + 1, |w| - 1);
    assert !RawIdentifierAt(s, i);
    assert s[i..i + |w|] == w;
  }

  lemma BooleanWordIsLiteral(s: string, w: string)
    requires w == "true" || w == "false"
    requires StartsWith(s, LeadingSpace(s), w) && WordEnds(s, LeadingSpace(s) + |w|)
    ensures ParseBooleanLiteral(s).content == w
  {
    var i := LeadingSpace(s);
    if w == "false" {
      assert s[i] == w[0];
      assert !Hits(s, i, "true", true);
    }
  }

  /** The raw quoted identifier R`a(b)a` */
  const RawIdentExample: string := "R`a(b)a`"

  /** As written, R`a(b)a` yields the identifier "R"; corrected, the whole quoted form. */
  lemma RawQuotedIdentifierIsSplit()
    ensures ParseIdentifierAsWritten(RawIdentExample) == Lexeme(0, "R")
    ensures ParseIdentifier(RawIdentExample) == Lexeme(0, RawIdentExample)
  {
    RawIdentifierAsWritten();
    RawIdentifierCorrected();
  }

  lemma RawIdentifierAsWritten()
    ensures ParseIdentifierAsWritten(RawIdentExample) == Lexeme(0, "R")
  {
    var s := RawIdentExample;
    assert LeadingSpace(s) == 0;
    assert WordRunEnd(s, 1) == 1;
    assert s[0..1] == "R";
  }

  lemma RawIdentifierCorrected()
    ensures ParseIdentifier(RawIdentExample) == Lexeme(0, RawIdentExample)
  {
    var s := RawIdentExample;
    assert LeadingSpace(s) == 0;
    RawExampleEnd();
    assert RawIdentifierAt(s, 0);
    assert s[0..8] == s;
  }

  /** The raw form of the example closes at its last character. */
  lemma RawExampleEnd()
    ensures RawEnd(RawIdentExample, 0, '`') == Some(8)
  {
    var s := RawIdentExample;
    RawExampleDelimiter();
    assert s[2..3] == "a";
    assert ")" + s[2..3] + ['`'] == ")a`";
    RawExampleClose();
  }

  lemma RawExampleDelimiter()
    ensures DelimRunEnd(RawIdentExample, 2) == 3
  {
    var s := RawIdentExample;
    assert s[3] == '(' && !IsDelimChar(s[3]);
    assert DelimRunEnd(s, 3) == 3;
  }

  lemma RawExampleClose()
    ensures LazyClose(RawIdentExample, 4, ")a`") == Some(8)
  {
    var s := RawIdentExample;
    var closing := ")a`";
    assert !StartsWith(s, 4, closing) by { assert s[4..7][0] == 'b'; }
    assert StartsWith(s, 5, closing) by { assert s[5..8] == closing; }
    assert LazyClose(s, 5, closing) == Some(8);
  }

  // ---------------------------------------------------------------------
  // Date-time literals
  // ---------------------------------------------------------------------

  predicate DigitsAt(s: string, i: nat, n: nat)
  {
    i + n <= |s| && forall k :: i <= k < i + n ==> IsDigit(s[k])
  }

  /** `\d{4}-\d{2}-\d{2}` */
  predicate DateAt(s: string, i: nat)
  {
    DigitsAt(s, i, 4) && i + 10 <= |s| && s[i + 4] == '-' && DigitsAt(s, i + 5, 2) && s[i + 7] == '-' && DigitsAt(s, i + 8, 2)
  }

  lemma DateFields(s: string, i: nat)
    requires DateAt(s, i)
    ensures LexerContent.DateFieldsAreDigits(s[i..i + 10])
  {
    var d := s[i..i + 10];
    assert d[5] == s[i + 5] && d[6] == s[i + 6] && d[8] == s[i + 8] && d[9] == s[i + 9];
  }

  /** The calendar check applied to the ten characters of a date at i. */
  predicate ValidDateAt(s: string, i: nat)
  {
    DateAt(s, i) && (DateFields(s, i); LexerContent.IsValidDate(s[i..i + 10]))
  }

  function DigitRunEnd(s: string, j: nat): (e: nat)
    requires j <= |s|
    ensures j <= e <= |s|
    ensures forall k :: j <= k < e ==> IsDigit(s[k])
    ensures e == |s| || !IsDigit(s[e])
    decreases |s| - j
  {
    if j < |s| && IsDigit(s[j]) then DigitRunEnd(s, j + 1) else j
  }

  /** `[0-5]\d` */
  predicate MinuteAt(s: string, i: nat)
  {
    i + 2 <= |s| && '0' <= s[i] <= '5' && IsDigit(s[i + 1])
  }

  /** `[01]\d|2[0-3]` */
  predicate HourAt(s: string, i: nat)
  {
    i + 2 <= |s| && (((s[i] == '0' || s[i] == '1') && IsDigit(s[i + 1])) || (s[i] == '2' && '0' <= s[i + 1] <= '3'))
  }

  /** `([01]\d|2[0-3]):[0-5]\d:[0-5]\d(\.\d+)?`: the end of the time, if one is at i. */
  function TimeEnd(s: string, i: nat): (r: Option<nat>)
    ensures r.Some? ==> i + 8 <= r.value <= |s|
  {
    if HourAt(s, i) && i + 8 <= |s| && s[i + 2] == ':' && MinuteAt(s, i + 3) && s[i + 5] == ':' && MinuteAt(s, i + 6) then
      if i + 9 < |s| && s[i + 8] == '.' && IsDigit(s[i + 9]) then Some(DigitRunEnd(s, i + 9)) else Some(i + 8)
    else None
  }

  /** `[Zz]|[+-]([01]\d|2[0-3]):[0-5]\d` */
  function OffsetEnd(s: string, i: nat): (r: Option<nat>)
    ensures r.Some? ==> i < r.value <= |s|
  {
    if i < |s| && (s[i] == 'Z' || s[i] == 'z') then Some(i + 1)
    else if i < |s| && (s[i] == '+' || s[i] == '-') && HourAt(s, i + 1) && i + 6 <= |s| && s[i + 3] == ':' && MinuteAt(s, i + 4) then Some(i + 6)
    else None
  }

  /** A date, a `T`, `t` or space, and a time: the end of the time. */
  function DateTimeEnd(s: string, i: nat): (r: Option<nat>)
    ensures r.Some? ==> DateAt(s, i) && i + 19 <= r.value <= |s|
  {
    if DateAt(s, i) && i + 10 < |s| && (s[i + 10] == 'T' || s[i + 10] == 't' || s[i + 10] == ' ') then TimeEnd(s, i + 11)
    else None
  }

  /**
   * The four date-time forms, tried in the order offset date-time, local
   * date-time, local date, local time; the first three also need a valid
   * calendar date, the last has no date.
   */
  function ParseDateTimeLiteral(s: string): (r: Literal)
    ensures IsLiteralMatchOf(s, r)
    ensures r.prop.Some? ==> r.prop.value.DateTime?
    ensures r.prop.Some? && !r.prop.value.dateTime.LocalTime? ==> ValidDateAt(s, r.lead)
    ensures r.prop == Some(DateTime(LocalDate)) ==> |r.content| == 10 && DateTimeEnd(s, r.lead).None?
    ensures r.prop == Some(DateTime(LocalTime)) ==> !ValidDateAt(s, r.lead) && TimeEnd(s, r.lead).Some?
    ensures (ValidDateAt(s, LeadingSpace(s)) || TimeEnd(s, LeadingSpace(s)).Some?) <==> r.prop.Some?
  {
    var i := LeadingSpace(s);
    var dt := DateTimeEnd(s, i);
    var valid := ValidDateAt(s, i);
    if dt.Some? && OffsetEnd(s, dt.value).Some? && valid then
      LiteralSpan(DateTime(OffsetDateTime), s, i, OffsetEnd(s, dt.value).value)
    else if dt.Some? && valid then
      LiteralSpan(DateTime(LocalDateTime), s, i, dt.value)
    else if valid then
      LiteralSpan(DateTime(LocalDate), s, i, i + 10)
    else if TimeEnd(s, i).Some? then
      LiteralSpan(DateTime(LocalTime), s, i, TimeEnd(s, i).value)
    else NoLiteral
  }

  /** A time of day never starts with a four-digit year, so the date forms and the time form never compete. */
  lemma DateAndTimeExclusive(s: string, i: nat)
    ensures !(DateAt(s, i) && TimeEnd(s, i).Some?)
  {
  }

  // ---------------------------------------------------------------------
  // Duration literals
  // ---------------------------------------------------------------------

  /** `(\d+U)+` for a unit set U, greedy: the end of the last complete group (j if none). */
  function UnitGroupsEnd(s: string, j: nat, units: string): (e: nat)
    requires j <= |s|
    ensures j <= e <= |s|
    decreases |s| - j
  {
    var d := DigitRunEnd(s, j);
    if d > j && d < |s| && s[d] in units then UnitGroupsEnd(s, d + 1, units) else j
  }

  /** The unit of the shorthand form `(\d+)(ms|y|mo|w|d|h|m|s)`, alternatives in that order. */
  function ShorthandUnitEnd(s: string, d: nat): (r: Option<nat>)
    ensures r.Some? ==> d < r.value <= |s|
  {
    if StartsWith(s, d, "ms") then Some(d + 2)
    else if StartsWith(s, d, "y") then Some(d + 1)
    else if StartsWith(s, d, "mo") then Some(d + 2)
    else if d < |s| && s[d] in "wdhms" then Some(d + 1)
    else None
  }

  /**
   * ISO 8601 durations `P(\d+[YMWD])+(T(\d+[HMS])+)?` and `PT(\d+[HMS])+`,
   * then the shorthand forms such as `30s` or `5mo`: the end of the first
   * form found at i.
   */
  function DurationEnd(s: string, i: nat): (r: Option<nat>)
    requires i <= |s|
    ensures r.Some? ==> i < r.value <= |s| && (s[i] == 'P' || IsDigit(s[i]))
  {
    var isP := i < |s| && s[i] == 'P';
    var ymwd := if isP then UnitGroupsEnd(s, i + 1, "YMWD") else i;
    if ymwd > i + 1 then
      var hms := if ymwd < |s| && s[ymwd] == 'T' then UnitGroupsEnd(s, ymwd + 1, "HMS") else ymwd;
      Some(if hms > ymwd + 1 then hms else ymwd)
    else if isP && i + 1 < |s| && s[i + 1] == 'T' && UnitGroupsEnd(s, i + 2, "HMS") > i + 2 then
      Some(UnitGroupsEnd(s, i + 2, "HMS"))
    else
      var d := DigitRunEnd(s, i);
      if d > i && ShorthandUnitEnd(s, d).Some? then ShorthandUnitEnd(s, d) else None
  }

  function ParseDurationLiteral(s: string): (r: Literal)
    ensures IsLiteralMatchOf(s, r)
    ensures r.prop.Some? ==> r.prop == Some(Duration)
    ensures r.prop.Some? ==> r.content[0] == 'P' || IsDigit(r.content[0])
    ensures r.prop.Some? <==> DurationEnd(s, LeadingSpace(s)).Some?
  {
    var i := LeadingSpace(s);
    match DurationEnd(s, i)
    case Some(e) => LiteralSpan(Duration, s, i, e)
    case None => NoLiteral
  }

  /** The shorthand `5min` is the duration `5m`; the letters after it are left for the suffix check. */
  lemma MinutesShorthand()
    ensures ParseDurationLiteral("5min") == Literal(Some(Duration), 0, "5m")
  {
    var s := "5min";
    assert LeadingSpace(s) == 0;
    assert DigitRunEnd(s, 1) == 1;
    assert DigitRunEnd(s, 0) == 1;
    assert s[1..3] == "mi" && s[1..2] == "m";
    assert ShorthandUnitEnd(s, 1) == Some(2);
    assert s[0..2] == "5m";
  }

  // ---------------------------------------------------------------------
  // Numeric literals
  // ---------------------------------------------------------------------

  datatype Radix = Decimal | Hex | Octal | Binary

  predicate InRadix(c: char, radix: Radix)
  {
    match radix
    case Decimal => IsDigit(c)
    case Hex => IsHexDigit(c)
    case Octal => IsOctDigit(c)
    case Binary => IsBinDigit(c)
  }

  /** Position k of a run ending at e: a digit, or an underscore followed by a digit of the run. */
  predicate GroupedAt(s: string, k: int, e: int, radix: Radix)
    requires 0 <= k < e <= |s|
  {
    InRadix(s[k], radix) || (s[k] == '_' && k + 1 < e && InRadix(s[k + 1], radix))
  }

  /**
   * Digits with single underscores between them, as in `(_?\d+)*`: the end of
   * the longest such run from j.  Every underscore in the run is followed by a
   * digit of the run, and the run cannot be extended.
   */
  function GroupedRunEnd(s: string, j: nat, radix: Radix): (e: nat)
    requires j <= |s|
    ensures j <= e <= |s|
    ensures forall k :: j <= k < e ==> GroupedAt(s, k, e, radix)
    ensures e == |s| || !(InRadix(s[e], radix) || (s[e] == '_' && e + 1 < |s| && InRadix(s[e + 1], radix)))
    decreases |s| - j
  {
    if j < |s| && InRadix(s[j], radix) then GroupedRunEnd(s, j + 1, radix)
    else if j + 1 < |s| && s[j] == '_' && InRadix(s[j + 1], radix) then GroupedRunEnd(s, j + 2, radix)
    else j
  }

  /** `0(?![xob])|[1-9]+(_?\d+)*`: the end of a decimal integer at i, i if none. */
  function DecimalEnd(s: string, i: nat): (e: nat)
    requires i <= |s|
    ensures i <= e <= |s|
    ensures e > i ==> IsDigit(s[i])
  {
    if i < |s| && s[i] == '0' then
      if i + 1 < |s| && (s[i + 1] == 'x' || s[i + 1] == 'o' || s[i + 1] == 'b') then i else i + 1
    else if i < |s| && '1' <= s[i] <= '9' then GroupedRunEnd(s, i + 1, Decimal)
    else i
  }

  /** The digits after a radix prefix `0x`, `0o` or `0b`. */
  function PrefixedEnd(s: string, i: nat, prefix: string, radix: Radix): (e: nat)
    requires i <= |s| && |prefix| == 2
    ensures i <= e <= |s|
  {
    if StartsWith(s, i, prefix) && i + 2 < |s| && InRadix(s[i + 2], radix) then GroupedRunEnd(s, i + 3, radix) else i
  }

  /** The integer pattern: decimal, or prefixed hexadecimal, octal or binary. */
  function IntegerEnd(s: string, i: nat): (e: nat)
    requires i <= |s|
    ensures i <= e <= |s|
    ensures e > i ==> IsDigit(s[i])
  {
    if PrefixedEnd(s, i, "0x", Hex) > i then PrefixedEnd(s, i, "0x", Hex)
    else if PrefixedEnd(s, i, "0o", Octal) > i then PrefixedEnd(s, i, "0o", Octal)
    else if PrefixedEnd(s, i, "0b", Binary) > i then PrefixedEnd(s, i, "0b", Binary)
    else DecimalEnd(s, i)
  }

  /** The end of the optional fraction `(\.((\d+_)*\d+))?` after a decimal integer ending at d. */
  function FractionEnd(s: string, d: nat): (e: nat)
    requires d <= |s|
    ensures d <= e <= |s|
  {
    if d + 1 < |s| && s[d] == '.' && IsDigit(s[d + 1]) then GroupedRunEnd(s, d + 2, Decimal) else d
  }

  /** The end of the optional exponent `(e[-+]?\d+(_?\d+)*)?` at f. */
  function ExponentEnd(s: string, f: nat): (e: nat)
    requires f <= |s|
    ensures f <= e <= |s|
  {
    if f + 1 < |s| && s[f] == 'e' && IsDigit(s[f + 1]) then GroupedRunEnd(s, f + 2, Decimal)
    else if f + 2 < |s| && s[f] == 'e' && (s[f + 1] == '+' || s[f + 1] == '-') && IsDigit(s[f + 2]) then GroupedRunEnd(s, f + 3, Decimal)
    else f
  }

  /** The float pattern: a decimal integer, an optional fraction, an optional exponent. */
  function FloatEnd(s: string, i: nat): (e: nat)
    requires i <= |s|
    ensures i <= e <= |s|
    ensures e > i ==> DecimalEnd(s, i) > i && e >= DecimalEnd(s, i)
  {
    var d := DecimalEnd(s, i);
    if d == i then i else ExponentEnd(s, FractionEnd(s, d))
  }

  /** A float match always contains a decimal integer match, so it is never shorter. */
  lemma FloatCoversInteger(s: string, i: nat)
    requires i <= |s|
    ensures FloatEnd(s, i) > i <==> DecimalEnd(s, i) > i
    ensures IntegerEnd(s, i) == i ==> FloatEnd(s, i) == i
  {
  }

  /** The numeric candidate before the identifier comparison. */
  function NumericCandidate(s: string): (r: Literal)
    ensures IsLiteralMatchOf(s, r)
    ensures r.prop.Some? ==> IsNumeric(r.prop.value)
    ensures r.prop == Some(SpecialNumber(NaN)) <==> r.content == "nan"
    ensures r.prop == Some(SpecialNumber(Infinity)) <==> r.content == "inf"
    ensures r.prop == Some(Integer) ==> |r.content| == IntegerEnd(s, r.lead) - r.lead >= FloatEnd(s, r.lead) - r.lead
    ensures r.prop == Some(Float) ==> |r.content| == FloatEnd(s, r.lead) - r.lead > IntegerEnd(s, r.lead) - r.lead
    ensures r.content == "nan" || r.content == "inf" ==> WordEnds(s, r.lead + 3)
    ensures r.prop.Some? && r.content != "nan" && r.content != "inf" ==> IsDigit(r.content[0])
  {
    var i := LeadingSpace(s);
    if StartsWith(s, i, "nan") && WordEnds(s, i + 3) then Literal(Some(SpecialNumber(NaN)), i, "nan")
    else if StartsWith(s, i, "inf") && WordEnds(s, i + 3) then Literal(Some(SpecialNumber(Infinity)), i, "inf")
    else
      var ie := IntegerEnd(s, i);
      var fe := FloatEnd(s, i);
      if ie == i && fe == i then NoLiteral
      else if ie >= fe then LiteralSpan(Integer, s, i, ie)
      else LiteralSpan(Float, s, i, fe)
  }

  /**
   * Special numbers first; otherwise the longer of the integer and float
   * matches, a tie going to Integer; the result is dropped when an
   * identifier match is longer.
   */
  function ParseNumericLiteral(s: string): (r: Literal)
    ensures IsLiteralMatchOf(s, r)
  {
    var c := NumericCandidate(s);
    if c.prop.Some? && |c.content| < |ParseIdentifier(s).content| then NoLiteral else c
  }

  /**
   * The identifier comparison never discards a number: a number starts with
   * a digit, which no identifier does, or is `nan`/`inf` followed by a
   * non-word character, where the identifier is just as long.
   */
  lemma NumberNeverDiscarded(s: string)
    ensures ParseNumericLiteral(s) == NumericCandidate(s)
  {
    var c := NumericCandidate(s);
    if c.prop.Some? {
      NumberOutrunsIdentifier(s);
    }
  }

  /** A number candidate is at least as long as the identifier at the same place. */
  lemma NumberOutrunsIdentifier(s: string)
    requires NumericCandidate(s).prop.Some?
    ensures |ParseIdentifier(s).content| <= |NumericCandidate(s).content|
  {
    var c := NumericCandidate(s);
    var i := LeadingSpace(s);
    assert c.content[0] == s[i];
    assert !RawIdentifierAt(s, i);
    if c.content == "nan" || c.content == "inf" {
      SpecialNumberIsWholeWord(s, i, c.content);
    } else {
      assert IsDigit(s[i]);
    }
  }

  /** At `nan` or `inf` not followed by a word character the word run is three long. */
  lemma SpecialNumberIsWholeWord(s: string, i: nat, w: string)
    requires w == "nan" || w == "inf"
    requires StartsWith(s, i, w) && WordEnds(s, i + 3)
    ensures WordRunEnd(s, i) == i + 3
  {
    assert forall k :: i <= k < i + 3 ==> s[k] == w[k - i];
    WordRunOf(s, i, 3);
  }

  /** A number never begins with a sign, so the sign check on prefixed numbers can never fire. */
  lemma NumberNeverSigned(s: string)
    ensures var r := ParseNumericLiteral(s);
      r.prop.Some? ==> r.content[0] != '+' && r.content[0] != '-'
  {
    NumberNeverDiscarded(s);
  }

  /** `1.5` is a Float. */
  lemma FractionIsFloat()
    ensures ParseNumericLiteral("1.5").prop == Some(Float)
  {
    var a := "1.5";
    NumberNeverDiscarded(a);
    assert LeadingSpace(a) == 0;
    FractionEnds();
  }

  lemma FractionEnds()
    ensures IntegerEnd("1.5", 0) == 1 && FloatEnd("1.5", 0) == 3
  {
    var a := "1.5";
    assert GroupedRunEnd(a, 1, Decimal) == 1;
    assert DecimalEnd(a, 0) == 1;
    assert GroupedRunEnd(a, 3, Decimal) == 3;
    assert FractionEnd(a, 1) == 3;
    assert ExponentEnd(a, 3) == 3;
  }

  /** `15` is an Integer: the float match is no longer, and the tie goes to Integer. */
  lemma TieIsInteger()
    ensures ParseNumericLiteral("15").prop == Some(Integer)
  {
    var b := "15";
    NumberNeverDiscarded(b);
    assert LeadingSpace(b) == 0;
    assert GroupedRunEnd(b, 2, Decimal) == 2;
    assert IntegerEnd(b, 0) == 2 && FloatEnd(b, 0) == 2;
  }

  /** `0x1F` is an Integer; the float pattern does not match it at all. */
  lemma HexIsInteger()
    ensures ParseNumericLiteral("0x1F").prop == Some(Integer)
  {
    var h := "0x1F";
    NumberNeverDiscarded(h);
    assert LeadingSpace(h) == 0;
    assert GroupedRunEnd(h, 4, Hex) == 4;
    assert GroupedRunEnd(h, 3, Hex) == 4;
    assert IntegerEnd(h, 0) == 4 && FloatEnd(h, 0) == 0;
  }
}
