// The category loop of the lexer, as a function on values.  One step looks
// at the code still to be processed and tries the categories in a fixed
// order: the early raw-delimiter check, comment, string, date-time,
// duration, number, boolean, keyword, type, punctuator, operator,
// identifier, all-white-space; a character that starts none of them is
// appended to the buffered "unknown" token.  The class Lexer.Lexer is
// proved against these functions.  The step uses the corrected string
// validator (LexerContent.ContentValid, which admits CR LF in multi-line
// strings) and the corrected identifier recogniser
// (LexerRecognizers.ParseIdentifier, which matches a raw quoted identifier
// whole); the source's own versions are the AsWritten functions beside them.

module LexerSpec {

  import opened Wrappers
  import opened Positions
  import opened LiteralTypes
  import opened Tokens
  import opened Chars
  import opened LexerHelpers
  import LexerContent
  import opened LexerRecognizers

  /** An error or warning: its message and the region it is about. */
  datatype Diagnostic = Diagnostic(message: string, region: Region)

  /** The lexer between two steps: the code still to be processed and where it starts. */
  datatype LexState = LexState(code: string, pos: Position, list: ListState, errors: seq<Diagnostic>, warnings: seq<Diagnostic>)

  const RawDelimiterTooLong := "Raw quoted identifier delimiter exceeds maximum length"
  const CommentInvalid := "Comment contains invalid content."
  const StringInvalid := "String literal contains invalid content."
  const DurationSuffix := "Duration literal contains invalid suffix"
  const SignedPrefixed := "Number literal in hexadecimal, octal or binary cannot have a positive or negative sign."
  const NotGrouped := "Number literal is not grouped reasonably."
  const LineEndingInvalid := "Line ending is not valid."
  const NotClosed := "String literal or quoted identifier is not closed."

  /** The longest delimiter a raw quoted identifier may have. */
  const MaxDelimiter := 16

  /** The text matches `\s*`. */
  predicate AllSpace(s: string)
  {
    LeadingSpace(s) == |s|
  }

  /** The first index at or after j holding c, or |s| when there is none. */
  function IndexOf(s: string, c: char, j: nat): (k: nat)
    requires j <= |s|
    ensures j <= k <= |s| && (k < |s| ==> s[k] == c)
    ensures forall m :: j <= m < k ==> s[m] != c
    decreases |s| - j
  {
    if j == |s| || s[j] == c then j else IndexOf(s, c, j + 1)
  }

  /**
   * What follows the first '#' of a comment; when there is none the whole
   * comment, because the not-found index plus one wraps to 0.
   */
  function AfterHash(c: string): string
  {
    var k := IndexOf(c, '#', 0);
    if k < |c| then c[k + 1..] else c
  }

  /** The text after the first '#' when there is one, else the whole text. */
  lemma AfterHashFacts(c: string)
    ensures var r := AfterHash(c);
      ('#' in c ==> |r| < |c| && r == c[|c| - |r|..] && (forall m :: 0 <= m < |c| - |r| - 1 ==> c[m] != '#') && c[|c| - |r| - 1] == '#')
      && ('#' !in c ==> r == c)
  {
  }

  /** The region of the lexeme content found after lead characters of code that starts at pos. */
  function LexemeRegion(code: string, pos: Position, lead: nat, content: string): Region
    requires lead <= |code|
  {
    var start := EndPosition(code[..lead], pos);
    Region(start, EndPosition(content, start))
  }

  /** The lexeme is dropped from the code and the position moves to its end. */
  function Consume(st: LexState, lead: nat, content: string): (r: LexState)
    requires StartsWith(st.code, lead, content)
    ensures r.code == st.code[lead + |content|..] && r.list == st.list
    ensures r.errors == st.errors && r.warnings == st.warnings
    ensures EndPosition(r.code, r.pos) == EndPosition(st.code, st.pos)
  {
    var r := st.(code := st.code[lead + |content|..], pos := LexemeRegion(st.code, st.pos, lead, content).end);
    assert st.code == st.code[..lead] + content + r.code;
    EndPositionConcat(st.code[..lead] + content, r.code, st.pos);
    EndPositionConcat(st.code[..lead], content, st.pos);
    r
  }

  /**
   * Every step consumes code from the front and keeps the position at the
   * start of what is left; tokens, errors and warnings are only appended.
   */
  predicate Advances(st: LexState, r: LexState)
  {
    |r.code| < |st.code| && r.code == st.code[|st.code| - |r.code|..]
    && EndPosition(r.code, r.pos) == EndPosition(st.code, st.pos)
    && st.list.tokens <= r.list.tokens && st.errors <= r.errors && st.warnings <= r.warnings
  }

  /** A recognised lexeme becomes a token of the given category with the given text. */
  function TokenStep(st: LexState, m: Lexeme, value: string, tokenType: string, prop: Option<LiteralType>): (r: LexState)
    requires m.content != "" && IsMatchOf(st.code, m)
    ensures Advances(st, r) && r.errors == st.errors && r.warnings == st.warnings
    ensures r.code == st.code[m.lead + |m.content|..] && r.pos == LexemeRegion(st.code, st.pos, m.lead, m.content).end
    ensures r.list.tokens == Finished(st.list) + [Token(value, tokenType, prop, LexemeRegion(st.code, st.pos, m.lead, m.content))]
  {
    AddedExtends(st.list, Token(value, tokenType, prop, LexemeRegion(st.code, st.pos, m.lead, m.content)));
    Consume(st, m.lead, m.content).(list := Added(st.list, Token(value, tokenType, prop, LexemeRegion(st.code, st.pos, m.lead, m.content))))
  }

  // ---------------------------------------------------------------------
  // The categories, in the order they are tried
  // ---------------------------------------------------------------------

  /** The end of the delimiter scan after `R\``: the first '(' or newline at or after j. */
  function DelimiterScanEnd(s: string, j: nat): (k: nat)
    requires j <= |s|
    ensures j <= k <= |s| && (k < |s| ==> s[k] == '(' || s[k] == '\n')
    ensures forall m :: j <= m < k ==> s[m] != '(' && s[m] != '\n'
    decreases |s| - j
  {
    if j == |s| || s[j] == '(' || s[j] == '\n' then j else DelimiterScanEnd(s, j + 1)
  }

  /** The code begins, after white space, with `R\`` and more than 16 characters before a '(' or a newline. */
  predicate LongRawDelimiter(code: string)
  {
    StartsWith(code, LeadingSpace(code), "R`") && DelimiterScanEnd(code, LeadingSpace(code) + 2) - (LeadingSpace(code) + 2) > MaxDelimiter
  }

  /** The stretch from `R\`` to the end of the delimiter scan. */
  function RawDelimiterRegion(code: string, pos: Position): Region
    requires LongRawDelimiter(code)
  {
    var ls := LeadingSpace(code);
    var start := EndPosition(code[..ls], pos);
    Region(start, EndPosition(code[ls..DelimiterScanEnd(code, ls + 2)], start))
  }

  /** The early check: a too long raw delimiter is reported; nothing is consumed. */
  function RawDelimiterCheck(st: LexState): (r: LexState)
    ensures r.code == st.code && r.pos == st.pos && r.list == st.list && r.warnings == st.warnings
    ensures r.errors == st.errors + (if LongRawDelimiter(st.code) then [Diagnostic(RawDelimiterTooLong, RawDelimiterRegion(st.code, st.pos))] else [])
  {
    var ls := LeadingSpace(st.code);
    if StartsWith(st.code, ls, "R`") then
      var i := DelimiterScanEnd(st.code, ls + 2);
      if i - (ls + 2) > MaxDelimiter then
        var start := EndPosition(st.code[..ls], st.pos);
        st.(errors := st.errors + [Diagnostic(RawDelimiterTooLong, Region(start, EndPosition(st.code[ls..i], start)))])
      else st
    else st
  }

  /** The error, if any, for text that is not valid content of a string of the given kind. */
  function ContentErrors(text: string, stringType: nat, message: string, region: Region): (e: seq<Diagnostic>)
    ensures e == [] <==> LexerContent.ContentValid(ByteValues(text), stringType)
    ensures e == [] || e == [Diagnostic(message, region)]
  {
    if LexerContent.ContentValid(ByteValues(text), stringType) then [] else [Diagnostic(message, region)]
  }

  /**
   * A comment is kept as a token only when comments are preserved; its text
   * after the first '#' is validated as a basic string.  (The source guards
   * the validation by the comment containing "//", which a comment always
   * does: it starts with it.)
   */
  function CommentStep(st: LexState, m: Lexeme, preserveComment: bool): (r: LexState)
    requires m.content != "" && IsMatchOf(st.code, m)
    ensures Advances(st, r)
  {
    var adv := CommentToken(st, m, preserveComment);
    var e := ContentErrors(AfterHash(m.content), 0, CommentInvalid, LexemeRegion(st.code, st.pos, m.lead, m.content));
    AdvancesReporting(st, adv, e, []);
    adv.(errors := adv.errors + e)
  }

  /** The comment as a token, or only consumed. */
  function CommentToken(st: LexState, m: Lexeme, preserveComment: bool): (r: LexState)
    requires m.content != "" && IsMatchOf(st.code, m)
    ensures Advances(st, r)
  {
    if preserveComment then TokenStep(st, m, m.content, "comment", None)
    else
      ConsumeAdvances(st, m);
      Consume(st, m.lead, m.content)
  }

  /** A string literal, validated for its kind with the corrected validator. */
  function StringStep(st: LexState, m: Literal): (r: LexState)
    requires m.content != "" && IsLiteralMatchOf(st.code, m) && m.prop.Some? && m.prop.value.String?
    ensures Advances(st, r)
  {
    var adv := TokenStep(st, Lexeme(m.lead, m.content), m.content, "string", m.prop);
    adv.(errors := adv.errors + ContentErrors(m.content, StringTypeIndex(m.prop.value.str), StringInvalid, LexemeRegion(st.code, st.pos, m.lead, m.content)))
  }

  /** A duration literal directly followed by a letter reports that letter. */
  function DurationStep(st: LexState, m: Literal): (r: LexState)
    requires m.content != "" && IsLiteralMatchOf(st.code, m)
    ensures Advances(st, r)
  {
    var adv := TokenStep(st, Lexeme(m.lead, m.content), m.content, "duration", m.prop);
    if |adv.code| > 0 && IsAlpha(adv.code[0]) then
      EndPositionOfOne(adv.code[..1], adv.pos);
      adv.(errors := adv.errors + [Diagnostic(DurationSuffix, Region(adv.pos, EndPosition(adv.code[..1], adv.pos)))])
    else adv
  }

  /** A sign in front of a `0b`, `0o` or `0x` prefix. */
  predicate SignedPrefix(c: string)
  {
    |c| > 3 && (c[0] == '+' || c[0] == '-') && c[1] == '0' && (c[2] == 'b' || c[2] == 'o' || c[2] == 'x')
  }

  /** The warning, if any, for a number that is not grouped reasonably. */
  function GroupingWarnings(content: string, region: Region): (w: seq<Diagnostic>)
    ensures w == [] <==> ReasonablyGrouped(content)
    ensures w == [] || w == [Diagnostic(NotGrouped, region)]
  {
    if ReasonablyGrouped(content) then [] else [Diagnostic(NotGrouped, region)]
  }

  /** The error, if any, for a sign in front of a prefixed number. */
  function SignErrors(content: string, region: Region): (e: seq<Diagnostic>)
    ensures e == [] <==> !SignedPrefix(content)
    ensures e == [] || e == [Diagnostic(SignedPrefixed, region)]
  {
    if SignedPrefix(content) then [Diagnostic(SignedPrefixed, region)] else []
  }

  /** A number literal: an error for a signed prefixed number, a warning for bad grouping. */
  function NumberStep(st: LexState, m: Lexeme, prop: Option<LiteralType>): (r: LexState)
    requires m.content != "" && IsMatchOf(st.code, m)
    ensures Advances(st, r)
  {
    var region := LexemeRegion(st.code, st.pos, m.lead, m.content);
    var adv := TokenStep(st, m, m.content, "number", prop);
    var e, w := SignErrors(m.content, region), GroupingWarnings(m.content, region);
    AdvancesReporting(st, adv, e, w);
    adv.(errors := adv.errors + e, warnings := adv.warnings + w)
  }

  /** A quoted identifier: backquoted, or raw with at least `R\`()\``'s five characters. */
  predicate QuotedForm(c: string)
  {
    |c| > 0 && (c[0] == '`' || (c[0] == 'R' && |c| >= 5 && c[1] == '`'))
  }

  /** A delimiter character and a backquote left over right behind a quoted identifier. */
  predicate LeftoverDelimiter(code: string)
  {
    |code| >= 2 && IsDelimChar(code[0]) && code[1] == '`'
  }

  /** The leftover delimiter character and backquote are reported at the position and skipped. */
  function LeftoverStep(st: LexState): (r: LexState)
    requires LeftoverDelimiter(st.code)
    ensures Advances(st, r) && r.code == st.code[2..] && r.list == st.list && r.warnings == st.warnings
    ensures r.errors == st.errors + [Diagnostic(RawDelimiterTooLong, Region(st.pos, st.pos))]
  {
    assert st.code[0] != '\n';
    TwoColumns(st.code, st.pos);
    st.(code := st.code[2..], pos := Position(st.pos.line, st.pos.column + 2), errors := st.errors + [Diagnostic(RawDelimiterTooLong, Region(st.pos, st.pos))])
  }

  /** Two characters other than a newline move the position two columns on. */
  lemma TwoColumns(code: string, pos: Position)
    requires |code| >= 2 && code[0] != '\n' && code[1] != '\n'
    ensures EndPosition(code[2..], Position(pos.line, pos.column + 2)) == EndPosition(code, pos)
  {
    assert code == code[..2] + code[2..];
    assert '\n' !in code[..2];
    EndPositionConcat(code[..2], code[2..], pos);
    EndPositionOnOneLine(code[..2], pos);
  }

  /**
   * A quoted identifier is stored unquoted (by the function unquote); a
   * leftover delimiter character with a backquote right behind it is
   * reported and skipped.
   */
  function QuotedIdentifierStep(st: LexState, m: Lexeme, unquote: string -> string): (r: LexState)
    requires m.content != "" && IsMatchOf(st.code, m)
    ensures Advances(st, r)
  {
    var named := TokenStep(st, m, unquote(m.content), "identifier", None);
    if LeftoverDelimiter(named.code) then
      AdvancesTransitive(st, named, LeftoverStep(named));
      LeftoverStep(named)
    else named
  }

  /** An identifier: quoted ones go through QuotedIdentifierStep. */
  function IdentifierStep(st: LexState, m: Lexeme, unquote: string -> string): (r: LexState)
    requires m.content != "" && IsMatchOf(st.code, m)
    ensures Advances(st, r) && r.warnings == st.warnings
  {
    if QuotedForm(m.content) then QuotedIdentifierStep(st, m, unquote) else TokenStep(st, m, m.content, "identifier", None)
  }

  /** Code that is all white space is consumed at once. */
  function SpaceStep(st: LexState): (r: LexState)
    requires st.code != "" && AllSpace(st.code)
    ensures Advances(st, r) && r.code == "" && r.list == st.list && r.errors == st.errors && r.warnings == st.warnings
  {
    st.(code := "", pos := EndPosition(st.code, st.pos))
  }

  /** The first character starts no category: it joins the buffered "unknown" token. */
  function UnknownStep(st: LexState): (r: LexState)
    requires st.code != ""
    ensures Advances(st, r)
  {
    var list := if st.list.content == "" then st.list.(curType := "unknown", curProp := None, curRange := EmptyRegion) else st.list;
    var r := st.(code := st.code[1..], pos := StepPosition(st.pos, st.code[0]), list := Appended(list, st.code[0], st.pos));
    assert st.code == st.code[..1] + r.code;
    EndPositionConcat(st.code[..1], r.code, st.pos);
    assert st.code[..1][..0] == "";
    r
  }

  /** What a comment step adds: the token only when comments are preserved, and an error for invalid content. */
  lemma CommentStepReports(st: LexState, m: Lexeme, preserveComment: bool)
    requires m.content != "" && IsMatchOf(st.code, m)
    ensures var r := CommentStep(st, m, preserveComment);
      r.warnings == st.warnings
      && (preserveComment ==> r.list.tokens == Finished(st.list) + [Token(m.content, "comment", None, LexemeRegion(st.code, st.pos, m.lead, m.content))])
      && (!preserveComment ==> r.list == st.list)
      && r.errors == st.errors + ContentErrors(AfterHash(m.content), 0, CommentInvalid, LexemeRegion(st.code, st.pos, m.lead, m.content))
  {
  }

  /** What a string step adds: the token, and an error when the content is not valid for its kind. */
  lemma StringStepReports(st: LexState, m: Literal)
    requires m.content != "" && IsLiteralMatchOf(st.code, m) && m.prop.Some? && m.prop.value.String?
    ensures var r := StringStep(st, m);
      r.warnings == st.warnings
      && r.list.tokens == Finished(st.list) + [Token(m.content, "string", m.prop, LexemeRegion(st.code, st.pos, m.lead, m.content))]
      && r.errors == st.errors + ContentErrors(m.content, StringTypeIndex(m.prop.value.str), StringInvalid, LexemeRegion(st.code, st.pos, m.lead, m.content))
  {
  }

  /** What a duration step adds: the token, and an error exactly when a letter follows it. */
  lemma DurationStepReports(st: LexState, m: Literal)
    requires m.content != "" && IsLiteralMatchOf(st.code, m)
    ensures var r := DurationStep(st, m);
      r.warnings == st.warnings
      && r.list.tokens == Finished(st.list) + [Token(m.content, "duration", m.prop, LexemeRegion(st.code, st.pos, m.lead, m.content))]
      && |r.errors| <= |st.errors| + 1
      && (|r.errors| == |st.errors| + 1 <==> |r.code| > 0 && IsAlpha(r.code[0]))
      && (|r.errors| == |st.errors| + 1 ==> r.errors[|st.errors|] == Diagnostic(DurationSuffix, Region(r.pos, StepPosition(r.pos, r.code[0]))))
  {
    var adv := TokenStep(st, Lexeme(m.lead, m.content), m.content, "duration", m.prop);
    if |adv.code| > 0 && IsAlpha(adv.code[0]) {
      EndPositionOfOne(adv.code[..1], adv.pos);
    }
  }

  /** What a number step adds: the token, the sign error and the grouping warning. */
  lemma NumberStepReports(st: LexState, m: Lexeme, prop: Option<LiteralType>)
    requires m.content != "" && IsMatchOf(st.code, m)
    ensures var r := NumberStep(st, m, prop);
      r.list.tokens == Finished(st.list) + [Token(m.content, "number", prop, LexemeRegion(st.code, st.pos, m.lead, m.content))]
      && r.errors == st.errors + SignErrors(m.content, LexemeRegion(st.code, st.pos, m.lead, m.content))
      && r.warnings == st.warnings + GroupingWarnings(m.content, LexemeRegion(st.code, st.pos, m.lead, m.content))
  {
  }

  /** What a quoted identifier step adds: the unquoted token, and the skipped leftover delimiter. */
  lemma QuotedIdentifierStepReports(st: LexState, m: Lexeme, unquote: string -> string)
    requires m.content != "" && IsMatchOf(st.code, m)
    ensures var r := QuotedIdentifierStep(st, m, unquote);
      var end := LexemeRegion(st.code, st.pos, m.lead, m.content).end;
      r.warnings == st.warnings
      && r.list.tokens == Finished(st.list) + [Token(unquote(m.content), "identifier", None, LexemeRegion(st.code, st.pos, m.lead, m.content))]
      && (LeftoverDelimiter(st.code[m.lead + |m.content|..]) ==> r.code == st.code[m.lead + |m.content| + 2..])
      && (!LeftoverDelimiter(st.code[m.lead + |m.content|..]) ==> r.code == st.code[m.lead + |m.content|..])
      && r.errors == st.errors + (if LeftoverDelimiter(st.code[m.lead + |m.content|..]) then [Diagnostic(RawDelimiterTooLong, Region(end, end))] else [])
  {
    var named := TokenStep(st, m, unquote(m.content), "identifier", None);
    if LeftoverDelimiter(named.code) {
      assert named.code[2..] == st.code[m.lead + |m.content| + 2..];
    }
  }

  /** What an unknown character does: it is appended to the buffered token, which is typed "unknown" when it starts one. */
  lemma UnknownStepReports(st: LexState)
    requires st.code != ""
    ensures var r := UnknownStep(st);
      r.code == st.code[1..] && r.errors == st.errors && r.warnings == st.warnings
      && r.pos == StepPosition(st.pos, st.code[0])
      && (st.list.content == "" ==> r.list == Appended(st.list.(curType := "unknown", curProp := None, curRange := EmptyRegion), st.code[0], st.pos))
      && (st.list.content != "" ==> r.list == Appended(st.list, st.code[0], st.pos))
  {
  }

  /** Diagnostics added after a step keep it a step. */
  lemma AdvancesReporting(st: LexState, r: LexState, e: seq<Diagnostic>, w: seq<Diagnostic>)
    requires Advances(st, r)
    ensures Advances(st, r.(errors := r.errors + e, warnings := r.warnings + w))
  {
  }

  lemma ConsumeAdvances(st: LexState, m: Lexeme)
    requires m.content != "" && IsMatchOf(st.code, m)
    ensures Advances(st, Consume(st, m.lead, m.content))
  {
  }

  lemma AdvancesTransitive(a: LexState, b: LexState, c: LexState)
    requires Advances(a, b) && Advances(b, c)
    ensures Advances(a, c)
  {
  }

  /** What the code starts with, in the order the categories are tried. */
  datatype Match =
    | CommentMatch(m: Lexeme)
    | StringMatch(l: Literal)
    | DateTimeMatch(l: Literal)
    | DurationMatch(l: Literal)
    | NumberMatch(l: Literal)
    | BooleanMatch(l: Literal)
    | KeywordMatch(m: Lexeme)
    | TypeMatch(m: Lexeme)
    | PunctuatorMatch(m: Lexeme)
    | OperatorMatch(m: Lexeme)
    | IdentifierMatch(m: Lexeme)
    | SpaceMatch
    | UnknownMatch

  /** The match found is a non-empty lexeme at the front of the code. */
  predicate Fits(code: string, r: Match)
  {
    match r
    case CommentMatch(m) => m.content != "" && IsMatchOf(code, m)
    case StringMatch(l) => l.content != "" && IsLiteralMatchOf(code, l) && l.prop.Some? && l.prop.value.String?
    case DateTimeMatch(l) => l.content != "" && IsLiteralMatchOf(code, l)
    case DurationMatch(l) => l.content != "" && IsLiteralMatchOf(code, l)
    case NumberMatch(l) => l.content != "" && IsLiteralMatchOf(code, l)
    case BooleanMatch(l) => l.content != "" && IsLiteralMatchOf(code, l)
    case KeywordMatch(m) => m.content != "" && IsMatchOf(code, m)
    case TypeMatch(m) => m.content != "" && IsMatchOf(code, m)
    case PunctuatorMatch(m) => m.content != "" && IsMatchOf(code, m)
    case OperatorMatch(m) => m.content != "" && IsMatchOf(code, m)
    case IdentifierMatch(m) => m.content != "" && IsMatchOf(code, m)
    case SpaceMatch => AllSpace(code)
    case UnknownMatch => true
  }

  /** The word-like categories: boolean, keyword, type, punctuator, operator, identifier. */
  function ClassifyWord(code: string): (r: Match)
    ensures Fits(code, r)
  {
    var bo := ParseBooleanLiteral(code);
    if bo.content != "" then BooleanMatch(bo) else
    var kw := ParseKeyword(code);
    if kw.content != "" then KeywordMatch(kw) else
    var ty := ParseType(code);
    if ty.content != "" then TypeMatch(ty) else
    var pu := ParsePunctuator(code);
    if pu.content != "" then PunctuatorMatch(pu) else
    var op := ParseOperator(code);
    if op.content != "" then OperatorMatch(op) else
    var id := ParseIdentifier(code);
    if id.content != "" then IdentifierMatch(id) else
    if AllSpace(code) then SpaceMatch else UnknownMatch
  }

  /** The first category, in the lexer's order of priority, that the code starts with. */
  function Classify(code: string): (r: Match)
    ensures Fits(code, r)
  {
    var cm := ParseComment(code);
    if cm.content != "" then CommentMatch(cm) else
    var sl := ParseStringLiteral(code);
    if sl.content != "" then StringMatch(sl) else
    var dt := ParseDateTimeLiteral(code);
    if dt.content != "" then DateTimeMatch(dt) else
    var du := ParseDurationLiteral(code);
    if du.content != "" then DurationMatch(du) else
    var nu := ParseNumericLiteral(code);
    if nu.content != "" then NumberMatch(nu) else
    ClassifyWord(code)
  }

  /** The step for a match that fits the code. */
  function Apply(s0: LexState, c: Match, preserveComment: bool, unquote: string -> string): (r: LexState)
    requires s0.code != "" && Fits(s0.code, c)
    ensures Advances(s0, r)
  {
    match c
    case CommentMatch(m) => CommentStep(s0, m, preserveComment)
    case StringMatch(l) => StringStep(s0, l)
    case DateTimeMatch(l) => TokenStep(s0, Lexeme(l.lead, l.content), l.content, "datetime", l.prop)
    case DurationMatch(l) => DurationStep(s0, l)
    case NumberMatch(l) => NumberStep(s0, Lexeme(l.lead, l.content), l.prop)
    case BooleanMatch(l) => TokenStep(s0, Lexeme(l.lead, l.content), l.content, "boolean", Some(Boolean))
    case KeywordMatch(m) => TokenStep(s0, m, m.content, "keyword", None)
    case TypeMatch(m) => TokenStep(s0, m, m.content, "type", None)
    case PunctuatorMatch(m) => TokenStep(s0, m, m.content, "punctuator", None)
    case OperatorMatch(m) => TokenStep(s0, m, m.content, "operator", None)
    case IdentifierMatch(m) => IdentifierStep(s0, m, unquote)
    case SpaceMatch => SpaceStep(s0)
    case UnknownMatch => UnknownStep(s0)
  }

  /** One step of the category loop: the early check, then the first category that matches. */
  function Step(st: LexState, preserveComment: bool, unquote: string -> string): (r: LexState)
    requires st.code != ""
    ensures Advances(st, r)
  {
    var s0 := RawDelimiterCheck(st);
    Apply(s0, Classify(s0.code), preserveComment, unquote)
  }

  /** The category loop run until the code is used up. */
  function Run(st: LexState, preserveComment: bool, unquote: string -> string): (r: LexState)
    ensures r.code == "" && r.pos == EndPosition(st.code, st.pos)
    ensures st.list.tokens <= r.list.tokens && st.errors <= r.errors && st.warnings <= r.warnings
    decreases |st.code|
  {
    if st.code == "" then st else Run(Step(st, preserveComment, unquote), preserveComment, unquote)
  }

  /** A step on code that is all white space consumes it and adds nothing. */
  lemma SpaceAddsNothing(st: LexState, preserveComment: bool, unquote: string -> string)
    requires st.code != "" && AllSpace(st.code)
    ensures Step(st, preserveComment, unquote) == st.(code := "", pos := EndPosition(st.code, st.pos))
  {
    LiteralsMissSpace(st.code);
    WordsMissSpace(st.code);
  }

  /** No literal recognizer matches white space. */
  lemma LiteralsMissSpace(code: string)
    requires code != "" && AllSpace(code)
    ensures !StartsWith(code, LeadingSpace(code), "R`")
    ensures ParseComment(code).content == "" && ParseStringLiteral(code).content == ""
    ensures ParseDateTimeLiteral(code).content == "" && ParseDurationLiteral(code).content == ""
    ensures ParseNumericLiteral(code).content == "" && ParseBooleanLiteral(code).content == ""
  {
    assert LeadingSpace(code) == |code|;
  }

  /** No keyword, type, punctuator, operator or identifier recognizer matches white space. */
  lemma WordsMissSpace(code: string)
    requires code != "" && AllSpace(code)
    ensures ParseKeyword(code).content == "" && ParseType(code).content == ""
    ensures ParsePunctuator(code).content == "" && ParseOperator(code).content == ""
    ensures ParseIdentifier(code).content == ""
  {
    assert LeadingSpace(code) == |code|;
  }

  /**
   * Characters that start no category and follow one another go into one
   * "unknown" token: while a token is buffered another unknown character
   * extends it instead of starting a new one.
   */
  lemma UnknownCharactersJoin(st: LexState, preserveComment: bool, unquote: string -> string)
    requires st.code != "" && st.list.content != "" && Classify(RawDelimiterCheck(st).code) == UnknownMatch
    ensures var r := Step(st, preserveComment, unquote);
      r.list.tokens == st.list.tokens && r.list.content == st.list.content + [st.code[0]] && r.list.curType == st.list.curType
  {
  }

  // ---------------------------------------------------------------------
  // The line loop
  // ---------------------------------------------------------------------

  /** The line loop between two lines: how far the stream is read, the code held back, and the lexer. */
  datatype LineState = LineState(next: nat, code: string, continued: bool, pos: Position, list: ListState, errors: seq<Diagnostic>, warnings: seq<Diagnostic>)

  /** What `\r(?!\n)` finds: a carriage return not followed by a line feed. */
  predicate LoneCarriageReturn(s: string)
  {
    exists k :: 0 <= k < |s| && s[k] == '\r' && (k + 1 == |s| || s[k + 1] != '\n')
  }

  /** The category loop over a chunk, then the flush and the move to the next line. */
  function LexChunk(o: LineState, code: string, preserveComment: bool, unquote: string -> string): (r: LineState)
    ensures r.next == o.next && r.code == "" && !r.continued && r.list.content == ""
    ensures r.pos == Position(EndPosition(code, o.pos).line + 1, 0)
    ensures o.list.tokens <= r.list.tokens && o.errors <= r.errors && o.warnings <= r.warnings
  {
    var x := Run(LexState(code, o.pos, o.list, o.errors, o.warnings), preserveComment, unquote);
    FlushedFacts(x.list);
    LineState(o.next, "", false, Position(x.pos.line + 1, 0), Flushed(x.list), x.errors, x.warnings)
  }

  /** A non-blank line, or a blank one at the end of the input: join it, then hold it back or lex it. */
  function LineBody(o: LineState, line: string, more: bool, incomplete: string -> bool, preserveComment: bool, unquote: string -> string): (r: LineState)
    ensures r.next == o.next
    ensures o.list.content == "" ==> r.list.content == ""
    ensures o.list.tokens <= r.list.tokens && o.errors <= r.errors && o.warnings <= r.warnings
  {
    var code := if o.continued then o.code + line else line;
    if incomplete(code) then
      var held := code + "\n";
      if more then o.(code := held, continued := true)
      else
        var err := Diagnostic(NotClosed, Region(Position(o.pos.line, 0), Position(o.pos.line, IndexOf(held, '\n', 0))));
        LexChunk(o.(errors := o.errors + [err]), held, preserveComment, unquote)
    else LexChunk(o, code, preserveComment, unquote)
  }

  /**
   * A blank line: a lone carriage return in it is an error, and the line
   * counter moves on.  It is dropped unless it is the last line and the
   * held-back code is not blank.
   */
  function BlankLine(o: LineState, line: string, more: bool, incomplete: string -> bool, preserveComment: bool, unquote: string -> string): (r: LineState)
    ensures r.next == o.next
    ensures o.list.content == "" ==> r.list.content == ""
    ensures o.list.tokens <= r.list.tokens && o.errors <= r.errors && o.warnings <= r.warnings
  {
    var errs := if LoneCarriageReturn(line) then o.errors + [Diagnostic(LineEndingInvalid, Region(Position(o.pos.line, 0), Position(o.pos.line, |line|)))] else o.errors;
    var o2 := o.(errors := errs, pos := Position(o.pos.line + 1, 0));
    if more || (o.code != "" && AllSpace(o.code)) then o2
    else LineBody(o2, line, more, incomplete, preserveComment, unquote)
  }

  /** Reading from a position before the end always moves forward. */
  lemma ReadLineProgress(input: string, pos: nat)
    requires pos < |input|
    ensures pos < LexerContent.ReadLine(input, pos).next <= |input| && LexerContent.ReadLine(input, pos).ok
  {
  }

  /** One round of the line loop. */
  function LineStep(input: string, o: LineState, incomplete: string -> bool, preserveComment: bool, unquote: string -> string): (r: LineState)
    requires o.next < |input|
    ensures o.next < r.next <= |input|
    ensures o.list.content == "" ==> r.list.content == ""
    ensures o.list.tokens <= r.list.tokens && o.errors <= r.errors && o.warnings <= r.warnings
  {
    var rl := LexerContent.ReadLine(input, o.next);
    ReadLineProgress(input, o.next);
    var more := rl.next < |input|;
    var o1 := o.(next := rl.next);
    if AllSpace(rl.line) then BlankLine(o1, rl.line, more, incomplete, preserveComment, unquote)
    else LineBody(o1, rl.line, more, incomplete, preserveComment, unquote)
  }

  /** The line loop until the stream is used up. */
  function Lines(input: string, o: LineState, incomplete: string -> bool, preserveComment: bool, unquote: string -> string): (r: LineState)
    requires o.next <= |input|
    ensures r.next == |input|
    decreases |input| - o.next
  {
    if o.next == |input| then o else Lines(input, LineStep(input, o, incomplete, preserveComment, unquote), incomplete, preserveComment, unquote)
  }

  /** Errors and tokens are only appended to, and the buffer is empty between lines. */
  lemma {:induction false} LinesExtend(input: string, o: LineState, incomplete: string -> bool, preserveComment: bool, unquote: string -> string)
    requires o.next <= |input| && o.list.content == ""
    ensures var r := Lines(input, o, incomplete, preserveComment, unquote);
      r.list.content == "" && o.list.tokens <= r.list.tokens && o.errors <= r.errors && o.warnings <= r.warnings
    decreases |input| - o.next
  {
    if o.next < |input| {
      var o2 := LineStep(input, o, incomplete, preserveComment, unquote);
      LinesExtend(input, o2, incomplete, preserveComment, unquote);
    }
  }

  // ---------------------------------------------------------------------
  // Unknown tokens
  // ---------------------------------------------------------------------

  function UnknownMessage(value: string): string
  {
    "Unknown token: " + value + "."
  }

  /** The errors the final pass over the tokens reports, in token order. */
  function UnknownErrors(tokens: seq<Token>): seq<Diagnostic>
  {
    if |tokens| == 0 then [] else
    var t := tokens[|tokens| - 1];
    UnknownErrors(tokens[..|tokens| - 1]) + (if t.tokenType == "unknown" then [Diagnostic(UnknownMessage(t.value), t.range)] else [])
  }

  /** The tokens of type "unknown", in order. */
  function UnknownTokens(tokens: seq<Token>): (u: seq<Token>)
    ensures forall t :: t in u ==> t in tokens && t.tokenType == "unknown"
  {
    if |tokens| == 0 then []
    else UnknownTokens(tokens[..|tokens| - 1]) + (if tokens[|tokens| - 1].tokenType == "unknown" then [tokens[|tokens| - 1]] else [])
  }

  /** Each unknown token produces exactly one error, with its text and its range, and nothing else does. */
  lemma {:induction false} OneErrorPerUnknownToken(tokens: seq<Token>)
    ensures |UnknownErrors(tokens)| == |UnknownTokens(tokens)|
    ensures forall k :: 0 <= k < |UnknownTokens(tokens)| ==>
      UnknownErrors(tokens)[k] == Diagnostic(UnknownMessage(UnknownTokens(tokens)[k].value), UnknownTokens(tokens)[k].range)
  {
    if |tokens| > 0 {
      OneErrorPerUnknownToken(tokens[..|tokens| - 1]);
    }
  }

  /** The whole lexer: tokens, errors and warnings in the order they are reported. */
  datatype LexResult = LexResult(tokens: seq<Token>, errors: seq<Diagnostic>, warnings: seq<Diagnostic>)

  const Start := LineState(0, "", false, Origin, EmptyList, [], [])

  function Lex(input: string, incomplete: string -> bool, preserveComment: bool, unquote: string -> string): LexResult
  {
    var o := Lines(input, Start, incomplete, preserveComment, unquote);
    LexResult(o.list.tokens, o.errors + UnknownErrors(o.list.tokens), o.warnings)
  }

  /** Every token the lexer returns is finished: nothing is left in the buffer. */
  lemma LexLeavesNothingBuffered(input: string, incomplete: string -> bool, preserveComment: bool, unquote: string -> string)
    ensures Lines(input, Start, incomplete, preserveComment, unquote).list.content == ""
    ensures Lex(input, incomplete, preserveComment, unquote).tokens == Finished(Lines(input, Start, incomplete, preserveComment, unquote).list)
  {
    LinesExtend(input, Start, incomplete, preserveComment, unquote);
  }
}
