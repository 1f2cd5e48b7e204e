// The lexer object: it collects errors and warnings in its fields while its
// Lex method reads the input line by line into a token list.  Every method
// is proved to compute exactly the corresponding function of LexerSpec.

module Lexer {

  import opened Wrappers
  import opened Positions
  import opened LiteralTypes
  import opened Tokens
  import opened Chars
  import opened LexerHelpers
  import LexerContent
  import opened LexerRecognizers
  import opened LexerSpec

  /** The scan after `R\``: forward to the first '(' or newline. */
  method ScanDelimiter(code: string, j: nat) returns (k: nat)
    requires j <= |code|
    ensures k == DelimiterScanEnd(code, j)
  {
    k := j;
    while k < |code| && code[k] != '(' && code[k] != '\n'
      invariant j <= k <= |code|
      invariant DelimiterScanEnd(code, k) == DelimiterScanEnd(code, j)
      decreases |code| - k
    {
      k := k + 1;
    }
  }

  /** The region of a lexeme: from the end of the white space in front of it to its own end. */
  method TokenRegion(code: string, pos: Position, lead: nat, content: string) returns (region: Region)
    requires lead <= |code|
    ensures region == LexemeRegion(code, pos, lead, content)
  {
    var start := GetEndPosition(code[..lead], pos);
    var end := GetEndPosition(content, start);
    region := Region(start, end);
  }

  class Lexer {
    var errors: seq<Diagnostic>
    var warnings: seq<Diagnostic>

    constructor ()
      ensures errors == [] && warnings == []
    {
      errors, warnings := [], [];
    }

    /** The early check for a raw delimiter that is too long. */
    method CheckRawDelimiter(code: string, pos: Position)
      modifies this
      ensures errors == RawDelimiterCheck(LexState(code, pos, EmptyList, old(errors), old(warnings))).errors
      ensures warnings == old(warnings)
    {
      var ls := LeadingSpace(code);
      if StartsWith(code, ls, "R`") {
        var i := ScanDelimiter(code, ls + 2);
        if i - (ls + 2) > MaxDelimiter {
          var region := TokenRegion(code, pos, ls, code[ls..i]);
          assert code[..ls + |code[ls..i]|][..ls] == code[..ls];
          errors := errors + [Diagnostic(RawDelimiterTooLong, region)];
        }
      }
    }

    /** Adds a recognised lexeme to the list as a token with the given text. */
    method AcceptToken(list: TokenList, code: string, pos: Position, m: Lexeme, value: string, tokenType: string, prop: Option<LiteralType>)
      returns (rest: string, end: Position)
      requires list.Valid() && m.content != "" && IsMatchOf(code, m)
      modifies list
      ensures list.Valid()
      ensures LexState(rest, end, list.Snapshot(), errors, warnings) == TokenStep(LexState(code, pos, old(list.Snapshot()), errors, warnings), m, value, tokenType, prop)
    {
      var region := TokenRegion(code, pos, m.lead, m.content);
      list.AddTokenToList(Token(value, tokenType, prop, region));
      rest, end := code[m.lead + |m.content|..], region.end;
    }

    /** Reports invalid string content, as isStringContentValid judges it, at the region. */
    method ReportInvalidContent(text: string, stringType: nat, message: string, region: Region)
      modifies this
      ensures errors == old(errors) + ContentErrors(text, stringType, message, region) && warnings == old(warnings)
    {
      var ok := LexerContent.IsStringContentValid(ByteValues(text), stringType);
      if !ok {
        errors := errors + [Diagnostic(message, region)];
      }
    }

    method AcceptComment(list: TokenList, code: string, pos: Position, m: Lexeme, preserveComment: bool) returns (rest: string, end: Position)
      requires list.Valid() && m.content != "" && IsMatchOf(code, m)
      modifies this, list
      ensures list.Valid()
      ensures LexState(rest, end, list.Snapshot(), errors, warnings) == CommentStep(LexState(code, pos, old(list.Snapshot()), old(errors), old(warnings)), m, preserveComment)
    {
      var region := TokenRegion(code, pos, m.lead, m.content);
      if preserveComment {
        list.AddTokenToList(Token(m.content, "comment", None, region));
      }
      rest, end := code[m.lead + |m.content|..], region.end;
      ReportInvalidContent(AfterHash(m.content), 0, CommentInvalid, region);
    }

    method AcceptString(list: TokenList, code: string, pos: Position, l: Literal) returns (rest: string, end: Position)
      requires list.Valid() && Fits(code, StringMatch(l))
      modifies this, list
      ensures list.Valid()
      ensures LexState(rest, end, list.Snapshot(), errors, warnings) == StringStep(LexState(code, pos, old(list.Snapshot()), old(errors), old(warnings)), l)
    {
      var region := TokenRegion(code, pos, l.lead, l.content);
      list.AddTokenToList(Token(l.content, "string", l.prop, region));
      rest, end := code[l.lead + |l.content|..], region.end;
      ReportInvalidContent(l.content, StringTypeIndex(l.prop.value.str), StringInvalid, region);
    }

    method AcceptDuration(list: TokenList, code: string, pos: Position, l: Literal) returns (rest: string, end: Position)
      requires list.Valid() && Fits(code, DurationMatch(l))
      modifies this, list
      ensures list.Valid()
      ensures LexState(rest, end, list.Snapshot(), errors, warnings) == DurationStep(LexState(code, pos, old(list.Snapshot()), old(errors), old(warnings)), l)
    {
      rest, end := AcceptToken(list, code, pos, Lexeme(l.lead, l.content), l.content, "duration", l.prop);
      if |rest| > 0 && IsAlpha(rest[0]) {
        var after := GetEndPosition(rest[..1], end);
        errors := errors + [Diagnostic(DurationSuffix, Region(end, after))];
      }
    }

    method AcceptNumber(list: TokenList, code: string, pos: Position, l: Literal) returns (rest: string, end: Position)
      requires list.Valid() && Fits(code, NumberMatch(l))
      modifies this, list
      ensures list.Valid()
      ensures LexState(rest, end, list.Snapshot(), errors, warnings) == NumberStep(LexState(code, pos, old(list.Snapshot()), old(errors), old(warnings)), Lexeme(l.lead, l.content), l.prop)
    {
      var region := TokenRegion(code, pos, l.lead, l.content);
      rest, end := AcceptToken(list, code, pos, Lexeme(l.lead, l.content), l.content, "number", l.prop);
      ReportSign(l.content, region);
      ReportGrouping(l.content, region);
    }

    /** Reports a sign in front of a `0b`, `0o` or `0x` prefix. */
    method ReportSign(content: string, region: Region)
      modifies this
      ensures errors == old(errors) + SignErrors(content, region) && warnings == old(warnings)
    {
      if SignedPrefix(content) {
        errors := errors + [Diagnostic(SignedPrefixed, region)];
      }
    }

    /** Warns about a number that is not grouped reasonably. */
    method ReportGrouping(content: string, region: Region)
      modifies this
      ensures warnings == old(warnings) + GroupingWarnings(content, region) && errors == old(errors)
    {
      var grouped := IsNumberReasonablyGrouped(content);
      if !grouped {
        warnings := warnings + [Diagnostic(NotGrouped, region)];
      }
    }

    method AcceptIdentifier(list: TokenList, code: string, pos: Position, m: Lexeme, unquote: string -> string) returns (rest: string, end: Position)
      requires list.Valid() && m.content != "" && IsMatchOf(code, m)
      modifies this, list
      ensures list.Valid()
      ensures LexState(rest, end, list.Snapshot(), errors, warnings) == IdentifierStep(LexState(code, pos, old(list.Snapshot()), old(errors), old(warnings)), m, unquote)
    {
      if QuotedForm(m.content) {
        rest, end := AcceptToken(list, code, pos, m, unquote(m.content), "identifier", None);
        if LeftoverDelimiter(rest) {
          errors := errors + [Diagnostic(RawDelimiterTooLong, Region(end, end))];
          rest := rest[2..];
          end := Position(end.line, end.column + 2);
        }
      } else {
        rest, end := AcceptToken(list, code, pos, m, m.content, "identifier", None);
      }
    }

    method AcceptUnknown(list: TokenList, code: string, pos: Position) returns (rest: string, end: Position)
      requires list.Valid() && code != ""
      modifies list
      ensures list.Valid()
      ensures LexState(rest, end, list.Snapshot(), errors, warnings) == UnknownStep(LexState(code, pos, old(list.Snapshot()), errors, warnings))
    {
      var buffered := list.IsTokenBuffered();
      if !buffered {
        list.SetTokenInfo("unknown", None, EmptyRegion);
      }
      list.AppendBufferedToken(code[0], pos);
      if code[0] == '\n' {
        end := Position(pos.line + 1, 0);
      } else {
        end := Position(pos.line, pos.column + 1);
      }
      rest := code[1..];
    }

    /** One round of the category loop. */
    method LexOne(list: TokenList, code: string, pos: Position, preserveComment: bool, unquote: string -> string) returns (rest: string, end: Position)
      requires list.Valid() && code != ""
      modifies this, list
      ensures list.Valid()
      ensures LexState(rest, end, list.Snapshot(), errors, warnings) == Step(LexState(code, pos, old(list.Snapshot()), old(errors), old(warnings)), preserveComment, unquote)
    {
      CheckRawDelimiter(code, pos);
      ghost var s0 := LexState(code, pos, list.Snapshot(), errors, warnings);
      assert s0 == RawDelimiterCheck(LexState(code, pos, old(list.Snapshot()), old(errors), old(warnings)));
      var c := Classify(code);
      rest, end := ApplyMatch(list, code, pos, c, preserveComment, unquote);
    }

    /** The category that matched, applied. */
    method ApplyMatch(list: TokenList, code: string, pos: Position, c: Match, preserveComment: bool, unquote: string -> string) returns (rest: string, end: Position)
      requires list.Valid() && code != "" && Fits(code, c)
      modifies this, list
      ensures list.Valid()
      ensures LexState(rest, end, list.Snapshot(), errors, warnings) == Apply(LexState(code, pos, old(list.Snapshot()), old(errors), old(warnings)), c, preserveComment, unquote)
    {
      match c {
        case CommentMatch(m) => rest, end := AcceptComment(list, code, pos, m, preserveComment);
        case StringMatch(l) => rest, end := AcceptString(list, code, pos, l);
        case DateTimeMatch(l) => rest, end := AcceptToken(list, code, pos, Lexeme(l.lead, l.content), l.content, "datetime", l.prop);
        case DurationMatch(l) => rest, end := AcceptDuration(list, code, pos, l);
        case NumberMatch(l) => rest, end := AcceptNumber(list, code, pos, l);
        case BooleanMatch(l) => rest, end := AcceptToken(list, code, pos, Lexeme(l.lead, l.content), l.content, "boolean", Some(Boolean));
        case KeywordMatch(m) => rest, end := AcceptToken(list, code, pos, m, m.content, "keyword", None);
        case TypeMatch(m) => rest, end := AcceptToken(list, code, pos, m, m.content, "type", None);
        case PunctuatorMatch(m) => rest, end := AcceptToken(list, code, pos, m, m.content, "punctuator", None);
        case OperatorMatch(m) => rest, end := AcceptToken(list, code, pos, m, m.content, "operator", None);
        case IdentifierMatch(m) => rest, end := AcceptIdentifier(list, code, pos, m, unquote);
        case SpaceMatch =>
          end := GetEndPosition(code, pos);
          rest := "";
        case UnknownMatch => rest, end := AcceptUnknown(list, code, pos);
      }
    }

    /** The category loop over one chunk of code. */
    method LexChunk(list: TokenList, code0: string, pos0: Position, preserveComment: bool, unquote: string -> string) returns (pos: Position)
      requires list.Valid()
      modifies this, list
      ensures list.Valid()
      ensures LexState("", pos, list.Snapshot(), errors, warnings) == Run(LexState(code0, pos0, old(list.Snapshot()), old(errors), old(warnings)), preserveComment, unquote)
    {
      ghost var initial := LexState(code0, pos0, list.Snapshot(), errors, warnings);
      var code := code0;
      pos := pos0;
      while code != ""
        invariant list.Valid()
        invariant Run(LexState(code, pos, list.Snapshot(), errors, warnings), preserveComment, unquote) == Run(initial, preserveComment, unquote)
        decreases |code|
      {
        code, pos := LexOne(list, code, pos, preserveComment, unquote);
      }
    }

    /** The final pass: one error per token of type "unknown". */
    method ReportUnknownTokens(tokens: seq<Token>)
      modifies this
      ensures errors == old(errors) + UnknownErrors(tokens) && warnings == old(warnings)
    {
      var i := 0;
      while i < |tokens|
        invariant 0 <= i <= |tokens|
        invariant errors == old(errors) + UnknownErrors(tokens[..i]) && warnings == old(warnings)
      {
        assert tokens[..i + 1][..i] == tokens[..i];
        if tokens[i].tokenType == "unknown" {
          errors := errors + [Diagnostic(UnknownMessage(tokens[i].value), tokens[i].range)];
        }
        i := i + 1;
      }
      assert tokens[..|tokens|] == tokens;
    }

    /** One round of the line loop. */
    method LexLine(list: TokenList, input: string, next0: nat, code0: string, continued0: bool, pos0: Position,
                   incomplete: string -> bool, preserveComment: bool, unquote: string -> string)
      returns (next: nat, code: string, continued: bool, pos: Position)
      requires list.Valid() && next0 < |input|
      modifies this, list
      ensures list.Valid()
      ensures LineState(next, code, continued, pos, list.Snapshot(), errors, warnings)
        == LineStep(input, LineState(next0, code0, continued0, pos0, old(list.Snapshot()), old(errors), old(warnings)), incomplete, preserveComment, unquote)
    {
      var ok, line, after := LexerContent.CustomGetline(input, next0);
      next := after;
      var more := next < |input|;
      if AllSpace(line) {
        code, continued, pos := LexBlankLine(list, next, code0, continued0, pos0, line, more, incomplete, preserveComment, unquote);
      } else {
        code, continued, pos := LexLineBody(list, next, code0, continued0, pos0, line, more, incomplete, preserveComment, unquote);
      }
    }

    /** A blank line: checked for a lone carriage return, counted, and dropped unless it ends the input. */
    method LexBlankLine(list: TokenList, next: nat, code0: string, continued0: bool, pos0: Position, line: string, more: bool,
                        incomplete: string -> bool, preserveComment: bool, unquote: string -> string)
      returns (code: string, continued: bool, pos: Position)
      requires list.Valid()
      modifies this, list
      ensures list.Valid()
      ensures LineState(next, code, continued, pos, list.Snapshot(), errors, warnings)
        == BlankLine(LineState(next, code0, continued0, pos0, old(list.Snapshot()), old(errors), old(warnings)), line, more, incomplete, preserveComment, unquote)
    {
      if LoneCarriageReturn(line) {
        errors := errors + [Diagnostic(LineEndingInvalid, Region(Position(pos0.line, 0), Position(pos0.line, |line|)))];
      }
      code, continued, pos := code0, continued0, Position(pos0.line + 1, 0);
      if !(more || (code != "" && AllSpace(code))) {
        code, continued, pos := LexLineBody(list, next, code, continued, pos, line, more, incomplete, preserveComment, unquote);
      }
    }

    /** A line that is lexed: joined to held-back code, then held back itself or lexed. */
    method LexLineBody(list: TokenList, next: nat, code0: string, continued0: bool, pos0: Position, line: string, more: bool,
                       incomplete: string -> bool, preserveComment: bool, unquote: string -> string)
      returns (code: string, continued: bool, pos: Position)
      requires list.Valid()
      modifies this, list
      ensures list.Valid()
      ensures LineState(next, code, continued, pos, list.Snapshot(), errors, warnings)
        == LineBody(LineState(next, code0, continued0, pos0, old(list.Snapshot()), old(errors), old(warnings)), line, more, incomplete, preserveComment, unquote)
    {
      code, continued, pos := if continued0 then code0 + line else line, continued0, pos0;
      if incomplete(code) {
        code := code + "\n";
        if more {
          continued := true;
          return;
        }
        errors := errors + [Diagnostic(NotClosed, Region(Position(pos.line, 0), Position(pos.line, IndexOf(code, '\n', 0))))];
      }
      pos := LexCode(list, next, code, pos, preserveComment, unquote);
      code, continued := "", false;
    }

    /** Code that is complete: lexed, the buffered token flushed, and the position moved to the next line. */
    method LexCode(list: TokenList, next: nat, code: string, pos0: Position, preserveComment: bool, unquote: string -> string)
      returns (pos: Position)
      requires list.Valid()
      modifies this, list
      ensures list.Valid()
      ensures LineState(next, "", false, pos, list.Snapshot(), errors, warnings)
        == LexerSpec.LexChunk(LineState(next, code, false, pos0, old(list.Snapshot()), old(errors), old(warnings)), code, preserveComment, unquote)
    {
      pos := LexChunk(list, code, pos0, preserveComment, unquote);
      list.FlushBuffer();
      pos := Position(pos.line + 1, 0);
    }

    /** Lexes the whole input: the line loop, then the report of unknown tokens. */
    method Lex(input: string, incomplete: string -> bool, preserveComment: bool, unquote: string -> string) returns (list: TokenList)
      modifies this
      ensures fresh(list) && list.Valid()
      ensures var o := Lines(input, LineState(0, "", false, Origin, EmptyList, old(errors), old(warnings)), incomplete, preserveComment, unquote);
        list.Snapshot() == o.list && warnings == o.warnings && errors == o.errors + UnknownErrors(o.list.tokens)
    {
      list := new TokenList();
      ghost var o0 := LineState(0, "", false, Origin, EmptyList, errors, warnings);
      var next: nat, code, continued, pos := 0, "", false, Origin;
      while next < |input|
        invariant next <= |input| && list.Valid() && fresh(list)
        invariant Lines(input, LineState(next, code, continued, pos, list.Snapshot(), errors, warnings), incomplete, preserveComment, unquote)
          == Lines(input, o0, incomplete, preserveComment, unquote)
        decreases |input| - next
      {
        next, code, continued, pos := LexLine(list, input, next, code, continued, pos, incomplete, preserveComment, unquote);
      }
      ReportUnknownTokens(list.tokens);
    }
  }

  /** A fresh lexer run over the input: the tokens, errors and warnings of LexerSpec.Lex. */
  method LexerMain(input: string, incomplete: string -> bool, preserveComment: bool, unquote: string -> string)
    returns (tokens: seq<Token>, errors: seq<Diagnostic>, warnings: seq<Diagnostic>)
    ensures LexResult(tokens, errors, warnings) == LexerSpec.Lex(input, incomplete, preserveComment, unquote)
  {
    var lexer := new Lexer();
    var list := lexer.Lex(input, incomplete, preserveComment, unquote);
    tokens, errors, warnings := list.tokens, lexer.errors, lexer.warnings;
  }
}
