// Which token types the lexer can produce when comments are not kept: no
// step of the category loop then adds a token of type "comment", so the
// token list the language server caches as tokensNoComment holds none.

module LexerComments {

  import opened Wrappers
  import opened Positions
  import opened LiteralTypes
  import opened Tokens
  import opened LexerRecognizers
  import opened LexerSpec
  import LexerContent

  /** No token of the sequence is a comment. */
  predicate NoComments(tokens: seq<Token>)
  {
    forall k :: 0 <= k < |tokens| ==> tokens[k].tokenType != "comment"
  }

  /** Neither a finished token nor the buffered one is a comment. */
  predicate CommentFree(l: ListState)
  {
    NoComments(l.tokens) && l.curType != "comment"
  }

  lemma NoCommentsAppend(tokens: seq<Token>, t: Token)
    requires NoComments(tokens) && t.tokenType != "comment"
    ensures NoComments(tokens + [t])
  {
    assert forall k :: 0 <= k < |tokens| ==> (tokens + [t])[k] == tokens[k];
  }

  lemma FlushedFree(l: ListState)
    requires CommentFree(l)
    ensures CommentFree(Flushed(l))
  {
    if l.content != "" {
      NoCommentsAppend(l.tokens, Token(l.content, l.curType, l.curProp, l.curRange));
    }
  }

  lemma AddedFree(l: ListState, t: Token)
    requires CommentFree(l) && t.tokenType != "comment"
    ensures CommentFree(Added(l, t))
  {
    FlushedFree(l);
    NoCommentsAppend(Flushed(l).tokens, t);
  }

  lemma TokenStepFree(st: LexState, m: Lexeme, value: string, tokenType: string, prop: Option<LiteralType>)
    requires m.content != "" && IsMatchOf(st.code, m)
    requires CommentFree(st.list) && tokenType != "comment"
    ensures CommentFree(TokenStep(st, m, value, tokenType, prop).list)
  {
    AddedFree(st.list, Token(value, tokenType, prop, LexemeRegion(st.code, st.pos, m.lead, m.content)));
  }

  lemma CommentStepFree(st: LexState, m: Lexeme)
    requires m.content != "" && IsMatchOf(st.code, m) && CommentFree(st.list)
    ensures CommentFree(CommentStep(st, m, false).list)
  {
    CommentStepReports(st, m, false);
  }

  lemma StringStepFree(st: LexState, l: Literal)
    requires l.content != "" && IsLiteralMatchOf(st.code, l) && l.prop.Some? && l.prop.value.String?
    requires CommentFree(st.list)
    ensures CommentFree(StringStep(st, l).list)
  {
    TokenStepFree(st, Lexeme(l.lead, l.content), l.content, "string", l.prop);
  }

  lemma DurationStepFree(st: LexState, l: Literal)
    requires l.content != "" && IsLiteralMatchOf(st.code, l) && CommentFree(st.list)
    ensures CommentFree(DurationStep(st, l).list)
  {
    TokenStepFree(st, Lexeme(l.lead, l.content), l.content, "duration", l.prop);
  }

  lemma NumberStepFree(st: LexState, m: Lexeme, prop: Option<LiteralType>)
    requires m.content != "" && IsMatchOf(st.code, m) && CommentFree(st.list)
    ensures CommentFree(NumberStep(st, m, prop).list)
  {
    TokenStepFree(st, m, m.content, "number", prop);
  }

  lemma IdentifierStepFree(st: LexState, m: Lexeme, unquote: string -> string)
    requires m.content != "" && IsMatchOf(st.code, m) && CommentFree(st.list)
    ensures CommentFree(IdentifierStep(st, m, unquote).list)
  {
    if QuotedForm(m.content) {
      TokenStepFree(st, m, unquote(m.content), "identifier", None);
    } else {
      TokenStepFree(st, m, m.content, "identifier", None);
    }
  }

  lemma UnknownStepFree(st: LexState)
    requires st.code != "" && CommentFree(st.list)
    ensures CommentFree(UnknownStep(st).list)
  {
    var list := if st.list.content == "" then st.list.(curType := "unknown", curProp := None, curRange := EmptyRegion) else st.list;
    AppendedFacts(list, st.code[0], st.pos);
  }

  lemma ApplyFree(s0: LexState, c: Match, unquote: string -> string)
    requires s0.code != "" && Fits(s0.code, c) && CommentFree(s0.list)
    ensures CommentFree(Apply(s0, c, false, unquote).list)
  {
    match c
    case CommentMatch(m) => CommentStepFree(s0, m);
    case StringMatch(l) => StringStepFree(s0, l);
    case DateTimeMatch(l) => TokenStepFree(s0, Lexeme(l.lead, l.content), l.content, "datetime", l.prop);
    case DurationMatch(l) => DurationStepFree(s0, l);
    case NumberMatch(l) => NumberStepFree(s0, Lexeme(l.lead, l.content), l.prop);
    case BooleanMatch(l) => TokenStepFree(s0, Lexeme(l.lead, l.content), l.content, "boolean", Some(Boolean));
    case KeywordMatch(m) => TokenStepFree(s0, m, m.content, "keyword", None);
    case TypeMatch(m) => TokenStepFree(s0, m, m.content, "type", None);
    case PunctuatorMatch(m) => TokenStepFree(s0, m, m.content, "punctuator", None);
    case OperatorMatch(m) => TokenStepFree(s0, m, m.content, "operator", None);
    case IdentifierMatch(m) => IdentifierStepFree(s0, m, unquote);
    case SpaceMatch =>
    case UnknownMatch => UnknownStepFree(s0);
  }

  lemma {:induction false} RunFree(st: LexState, unquote: string -> string)
    requires CommentFree(st.list)
    ensures CommentFree(Run(st, false, unquote).list)
    decreases |st.code|
  {
    if st.code != "" {
      var s0 := RawDelimiterCheck(st);
      ApplyFree(s0, Classify(s0.code), unquote);
      RunFree(Step(st, false, unquote), unquote);
    }
  }

  lemma LexChunkFree(o: LineState, code: string, unquote: string -> string)
    requires CommentFree(o.list)
    ensures CommentFree(LexChunk(o, code, false, unquote).list)
  {
    var x := Run(LexState(code, o.pos, o.list, o.errors, o.warnings), false, unquote);
    RunFree(LexState(code, o.pos, o.list, o.errors, o.warnings), unquote);
    FlushedFree(x.list);
  }

  lemma LineBodyFree(o: LineState, line: string, more: bool, incomplete: string -> bool, unquote: string -> string)
    requires CommentFree(o.list)
    ensures CommentFree(LineBody(o, line, more, incomplete, false, unquote).list)
  {
    var code := if o.continued then o.code + line else line;
    if incomplete(code) {
      if !more {
        var held := code + "\n";
        var err := Diagnostic(NotClosed, Region(Position(o.pos.line, 0), Position(o.pos.line, IndexOf(held, '\n', 0))));
        LexChunkFree(o.(errors := o.errors + [err]), held, unquote);
      }
    } else {
      LexChunkFree(o, code, unquote);
    }
  }

  lemma BlankLineFree(o: LineState, line: string, more: bool, incomplete: string -> bool, unquote: string -> string)
    requires CommentFree(o.list)
    ensures CommentFree(BlankLine(o, line, more, incomplete, false, unquote).list)
  {
    forall o2: LineState | o2.list == o.list
      ensures CommentFree(LineBody(o2, line, more, incomplete, false, unquote).list)
    {
      LineBodyFree(o2, line, more, incomplete, unquote);
    }
  }

  lemma LineStepFree(input: string, o: LineState, incomplete: string -> bool, unquote: string -> string)
    requires o.next < |input| && CommentFree(o.list)
    ensures CommentFree(LineStep(input, o, incomplete, false, unquote).list)
  {
    var rl := LexerContent.ReadLine(input, o.next);
    var more := rl.next < |input|;
    var o1 := o.(next := rl.next);
    if AllSpace(rl.line) {
      BlankLineFree(o1, rl.line, more, incomplete, unquote);
    } else {
      LineBodyFree(o1, rl.line, more, incomplete, unquote);
    }
  }

  lemma {:induction false} LinesFree(input: string, o: LineState, incomplete: string -> bool, unquote: string -> string)
    requires o.next <= |input| && CommentFree(o.list)
    ensures CommentFree(Lines(input, o, incomplete, false, unquote).list)
    decreases |input| - o.next
  {
    if o.next < |input| {
      LineStepFree(input, o, incomplete, unquote);
      LinesFree(input, LineStep(input, o, incomplete, false, unquote), incomplete, unquote);
    }
  }

  /** Lexing without preserving comments yields no token of type "comment". */
  lemma LexWithoutCommentsHasNone(input: string, incomplete: string -> bool, unquote: string -> string)
    ensures NoComments(Lex(input, incomplete, false, unquote).tokens)
  {
    LinesFree(input, Start, incomplete, unquote);
  }
}
