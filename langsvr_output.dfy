// What the language server sends back for a cached document: the
// semantic-token array of the LSP 3.17 relative encoding, the index of a
// token's type in the advertised legend, and the diagnostics list.

module LangSvrOutput {

  import opened Positions
  import opened Tokens
  import opened LexerSpec
  import Repr

  /** What recomputeDocument caches for a document: the lexer's and the parser's output, kept as given. */
  datatype DocumentData = DocumentData(
    text: string,
    tokensNoComment: seq<Token>,
    tokensWithComment: seq<Token>,
    schemas: seq<Repr.ConfigSchema>,
    lexErrors: seq<Diagnostic>,
    lexWarnings: seq<Diagnostic>,
    parseErrors: seq<Diagnostic>,
    parseWarnings: seq<Diagnostic>)

  // ---------------------------------------------------------------------
  // The legend
  // ---------------------------------------------------------------------

  /** The token types, in the order the initialize response advertises them. */
  const Legend: seq<string> := ["datetime", "duration", "number", "boolean", "keyword", "type", "identifier",
                               "punctuator", "operator", "comment", "string", "unknown"]

  /** The index the unlisted types fall back to ("operator"). */
  const DefaultTypeIndex: nat := 8

  /** std::find over a list of names: the first index holding t, or |names| when there is none. */
  function IndexOf(names: seq<string>, t: string): (k: nat)
    ensures k <= |names|
    ensures k < |names| ==> names[k] == t
    ensures forall j :: 0 <= j < k ==> names[j] != t
  {
    if |names| == 0 then 0
    else if names[0] == t then 0
    else 1 + IndexOf(names[1..], t)
  }

  /** getTokenTypeIndex. */
  function TokenTypeIndex(t: string): nat
  {
    var k := IndexOf(Legend, t);
    if k < |Legend| then k else DefaultTypeIndex
  }

  /**
   * The index always names an entry of the legend: the entry that is t when
   * t is listed, and "operator" otherwise.
   */
  lemma TokenTypeIndexSpec(t: string)
    ensures TokenTypeIndex(t) < |Legend|
    ensures t in Legend ==> Legend[TokenTypeIndex(t)] == t
    ensures t !in Legend ==> TokenTypeIndex(t) == DefaultTypeIndex
  {
    var k := IndexOf(Legend, t);
    if t in Legend {
      var j :| 0 <= j < |Legend| && Legend[j] == t;
      assert k <= j;
    }
  }

  /** The legend's names are distinct, so the index of a listed name is its only position. */
  lemma LegendIndexUnique(t: string, k: nat)
    requires k < |Legend| && Legend[k] == t
    ensures TokenTypeIndex(t) == k
  {
    var j := IndexOf(Legend, t);
    if j < k {
      LegendDistinct(j, k);
    }
  }

  /** No name appears twice in the legend. */
  lemma LegendDistinct(i: nat, j: nat)
    requires i < j < |Legend|
    ensures Legend[i] != Legend[j]
  {
  }

  // ---------------------------------------------------------------------
  // Semantic tokens
  // ---------------------------------------------------------------------

  /** size_t arithmetic: values are taken modulo 2^64. */
  const SizeModulus: nat := 0x1_0000_0000_0000_0000

  /** a - b in size_t. */
  function SizeSub(a: nat, b: nat): (d: nat)
    ensures d < SizeModulus
  {
    (a - b) % SizeModulus
  }

  /** The length field: the text length for a token over several lines, else the column difference. */
  function TokenLength(t: Token): nat
  {
    if SizeSub(t.range.end.line, t.range.start.line) != 0 then |t.value|
    else SizeSub(t.range.end.column, t.range.start.column)
  }

  /**
   * The five integers of one token whose predecessor starts at (prevLine,
   * prevChar); typeIndex maps a type name to its number (TokenTypeIndex).
   */
  function Fields(t: Token, prevLine: nat, prevChar: nat, typeIndex: string -> nat): (f: seq<nat>)
    ensures |f| == 5
  {
    var s := t.range.start;
    var deltaLine := SizeSub(s.line, prevLine);
    var deltaChar := if deltaLine == 0 then SizeSub(s.column, prevChar) else s.column;
    [deltaLine, deltaChar, TokenLength(t), typeIndex(t.tokenType), 0]
  }

  /** The five integers of every token, each start taken relative to the previous token's. */
  function Encode(tokens: seq<Token>, prevLine: nat, prevChar: nat, typeIndex: string -> nat): (data: seq<nat>)
    ensures |data| == 5 * |tokens|
  {
    if |tokens| == 0 then []
    else
      Fields(tokens[0], prevLine, prevChar, typeIndex)
      + Encode(tokens[1..], tokens[0].range.start.line, tokens[0].range.start.column, typeIndex)
  }

  /** One more token encoded. */
  lemma EncodeStep(tokens: seq<Token>, i: nat, prevLine: nat, prevChar: nat, fields: seq<nat>)
    requires i < |tokens| && fields == Fields(tokens[i], prevLine, prevChar, TokenTypeIndex)
    ensures Encode(tokens[i..], prevLine, prevChar, TokenTypeIndex)
      == fields + Encode(tokens[i + 1..], tokens[i].range.start.line, tokens[i].range.start.column, TokenTypeIndex)
  {
    assert tokens[i..][1..] == tokens[i + 1..];
  }

  /** The data array of handleSemanticTokens. */
  method SemanticTokenData(tokens: seq<Token>) returns (data: seq<nat>)
    ensures data == Encode(tokens, 0, 0, TokenTypeIndex)
  {
    data := [];
    var prevLine: nat := 0;
    var prevChar: nat := 0;
    for i := 0 to |tokens|
      invariant data + Encode(tokens[i..], prevLine, prevChar, TokenTypeIndex) == Encode(tokens, 0, 0, TokenTypeIndex)
    {
      var token := tokens[i];
      var deltaLine := SizeSub(token.range.start.line, prevLine);
      var deltaChar := if deltaLine == 0 then SizeSub(token.range.start.column, prevChar) else token.range.start.column;
      var length := if SizeSub(token.range.end.line, token.range.start.line) != 0 then |token.value|
                    else SizeSub(token.range.end.column, token.range.start.column);
      var tokenType := TokenTypeIndex(token.tokenType);
      var fields: seq<nat> := [deltaLine, deltaChar, length, tokenType, 0];
      EncodeStep(tokens, i, prevLine, prevChar, fields);
      data := data + fields;
      prevLine := token.range.start.line;
      prevChar := token.range.start.column;
    }
  }

  /** Five integers per token: the length, the type index and a zero modifier set. */
  lemma {:induction false} EncodeFields(tokens: seq<Token>, prevLine: nat, prevChar: nat, typeIndex: string -> nat, k: nat)
    requires k < |tokens|
    ensures var data := Encode(tokens, prevLine, prevChar, typeIndex);
      data[5 * k + 2] == TokenLength(tokens[k])
      && data[5 * k + 3] == typeIndex(tokens[k].tokenType)
      && data[5 * k + 4] == 0
  {
    var f := Fields(tokens[0], prevLine, prevChar, typeIndex);
    var rest := Encode(tokens[1..], tokens[0].range.start.line, tokens[0].range.start.column, typeIndex);
    assert Encode(tokens, prevLine, prevChar, typeIndex) == f + rest;
    if k > 0 {
      EncodeFields(tokens[1..], tokens[0].range.start.line, tokens[0].range.start.column, typeIndex, k - 1);
      assert tokens[1..][k - 1] == tokens[k];
      assert (f + rest)[5 * k + 2] == rest[5 * (k - 1) + 2];
      assert (f + rest)[5 * k + 3] == rest[5 * (k - 1) + 3];
      assert (f + rest)[5 * k + 4] == rest[5 * (k - 1) + 4];
    }
  }

  /** The type field of the data the server sends names an entry of the legend. */
  lemma SemanticTypesInLegend(tokens: seq<Token>, k: nat)
    requires k < |tokens|
    ensures var data := Encode(tokens, 0, 0, TokenTypeIndex);
      data[5 * k + 3] < |Legend|
      && (tokens[k].tokenType in Legend ==> Legend[data[5 * k + 3]] == tokens[k].tokenType)
  {
    EncodeFields(tokens, 0, 0, TokenTypeIndex, k);
    TokenTypeIndexSpec(tokens[k].tokenType);
  }

  /** A coordinate a size_t holds. */
  predicate InSize(p: Position)
  {
    p.line < SizeModulus && p.column < SizeModulus
  }

  /** Positions in document order and within size_t, as the lexer produces them. */
  predicate Ordered(tokens: seq<Token>, prev: Position)
  {
    (forall k :: 0 <= k < |tokens| ==> InSize(tokens[k].range.start))
    && (|tokens| > 0 ==> AtOrBefore(prev, tokens[0].range.start))
    && (forall k :: 0 < k < |tokens| ==> AtOrBefore(tokens[k - 1].range.start, tokens[k].range.start))
  }

  /** How a client reads the data back (section "Semantic Tokens" of LSP 3.17): add the deltas up. */
  function DecodeStarts(data: seq<nat>, line: nat, col: nat): seq<Position>
    decreases |data|
  {
    if |data| < 5 then []
    else
      var l := line + data[0];
      var c := if data[0] == 0 then col + data[1] else data[1];
      [Position(l, c)] + DecodeStarts(data[5..], l, c)
  }

  /** The start positions of tokens, in order. */
  function Starts(tokens: seq<Token>): (s: seq<Position>)
    ensures |s| == |tokens| && forall k :: 0 <= k < |tokens| ==> s[k] == tokens[k].range.start
  {
    seq(|tokens|, k requires 0 <= k < |tokens| => tokens[k].range.start)
  }

  /** Reading one token's deltas back after a predecessor at or before it gives its start. */
  lemma FieldsDecode(t: Token, prevLine: nat, prevChar: nat, typeIndex: string -> nat)
    requires prevLine < SizeModulus && prevChar < SizeModulus && InSize(t.range.start)
    requires AtOrBefore(Position(prevLine, prevChar), t.range.start)
    ensures var f := Fields(t, prevLine, prevChar, typeIndex);
      Position(prevLine + f[0], if f[0] == 0 then prevChar + f[1] else f[1]) == t.range.start
  {
  }

  /** Decoding one token's fields, then the rest. */
  lemma DecodeHead(f: seq<nat>, rest: seq<nat>, line: nat, col: nat)
    requires |f| == 5
    ensures var l := line + f[0];
      var c := if f[0] == 0 then col + f[1] else f[1];
      DecodeStarts(f + rest, line, col) == [Position(l, c)] + DecodeStarts(rest, l, c)
  {
    assert (f + rest)[5..] == rest;
  }

  /** The tokens after the first are in order after the first one's start. */
  lemma OrderedTail(tokens: seq<Token>, prev: Position)
    requires |tokens| > 0 && Ordered(tokens, prev)
    ensures Ordered(tokens[1..], tokens[0].range.start)
  {
    var rest := tokens[1..];
    forall k | 0 <= k < |rest|
      ensures InSize(rest[k].range.start)
    {
      assert rest[k] == tokens[k + 1];
    }
    forall k | 0 < k < |rest|
      ensures AtOrBefore(rest[k - 1].range.start, rest[k].range.start)
    {
      assert rest[k - 1] == tokens[k] && rest[k] == tokens[k + 1];
    }
    if |rest| > 0 {
      assert rest[0] == tokens[1];
    }
  }

  /**
   * For tokens in document order no difference wraps around, and a client
   * that adds the deltas up recovers every token's start position.
   */
  lemma {:induction false} DecodeRecoversStarts(tokens: seq<Token>, prevLine: nat, prevChar: nat, typeIndex: string -> nat)
    requires prevLine < SizeModulus && prevChar < SizeModulus
    requires Ordered(tokens, Position(prevLine, prevChar))
    ensures DecodeStarts(Encode(tokens, prevLine, prevChar, typeIndex), prevLine, prevChar) == Starts(tokens)
    decreases |tokens|
  {
    if |tokens| > 0 {
      var s := tokens[0].range.start;
      var f := Fields(tokens[0], prevLine, prevChar, typeIndex);
      var rest := Encode(tokens[1..], s.line, s.column, typeIndex);
      assert DecodeStarts(Encode(tokens, prevLine, prevChar, typeIndex), prevLine, prevChar)
        == [s] + DecodeStarts(rest, s.line, s.column) by {
        assert Encode(tokens, prevLine, prevChar, typeIndex) == f + rest;
        FieldsDecode(tokens[0], prevLine, prevChar, typeIndex);
        DecodeHead(f, rest, prevLine, prevChar);
      }
      assert DecodeStarts(rest, s.line, s.column) == Starts(tokens[1..]) by {
        OrderedTail(tokens, Position(prevLine, prevChar));
        DecodeRecoversStarts(tokens[1..], s.line, s.column, typeIndex);
      }
      assert Starts(tokens) == [s] + Starts(tokens[1..]);
    } else {
      assert Starts(tokens) == [];
    }
  }

  /** The length field is the column difference on one line and the text length across lines. */
  lemma TokenLengthSpec(t: Token)
    requires InSize(t.range.start) && InSize(t.range.end)
    ensures t.range.start.line == t.range.end.line && t.range.start.column <= t.range.end.column
      ==> TokenLength(t) == t.range.end.column - t.range.start.column
    ensures t.range.start.line != t.range.end.line ==> TokenLength(t) == |t.value|
  {
  }

  // ---------------------------------------------------------------------
  // Diagnostics
  // ---------------------------------------------------------------------

  /** A diagnostic as sent to the client: its range, its message and its severity (1 error, 2 warning). */
  datatype LspDiagnostic = LspDiagnostic(range: Region, message: string, severity: nat)

  const ErrorSeverity: nat := 1
  const WarningSeverity: nat := 2

  function WithSeverity(ds: seq<Diagnostic>, severity: nat): (r: seq<LspDiagnostic>)
    ensures |r| == |ds|
    ensures forall k :: 0 <= k < |ds| ==> r[k] == LspDiagnostic(ds[k].region, ds[k].message, severity)
  {
    seq(|ds|, k requires 0 <= k < |ds| => LspDiagnostic(ds[k].region, ds[k].message, severity))
  }

  /** The errors, each with severity 1, then the warnings, each with severity 2. */
  function Diagnostics(errors: seq<Diagnostic>, warnings: seq<Diagnostic>): seq<LspDiagnostic>
  {
    WithSeverity(errors, ErrorSeverity) + WithSeverity(warnings, WarningSeverity)
  }

  /** genDiagnosticsFromErrorWarningList. */
  method DiagnosticsFromLists(errors: seq<Diagnostic>, warnings: seq<Diagnostic>) returns (diagnostics: seq<LspDiagnostic>)
    ensures diagnostics == Diagnostics(errors, warnings)
  {
    diagnostics := [];
    for i := 0 to |errors|
      invariant diagnostics == WithSeverity(errors[..i], ErrorSeverity)
    {
      diagnostics := diagnostics + [LspDiagnostic(errors[i].region, errors[i].message, ErrorSeverity)];
    }
    assert errors[..|errors|] == errors;
    for i := 0 to |warnings|
      invariant diagnostics == WithSeverity(errors, ErrorSeverity) + WithSeverity(warnings[..i], WarningSeverity)
    {
      diagnostics := diagnostics + [LspDiagnostic(warnings[i].region, warnings[i].message, WarningSeverity)];
    }
    assert warnings[..|warnings|] == warnings;
  }

  /** The diagnostics of a cached document. */
  function DocumentDiagnostics(doc: DocumentData): seq<LspDiagnostic>
  {
    Diagnostics(doc.lexErrors + doc.parseErrors, doc.lexWarnings + doc.parseWarnings)
  }

  /** genDiagnosticsForCslFile, once the document is found. */
  method DiagnosticsForDocument(doc: DocumentData) returns (diagnostics: seq<LspDiagnostic>)
    ensures diagnostics == DocumentDiagnostics(doc)
  {
    var errors := [];
    var warnings := [];
    errors := errors + doc.lexErrors;
    errors := errors + doc.parseErrors;
    warnings := warnings + doc.lexWarnings;
    warnings := warnings + doc.parseWarnings;
    diagnostics := DiagnosticsFromLists(errors, warnings);
  }

  /**
   * The order of a document's diagnostics: lex errors, parse errors, lex
   * warnings, parse warnings, each kept as reported; the errors have
   * severity 1 and the warnings severity 2.
   */
  lemma DocumentDiagnosticsOrder(doc: DocumentData, k: nat)
    requires k < |DocumentDiagnostics(doc)|
    ensures var d := DocumentDiagnostics(doc);
      var e1 := |doc.lexErrors|;
      var e2 := e1 + |doc.parseErrors|;
      var w1 := e2 + |doc.lexWarnings|;
      |d| == w1 + |doc.parseWarnings|
      && (k < e1 ==> d[k] == LspDiagnostic(doc.lexErrors[k].region, doc.lexErrors[k].message, 1))
      && (e1 <= k < e2 ==> d[k] == LspDiagnostic(doc.parseErrors[k - e1].region, doc.parseErrors[k - e1].message, 1))
      && (e2 <= k < w1 ==> d[k] == LspDiagnostic(doc.lexWarnings[k - e2].region, doc.lexWarnings[k - e2].message, 2))
      && (w1 <= k ==> d[k] == LspDiagnostic(doc.parseWarnings[k - w1].region, doc.parseWarnings[k - w1].message, 2))
  {
    var errors := doc.lexErrors + doc.parseErrors;
    var warnings := doc.lexWarnings + doc.parseWarnings;
    var e2 := |errors|;
    if k < e2 {
      assert DocumentDiagnostics(doc)[k] == WithSeverity(errors, 1)[k];
    } else {
      assert DocumentDiagnostics(doc)[k] == WithSeverity(warnings, 2)[k - e2];
    }
  }

  /** Exactly the errors are reported with severity 1. */
  lemma SeverityMarksErrors(errors: seq<Diagnostic>, warnings: seq<Diagnostic>, k: nat)
    requires k < |Diagnostics(errors, warnings)|
    ensures Diagnostics(errors, warnings)[k].severity == 1 <==> k < |errors|
  {
    if k < |errors| {
      assert Diagnostics(errors, warnings)[k] == WithSeverity(errors, 1)[k];
    } else {
      assert Diagnostics(errors, warnings)[k] == WithSeverity(warnings, 2)[k - |errors|];
    }
  }
}
