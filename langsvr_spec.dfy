// The language server's request handling as functions of its state: the
// LSP 3.17 lifecycle gates of handleRequest, each handler it dispatches
// to, the document cache keyed by normalised URI, the exit code, and the
// catch clause that turns exceptions into error replies.  The class in
// langsvr.dfy is proved to do exactly what these functions say.  Handle
// reads the multi-line token capability along its full path, stores error
// codes under "code" and folds comments from the token list that keeps
// them; MultilineAsWritten, ErrorObjectAsWritten and FoldingAsWritten are
// the source's own versions.

module LangSvrSpec {

  import opened Wrappers
  import Utf8
  import opened Tokens
  import opened LexerSpec
  import Repr
  import opened JsonValue
  import opened LangSvrUri
  import opened LangSvrOutput
  import opened LangSvrFolding
  import opened LangSvrRpc

  // ---------------------------------------------------------------------
  // State, replies and the analysis functions
  // ---------------------------------------------------------------------

  /** What the parser function returns; the token-to-representation mapping is not part of this model. */
  datatype ParseOutput = ParseOutput(schemas: seq<Repr.ConfigSchema>, errors: seq<Diagnostic>, warnings: seq<Diagnostic>)

  /** The lexer function: text, whether to keep comments, whether the client supports multi-line tokens. */
  type LexerFunction = (string, bool, bool) -> LexResult

  type ParserFunction = seq<Token> -> ParseOutput

  /** A textDocument/publishDiagnostics notification, carrying the URI as the client sent it. */
  datatype Notification = PublishDiagnostics(uri: seq<Utf8.Byte>, diagnostics: seq<LspDiagnostic>)

  datatype ServerState = ServerState(
    serverInitialized: bool,
    clientInitialized: bool,
    shutdown: bool,
    exited: bool,
    multilineTokens: bool,
    trace: seq<Utf8.Byte>,
    documents: map<seq<Utf8.Byte>, DocumentData>,
    published: seq<Notification>)

  const Initial := ServerState(false, false, false, false, false, [], map[], [])

  /** The result member of a successful reply. */
  datatype Payload =
    | Capabilities
    | NullResult
    | Folding(ranges: seq<FoldingRange>)
    | SemanticTokens(data: seq<nat>)
    | FullReport(items: seq<LspDiagnostic>)

  /** What handleRequest returns: nothing (a null json, which is not sent), a result, an error, or the reply of a feature handler outside this model. */
  datatype Reply =
    | NoReply
    | Response(id: Value, result: Payload)
    | ErrorResponse(errorId: Value, error: seq<ErrorMember>)
    | Unmodelled(methodName: string)

  /** How a handler ends: with a reply, or by throwing an exception with its message. */
  datatype Outcome = Returned(reply: Reply) | Threw(message: string)

  datatype Effect = Effect(state: ServerState, outcome: Outcome)

  datatype Step = Step(state: ServerState, reply: Reply)

  const InitializeTwice := "Initialize request may only be sent once"
  const InitializedTwice := "Initialized request may only be sent once"
  const NotInitialized := "Server not initialized"
  const ClientNotInitialized := "Client not initialized"
  const AlreadyShutdown := "Server already shutdown"
  const DocumentNotFound := "Document not found"

  /** getServerExitCode: -1 while running, then 0 after an orderly shutdown and 1 otherwise. */
  function ExitCodeOf(s: ServerState): (code: int)
    ensures code == -1 <==> !s.exited
    ensures code == 0 <==> s.exited && s.shutdown
    ensures code == 1 <==> s.exited && !s.shutdown
  {
    if s.exited then (if s.shutdown then 0 else 1) else -1
  }

  // ---------------------------------------------------------------------
  // The lifecycle handlers
  // ---------------------------------------------------------------------

  /** The trace parameter of initialize: a string when present, "" when absent. */
  function TraceParam(params: Value): Access<seq<Utf8.Byte>>
  {
    if Has(params, "trace") then StringAt(params, ["trace"]) else Found([])
  }

  /**
   * handleInitialize: throws when already initialised; otherwise marks the
   * server initialised first, so the flag stays set even when reading the
   * parameters or the id throws afterwards.
   */
  function InitializeSpec(s: ServerState, request: Value): Effect
  {
    if s.serverInitialized then Effect(s, Threw(InitializeTwice))
    else ConfigureSpec(s.(serverInitialized := true), request)
  }

  /** The rest of handleInitialize: trace, multi-line support, then the reply; each step may throw. */
  function ConfigureSpec(s: ServerState, request: Value): Effect
  {
    var params := Get(request, "params");
    if params.Thrown? then Effect(s, Threw(params.msg))
    else
      var trace := TraceParam(params.value);
      if trace.Thrown? then Effect(s, Threw(trace.msg))
      else
        var s2 := s.(trace := trace.value);
        var multiline := MultilineSupport(params.value);
        if multiline.Thrown? then Effect(s2, Threw(multiline.msg))
        else
          var s3 := s2.(multilineTokens := multiline.value);
          var id := Get(request, "id");
          if id.Thrown? then Effect(s3, Threw(id.msg))
          else Effect(s3, Returned(Response(id.value, Capabilities)))
  }

  function InitializedSpec(s: ServerState): Effect
  {
    if s.clientInitialized then Effect(s, Threw(InitializedTwice))
    else Effect(s.(clientInitialized := true), Returned(NoReply))
  }

  function ShutdownSpec(s: ServerState, request: Value): Effect
  {
    var s1 := s.(shutdown := true);
    var id := Get(request, "id");
    if id.Thrown? then Effect(s1, Threw(id.msg)) else Effect(s1, Returned(Response(id.value, NullResult)))
  }

  /** handleExit: marks the server exited and no longer initialised; documents stay cached. */
  function ExitSpec(s: ServerState): Effect
  {
    Effect(s.(exited := true, serverInitialized := false), Returned(NoReply))
  }

  // ---------------------------------------------------------------------
  // The document cache
  // ---------------------------------------------------------------------

  /** recomputeDocument's analysis: lex without comments, parse those tokens, lex again keeping comments. */
  function Analyze(text: seq<Utf8.Byte>, multiline: bool, lexer: LexerFunction, parser: ParserFunction): (d: DocumentData)
    ensures d.text == ByteText(text)
    ensures d.tokensNoComment == lexer(ByteText(text), false, multiline).tokens
    ensures d.tokensWithComment == lexer(ByteText(text), true, multiline).tokens
  {
    var t := ByteText(text);
    var nc := lexer(t, false, multiline);
    var p := parser(nc.tokens);
    var wc := lexer(t, true, multiline);
    DocumentData(t, nc.tokens, wc.tokens, p.schemas, nc.errors, nc.warnings, p.errors, p.warnings)
  }

  /** recomputeDocument: the analysis replaces whatever was cached under the normalised URI. */
  function Recompute(s: ServerState, uri: seq<Utf8.Byte>, text: seq<Utf8.Byte>, lexer: LexerFunction, parser: ParserFunction): ServerState
  {
    s.(documents := s.documents[Normalize(uri) := Analyze(text, s.multilineTokens, lexer, parser)])
  }

  /** sendNotification(genPublishDiagnosticsNotification(uri)) for a cached document. */
  function Publish(s: ServerState, uri: seq<Utf8.Byte>): ServerState
    requires Normalize(uri) in s.documents
  {
    s.(published := s.published + [PublishDiagnostics(uri, DocumentDiagnostics(s.documents[Normalize(uri)]))])
  }

  /** Recompute then publish, as didOpen and didChange both do. */
  function Reanalyze(s: ServerState, uri: seq<Utf8.Byte>, text: seq<Utf8.Byte>, lexer: LexerFunction, parser: ParserFunction): ServerState
  {
    Publish(Recompute(s, uri, text, lexer, parser), uri)
  }

  const UriPath: seq<string> := ["params", "textDocument", "uri"]

  function DidOpenSpec(s: ServerState, request: Value, lexer: LexerFunction, parser: ParserFunction): Effect
  {
    var text := StringAt(request, ["params", "textDocument", "text"]);
    if text.Thrown? then Effect(s, Threw(text.msg))
    else
      var uri := StringAt(request, UriPath);
      if uri.Thrown? then Effect(s, Threw(uri.msg))
      else Effect(Reanalyze(s, uri.value, text.value, lexer, parser), Returned(NoReply))
  }

  /** The text of the last content change, read as handleDidChange reads it. */
  function LastChangeText(changes: Value): Access<seq<Utf8.Byte>>
    requires changes.Array? || changes.Object?
    requires Size(changes).value > 0
  {
    var last := At(changes, Size(changes).value - 1);
    if last.Thrown? then Thrown(last.kind, last.msg) else StringAt(last.value, ["text"])
  }

  /** handleDidChange: only a non-empty change list re-analyses the document, with the text of its last change. */
  function DidChangeSpec(s: ServerState, request: Value, lexer: LexerFunction, parser: ParserFunction): Effect
  {
    var changes := GetPath(request, ["params", "contentChanges"]);
    if changes.Thrown? then Effect(s, Threw(changes.msg))
    else
      var uri := StringAt(request, UriPath);
      if uri.Thrown? then Effect(s, Threw(uri.msg))
      else
        var empty := Empty(changes.value);
        if empty.Thrown? then Effect(s, Threw(empty.msg))
        else if empty.value then Effect(s, Returned(NoReply))
        else
          var text := LastChangeText(changes.value);
          if text.Thrown? then Effect(s, Threw(text.msg))
          else Effect(Reanalyze(s, uri.value, text.value, lexer, parser), Returned(NoReply))
  }

  function DidCloseSpec(s: ServerState, request: Value): Effect
  {
    var uri := StringAt(request, UriPath);
    if uri.Thrown? then Effect(s, Threw(uri.msg))
    else Effect(s.(documents := s.documents - {Normalize(uri.value)}), Returned(NoReply))
  }

  function SetTraceSpec(s: ServerState, request: Value): Effect
  {
    var value := StringAt(request, ["params", "value"]);
    if value.Thrown? then Effect(s, Threw(value.msg)) else Effect(s.(trace := value.value), Returned(NoReply))
  }

  // ---------------------------------------------------------------------
  // Queries on a cached document
  // ---------------------------------------------------------------------

  /** The three queries answered from the cache. */
  datatype Query = FoldingRangeQuery | SemanticTokensQuery | PullDiagnosticQuery

  /**
   * What a query answers for a found document. Comment blocks are folded
   * from the token list that keeps comments; FoldingAsWritten is the
   * handler as written, which folds both from the list without them.
   */
  function Answer(q: Query, doc: DocumentData): Payload
  {
    match q
    case FoldingRangeQuery => Folding(BraceRanges(doc.tokensNoComment) + CommentRanges(doc.tokensWithComment))
    case SemanticTokensQuery => SemanticTokens(Encode(doc.tokensWithComment, 0, 0, TokenTypeIndex))
    case PullDiagnosticQuery => FullReport(DocumentDiagnostics(doc))
  }

  /** handleFoldingRange as written: both loops walk tokensNoComment. */
  function FoldingAsWritten(doc: DocumentData): Payload
  {
    Folding(BraceRanges(doc.tokensNoComment) + CommentRanges(doc.tokensNoComment))
  }

  /** handleFoldingRange, handleSemanticTokens and handlePullDiagnostic: look the document up, answer, echo the id. */
  function QuerySpec(s: ServerState, request: Value, q: Query): Outcome
  {
    var uri := StringAt(request, UriPath);
    if uri.Thrown? then Threw(uri.msg)
    else if Normalize(uri.value) !in s.documents then Threw(DocumentNotFound)
    else
      var id := Get(request, "id");
      if id.Thrown? then Threw(id.msg)
      else Returned(Response(id.value, Answer(q, s.documents[Normalize(uri.value)])))
  }

  // ---------------------------------------------------------------------
  // handleRequest
  // ---------------------------------------------------------------------

  /** The methods handleRequest tells apart; Feature covers the handlers whose replies this model leaves abstract. */
  datatype Method =
    | Initialize | Initialized | Exit | Shutdown
    | DidOpen | DidChange | DidClose | SetTrace
    | QueryMethod(q: Query)
    | Feature(featureName: string)
    | Unknown(unknownName: string)

  /** The method a name selects in handleRequest's comparison chain. */
  function MethodKind(name: string): Method
  {
    if name == "initialize" then Initialize
    else if name == "initialized" then Initialized
    else if name == "exit" then Exit
    else if name == "shutdown" then Shutdown
    else if name == "textDocument/didOpen" then DidOpen
    else if name == "textDocument/didChange" then DidChange
    else if name == "textDocument/didClose" then DidClose
    else if name == "$/setTrace" then SetTrace
    else if name == "textDocument/foldingRange" then QueryMethod(FoldingRangeQuery)
    else if name == "textDocument/semanticTokens/full" then QueryMethod(SemanticTokensQuery)
    else if name == "textDocument/diagnostic" then QueryMethod(PullDiagnosticQuery)
    else if name in FeatureNames then Feature(name)
    else Unknown(name)
  }

  const FeatureNames: seq<string> := ["textDocument/references", "textDocument/rename", "textDocument/formatting",
    "textDocument/definition", "textDocument/completion", "textDocument/hover", "csl/generateHtmlDoc"]

  /** The dispatch once every gate has passed. */
  function Dispatch(s: ServerState, request: Value, kind: Method, requestId: Value, lexer: LexerFunction, parser: ParserFunction): Effect
  {
    if kind.DidOpen? || kind.DidChange? || kind.DidClose? then Synchronize(s, request, kind, lexer, parser)
    else if kind.Exit? || kind.Shutdown? || kind.SetTrace? then Control(s, request, kind)
    else Effect(s, Answered(s, request, kind, requestId))
  }

  /** The text document synchronisation notifications. */
  function Synchronize(s: ServerState, request: Value, kind: Method, lexer: LexerFunction, parser: ParserFunction): Effect
    requires kind.DidOpen? || kind.DidChange? || kind.DidClose?
  {
    if kind.DidOpen? then DidOpenSpec(s, request, lexer, parser)
    else if kind.DidChange? then DidChangeSpec(s, request, lexer, parser)
    else DidCloseSpec(s, request)
  }

  /** exit, shutdown and $/setTrace. */
  function Control(s: ServerState, request: Value, kind: Method): Effect
    requires kind.Exit? || kind.Shutdown? || kind.SetTrace?
  {
    if kind.Exit? then ExitSpec(s)
    else if kind.Shutdown? then ShutdownSpec(s, request)
    else SetTraceSpec(s, request)
  }

  /** The remaining branches, none of which changes the state: queries, feature handlers, unknown methods. */
  function Answered(s: ServerState, request: Value, kind: Method, requestId: Value): Outcome
  {
    if kind.QueryMethod? then QuerySpec(s, request, kind.q)
    else if kind.Feature? then Returned(Unmodelled(kind.featureName))
    else Returned(NotFoundReply(requestId))
  }

  /** The reply to a method the server does not know. */
  function NotFoundReply(requestId: Value): Reply
  {
    ErrorResponse(requestId, ErrorObject(MethodNotFound, "Method not found"))
  }

  /** The lifecycle gates, in the order handleRequest applies them. */
  function Route(s: ServerState, request: Value, kind: Method, requestId: Value, lexer: LexerFunction, parser: ParserFunction): Effect
  {
    if kind == Initialize then InitializeSpec(s, request)
    else if !s.serverInitialized then Effect(s, Threw(NotInitialized))
    else if kind == Initialized then InitializedSpec(s)
    else if !s.clientInitialized then Effect(s, Threw(ClientNotInitialized))
    else if s.shutdown && kind != Exit then Effect(s, Threw(AlreadyShutdown))
    else Dispatch(s, request, kind, requestId, lexer, parser)
  }

  /** The catch clause: an exception becomes an internal-error reply carrying its message. */
  function Catch(e: Effect, requestId: Value): Step
  {
    match e.outcome
    case Returned(reply) => Step(e.state, reply)
    case Threw(message) => Step(e.state, ErrorResponse(requestId, ErrorObject(InternalError, message)))
  }

  function Handle(s: ServerState, request: Value, lexer: LexerFunction, parser: ParserFunction): Step
  {
    var requestId := RequestIdOf(request);
    var m := MethodOf(request);
    if m.Thrown? then Catch(Effect(s, Threw(m.msg)), requestId)
    else Catch(Route(s, request, MethodKind(ByteText(m.value)), requestId, lexer, parser), requestId)
  }
}
