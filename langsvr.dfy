// LanguageServer: the lifecycle flags, the trace value and the document
// cache as fields the handlers update in place, each handler proved to do
// what its function in LangSvrSpec says.  Reading and writing the LSP
// base protocol frames, and the run loop around handleRequest, are not
// part of this model: requests arrive as parsed JSON values.

module LangSvr {

  import opened Wrappers
  import Utf8
  import opened JsonValue
  import opened LangSvrUri
  import opened LangSvrOutput
  import opened LangSvrFolding
  import opened LangSvrRpc
  import opened LangSvrSpec

  class LanguageServer {

    /** The lexer and parser functions the server is constructed with. */
    const lexer: LexerFunction
    const parser: ParserFunction

    var serverInitialized: bool
    var clientInitialized: bool
    var serverShutdown: bool
    var serverExited: bool
    var clientSupportsMultilineToken: bool
    var traceValue: seq<Utf8.Byte>
    /** documentCache, keyed by normalised URI. */
    var documentCache: map<seq<Utf8.Byte>, DocumentData>
    /** The notifications sent so far, in order. */
    var notifications: seq<Notification>

    function State(): ServerState
      reads this
    {
      ServerState(serverInitialized, clientInitialized, serverShutdown, serverExited,
                  clientSupportsMultilineToken, traceValue, documentCache, notifications)
    }

    constructor (lexer: LexerFunction, parser: ParserFunction)
      ensures this.lexer == lexer && this.parser == parser
      ensures State() == Initial
    {
      this.lexer := lexer;
      this.parser := parser;
      serverInitialized := false;
      clientInitialized := false;
      serverShutdown := false;
      serverExited := false;
      clientSupportsMultilineToken := false;
      traceValue := [];
      documentCache := map[];
      notifications := [];
    }

    /** getServerExitCode. */
    method GetServerExitCode() returns (code: int)
      ensures code == ExitCodeOf(State())
    {
      code := if serverExited then (if serverShutdown then 0 else 1) else -1;
    }

    // -------------------------------------------------------------------
    // Lifecycle handlers
    // -------------------------------------------------------------------

    method HandleInitialize(request: Value) returns (outcome: Outcome)
      modifies this
      ensures Effect(State(), outcome) == InitializeSpec(old(State()), request)
    {
      if serverInitialized {
        return Threw(InitializeTwice);
      }
      serverInitialized := true;
      outcome := Configure(request);
    }

    method Configure(request: Value) returns (outcome: Outcome)
      modifies this
      ensures Effect(State(), outcome) == ConfigureSpec(old(State()), request)
    {
      var params := Get(request, "params");
      if params.Thrown? {
        return Threw(params.msg);
      }
      var trace := TraceParam(params.value);
      if trace.Thrown? {
        return Threw(trace.msg);
      }
      traceValue := trace.value;
      var multiline := MultilineSupport(params.value);
      if multiline.Thrown? {
        return Threw(multiline.msg);
      }
      clientSupportsMultilineToken := multiline.value;
      var id := Get(request, "id");
      if id.Thrown? {
        return Threw(id.msg);
      }
      return Returned(Response(id.value, Capabilities));
    }

    method HandleInitialized() returns (outcome: Outcome)
      modifies this
      ensures Effect(State(), outcome) == InitializedSpec(old(State()))
    {
      if clientInitialized {
        return Threw(InitializedTwice);
      }
      clientInitialized := true;
      return Returned(NoReply);
    }

    method HandleShutdown(request: Value) returns (outcome: Outcome)
      modifies this
      ensures Effect(State(), outcome) == ShutdownSpec(old(State()), request)
    {
      serverShutdown := true;
      var id := Get(request, "id");
      if id.Thrown? {
        return Threw(id.msg);
      }
      return Returned(Response(id.value, NullResult));
    }

    method HandleExit() returns (outcome: Outcome)
      modifies this
      ensures Effect(State(), outcome) == ExitSpec(old(State()))
    {
      serverExited := true;
      serverInitialized := false;
      return Returned(NoReply);
    }

    // -------------------------------------------------------------------
    // The document cache
    // -------------------------------------------------------------------

    method RecomputeDocument(uri: seq<Utf8.Byte>, text: seq<Utf8.Byte>)
      modifies this
      ensures State() == Recompute(old(State()), uri, text, lexer, parser)
    {
      var nuri := NormalizeUri(uri);
      var t := ByteText(text);
      var nc := lexer(t, false, clientSupportsMultilineToken);
      var p := parser(nc.tokens);
      var wc := lexer(t, true, clientSupportsMultilineToken);
      documentCache := documentCache[nuri := DocumentData(t, nc.tokens, wc.tokens, p.schemas, nc.errors, nc.warnings, p.errors, p.warnings)];
    }

    /** Sends the diagnostics of a document that has just been recomputed. */
    method PublishDiagnosticsFor(uri: seq<Utf8.Byte>)
      requires Normalize(uri) in documentCache
      modifies this
      ensures State() == Publish(old(State()), uri)
    {
      var nuri := NormalizeUri(uri);
      var diagnostics := DiagnosticsForDocument(documentCache[nuri]);
      notifications := notifications + [PublishDiagnostics(uri, diagnostics)];
    }

    method Reanalyze(uri: seq<Utf8.Byte>, text: seq<Utf8.Byte>)
      modifies this
      ensures State() == LangSvrSpec.Reanalyze(old(State()), uri, text, lexer, parser)
    {
      RecomputeDocument(uri, text);
      PublishDiagnosticsFor(uri);
    }

    method HandleDidOpen(request: Value) returns (outcome: Outcome)
      modifies this
      ensures Effect(State(), outcome) == DidOpenSpec(old(State()), request, lexer, parser)
    {
      var text := StringAt(request, ["params", "textDocument", "text"]);
      if text.Thrown? {
        return Threw(text.msg);
      }
      var uri := StringAt(request, UriPath);
      if uri.Thrown? {
        return Threw(uri.msg);
      }
      Reanalyze(uri.value, text.value);
      return Returned(NoReply);
    }

    method HandleDidChange(request: Value) returns (outcome: Outcome)
      modifies this
      ensures Effect(State(), outcome) == DidChangeSpec(old(State()), request, lexer, parser)
    {
      var changes := GetPath(request, ["params", "contentChanges"]);
      if changes.Thrown? {
        return Threw(changes.msg);
      }
      var uri := StringAt(request, UriPath);
      if uri.Thrown? {
        return Threw(uri.msg);
      }
      var empty := Empty(changes.value);
      if empty.Thrown? {
        return Threw(empty.msg);
      }
      if !empty.value {
        var text := LastChangeText(changes.value);
        if text.Thrown? {
          return Threw(text.msg);
        }
        Reanalyze(uri.value, text.value);
      }
      return Returned(NoReply);
    }

    method HandleDidClose(request: Value) returns (outcome: Outcome)
      modifies this
      ensures Effect(State(), outcome) == DidCloseSpec(old(State()), request)
    {
      var uri := StringAt(request, UriPath);
      if uri.Thrown? {
        return Threw(uri.msg);
      }
      var nuri := NormalizeUri(uri.value);
      documentCache := documentCache - {nuri};
      return Returned(NoReply);
    }

    method HandleSetTrace(request: Value) returns (outcome: Outcome)
      modifies this
      ensures Effect(State(), outcome) == SetTraceSpec(old(State()), request)
    {
      var value := StringAt(request, ["params", "value"]);
      if value.Thrown? {
        return Threw(value.msg);
      }
      traceValue := value.value;
      return Returned(NoReply);
    }

    // -------------------------------------------------------------------
    // Queries
    // -------------------------------------------------------------------

    /** The answer of a query for a found document, computed by the loops of the output and folding modules. */
    method ComputeAnswer(q: Query, doc: DocumentData) returns (payload: Payload)
      ensures payload == Answer(q, doc)
    {
      match q
      case FoldingRangeQuery =>
        var ranges := FoldingRanges(doc.tokensNoComment, doc.tokensWithComment);
        payload := Folding(ranges);
      case SemanticTokensQuery =>
        var data := SemanticTokenData(doc.tokensWithComment);
        payload := SemanticTokens(data);
      case PullDiagnosticQuery =>
        var diagnostics := DiagnosticsForDocument(doc);
        payload := FullReport(diagnostics);
    }

    /** handleFoldingRange, handleSemanticTokens, handlePullDiagnostic: nothing in the server changes. */
    method HandleQuery(request: Value, q: Query) returns (outcome: Outcome)
      ensures outcome == QuerySpec(State(), request, q)
    {
      var uri := StringAt(request, UriPath);
      if uri.Thrown? {
        return Threw(uri.msg);
      }
      var nuri := NormalizeUri(uri.value);
      if nuri !in documentCache {
        return Threw(DocumentNotFound);
      }
      var payload := ComputeAnswer(q, documentCache[nuri]);
      var id := Get(request, "id");
      if id.Thrown? {
        return Threw(id.msg);
      }
      return Returned(Response(id.value, payload));
    }

    // -------------------------------------------------------------------
    // handleRequest and run
    // -------------------------------------------------------------------

    method Dispatch(request: Value, kind: Method, requestId: Value) returns (outcome: Outcome)
      modifies this
      ensures Effect(State(), outcome) == LangSvrSpec.Dispatch(old(State()), request, kind, requestId, lexer, parser)
    {
      if kind.DidOpen? || kind.DidChange? || kind.DidClose? {
        outcome := Synchronize(request, kind);
      } else if kind.Exit? || kind.Shutdown? || kind.SetTrace? {
        outcome := Control(request, kind);
      } else {
        outcome := AnswerRequest(request, kind, requestId);
      }
    }

    method Synchronize(request: Value, kind: Method) returns (outcome: Outcome)
      requires kind.DidOpen? || kind.DidChange? || kind.DidClose?
      modifies this
      ensures Effect(State(), outcome) == LangSvrSpec.Synchronize(old(State()), request, kind, lexer, parser)
    {
      if kind.DidOpen? {
        outcome := HandleDidOpen(request);
      } else if kind.DidChange? {
        outcome := HandleDidChange(request);
      } else {
        outcome := HandleDidClose(request);
      }
    }

    method Control(request: Value, kind: Method) returns (outcome: Outcome)
      requires kind.Exit? || kind.Shutdown? || kind.SetTrace?
      modifies this
      ensures Effect(State(), outcome) == LangSvrSpec.Control(old(State()), request, kind)
    {
      if kind.Exit? {
        outcome := HandleExit();
      } else if kind.Shutdown? {
        outcome := HandleShutdown(request);
      } else {
        outcome := HandleSetTrace(request);
      }
    }

    /** The branches of the dispatch that change nothing. */
    method AnswerRequest(request: Value, kind: Method, requestId: Value) returns (outcome: Outcome)
      ensures outcome == Answered(State(), request, kind, requestId)
    {
      if kind.QueryMethod? {
        outcome := HandleQuery(request, kind.q);
      } else if kind.Feature? {
        outcome := Returned(Unmodelled(kind.featureName));
      } else {
        outcome := Returned(NotFoundReply(requestId));
      }
    }

    method Route(request: Value, kind: Method, requestId: Value) returns (outcome: Outcome)
      modifies this
      ensures Effect(State(), outcome) == LangSvrSpec.Route(old(State()), request, kind, requestId, lexer, parser)
    {
      ghost var s0 := State();
      ghost var spec := LangSvrSpec.Route(s0, request, kind, requestId, lexer, parser);
      if kind == Initialize {
        assert spec == InitializeSpec(s0, request);
        outcome := HandleInitialize(request);
      } else if !serverInitialized {
        outcome := Threw(NotInitialized);
      } else if kind == Initialized {
        assert spec == InitializedSpec(s0);
        outcome := HandleInitialized();
      } else if !clientInitialized {
        outcome := Threw(ClientNotInitialized);
      } else if serverShutdown && kind != Exit {
        outcome := Threw(AlreadyShutdown);
      } else {
        assert spec == LangSvrSpec.Dispatch(s0, request, kind, requestId, lexer, parser);
        outcome := Dispatch(request, kind, requestId);
      }
    }

    /** handleRequest: every exception becomes an internal-error reply. */
    method HandleRequest(request: Value) returns (reply: Reply)
      modifies this
      ensures Step(State(), reply) == Handle(old(State()), request, lexer, parser)
    {
      var requestId := RequestIdOf(request);
      var m := MethodOf(request);
      var outcome: Outcome;
      if m.Thrown? {
        outcome := Threw(m.msg);
      } else {
        outcome := Route(request, MethodKind(ByteText(m.value)), requestId);
      }
      match outcome
      case Returned(r) => reply := r;
      case Threw(message) => reply := ErrorResponse(requestId, ErrorObject(InternalError, message));
    }
  }
}
