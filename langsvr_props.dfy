// What the request handling of the language server guarantees: the
// LSP 3.17 lifecycle (initialize once, nothing before initialization,
// only exit after shutdown, the exit code), the error replies for unknown
// methods and missing documents, what opening and closing a document does
// to the cache, the invariant every handled message keeps, and what the
// cached token lists mean for comment folding.

module LangSvrProps {

  import opened Wrappers
  import Utf8
  import opened Tokens
  import opened LexerSpec
  import opened JsonValue
  import opened LangSvrUri
  import opened LangSvrOutput
  import opened LangSvrFolding
  import LexerComments
  import opened LangSvrRpc
  import opened LangSvrSpec

  /** The request's method member is a string that selects this method. */
  predicate Calls(request: Value, k: Method)
  {
    MethodOf(request).Found? && MethodKind(ByteText(MethodOf(request).value)) == k
  }

  /** The name a method kind is selected by. */
  function NameOf(k: Method): string
  {
    match k
    case Initialize => "initialize"
    case Initialized => "initialized"
    case Exit => "exit"
    case Shutdown => "shutdown"
    case DidOpen => "textDocument/didOpen"
    case DidChange => "textDocument/didChange"
    case DidClose => "textDocument/didClose"
    case SetTrace => "$/setTrace"
    case QueryMethod(q) =>
      if q == FoldingRangeQuery then "textDocument/foldingRange"
      else if q == SemanticTokensQuery then "textDocument/semanticTokens/full"
      else "textDocument/diagnostic"
    case Feature(name) => name
    case Unknown(name) => name
  }

  /** The comparison chain loses nothing: the selected kind gives back the name it was selected by. */
  lemma MethodKindName(name: string)
    ensures NameOf(MethodKind(name)) == name
  {
    var k := MethodKind(name);
    if k.Feature? || k.Unknown? {
      assert NameOf(k) == name;
    } else if k.QueryMethod? {
      assert name == "textDocument/foldingRange" || name == "textDocument/semanticTokens/full" || name == "textDocument/diagnostic";
    } else {
      assert name in {"initialize", "initialized", "exit", "shutdown", "textDocument/didOpen", "textDocument/didChange",
        "textDocument/didClose", "$/setTrace"};
    }
  }

  /** The internal-error reply handleRequest's catch clause builds. */
  function InternalErrorReply(request: Value, message: string): Reply
  {
    ErrorResponse(RequestIdOf(request), ErrorObject(InternalError, message))
  }

  /** Both lifecycle handshakes are done and the server has not been shut down. */
  predicate Running(s: ServerState)
  {
    s.serverInitialized && s.clientInitialized && !s.shutdown
  }

  // ---------------------------------------------------------------------
  // The lifecycle
  // ---------------------------------------------------------------------

  /** A second initialize is refused and changes nothing. */
  lemma InitializeOnlyOnce(s: ServerState, request: Value, lexer: LexerFunction, parser: ParserFunction)
    requires s.serverInitialized && Calls(request, Initialize)
    ensures Handle(s, request, lexer, parser) == Step(s, InternalErrorReply(request, InitializeTwice))
  {
  }

  /** A request whose method member selects a kind goes through the gates with that kind. */
  lemma HandleKind(s: ServerState, request: Value, k: Method, lexer: LexerFunction, parser: ParserFunction)
    requires Calls(request, k)
    ensures Handle(s, request, lexer, parser) == Catch(Route(s, request, k, RequestIdOf(request), lexer, parser), RequestIdOf(request))
  {
  }

  /** The rest of handleInitialize changes only the trace and the multi-line flag, whatever it throws. */
  lemma ConfigureState(s: ServerState, request: Value)
    ensures var e := ConfigureSpec(s, request);
      e.state == s.(trace := e.state.trace, multilineTokens := e.state.multilineTokens)
  {
    var e := ConfigureSpec(s, request);
    var params := Get(request, "params");
    if params.Thrown? {
      assert e.state == s;
    } else {
      var trace := TraceParam(params.value);
      if trace.Thrown? {
        assert e.state == s;
      } else {
        var multiline := MultilineSupport(params.value);
        if multiline.Thrown? {
          assert e.state == s.(trace := trace.value);
        } else {
          assert e.state == s.(trace := trace.value, multilineTokens := multiline.value);
        }
      }
    }
  }

  /** When the rest of handleInitialize returns, it has read the trace and the capability and answers under the id. */
  lemma ConfigureReply(s: ServerState, request: Value)
    ensures var e := ConfigureSpec(s, request);
      e.outcome.Returned? ==>
        e.outcome.reply == Response(RequestIdOf(request), Capabilities)
        && (e.state.multilineTokens <==> GetPath(Get(request, "params").value, MultilinePath) == Found(Bool(true)))
        && (!Has(Get(request, "params").value, "trace") ==> e.state.trace == [])
  {
    var params := Get(request, "params");
    if params.Found? {
      MultilineSupportIff(params.value);
    }
  }

  /**
   * The first initialize marks the server initialised, whatever follows;
   * when it succeeds it answers with the capabilities under the request's
   * id, records the trace parameter and records multi-line token support
   * exactly when the client announces it.
   */
  lemma FirstInitialize(s: ServerState, request: Value, lexer: LexerFunction, parser: ParserFunction)
    requires !s.serverInitialized && Calls(request, Initialize)
    ensures var r := Handle(s, request, lexer, parser);
      r.state == s.(serverInitialized := true, trace := r.state.trace, multilineTokens := r.state.multilineTokens)
    ensures var r := Handle(s, request, lexer, parser);
      r.reply.Response? ==>
        r.reply == Response(RequestIdOf(request), Capabilities)
        && (r.state.multilineTokens <==> GetPath(Get(request, "params").value, MultilinePath) == Found(Bool(true)))
        && (!Has(Get(request, "params").value, "trace") ==> r.state.trace == [])
  {
    HandleKind(s, request, Initialize, lexer, parser);
    var e := ConfigureSpec(s.(serverInitialized := true), request);
    assert Route(s, request, Initialize, RequestIdOf(request), lexer, parser) == e;
    ConfigureState(s.(serverInitialized := true), request);
    ConfigureReply(s.(serverInitialized := true), request);
  }

  /** Before initialize, every other request is refused with an internal error and changes nothing. */
  lemma NothingBeforeInitialize(s: ServerState, request: Value, lexer: LexerFunction, parser: ParserFunction)
    requires !s.serverInitialized && !Calls(request, Initialize)
    ensures var r := Handle(s, request, lexer, parser);
      r.state == s && r.reply.ErrorResponse? && r.reply.errorId == RequestIdOf(request)
      && CodeOf(r.reply.error) == Some(InternalError)
    ensures MethodOf(request).Found? ==> Handle(s, request, lexer, parser) == Step(s, InternalErrorReply(request, NotInitialized))
  {
    var m := MethodOf(request);
    if m.Thrown? {
      ErrorObjectConforms(InternalError, m.msg);
    } else {
      ErrorObjectConforms(InternalError, NotInitialized);
    }
  }

  /** Between initialize and initialized, every other request is refused and changes nothing. */
  lemma NothingBeforeInitialized(s: ServerState, request: Value, k: Method, lexer: LexerFunction, parser: ParserFunction)
    requires s.serverInitialized && !s.clientInitialized
    requires Calls(request, k) && k != Initialize && k != Initialized
    ensures Handle(s, request, lexer, parser) == Step(s, InternalErrorReply(request, ClientNotInitialized))
  {
  }

  /** initialized is accepted once, and only after initialize. */
  lemma InitializedOnce(s: ServerState, request: Value, lexer: LexerFunction, parser: ParserFunction)
    requires s.serverInitialized && Calls(request, Initialized)
    ensures s.clientInitialized ==> Handle(s, request, lexer, parser) == Step(s, InternalErrorReply(request, InitializedTwice))
    ensures !s.clientInitialized ==> Handle(s, request, lexer, parser) == Step(s.(clientInitialized := true), NoReply)
  {
  }

  /** After shutdown only exit is served; everything else is refused and changes nothing. */
  lemma OnlyExitAfterShutdown(s: ServerState, request: Value, k: Method, lexer: LexerFunction, parser: ParserFunction)
    requires s.serverInitialized && s.clientInitialized && s.shutdown
    requires Calls(request, k) && k != Initialize && k != Initialized && k != Exit
    ensures Handle(s, request, lexer, parser) == Step(s, InternalErrorReply(request, AlreadyShutdown))
  {
  }

  /** exit ends the session: the exit code becomes 0 after a shutdown and 1 without one. */
  lemma ExitDecidesCode(s: ServerState, request: Value, lexer: LexerFunction, parser: ParserFunction)
    requires s.serverInitialized && s.clientInitialized && Calls(request, Exit)
    ensures Handle(s, request, lexer, parser) == Step(s.(exited := true, serverInitialized := false), NoReply)
    ensures ExitCodeOf(Handle(s, request, lexer, parser).state) == (if s.shutdown then 0 else 1)
  {
  }

  /** shutdown followed by exit exits with code 0. */
  lemma ShutdownThenExit(s: ServerState, shutdown: Value, exit: Value, lexer: LexerFunction, parser: ParserFunction)
    requires Running(s) && Calls(shutdown, Shutdown) && Has(shutdown, "id") && Calls(exit, Exit)
    ensures var s1 := Handle(s, shutdown, lexer, parser);
      s1 == Step(s.(shutdown := true), Response(RequestIdOf(shutdown), NullResult))
      && ExitCodeOf(Handle(s1.state, exit, lexer, parser).state) == 0
  {
    var s1 := Handle(s, shutdown, lexer, parser);
    assert s1.state == s.(shutdown := true);
    ExitDecidesCode(s1.state, exit, lexer, parser);
  }

  // ---------------------------------------------------------------------
  // Dispatch errors
  // ---------------------------------------------------------------------

  /** A method the server does not know gets the method-not-found error and changes nothing. */
  lemma UnknownMethod(s: ServerState, request: Value, name: string, lexer: LexerFunction, parser: ParserFunction)
    requires Running(s) && Calls(request, Unknown(name))
    ensures Handle(s, request, lexer, parser) == Step(s, NotFoundReply(RequestIdOf(request)))
    ensures CodeOf(Handle(s, request, lexer, parser).reply.error) == Some(MethodNotFound)
  {
    ErrorObjectConforms(MethodNotFound, "Method not found");
  }

  /** The handlers outside the model leave the server as it was. */
  lemma FeatureChangesNothing(s: ServerState, request: Value, name: string, lexer: LexerFunction, parser: ParserFunction)
    requires Running(s) && Calls(request, Feature(name))
    ensures Handle(s, request, lexer, parser) == Step(s, Unmodelled(name))
    ensures name in FeatureNames
  {
    MethodKindName(ByteText(MethodOf(request).value));
  }

  /** Folding, semantic tokens and pull diagnostics never change the server, whatever state it is in. */
  lemma QueriesChangeNothing(s: ServerState, request: Value, q: Query, lexer: LexerFunction, parser: ParserFunction)
    requires Calls(request, QueryMethod(q))
    ensures Handle(s, request, lexer, parser).state == s
  {
  }

  /** A query about a URI whose normal form is not cached gets "Document not found". */
  lemma QueryNeedsDocument(s: ServerState, request: Value, q: Query, uri: seq<Utf8.Byte>, lexer: LexerFunction, parser: ParserFunction)
    requires Running(s) && Calls(request, QueryMethod(q))
    requires StringAt(request, UriPath) == Found(uri) && Normalize(uri) !in s.documents
    ensures Handle(s, request, lexer, parser) == Step(s, InternalErrorReply(request, DocumentNotFound))
  {
  }

  /** A query about a cached document answers from the cache entry of the URI's normal form. */
  lemma QueryAnswers(s: ServerState, request: Value, q: Query, uri: seq<Utf8.Byte>, lexer: LexerFunction, parser: ParserFunction)
    requires Running(s) && Calls(request, QueryMethod(q)) && Has(request, "id")
    requires StringAt(request, UriPath) == Found(uri) && Normalize(uri) in s.documents
    ensures Handle(s, request, lexer, parser)
      == Step(s, Response(RequestIdOf(request), Answer(q, s.documents[Normalize(uri)])))
  {
  }

  // ---------------------------------------------------------------------
  // The document cache
  // ---------------------------------------------------------------------

  /**
   * didOpen caches the analysis of the text under the normal form of the
   * URI, replacing only that entry, and publishes its diagnostics under
   * the URI as sent.
   */
  lemma OpenCaches(s: ServerState, request: Value, uri: seq<Utf8.Byte>, text: seq<Utf8.Byte>, lexer: LexerFunction, parser: ParserFunction)
    requires Running(s) && Calls(request, DidOpen)
    requires StringAt(request, ["params", "textDocument", "text"]) == Found(text) && StringAt(request, UriPath) == Found(uri)
    ensures var r := Handle(s, request, lexer, parser);
      var d := Analyze(text, s.multilineTokens, lexer, parser);
      r.reply == NoReply
      && r.state.documents == s.documents[Normalize(uri) := d]
      && r.state.published == s.published + [PublishDiagnostics(uri, DocumentDiagnostics(d))]
  {
  }

  /** Any URI with the same normal form as an opened one reaches its entry: folding answers from the opened text. */
  lemma OpenThenFold(s: ServerState, open: Value, fold: Value, uri: seq<Utf8.Byte>, uri2: seq<Utf8.Byte>, text: seq<Utf8.Byte>,
                     lexer: LexerFunction, parser: ParserFunction)
    requires Running(s) && Calls(open, DidOpen)
    requires StringAt(open, ["params", "textDocument", "text"]) == Found(text) && StringAt(open, UriPath) == Found(uri)
    requires Calls(fold, QueryMethod(FoldingRangeQuery)) && Has(fold, "id")
    requires StringAt(fold, UriPath) == Found(uri2) && Normalize(uri2) == Normalize(uri)
    ensures var s1 := Handle(s, open, lexer, parser).state;
      var d := Analyze(text, s.multilineTokens, lexer, parser);
      Handle(s1, fold, lexer, parser).reply
        == Response(RequestIdOf(fold), Folding(BraceRanges(d.tokensNoComment) + CommentRanges(d.tokensWithComment)))
  {
    OpenCaches(s, open, uri, text, lexer, parser);
    var s1 := Handle(s, open, lexer, parser).state;
    QueryAnswers(s1, fold, FoldingRangeQuery, uri2, lexer, parser);
  }

  /** didClose drops the entry of the URI's normal form and no other. */
  lemma CloseForgets(s: ServerState, request: Value, uri: seq<Utf8.Byte>, lexer: LexerFunction, parser: ParserFunction)
    requires Running(s) && Calls(request, DidClose) && StringAt(request, UriPath) == Found(uri)
    ensures var r := Handle(s, request, lexer, parser);
      r.reply == NoReply && r.state.documents == s.documents - {Normalize(uri)}
  {
  }

  /** A didChange with an empty change list leaves the server as it was. */
  lemma EmptyChangeIgnored(s: ServerState, request: Value, lexer: LexerFunction, parser: ParserFunction)
    requires Running(s) && Calls(request, DidChange) && StringAt(request, UriPath).Found?
    requires GetPath(request, ["params", "contentChanges"]) == Found(Array([]))
    ensures Handle(s, request, lexer, parser) == Step(s, NoReply)
  {
  }

  /** With the model's lexer, the token list cached without comments has none, so folding it finds no comment block. */
  lemma CachedTokensHaveNoComments(text: seq<Utf8.Byte>, multiline: bool, lexer: LexerFunction, parser: ParserFunction,
                                   incomplete: string -> bool, unquote: string -> string)
    requires lexer(ByteText(text), false, multiline) == Lex(ByteText(text), incomplete, false, unquote)
    ensures LexerComments.NoComments(Analyze(text, multiline, lexer, parser).tokensNoComment)
    ensures CommentRanges(Analyze(text, multiline, lexer, parser).tokensNoComment) == []
  {
    LexedWithoutCommentsFoldNone(ByteText(text), incomplete, unquote);
    LexerComments.LexWithoutCommentsHasNone(ByteText(text), incomplete, unquote);
  }

  /**
   * As written, folding a document lexed by the model's lexer never finds
   * a comment block: the answer holds the brace ranges and nothing else.
   */
  lemma FoldingAsWrittenLosesComments(text: seq<Utf8.Byte>, multiline: bool, lexer: LexerFunction, parser: ParserFunction,
                                      incomplete: string -> bool, unquote: string -> string)
    requires lexer(ByteText(text), false, multiline) == Lex(ByteText(text), incomplete, false, unquote)
    ensures var d := Analyze(text, multiline, lexer, parser);
      FoldingAsWritten(d) == Folding(BraceRanges(d.tokensNoComment))
  {
    CachedTokensHaveNoComments(text, multiline, lexer, parser, incomplete, unquote);
    var d := Analyze(text, multiline, lexer, parser);
    assert BraceRanges(d.tokensNoComment) + [] == BraceRanges(d.tokensNoComment);
  }

  // ---------------------------------------------------------------------
  // The invariant
  // ---------------------------------------------------------------------

  /**
   * What every reachable state satisfies: shutdown and exit only happen
   * after the handshake, an initialised client means an initialised or
   * exited server, and every cache key is a normalised URI.
   */
  predicate Valid(s: ServerState)
  {
    (s.shutdown ==> s.clientInitialized)
    && (s.exited ==> s.clientInitialized)
    && (s.clientInitialized ==> s.serverInitialized || s.exited)
    && (forall u :: u in s.documents ==> Normalize(u) == u)
  }

  lemma InitialValid()
    ensures Valid(Initial)
  {
  }

  lemma ReanalyzeValid(s: ServerState, uri: seq<Utf8.Byte>, text: seq<Utf8.Byte>, lexer: LexerFunction, parser: ParserFunction)
    requires Valid(s)
    ensures Valid(LangSvrSpec.Reanalyze(s, uri, text, lexer, parser))
  {
    NormalizeIdempotent(uri);
  }

  lemma DidOpenValid(s: ServerState, request: Value, lexer: LexerFunction, parser: ParserFunction)
    requires Valid(s)
    ensures Valid(DidOpenSpec(s, request, lexer, parser).state)
  {
    var text := StringAt(request, ["params", "textDocument", "text"]);
    var uri := StringAt(request, UriPath);
    if text.Found? && uri.Found? {
      ReanalyzeValid(s, uri.value, text.value, lexer, parser);
    }
  }

  lemma DidChangeValid(s: ServerState, request: Value, lexer: LexerFunction, parser: ParserFunction)
    requires Valid(s)
    ensures Valid(DidChangeSpec(s, request, lexer, parser).state)
  {
    var changes := GetPath(request, ["params", "contentChanges"]);
    var uri := StringAt(request, UriPath);
    if changes.Found? && uri.Found? && Empty(changes.value) == Found(false) {
      var text := LastChangeText(changes.value);
      if text.Found? {
        ReanalyzeValid(s, uri.value, text.value, lexer, parser);
      }
    }
  }

  lemma SynchronizeValid(s: ServerState, request: Value, kind: Method, lexer: LexerFunction, parser: ParserFunction)
    requires Valid(s) && (kind.DidOpen? || kind.DidChange? || kind.DidClose?)
    ensures Valid(Synchronize(s, request, kind, lexer, parser).state)
  {
    if kind.DidOpen? {
      DidOpenValid(s, request, lexer, parser);
    } else if kind.DidChange? {
      DidChangeValid(s, request, lexer, parser);
    } else {
      assert Synchronize(s, request, kind, lexer, parser).state.documents.Keys <= s.documents.Keys;
    }
  }

  lemma ControlValid(s: ServerState, request: Value, kind: Method)
    requires Valid(s) && s.clientInitialized && (kind.Exit? || kind.Shutdown? || kind.SetTrace?)
    ensures Valid(Control(s, request, kind).state)
  {
    if kind.Exit? {
      assert Control(s, request, kind).state == s.(exited := true, serverInitialized := false);
    } else if kind.Shutdown? {
      assert Control(s, request, kind).state == s.(shutdown := true);
    } else {
      var value := StringAt(request, ["params", "value"]);
      if value.Thrown? {
        assert Control(s, request, kind).state == s;
      } else {
        assert Control(s, request, kind).state == s.(trace := value.value);
      }
    }
  }

  /** Every handler the dispatch reaches keeps the invariant; the lifecycle ones need the handshake done. */
  lemma DispatchValid(s: ServerState, request: Value, kind: Method, requestId: Value, lexer: LexerFunction, parser: ParserFunction)
    requires Valid(s) && s.clientInitialized
    ensures Valid(LangSvrSpec.Dispatch(s, request, kind, requestId, lexer, parser).state)
  {
    if kind.DidOpen? || kind.DidChange? || kind.DidClose? {
      SynchronizeValid(s, request, kind, lexer, parser);
    } else if kind.Exit? || kind.Shutdown? || kind.SetTrace? {
      ControlValid(s, request, kind);
    }
  }

  lemma InitializeValid(s: ServerState, request: Value)
    requires Valid(s)
    ensures Valid(InitializeSpec(s, request).state)
  {
    if !s.serverInitialized {
      ConfigureState(s.(serverInitialized := true), request);
    }
  }

  /** The gates keep the invariant whatever method they are given. */
  lemma RouteValid(s: ServerState, request: Value, kind: Method, requestId: Value, lexer: LexerFunction, parser: ParserFunction)
    requires Valid(s)
    ensures Valid(Route(s, request, kind, requestId, lexer, parser).state)
  {
    var e := Route(s, request, kind, requestId, lexer, parser);
    if kind == Initialize {
      assert e == InitializeSpec(s, request);
      InitializeValid(s, request);
    } else if !s.serverInitialized {
      assert e.state == s;
    } else if kind == Initialized {
      assert e == InitializedSpec(s);
    } else if !s.clientInitialized || (s.shutdown && kind != Exit) {
      assert e.state == s;
    } else {
      assert e == LangSvrSpec.Dispatch(s, request, kind, requestId, lexer, parser);
      DispatchValid(s, request, kind, requestId, lexer, parser);
    }
  }

  /** Handling any message keeps the invariant. */
  lemma HandleValid(s: ServerState, request: Value, lexer: LexerFunction, parser: ParserFunction)
    requires Valid(s)
    ensures Valid(Handle(s, request, lexer, parser).state)
  {
    var m := MethodOf(request);
    if m.Found? {
      RouteValid(s, request, MethodKind(ByteText(m.value)), RequestIdOf(request), lexer, parser);
    }
  }
}
