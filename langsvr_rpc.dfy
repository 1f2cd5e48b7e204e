// The JSON-RPC side of the language server: the accessor chains its
// handlers read requests with (each of which may throw, as the jsonio
// accessors do), the multi-line token capability test of the initialize
// handler, and the error object its replies carry.

module LangSvrRpc {

  import opened Wrappers
  import opened Utf8
  import opened JsonValue

  // ---------------------------------------------------------------------
  // Byte strings and names
  // ---------------------------------------------------------------------

  /** A name written in the source as a string literal, as the bytes jsonio compares keys with. */
  function Ascii(s: string): (b: seq<Byte>)
    ensures |b| == |s|
    ensures forall k :: 0 <= k < |s| ==> b[k] == (s[k] as int) % 256
  {
    seq(|s|, k requires 0 <= k < |s| => (s[k] as int) % 256)
  }

  /** A byte string read as the std::string the handlers compare and pass on. */
  function ByteText(b: seq<Byte>): (s: string)
    ensures |s| == |b|
    ensures forall k :: 0 <= k < |b| ==> s[k] as int == b[k]
  {
    seq(|b|, k requires 0 <= k < |b| => b[k] as char)
  }

  predicate IsAscii(s: string)
  {
    forall k :: 0 <= k < |s| ==> s[k] as int < 256
  }

  /** Reading back the bytes of a name gives the name. */
  lemma ByteTextAscii(s: string)
    requires IsAscii(s)
    ensures ByteText(Ascii(s)) == s
  {
    var c := ByteText(Ascii(s));
    assert forall k :: 0 <= k < |s| ==> c[k] as int == s[k] as int;
  }

  /** Distinct names have distinct bytes, so a key lookup never confuses two of them. */
  lemma AsciiInjective(s: string, t: string)
    requires IsAscii(s) && IsAscii(t) && s != t
    ensures Ascii(s) != Ascii(t)
  {
    ByteTextAscii(s);
    ByteTextAscii(t);
  }

  // ---------------------------------------------------------------------
  // Accessor chains
  // ---------------------------------------------------------------------

  /** jsonio::hasKey: false on anything but an object. */
  predicate Has(v: Value, key: string)
  {
    v.Object? && LastMatch(v.o, Ascii(key)).Some?
  }

  /** v[key]. */
  function Get(v: Value, key: string): (r: Access<Value>)
    ensures r.Found? <==> Has(v, key)
  {
    KeyResult(v, Ascii(key))
  }

  /** v[keys[0]][keys[1]]...: the first accessor that throws decides the exception. */
  function GetPath(v: Value, keys: seq<string>): Access<Value>
    decreases |keys|
  {
    if keys == [] then Found(v)
    else
      var h := Get(v, keys[0]);
      if h.Thrown? then Thrown(h.kind, h.msg) else GetPath(h.value, keys[1..])
  }

  /** v[keys...].get<std::string>(). */
  function StringAt(v: Value, keys: seq<string>): (r: Access<seq<Byte>>)
    ensures r.Found? ==> GetPath(v, keys) == Found(String(r.value))
  {
    var w := GetPath(v, keys);
    if w.Thrown? then Thrown(w.kind, w.msg) else GetString(w.value)
  }

  /** v[keys...].get<bool>(). */
  function BoolAt(v: Value, keys: seq<string>): (r: Access<bool>)
    ensures r.Found? ==> GetPath(v, keys) == Found(Bool(r.value))
  {
    var w := GetPath(v, keys);
    if w.Thrown? then Thrown(w.kind, w.msg) else GetBool(w.value)
  }

  /** hasKey holds at each step of the chain, each on the value the previous key gave. */
  predicate HasPath(v: Value, keys: seq<string>)
    decreases |keys|
  {
    keys == [] || (Has(v, keys[0]) && HasPath(Get(v, keys[0]).value, keys[1..]))
  }

  /** Testing a chain with hasKey step by step is exactly what keeps the accessor chain from throwing. */
  lemma {:induction false} HasPathFound(v: Value, keys: seq<string>)
    ensures HasPath(v, keys) <==> GetPath(v, keys).Found?
    decreases |keys|
  {
    if keys != [] {
      if Has(v, keys[0]) {
        HasPathFound(Get(v, keys[0]).value, keys[1..]);
      }
    }
  }

  // ---------------------------------------------------------------------
  // The multi-line token capability
  // ---------------------------------------------------------------------

  /** Where LSP 3.17 puts the client's multi-line token support in the initialize parameters. */
  const MultilinePath: seq<string> := ["capabilities", "textDocument", "semanticTokens", "multilineTokenSupport"]

  /**
   * The test as written: the three hasKey guards look at the top level of
   * the parameters, and only when all three succeed is the nested flag read.
   */
  function MultilineAsWritten(params: Value): Access<bool>
  {
    if Has(params, "textDocument") && Has(params, "semanticTokens") && Has(params, "multilineTokenSupport")
    then BoolAt(params, MultilinePath)
    else Found(false)
  }

  /** The test as intended: each level of the capability path is checked before the flag is read. */
  function MultilineSupport(params: Value): Access<bool>
  {
    if HasPath(params, MultilinePath) then BoolAt(params, MultilinePath) else Found(false)
  }

  /** The intended test reports support exactly when the client sends true at the capability path. */
  lemma MultilineSupportIff(params: Value)
    ensures MultilineSupport(params) == Found(true) <==> GetPath(params, MultilinePath) == Found(Bool(true))
    ensures MultilineSupport(params).Thrown? ==> GetPath(params, MultilinePath).Found? && !GetPath(params, MultilinePath).value.Bool?
  {
    HasPathFound(params, MultilinePath);
  }

  /** The smallest initialize parameters of a client that supports multi-line tokens. */
  function MultilineClient(): Value
  {
    Object([KeyPair(Ascii("capabilities"),
      Object([KeyPair(Ascii("textDocument"),
        Object([KeyPair(Ascii("semanticTokens"),
          Object([KeyPair(Ascii("multilineTokenSupport"), Bool(true))]))]))]))])
  }

  /** Parameters without a top-level textDocument member always read as "no support" under the test as written. */
  lemma AsWrittenNeedsTopLevelKeys(params: Value)
    requires !Has(params, "textDocument")
    ensures MultilineAsWritten(params) == Found(false)
  {
  }

  /** A client that does announce support is reported as not supporting multi-line tokens as written, and as supporting them as intended. */
  lemma MultilineClientMisread()
    ensures MultilineAsWritten(MultilineClient()) == Found(false)
    ensures MultilineSupport(MultilineClient()) == Found(true)
  {
    var p := MultilineClient();
    AsciiInjective("capabilities", "textDocument");
    assert !Has(p, "textDocument");
    var caps := p.o[0].value;
    var td := caps.o[0].value;
    var st := td.o[0].value;
    assert Get(p, "capabilities") == Found(caps);
    assert Get(caps, "textDocument") == Found(td);
    assert Get(td, "semanticTokens") == Found(st);
    assert Get(st, "multilineTokenSupport") == Found(Bool(true));
    assert GetPath(p, MultilinePath) == Found(Bool(true)) by {
      assert MultilinePath[1..] == ["textDocument", "semanticTokens", "multilineTokenSupport"];
      assert MultilinePath[1..][1..] == ["semanticTokens", "multilineTokenSupport"];
      assert MultilinePath[1..][1..][1..] == ["multilineTokenSupport"];
      assert MultilinePath[1..][1..][1..][1..] == [];
    }
    MultilineSupportIff(p);
  }

  // ---------------------------------------------------------------------
  // Request fields
  // ---------------------------------------------------------------------

  /** The id handleRequest echoes in error replies: the request's id, or null when it has none. */
  function RequestIdOf(request: Value): (id: Value)
    ensures Has(request, "id") ==> Get(request, "id") == Found(id)
    ensures !Has(request, "id") ==> id == Null
  {
    var g := Get(request, "id");
    if g.Found? then g.value else Null
  }

  /** request["method"].get<std::string>(). */
  function MethodOf(request: Value): Access<seq<Byte>>
  {
    StringAt(request, ["method"])
  }

  // ---------------------------------------------------------------------
  // Error objects
  // ---------------------------------------------------------------------

  /** JSON-RPC 2.0 error codes handleRequest uses: method not found, internal error. */
  const MethodNotFound: int := -32601
  const InternalError: int := -32603

  datatype ErrorField = IntField(n: int) | TextField(s: string)

  /** One member of the error object of a reply. */
  datatype ErrorMember = ErrorMember(name: string, value: ErrorField)

  /** Section 5.1 of JSON-RPC 2.0: an error object has an integer "code" and a string "message". */
  predicate IsJsonRpcError(e: seq<ErrorMember>)
  {
    (exists k :: 0 <= k < |e| && e[k].name == "code" && e[k].value.IntField?)
    && (exists k :: 0 <= k < |e| && e[k].name == "message" && e[k].value.TextField?)
  }

  /** The error object handleRequest and run build: the code is stored under the key "error". */
  function ErrorObjectAsWritten(code: int, message: string): seq<ErrorMember>
  {
    [ErrorMember("error", IntField(code)), ErrorMember("message", TextField(message))]
  }

  /** The error object with the member name JSON-RPC 2.0 prescribes. */
  function ErrorObject(code: int, message: string): seq<ErrorMember>
  {
    [ErrorMember("code", IntField(code)), ErrorMember("message", TextField(message))]
  }

  /** The code of an error object, when it has a well-formed one. */
  function CodeOf(e: seq<ErrorMember>): (r: Option<int>)
    ensures r.Some? ==> exists k :: 0 <= k < |e| && e[k] == ErrorMember("code", IntField(r.value))
    ensures r.None? ==> forall k :: 0 <= k < |e| ==> !(e[k].name == "code" && e[k].value.IntField?)
    decreases |e|
  {
    if e == [] then None
    else if e[0].name == "code" && e[0].value.IntField? then Some(e[0].value.n)
    else
      var r := CodeOf(e[1..]);
      if r.Some? then
        ghost var k :| 0 <= k < |e[1..]| && e[1..][k] == ErrorMember("code", IntField(r.value));
        assert e[k + 1] == e[1..][k];
        r
      else r
  }

  /** As written, no error reply is a JSON-RPC error object: it has no code member. */
  lemma AsWrittenErrorHasNoCode(code: int, message: string)
    ensures !IsJsonRpcError(ErrorObjectAsWritten(code, message))
    ensures CodeOf(ErrorObjectAsWritten(code, message)) == None
  {
  }

  /** The corrected object is a JSON-RPC error object, and a client reads back the code and message it was built with. */
  lemma ErrorObjectConforms(code: int, message: string)
    ensures IsJsonRpcError(ErrorObject(code, message))
    ensures CodeOf(ErrorObject(code, message)) == Some(code)
    ensures ErrorObject(code, message)[1] == ErrorMember("message", TextField(message))
  {
    var e := ErrorObject(code, message);
    assert e[0].name == "code" && e[0].value.IntField?;
    assert e[1].name == "message" && e[1].value.TextField?;
  }
}
