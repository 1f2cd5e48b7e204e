// The token list the lexer fills: a list of finished tokens plus one token
// that is being accumulated character by character ("buffered").  The
// buffered token is moved to the list by FlushBuffer, and every way of
// adding a token flushes first, so tokens always appear in source order.

module Tokens {

  import opened Wrappers
  import opened Positions
  import opened LiteralTypes

  /** A token: its text, its category name, its literal kind and its region. */
  datatype Token = Token(value: string, tokenType: string, prop: Option<LiteralType>, range: Region)

  /** The whole state of a token list as a value: the finished tokens and the buffer. */
  datatype ListState = ListState(tokens: seq<Token>, content: string, curType: string, curProp: Option<LiteralType>, curRange: Region)

  const EmptyList: ListState := ListState([], "", "", None, EmptyRegion)

  /** The tokens of a list state once its buffer is flushed. */
  function Finished(s: ListState): seq<Token>
  {
    s.tokens + (if |s.content| > 0 then [Token(s.content, s.curType, s.curProp, s.curRange)] else [])
  }

  /** FlushBuffer on a value. */
  function Flushed(s: ListState): ListState
  {
    if s.content == "" then s
    else ListState(s.tokens + [Token(s.content, s.curType, s.curProp, s.curRange)], "", "", None, EmptyRegion)
  }

  /** AddTokenToList on a value: the buffered token, then t. */
  function Added(s: ListState, t: Token): ListState
  {
    var f := Flushed(s);
    f.(tokens := f.tokens + [t])
  }

  /** AppendBufferedToken on a value. */
  function Appended(s: ListState, c: char, loc: Position): ListState
  {
    s.(content := s.content + [c], curRange := Region(if s.curRange.start == Origin then loc else s.curRange.start, loc))
  }

  /**
   * Flushing does nothing when nothing is buffered; otherwise it appends
   * exactly the buffered token and resets the buffer.  Either way the
   * flushed list holds what the list would hold once flushed.
   */
  lemma FlushedFacts(s: ListState)
    ensures s.content == "" ==> Flushed(s) == s
    ensures s.content != "" ==> (Flushed(s).tokens == s.tokens + [Token(s.content, s.curType, s.curProp, s.curRange)]
      && Flushed(s).content == "" && Flushed(s).curType == "" && Flushed(s).curProp == None && Flushed(s).curRange == EmptyRegion)
    ensures Flushed(s).tokens == Finished(s) && Finished(Flushed(s)) == Finished(s) && Flushed(s).content == ""
  {
  }

  /** Adding flushes first: the buffered token, if any, comes before t, and nothing is dropped. */
  lemma AddedExtends(s: ListState, t: Token)
    ensures Added(s, t).tokens == Finished(s) + [t] && Added(s, t).content == ""
    ensures Finished(Added(s, t)) == Finished(s) + [t]
    ensures s.tokens <= Added(s, t).tokens
  {
  }

  /**
   * Appending adds one character to the buffer, keeps the finished tokens,
   * category and kind, ends the region at the character's own position and
   * moves its start only while it is still the default position.
   */
  lemma AppendedFacts(s: ListState, c: char, loc: Position)
    ensures Appended(s, c, loc).tokens == s.tokens && Appended(s, c, loc).content == s.content + [c]
    ensures Appended(s, c, loc).curType == s.curType && Appended(s, c, loc).curProp == s.curProp
    ensures Appended(s, c, loc).curRange == Region(if s.curRange.start == Origin then loc else s.curRange.start, loc)
    ensures |Finished(Appended(s, c, loc))| == |s.tokens| + 1
  {
  }

  class TokenList {
    var content: string
    var curType: string
    var curProp: Option<LiteralType>
    var curRange: Region
    var buffered: bool
    var tokens: seq<Token>

    /** The buffer flag is set exactly while there is buffered content. */
    ghost predicate Valid()
      reads this
    {
      buffered <==> |content| > 0
    }

    /** The token the buffer would produce if it were flushed now. */
    function Pending(): seq<Token>
      reads this
    {
      if |content| > 0 then [Token(content, curType, curProp, curRange)] else []
    }

    /** The list as it will be once the buffer is flushed. */
    function Contents(): seq<Token>
      reads this
    {
      Finished(Snapshot())
    }

    /** The list as a value. */
    function Snapshot(): ListState
      reads this
    {
      ListState(tokens, content, curType, curProp, curRange)
    }

    predicate BufferIsReset()
      reads this
    {
      content == "" && curType == "" && curProp == None && curRange == EmptyRegion && !buffered
    }

    constructor ()
      ensures Valid() && BufferIsReset() && tokens == []
      ensures Snapshot() == EmptyList
    {
      content, curType, curProp, curRange, buffered, tokens := "", "", None, EmptyRegion, false, [];
    }

    /** Moves buffered content, if any, to the end of the list. */
    method FlushBuffer()
      requires Valid()
      modifies this
      ensures Valid()
      ensures Snapshot() == Flushed(old(Snapshot()))
    {
      if content != "" {
        tokens := tokens + [Token(content, curType, curProp, curRange)];
        content := "";
        curType := "";
        curProp := None;
        curRange := EmptyRegion;
        buffered := false;
      }
    }

    /** Flushes the buffered token, then appends t after it. */
    method AddTokenToList(t: Token)
      requires Valid()
      modifies this
      ensures Valid()
      ensures Snapshot() == Added(old(Snapshot()), t)
    {
      FlushBuffer();
      tokens := tokens + [t];
    }

    /** Sets the category, literal kind and region of the buffered token. */
    method SetTokenInfo(tokenType: string, prop: Option<LiteralType>, range: Region)
      requires Valid()
      modifies this
      ensures Valid()
      ensures Snapshot() == old(Snapshot()).(curType := tokenType, curProp := prop, curRange := range)
    {
      curType, curProp, curRange := tokenType, prop, range;
    }

    /** Appends one character at position loc to the buffered token. */
    method AppendBufferedToken(c: char, loc: Position)
      requires Valid()
      modifies this
      ensures Valid()
      ensures Snapshot() == Appended(old(Snapshot()), c, loc)
    {
      content := content + [c];
      if curRange.start == Origin {
        curRange := curRange.(start := loc);
      }
      curRange := curRange.(end := loc);
      buffered := true;
    }

    method IsTokenBuffered() returns (b: bool)
      requires Valid()
      ensures b <==> |Pending()| == 1
      ensures b == buffered
    {
      b := buffered;
    }

    /** Flushes, then drops every token. */
    method Clear()
      requires Valid()
      modifies this
      ensures Valid() && Snapshot() == Flushed(old(Snapshot())).(tokens := [])
    {
      FlushBuffer();
      tokens := [];
    }

    /** Finished tokens plus one for the buffered token. */
    method Size() returns (n: nat)
      requires Valid()
      ensures n == |tokens| + (if buffered then 1 else 0)
      ensures n == |Contents()|
    {
      n := |tokens| + (if buffered then 1 else 0);
    }

    method Empty() returns (b: bool)
      requires Valid()
      ensures b <==> tokens == [] && !buffered
      ensures b <==> Contents() == []
    {
      b := |tokens| == 0 && !buffered;
    }

    /** The first finished token; refused while a token is buffered. */
    method Front() returns (r: Result<Token>)
      requires Valid()
      requires buffered || |tokens| > 0
      ensures buffered <==> r.Failure?
      ensures r.Failure? ==> r.error == "TokenList::front(): token is buffered, flush it first"
      ensures r.Success? ==> r.value == tokens[0] && r.value == Contents()[0]
    {
      if buffered {
        return Failure("TokenList::front(): token is buffered, flush it first");
      }
      return Success(tokens[0]);
    }

    /** The last finished token; refused while a token is buffered. */
    method Back() returns (r: Result<Token>)
      requires Valid()
      requires buffered || |tokens| > 0
      ensures buffered <==> r.Failure?
      ensures r.Failure? ==> r.error == "TokenList::back(): token is buffered, flush it first"
      ensures r.Success? ==> r.value == tokens[|tokens| - 1] && r.value == Contents()[|Contents()| - 1]
    {
      if buffered {
        return Failure("TokenList::back(): token is buffered, flush it first");
      }
      return Success(tokens[|tokens| - 1]);
    }
  }

  /**
   * Two characters appended to a fresh buffer at (0,0) and (0,1): since the
   * first position equals the default one, the second append moves the start.
   */
  method OriginStartIsOverwritten() returns (r: Region)
    ensures r == Region(Position(0, 1), Position(0, 1))
  {
    var list := new TokenList();
    list.SetTokenInfo("unknown", None, EmptyRegion);
    list.AppendBufferedToken('$', Position(0, 0));
    list.AppendBufferedToken('$', Position(0, 1));
    r := list.curRange;
  }
}
