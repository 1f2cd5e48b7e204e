// The folding ranges of handleFoldingRange (LSP 3.17, "Folding Range
// Request"): one range per pair of braces matched through a stack and
// spread over more than one line, then one range per run of consecutive
// comment tokens spread over more than one line.

module LangSvrFolding {

  import opened Wrappers
  import opened Positions
  import opened Tokens
  import LexerSpec
  import LexerComments

  /** A folding range as sent to the client; kind is "range" or "comment". */
  datatype FoldingRange = FoldingRange(startLine: nat, startCharacter: nat, endLine: nat, endCharacter: nat, kind: string)

  // ---------------------------------------------------------------------
  // Braces
  // ---------------------------------------------------------------------

  /** A "}" at index close that popped the "{" at index open; start and end are the positions the range spans. */
  datatype BraceMatch = BraceMatch(open: nat, close: nat, start: Position, end: Position)

  /** Every index on the stack is below bound. */
  predicate Below(stack: seq<nat>, bound: nat)
  {
    forall k :: 0 <= k < |stack| ==> stack[k] < bound
  }

  /**
   * The pairs the scan matches from token i on, when the "{" tokens at the
   * indices in stack are still open: a "{" is pushed, a "}" pops the most
   * recent open one, and a "}" with nothing open is ignored.
   */
  function BraceMatches(tokens: seq<Token>, i: nat, stack: seq<nat>): seq<BraceMatch>
    requires i <= |tokens| && Below(stack, i)
    decreases |tokens| - i
  {
    if i == |tokens| then []
    else if tokens[i].value == "{" then BraceMatches(tokens, i + 1, stack + [i])
    else if tokens[i].value == "}" && |stack| > 0 then
      var open := stack[|stack| - 1];
      [BraceMatch(open, i, tokens[open].range.start, tokens[i].range.end)] + BraceMatches(tokens, i + 1, stack[..|stack| - 1])
    else BraceMatches(tokens, i + 1, stack)
  }

  /** The range of a match, dropped when both ends are on one line. */
  function BraceFold(m: BraceMatch): seq<FoldingRange>
  {
    if m.start.line == m.end.line then [] else [FoldingRange(m.start.line, m.start.column, m.end.line, m.end.column, "range")]
  }

  function BraceFolds(ms: seq<BraceMatch>): seq<FoldingRange>
  {
    if |ms| == 0 then [] else BraceFold(ms[0]) + BraceFolds(ms[1..])
  }

  /** The brace ranges of a token list. */
  function BraceRanges(tokens: seq<Token>): seq<FoldingRange>
  {
    BraceFolds(BraceMatches(tokens, 0, []))
  }

  /** The start positions of the open braces on the stack, as braceStack holds them. */
  function StackStarts(tokens: seq<Token>, stack: seq<nat>): (s: seq<Position>)
    requires Below(stack, |tokens|)
    ensures |s| == |stack| && forall k :: 0 <= k < |stack| ==> s[k] == tokens[stack[k]].range.start
  {
    seq(|stack|, k requires 0 <= k < |stack| => tokens[stack[k]].range.start)
  }

  /** The state of the brace loop before token i, with the ghost stack of open-brace indices braceStack mirrors. */
  predicate BraceLoop(tokens: seq<Token>, i: nat, stack: seq<nat>, braceStack: seq<Position>, ranges: seq<FoldingRange>)
  {
    i <= |tokens| && Below(stack, i)
    && braceStack == StackStarts(tokens, stack)
    && ranges + BraceFolds(BraceMatches(tokens, i, stack)) == BraceRanges(tokens)
  }

  lemma BraceLoopOpen(tokens: seq<Token>, i: nat, stack: seq<nat>, braceStack: seq<Position>, ranges: seq<FoldingRange>)
    requires BraceLoop(tokens, i, stack, braceStack, ranges) && i < |tokens| && tokens[i].value == "{"
    ensures BraceLoop(tokens, i + 1, stack + [i], braceStack + [tokens[i].range.start], ranges)
  {
    assert BraceMatches(tokens, i, stack) == BraceMatches(tokens, i + 1, stack + [i]);
  }

  lemma BraceLoopClose(tokens: seq<Token>, i: nat, stack: seq<nat>, braceStack: seq<Position>, ranges: seq<FoldingRange>)
    requires BraceLoop(tokens, i, stack, braceStack, ranges) && i < |tokens| && tokens[i].value == "}" && |braceStack| > 0
    ensures |stack| > 0
    ensures BraceLoop(tokens, i + 1, stack[..|stack| - 1], braceStack[..|braceStack| - 1],
      ranges + BraceFold(BraceMatch(stack[|stack| - 1], i, braceStack[|braceStack| - 1], tokens[i].range.end)))
  {
    var m := BraceMatch(stack[|stack| - 1], i, braceStack[|braceStack| - 1], tokens[i].range.end);
    var rest := BraceMatches(tokens, i + 1, stack[..|stack| - 1]);
    assert BraceMatches(tokens, i, stack) == [m] + rest;
    assert ([m] + rest)[1..] == rest;
    assert StackStarts(tokens, stack[..|stack| - 1]) == braceStack[..|braceStack| - 1];
  }

  lemma BraceLoopOther(tokens: seq<Token>, i: nat, stack: seq<nat>, braceStack: seq<Position>, ranges: seq<FoldingRange>)
    requires BraceLoop(tokens, i, stack, braceStack, ranges) && i < |tokens|
    requires tokens[i].value != "{" && (tokens[i].value != "}" || |braceStack| == 0)
    ensures BraceLoop(tokens, i + 1, stack, braceStack, ranges)
  {
    assert BraceMatches(tokens, i, stack) == BraceMatches(tokens, i + 1, stack);
  }

  /** The brace loop of handleFoldingRange. */
  method FoldBraces(tokens: seq<Token>) returns (ranges: seq<FoldingRange>)
    ensures ranges == BraceRanges(tokens)
  {
    ranges := [];
    var braceStack: seq<Position> := [];
    ghost var stack: seq<nat> := [];
    for i := 0 to |tokens|
      invariant BraceLoop(tokens, i, stack, braceStack, ranges)
    {
      var token := tokens[i];
      if token.value == "{" {
        BraceLoopOpen(tokens, i, stack, braceStack, ranges);
        braceStack := braceStack + [token.range.start];
        stack := stack + [i];
      } else if token.value == "}" && |braceStack| > 0 {
        BraceLoopClose(tokens, i, stack, braceStack, ranges);
        var startPosition := braceStack[|braceStack| - 1];
        var endPosition := token.range.end;
        braceStack := braceStack[..|braceStack| - 1];
        stack := stack[..|stack| - 1];
        if startPosition.line != endPosition.line {
          ranges := ranges + [FoldingRange(startPosition.line, startPosition.column, endPosition.line, endPosition.column, "range")];
        }
      } else {
        BraceLoopOther(tokens, i, stack, braceStack, ranges);
      }
    }
    assert BraceMatches(tokens, |tokens|, stack) == [];
  }

  // ---------------------------------------------------------------------
  // What a brace match is
  // ---------------------------------------------------------------------

  /** +1 for "{", -1 for "}", 0 for any other token. */
  function Delta(t: Token): int
  {
    if t.value == "{" then 1 else if t.value == "}" then -1 else 0
  }

  /** Open braces minus close braces. */
  function Net(s: seq<Token>): int
  {
    if |s| == 0 then 0 else Net(s[..|s| - 1]) + Delta(s[|s| - 1])
  }

  /** No prefix closes more braces than it opens. */
  predicate NeverBelowZero(s: seq<Token>)
  {
    forall m :: 0 <= m <= |s| ==> Net(s[..m]) >= 0
  }

  /** Every brace inside is matched inside. */
  predicate Balanced(s: seq<Token>)
  {
    Net(s) == 0 && NeverBelowZero(s)
  }

  /** A match pairs a "{" with a later "}" around a balanced stretch, and spans from the one to the other. */
  predicate Sound(tokens: seq<Token>, m: BraceMatch)
  {
    m.open < m.close < |tokens|
    && tokens[m.open].value == "{" && tokens[m.close].value == "}"
    && Balanced(tokens[m.open + 1..m.close])
    && m.start == tokens[m.open].range.start && m.end == tokens[m.close].range.end
  }

  /** One more token at the end of a stretch. */
  lemma NetExtend(tokens: seq<Token>, a: nat, i: nat)
    requires a <= i < |tokens|
    ensures Net(tokens[a..i + 1]) == Net(tokens[a..i]) + Delta(tokens[i])
  {
    assert tokens[a..i + 1][..i - a] == tokens[a..i];
  }

  /** A stretch that never went below zero still does not after a token that leaves it non-negative. */
  lemma NeverBelowZeroExtend(tokens: seq<Token>, a: nat, i: nat)
    requires a <= i < |tokens|
    ensures Net(tokens[a..i + 1]) == Net(tokens[a..i]) + Delta(tokens[i])
    ensures NeverBelowZero(tokens[a..i]) && Net(tokens[a..i + 1]) >= 0 ==> NeverBelowZero(tokens[a..i + 1])
  {
    NetExtend(tokens, a, i);
    var s, t := tokens[a..i], tokens[a..i + 1];
    if NeverBelowZero(s) && Net(t) >= 0 {
      forall m | 0 <= m <= |t|
        ensures Net(t[..m]) >= 0
      {
        if m < |t| {
          assert t[..m] == s[..m];
        } else {
          assert t[..m] == t;
        }
      }
    }
  }

  /** Net adds up over two adjacent stretches. */
  lemma {:induction false} NetSplit(tokens: seq<Token>, a: nat, b: nat, c: nat)
    requires a <= b <= c <= |tokens|
    ensures Net(tokens[a..c]) == Net(tokens[a..b]) + Net(tokens[b..c])
    decreases c - b
  {
    if c == b {
      assert tokens[b..c] == [];
    } else {
      NetSplit(tokens, a, b, c - 1);
      NetExtend(tokens, a, c - 1);
      NetExtend(tokens, b, c - 1);
    }
  }

  /**
   * What the stack holds before token i: open braces, each followed by a
   * stretch that never went below zero and still holds as many unclosed
   * braces as there are entries above it.
   */
  predicate StackFacts(tokens: seq<Token>, i: nat, stack: seq<nat>)
  {
    i <= |tokens| && Below(stack, i)
    && forall k :: 0 <= k < |stack| ==>
      tokens[stack[k]].value == "{"
      && Net(tokens[stack[k] + 1..i]) == |stack| - 1 - k
      && NeverBelowZero(tokens[stack[k] + 1..i])
  }

  lemma StackFactsPush(tokens: seq<Token>, i: nat, stack: seq<nat>)
    requires StackFacts(tokens, i, stack) && i < |tokens| && tokens[i].value == "{"
    ensures StackFacts(tokens, i + 1, stack + [i])
  {
    var st := stack + [i];
    forall k | 0 <= k < |st|
      ensures tokens[st[k]].value == "{"
      ensures Net(tokens[st[k] + 1..i + 1]) == |st| - 1 - k
      ensures NeverBelowZero(tokens[st[k] + 1..i + 1])
    {
      if k < |stack| {
        NeverBelowZeroExtend(tokens, stack[k] + 1, i);
      } else {
        assert tokens[i + 1..i + 1] == [];
      }
    }
  }

  lemma StackFactsPop(tokens: seq<Token>, i: nat, stack: seq<nat>)
    requires StackFacts(tokens, i, stack) && i < |tokens| && tokens[i].value == "}" && |stack| > 0
    ensures StackFacts(tokens, i + 1, stack[..|stack| - 1])
    ensures Balanced(tokens[stack[|stack| - 1] + 1..i])
  {
    var st := stack[..|stack| - 1];
    forall k | 0 <= k < |st|
      ensures tokens[st[k]].value == "{"
      ensures Net(tokens[st[k] + 1..i + 1]) == |st| - 1 - k
      ensures NeverBelowZero(tokens[st[k] + 1..i + 1])
    {
      assert st[k] == stack[k];
      NeverBelowZeroExtend(tokens, stack[k] + 1, i);
    }
  }

  lemma StackFactsOther(tokens: seq<Token>, i: nat, stack: seq<nat>)
    requires StackFacts(tokens, i, stack) && i < |tokens|
    requires tokens[i].value != "{" && (tokens[i].value != "}" || |stack| == 0)
    ensures StackFacts(tokens, i + 1, stack)
  {
    forall k | 0 <= k < |stack|
      ensures Net(tokens[stack[k] + 1..i + 1]) == |stack| - 1 - k
      ensures NeverBelowZero(tokens[stack[k] + 1..i + 1])
    {
      NeverBelowZeroExtend(tokens, stack[k] + 1, i);
    }
  }

  lemma {:induction false} BraceMatchesSoundFrom(tokens: seq<Token>, i: nat, stack: seq<nat>)
    requires StackFacts(tokens, i, stack)
    ensures forall k :: 0 <= k < |BraceMatches(tokens, i, stack)| ==> Sound(tokens, BraceMatches(tokens, i, stack)[k])
    decreases |tokens| - i
  {
    if i < |tokens| {
      if tokens[i].value == "{" {
        StackFactsPush(tokens, i, stack);
        BraceMatchesSoundFrom(tokens, i + 1, stack + [i]);
      } else if tokens[i].value == "}" && |stack| > 0 {
        StackFactsPop(tokens, i, stack);
        BraceMatchesSoundFrom(tokens, i + 1, stack[..|stack| - 1]);
      } else {
        StackFactsOther(tokens, i, stack);
        BraceMatchesSoundFrom(tokens, i + 1, stack);
      }
    }
  }

  /**
   * Each "}" pops the most recent unclosed "{": every match pairs a "{"
   * with a later "}" around a balanced stretch.
   */
  lemma BraceMatchesSound(tokens: seq<Token>)
    ensures forall k :: 0 <= k < |BraceMatches(tokens, 0, [])| ==> Sound(tokens, BraceMatches(tokens, 0, [])[k])
  {
    BraceMatchesSoundFrom(tokens, 0, []);
  }

  /**
   * The "{" a "}" closes is the only candidate: no earlier "{" has a
   * balanced stretch up to the same "}".
   */
  lemma OpenBraceUnique(tokens: seq<Token>, a1: nat, a2: nat, b: nat)
    requires a1 < a2 < b <= |tokens| && tokens[a2].value == "{" && Balanced(tokens[a2 + 1..b])
    ensures !Balanced(tokens[a1 + 1..b])
  {
    NetSplit(tokens, a1 + 1, a2, b);
    NetSplit(tokens, a2, a2 + 1, b);
    assert tokens[a2..a2 + 1] == [tokens[a2]];
    assert Net([tokens[a2]]) == Delta(tokens[a2]) by {
      assert [tokens[a2]][..0] == [];
    }
    var s := tokens[a1 + 1..b];
    assert s[..a2 - (a1 + 1)] == tokens[a1 + 1..a2];
  }

  /** A "}" with no brace open is skipped: it matches nothing, and the scan goes on as before. */
  lemma UnmatchedCloseIgnored(tokens: seq<Token>, i: nat)
    requires i < |tokens| && tokens[i].value == "}"
    ensures BraceMatches(tokens, i, []) == BraceMatches(tokens, i + 1, [])
  {
  }

  /** Every brace range spans more than one line and is of kind "range". */
  lemma {:induction false} BraceFoldsFacts(ms: seq<BraceMatch>)
    ensures forall k :: 0 <= k < |BraceFolds(ms)| ==>
      BraceFolds(ms)[k].startLine != BraceFolds(ms)[k].endLine && BraceFolds(ms)[k].kind == "range"
  {
    if |ms| > 0 {
      BraceFoldsFacts(ms[1..]);
    }
  }

  // ---------------------------------------------------------------------
  // Comments
  // ---------------------------------------------------------------------

  predicate IsComment(t: Token)
  {
    t.tokenType == "comment"
  }

  /** The last index of the run of comment tokens that goes on from index j. */
  function RunEnd(tokens: seq<Token>, j: nat): (e: nat)
    requires j < |tokens|
    ensures j <= e < |tokens|
    decreases |tokens| - j
  {
    if j + 1 < |tokens| && IsComment(tokens[j + 1]) then RunEnd(tokens, j + 1) else j
  }

  /**
   * The comment ranges from index i on.  The loop stops one token before
   * the end, so a comment token that is the last token starts no range.
   */
  function CommentFolds(tokens: seq<Token>, i: nat): seq<FoldingRange>
    requires i <= |tokens|
    decreases |tokens| - i
  {
    if i + 1 >= |tokens| then []
    else if IsComment(tokens[i]) then
      var j := RunEnd(tokens, i);
      var s, e := tokens[i].range.start, tokens[j].range.end;
      (if s.line == e.line then [] else [FoldingRange(s.line, s.column, e.line, e.column, "comment")]) + CommentFolds(tokens, j + 1)
    else CommentFolds(tokens, i + 1)
  }

  /** The comment ranges of a token list. */
  function CommentRanges(tokens: seq<Token>): seq<FoldingRange>
  {
    CommentFolds(tokens, 0)
  }

  /** The inner loop: move to the last comment of the run. */
  method SkipRun(tokens: seq<Token>, i0: nat) returns (i: nat)
    requires i0 < |tokens|
    ensures i == RunEnd(tokens, i0)
  {
    i := i0;
    while i < |tokens|
      invariant i0 <= i < |tokens| && RunEnd(tokens, i) == RunEnd(tokens, i0)
      decreases |tokens| - i
    {
      if i + 1 == |tokens| || tokens[i + 1].tokenType != "comment" {
        break;
      }
      i := i + 1;
    }
  }

  /** The comment loop of handleFoldingRange. */
  method FoldComments(tokens: seq<Token>, ranges0: seq<FoldingRange>) returns (ranges: seq<FoldingRange>)
    ensures ranges == ranges0 + CommentRanges(tokens)
  {
    ranges := ranges0;
    var i := 0;
    while i < |tokens| && i + 1 < |tokens|
      invariant i <= |tokens|
      invariant ranges + CommentFolds(tokens, i) == ranges0 + CommentRanges(tokens)
      decreases |tokens| - i
    {
      var token := tokens[i];
      if token.tokenType == "comment" {
        var startPosition := token.range.start;
        i := SkipRun(tokens, i);
        var endPosition := tokens[i].range.end;
        if startPosition.line == endPosition.line {
          i := i + 1;
          continue;
        }
        ranges := ranges + [FoldingRange(startPosition.line, startPosition.column, endPosition.line, endPosition.column, "comment")];
      }
      i := i + 1;
    }
  }

  /** Tokens a to b are comments, the one after b is not, and the one before a is not. */
  predicate MaximalRun(tokens: seq<Token>, a: nat, b: nat)
  {
    a <= b < |tokens|
    && (forall k :: a <= k <= b ==> IsComment(tokens[k]))
    && (b + 1 == |tokens| || !IsComment(tokens[b + 1]))
    && (a == 0 || !IsComment(tokens[a - 1]))
  }

  /** A comment range spans a maximal run of comment tokens, over more than one line. */
  ghost predicate CommentRangeOf(tokens: seq<Token>, r: FoldingRange)
  {
    exists a: nat, b: nat :: MaximalRun(tokens, a, b)
      && r == FoldingRange(tokens[a].range.start.line, tokens[a].range.start.column,
                           tokens[b].range.end.line, tokens[b].range.end.column, "comment")
      && r.startLine != r.endLine
  }

  lemma {:induction false} RunEndFacts(tokens: seq<Token>, j: nat)
    requires j < |tokens|
    ensures var e := RunEnd(tokens, j);
      (forall k :: j < k <= e ==> IsComment(tokens[k]))
      && (e + 1 == |tokens| || !IsComment(tokens[e + 1]))
    decreases |tokens| - j
  {
    if j + 1 < |tokens| && IsComment(tokens[j + 1]) {
      RunEndFacts(tokens, j + 1);
    }
  }

  /** Where the scan stands: at the start, after a token that is no comment, or before one. */
  predicate ScanPoint(tokens: seq<Token>, i: nat)
  {
    i <= |tokens| && (i == 0 || !IsComment(tokens[i - 1]) || i == |tokens| || !IsComment(tokens[i]))
  }

  lemma {:induction false} CommentFoldsFrom(tokens: seq<Token>, i: nat)
    requires ScanPoint(tokens, i)
    ensures forall k :: 0 <= k < |CommentFolds(tokens, i)| ==> CommentRangeOf(tokens, CommentFolds(tokens, i)[k])
    decreases |tokens| - i
  {
    if i + 1 < |tokens| {
      if IsComment(tokens[i]) {
        var j := RunEnd(tokens, i);
        RunEndFacts(tokens, i);
        var s, e := tokens[i].range.start, tokens[j].range.end;
        var head := if s.line == e.line then [] else [FoldingRange(s.line, s.column, e.line, e.column, "comment")];
        if s.line != e.line {
          assert MaximalRun(tokens, i, j);
          assert CommentRangeOf(tokens, head[0]);
        }
        CommentFoldsFrom(tokens, j + 1);
        assert CommentFolds(tokens, i) == head + CommentFolds(tokens, j + 1);
      } else {
        CommentFoldsFrom(tokens, i + 1);
      }
    }
  }

  /** Every comment range covers a whole run of comments and spans more than one line. */
  lemma CommentRangesSound(tokens: seq<Token>)
    ensures forall k :: 0 <= k < |CommentRanges(tokens)| ==> CommentRangeOf(tokens, CommentRanges(tokens)[k])
  {
    CommentFoldsFrom(tokens, 0);
  }

  /** Without comment tokens there is no comment range. */
  lemma {:induction false} NoCommentsNoRanges(tokens: seq<Token>, i: nat)
    requires i <= |tokens| && LexerComments.NoComments(tokens)
    ensures CommentFolds(tokens, i) == []
    decreases |tokens| - i
  {
    if i + 1 < |tokens| {
      NoCommentsNoRanges(tokens, i + 1);
    }
  }

  /** Lexed without comments, a text has no comment token and so no comment range. */
  lemma LexedWithoutCommentsFoldNone(input: string, incomplete: string -> bool, unquote: string -> string)
    ensures CommentRanges(LexerSpec.Lex(input, incomplete, false, unquote).tokens) == []
  {
    LexerComments.LexWithoutCommentsHasNone(input, incomplete, unquote);
    NoCommentsNoRanges(LexerSpec.Lex(input, incomplete, false, unquote).tokens, 0);
  }

  /** Two comment lines in a row fold into one range from the first's start to the second's end. */
  lemma TwoCommentLinesFold()
    ensures CommentRanges([Token("# a", "comment", None, Region(Position(0, 0), Position(0, 3))),
                           Token("# b", "comment", None, Region(Position(1, 0), Position(1, 3)))])
      == [FoldingRange(0, 0, 1, 3, "comment")]
  {
    var tokens := [Token("# a", "comment", None, Region(Position(0, 0), Position(0, 3))),
                   Token("# b", "comment", None, Region(Position(1, 0), Position(1, 3)))];
    assert RunEnd(tokens, 1) == 1;
    assert RunEnd(tokens, 0) == 1;
  }

  // ---------------------------------------------------------------------
  // The whole handler
  // ---------------------------------------------------------------------

  /**
   * The ranges handleFoldingRange sends once the document is found: the
   * brace ranges of braceTokens, then the comment ranges of commentTokens.
   */
  method FoldingRanges(braceTokens: seq<Token>, commentTokens: seq<Token>) returns (ranges: seq<FoldingRange>)
    ensures ranges == BraceRanges(braceTokens) + CommentRanges(commentTokens)
  {
    ranges := FoldBraces(braceTokens);
    ranges := FoldComments(commentTokens, ranges);
  }
}
