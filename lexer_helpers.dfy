// The index-loop helpers of the CSL lexer: position arithmetic and the
// digit grouping check.

module LexerHelpers {

  import opened Positions
  import opened Utf8

  // ---------------------------------------------------------------------
  // Position arithmetic
  // ---------------------------------------------------------------------

  /** One character of text: a newline starts the next line at column 0. */
  function StepPosition(p: Position, ch: char): Position
  {
    if ch == '\n' then Position(p.line + 1, 0) else Position(p.line, p.column + 1)
  }

  /** The position just after text, when text starts at start. */
  function EndPosition(text: string, start: Position): Position
    decreases |text|
  {
    if |text| == 0 then start
    else StepPosition(EndPosition(text[..|text| - 1], start), text[|text| - 1])
  }

  method GetEndPosition(text: string, start: Position) returns (p: Position)
    ensures p == EndPosition(text, start)
  {
    var line, col := start.line, start.column;
    var i := 0;
    while i < |text|
      invariant 0 <= i <= |text|
      invariant Position(line, col) == EndPosition(text[..i], start)
    {
      assert text[..i + 1][..i] == text[..i];
      if text[i] == '\n' {
        line := line + 1;
        col := 0;
      } else {
        col := col + 1;
      }
      i := i + 1;
    }
    assert text[..i] == text;
    p := Position(line, col);
  }

  /** Walking over a + b is walking over a, then over b. */
  lemma {:induction false} EndPositionConcat(a: string, b: string, p: Position)
    ensures EndPosition(a + b, p) == EndPosition(b, EndPosition(a, p))
    decreases |b|
  {
    if |b| == 0 {
      assert a + b == a;
    } else {
      assert (a + b)[..|a + b| - 1] == a + b[..|b| - 1];
      EndPositionConcat(a, b[..|b| - 1], p);
    }
  }

  lemma EndPositionOfOne(text: string, p: Position)
    requires |text| == 1
    ensures EndPosition(text, p) == StepPosition(p, text[0])
  {
    assert text[..0] == "";
  }

  function CountNewlines(text: string): nat
  {
    if |text| == 0 then 0 else (if text[0] == '\n' then 1 else 0) + CountNewlines(text[1..])
  }

  lemma {:induction false} CountNewlinesConcat(a: string, b: string)
    ensures CountNewlines(a + b) == CountNewlines(a) + CountNewlines(b)
    decreases |a|
  {
    if |a| > 0 {
      assert (a + b)[1..] == a[1..] + b;
      CountNewlinesConcat(a[1..], b);
    } else {
      assert a + b == b;
    }
  }

  /** Text without newlines ends on the same line, |text| columns further. */
  lemma {:induction false} EndPositionOnOneLine(text: string, start: Position)
    requires '\n' !in text
    ensures EndPosition(text, start) == Position(start.line, start.column + |text|)
    decreases |text|
  {
    if |text| > 0 {
      var init := text[..|text| - 1];
      assert '\n' !in init by {
        forall k | 0 <= k < |init| ensures init[k] != '\n' {
          assert init[k] == text[k];
        }
      }
      EndPositionOnOneLine(init, start);
    }
  }

  /**
   * In general the line advances once per newline, and after the last
   * newline the column is the length of what follows it.
   */
  lemma EndPositionAfterNewline(a: string, b: string, start: Position)
    requires '\n' !in b
    ensures EndPosition(a + "\n" + b, start) == Position(EndPosition(a, start).line + 1, |b|)
  {
    EndPositionConcat(a + "\n", b, start);
    EndPositionConcat(a, "\n", start);
    assert "\n"[..0] == "";
    EndPositionOnOneLine(b, Position(EndPosition(a, start).line + 1, 0));
  }

  lemma {:induction false} EndPositionLine(text: string, start: Position)
    ensures EndPosition(text, start).line == start.line + CountNewlines(text)
    decreases |text|
  {
    if |text| > 0 {
      var init := text[..|text| - 1];
      EndPositionLine(init, start);
      assert text == init + [text[|text| - 1]];
      CountNewlinesConcat(init, [text[|text| - 1]]);
      assert CountNewlines([text[|text| - 1]]) == if text[|text| - 1] == '\n' then 1 else 0 by {
        assert [text[|text| - 1]][1..] == [];
      }
    }
  }

  // ---------------------------------------------------------------------
  // Digit grouping of number literals
  // ---------------------------------------------------------------------

  /** The parts of s between separators, scanning from the left. */
  function Split(s: string, sep: char): (parts: seq<string>)
    ensures |parts| >= 1
    decreases |s|
  {
    if |s| == 0 then [""]
    else
      var parts := Split(s[..|s| - 1], sep);
      var c := s[|s| - 1];
      if c == sep then parts + [""]
      else parts[..|parts| - 1] + [parts[|parts| - 1] + [c]]
  }

  function Join(parts: seq<string>, sep: char): string
    requires |parts| >= 1
    decreases |parts|
  {
    if |parts| == 1 then parts[0] else Join(parts[..|parts| - 1], sep) + [sep] + parts[|parts| - 1]
  }

  /** Splitting loses nothing: joining the parts gives the text back, and no part holds a separator. */
  lemma {:induction false} SplitJoin(s: string, sep: char)
    ensures Join(Split(s, sep), sep) == s
    ensures forall k :: 0 <= k < |Split(s, sep)| ==> sep !in Split(s, sep)[k]
    decreases |s|
  {
    SplitPartsAreSeparatorFree(s, sep);
    if |s| > 0 {
      var init := s[..|s| - 1];
      var c := s[|s| - 1];
      SplitJoin(init, sep);
      assert s == init + [c];
      SplitLast(init, c, sep);
    }
  }

  /** Joining after one more character: the character lands at the end of the text. */
  lemma SplitLast(init: string, c: char, sep: char)
    requires Join(Split(init, sep), sep) == init
    ensures Join(Split(init + [c], sep), sep) == init + [c]
  {
    var s := init + [c];
    assert s[..|s| - 1] == init && s[|s| - 1] == c;
    var parts := Split(init, sep);
    var n := |parts|;
    if c != sep {
      var q := parts[..n - 1] + [parts[n - 1] + [c]];
      assert Split(s, sep) == q;
      JoinExtendLast(parts, c, sep);
    } else {
      var q := parts + [""];
      assert Split(s, sep) == q;
      assert q[..|q| - 1] == parts;
    }
  }

  lemma JoinExtendLast(parts: seq<string>, c: char, sep: char)
    requires |parts| >= 1
    ensures Join(parts[..|parts| - 1] + [parts[|parts| - 1] + [c]], sep) == Join(parts, sep) + [c]
  {
    var n := |parts|;
    var q := parts[..n - 1] + [parts[n - 1] + [c]];
    assert q[..n - 1] == parts[..n - 1];
    assert q[n - 1] == parts[n - 1] + [c];
    if n > 1 {
      var j := Join(parts[..n - 1], sep);
      assert Join(q, sep) == j + [sep] + (parts[n - 1] + [c]);
      assert Join(parts, sep) == j + [sep] + parts[n - 1];
      AppendIsAssociative(j + [sep], parts[n - 1], [c]);
    }
  }

  lemma {:induction false} SplitPartsAreSeparatorFree(s: string, sep: char)
    ensures forall k :: 0 <= k < |Split(s, sep)| ==> sep !in Split(s, sep)[k]
    decreases |s|
  {
    if |s| > 0 {
      var init := s[..|s| - 1];
      SplitPartsAreSeparatorFree(init, sep);
      var parts := Split(init, sep);
      var c := s[|s| - 1];
      assert s == init + [c];
      var q := Split(s, sep);
      if c != sep {
        assert q == parts[..|parts| - 1] + [parts[|parts| - 1] + [c]];
      } else {
        assert q == parts + [""];
      }
      forall k | 0 <= k < |q| ensures sep !in q[k] {
        if k < |q| - 1 { assert q[k] == parts[k]; }
      }
    }
  }

  lemma {:induction false} SplitWithoutSeparator(s: string, sep: char)
    requires sep !in s
    ensures Split(s, sep) == [s]
    decreases |s|
  {
    if |s| > 0 {
      var init := s[..|s| - 1];
      assert sep !in init by {
        forall k | 0 <= k < |init| ensures init[k] != sep { assert init[k] == s[k]; }
      }
      SplitWithoutSeparator(init, sep);
      assert init + [s[|s| - 1]] == s;
    }
  }

  function Sizes(parts: seq<string>): (r: seq<nat>)
    ensures |r| == |parts| && forall k :: 0 <= k < |parts| ==> r[k] == |parts[k]|
  {
    if |parts| == 0 then [] else Sizes(parts[..|parts| - 1]) + [|parts[|parts| - 1]|]
  }

  /** Every part followed by an underscore is non-empty ("1__000" has an empty one). */
  predicate NoEmptyInnerPart(parts: seq<string>)
  {
    forall k :: 0 <= k < |parts| - 1 ==> |parts[k]| > 0
  }

  /** All groups from the second one on have the same size. */
  predicate UniformFromSecond(sizes: seq<nat>)
  {
    forall k :: 1 <= k < |sizes| ==> sizes[k] == sizes[1]
  }

  /**
   * Integer part: a single group always passes; otherwise the first group
   * is never inspected, and the others must either share one size other
   * than 1, or be 2 in the middle with 3 in the last group (the Indian
   * 1_23_45_678 style).
   */
  predicate IntegerGroupsOk(sizes: seq<nat>)
    requires |sizes| >= 1
  {
    |sizes| == 1
    || (UniformFromSecond(sizes) && sizes[1] != 1)
    || ((forall k :: 1 <= k < |sizes| - 1 ==> sizes[k] == 2) && sizes[|sizes| - 1] == 3)
  }

  /** Fraction part: one group, or uniform groups (from the second) of a size other than 1. */
  predicate FractionGroupsOk(sizes: seq<nat>)
    requires |sizes| >= 1
  {
    |sizes| == 1 || (UniformFromSecond(sizes) && sizes[1] != 1)
  }

  function FindChar(s: string, c: char): (k: nat)
    ensures k <= |s|
    ensures k < |s| ==> s[k] == c
    ensures forall j :: 0 <= j < k ==> s[j] != c
  {
    if |s| == 0 then 0 else if s[0] == c then 0 else 1 + FindChar(s[1..], c)
  }

  /** The digits before the dot, without sign and without a 0b/0o/0x prefix. */
  function IntegerDigits(str: string): string
  {
    var beforeDot := str[..FindChar(str, '.')];
    var unsigned := if |beforeDot| > 0 && (beforeDot[0] == '+' || beforeDot[0] == '-') then beforeDot[1..] else beforeDot;
    if |unsigned| > 2 && unsigned[0] == '0' && (unsigned[1] == 'b' || unsigned[1] == 'o' || unsigned[1] == 'x')
    then unsigned[2..] else unsigned
  }

  /** The text after the first dot, or "" when there is none. */
  function FractionDigits(str: string): string
  {
    var dot := FindChar(str, '.');
    if dot == |str| then "" else str[dot + 1..]
  }

  predicate GroupedPart(part: string, integer: bool)
  {
    var parts := Split(part, '_');
    NoEmptyInnerPart(parts)
    && (if integer then IntegerGroupsOk(Sizes(parts)) else FractionGroupsOk(Sizes(parts)))
  }

  predicate ReasonablyGrouped(str: string)
  {
    GroupedPart(IntegerDigits(str), true) && GroupedPart(FractionDigits(str), false)
  }

  /** Group sizes of s split at underscores, failing on an empty group before an underscore. */
  method SplitSizes(s: string) returns (ok: bool, sizes: seq<nat>)
    ensures ok == NoEmptyInnerPart(Split(s, '_'))
    ensures ok ==> sizes == Sizes(Split(s, '_')) && |sizes| >= 1
  {
    sizes := [];
    var cur := 0;
    var i := 0;
    SplitStateAtStart(s);
    while i < |s|
      invariant 0 <= i <= |s|
      invariant SplitStateAt(s, i, sizes, cur)
    {
      var empty;
      empty, sizes, cur := SplitSizesStep(s, i, sizes, cur);
      if empty {
        SplitPrefixKeepsEmpty(s, i + 1);
        return false, [];
      }
      i := i + 1;
    }
    SplitStateAtEnd(s, sizes, cur);
    sizes := sizes + [cur];
    ok := true;
  }

  /** One character of SplitSizes: close the open group at an underscore, else extend it. */
  method SplitSizesStep(s: string, i: nat, sizes: seq<nat>, cur: nat) returns (empty: bool, sizes': seq<nat>, cur': nat)
    requires i < |s| && SplitStateAt(s, i, sizes, cur)
    ensures empty <==> s[i] == '_' && cur == 0
    ensures empty ==> !NoEmptyInnerPart(Split(s[..i + 1], '_'))
    ensures !empty ==> SplitStateAt(s, i + 1, sizes', cur')
  {
    SplitStateStep(s, i, sizes, cur);
    if s[i] == '_' {
      if cur == 0 {
        return true, sizes, cur;
      }
      return false, sizes + [cur], 0;
    }
    return false, sizes, cur + 1;
  }

  lemma SplitStateAtStart(s: string)
    ensures SplitStateAt(s, 0, [], 0)
  {
    assert s[..0] == "";
  }

  lemma SplitStateAtEnd(s: string, sizes: seq<nat>, cur: nat)
    requires SplitStateAt(s, |s|, sizes, cur)
    ensures Sizes(Split(s, '_')) == sizes + [cur] && NoEmptyInnerPart(Split(s, '_'))
  {
    assert s[..|s|] == s;
  }

  /** The loop state of SplitSizes after the prefix s[..i]: closed groups and the open one. */
  predicate SplitStateAt(s: string, i: nat, sizes: seq<nat>, cur: nat)
    requires i <= |s|
  {
    Sizes(Split(s[..i], '_')) == sizes + [cur] && NoEmptyInnerPart(Split(s[..i], '_'))
  }

  lemma SplitStateStep(s: string, i: nat, sizes: seq<nat>, cur: nat)
    requires i < |s| && SplitStateAt(s, i, sizes, cur)
    ensures s[i] == '_' && cur > 0 ==> SplitStateAt(s, i + 1, sizes + [cur], 0)
    ensures s[i] == '_' && cur == 0 ==> !NoEmptyInnerPart(Split(s[..i + 1], '_'))
    ensures s[i] != '_' ==> SplitStateAt(s, i + 1, sizes, cur + 1)
  {
    assert s[..i + 1] == s[..i] + [s[i]];
    SplitStep(s[..i], s[i], '_', sizes, cur);
    if s[i] == '_' {
      assert sizes + [cur] + [0] == (sizes + [cur]) + [0];
    }
  }

  /** How one more character changes the split of a prefix. */
  lemma SplitStep(p: string, c: char, sep: char, sizes: seq<nat>, cur: nat)
    requires Sizes(Split(p, sep)) == sizes + [cur]
    requires NoEmptyInnerPart(Split(p, sep))
    ensures c == sep ==> Sizes(Split(p + [c], sep)) == sizes + [cur] + [0]
    ensures c == sep ==> (NoEmptyInnerPart(Split(p + [c], sep)) <==> cur > 0)
    ensures c != sep ==> Sizes(Split(p + [c], sep)) == sizes + [cur + 1]
    ensures c != sep ==> NoEmptyInnerPart(Split(p + [c], sep))
  {
    if c == sep {
      SplitStepSeparator(p, c, sep, sizes, cur);
    } else {
      SplitStepOther(p, c, sep, sizes, cur);
    }
  }

  lemma SplitStepSeparator(p: string, c: char, sep: char, sizes: seq<nat>, cur: nat)
    requires c == sep
    requires Sizes(Split(p, sep)) == sizes + [cur]
    requires NoEmptyInnerPart(Split(p, sep))
    ensures Sizes(Split(p + [c], sep)) == sizes + [cur] + [0]
    ensures NoEmptyInnerPart(Split(p + [c], sep)) <==> cur > 0
  {
    var q := p + [c];
    assert q[..|q| - 1] == p;
    var parts := Split(p, sep);
    var r := Split(q, sep);
    assert r == parts + [""];
    assert Sizes(r) == Sizes(parts) + [0] by {
      assert r[..|r| - 1] == parts;
    }
    assert |parts[|parts| - 1]| == cur;
    forall k | 0 <= k < |r| - 1 ensures r[k] == parts[k] { }
  }

  lemma SplitStepOther(p: string, c: char, sep: char, sizes: seq<nat>, cur: nat)
    requires c != sep
    requires Sizes(Split(p, sep)) == sizes + [cur]
    requires NoEmptyInnerPart(Split(p, sep))
    ensures Sizes(Split(p + [c], sep)) == sizes + [cur + 1]
    ensures NoEmptyInnerPart(Split(p + [c], sep))
  {
    var q := p + [c];
    assert q[..|q| - 1] == p;
    var parts := Split(p, sep);
    var n := |parts|;
    assert |parts[n - 1]| == cur;
    var r := Split(q, sep);
    assert r == parts[..n - 1] + [parts[n - 1] + [c]];
    var sz := Sizes(r);
    assert |sz| == n;
    forall k | 0 <= k < n ensures sz[k] == (sizes + [cur + 1])[k] {
      if k < n - 1 {
        assert r[k] == parts[k];
        assert Sizes(parts)[k] == sizes[k];
      }
    }
    forall k | 0 <= k < |r| - 1 ensures |r[k]| > 0 {
      assert r[k] == parts[k];
    }
  }

  /** An empty inner part, once present in a prefix, stays in every longer prefix. */
  lemma {:induction false} SplitPrefixKeepsEmpty(s: string, i: nat)
    requires i <= |s|
    requires !NoEmptyInnerPart(Split(s[..i], '_'))
    ensures !NoEmptyInnerPart(Split(s, '_'))
    decreases |s| - i
  {
    if i < |s| {
      var p := Split(s[..i], '_');
      assert s[..i + 1][..i] == s[..i];
      var q := Split(s[..i + 1], '_');
      var k :| 0 <= k < |p| - 1 && |p[k]| == 0;
      assert q[k] == p[k];
      SplitPrefixKeepsEmpty(s, i + 1);
    } else {
      assert s[..i] == s;
    }
  }

  method AllSameFromSecond(sizes: seq<nat>) returns (b: bool)
    requires |sizes| >= 2
    ensures b == UniformFromSecond(sizes)
  {
    b := true;
    var i := 1;
    while i < |sizes|
      invariant 1 <= i <= |sizes|
      invariant forall k :: 1 <= k < i ==> sizes[k] == sizes[1]
    {
      if sizes[i] != sizes[1] {
        return false;
      }
      i := i + 1;
    }
  }

  /** The grouping check of number literals. */
  method IsNumberReasonablyGrouped(str: string) returns (ok: bool)
    ensures ok == ReasonablyGrouped(str)
  {
    var intOk, sizes := SplitSizes(IntegerDigits(str));
    if !intOk {
      return false;
    }
    var intGrouped := CheckIntegerGroups(sizes);
    if !intGrouped {
      return false;
    }
    var fracOk, fracSizes := SplitSizes(FractionDigits(str));
    if !fracOk {
      return false;
    }
    ok := CheckFractionGroups(fracSizes);
  }

  /** The integer-part rule on the group sizes. */
  method CheckIntegerGroups(sizes: seq<nat>) returns (ok: bool)
    requires |sizes| >= 1
    ensures ok == IntegerGroupsOk(sizes)
  {
    if |sizes| == 1 {
      return true;
    }
    var allSame := AllSameFromSecond(sizes);
    if allSame {
      return sizes[1] != 1;
    }
    var middleTwo := true;
    var i := 1;
    while i < |sizes| - 1
      invariant 1 <= i <= |sizes| - 1
      invariant middleTwo == forall k :: 1 <= k < i ==> sizes[k] == 2
    {
      if sizes[i] != 2 {
        middleTwo := false;
        break;
      }
      i := i + 1;
    }
    assert middleTwo ==> i == |sizes| - 1;
    ok := middleTwo && sizes[|sizes| - 1] == 3;
  }

  /** The fraction-part rule on the group sizes. */
  method CheckFractionGroups(sizes: seq<nat>) returns (ok: bool)
    requires |sizes| >= 1
    ensures ok == FractionGroupsOk(sizes)
  {
    if |sizes| == 1 {
      return true;
    }
    var allSame := AllSameFromSecond(sizes);
    ok := allSame && sizes[1] != 1;
  }

  /** A number without underscores always passes. */
  lemma NoUnderscoreIsGrouped(str: string)
    requires '_' !in str
    ensures ReasonablyGrouped(str)
  {
    var ip, fp := IntegerDigits(str), FractionDigits(str);
    assert '_' !in ip;
    assert '_' !in fp;
    SplitWithoutSeparator(ip, '_');
    SplitWithoutSeparator(fp, '_');
  }

  /** The integer rule depends only on the second and later groups. */
  lemma IntegerRuleIgnoresFirstGroup(sizes: seq<nat>, first: nat)
    requires |sizes| >= 1
    ensures IntegerGroupsOk(sizes) == IntegerGroupsOk([first] + sizes[1..])
  {
    var other := [first] + sizes[1..];
    assert forall k :: 1 <= k < |sizes| ==> other[k] == sizes[k];
  }

  /** An empty group before an underscore is always refused. */
  lemma EmptyInnerGroupRefused(str: string)
    requires !NoEmptyInnerPart(Split(IntegerDigits(str), '_'))
    ensures !ReasonablyGrouped(str)
  {
  }

  /** Appending a separator and a separator-free word adds exactly one part. */
  lemma {:induction false} SplitAppendPart(s: string, sep: char, w: string)
    requires sep !in w
    ensures Split(s + [sep] + w, sep) == Split(s, sep) + [w]
    decreases |w|
  {
    if |w| == 0 {
      assert s + [sep] + w == s + [sep];
      assert (s + [sep])[..|s|] == s;
    } else {
      var w0 := w[..|w| - 1];
      assert sep !in w0 by {
        forall k | 0 <= k < |w0| ensures w0[k] != sep { assert w0[k] == w[k]; }
      }
      SplitAppendPart(s, sep, w0);
      var t := s + [sep] + w;
      assert t[..|t| - 1] == s + [sep] + w0;
      assert w0 + [w[|w| - 1]] == w;
    }
  }

  /** Splitting inverts joining, for parts without a separator. */
  lemma {:induction false} SplitOfJoin(parts: seq<string>, sep: char)
    requires |parts| >= 1
    requires forall k :: 0 <= k < |parts| ==> sep !in parts[k]
    ensures Split(Join(parts, sep), sep) == parts
    decreases |parts|
  {
    if |parts| == 1 {
      SplitWithoutSeparator(parts[0], sep);
    } else {
      var init := parts[..|parts| - 1];
      assert forall k :: 0 <= k < |init| ==> init[k] == parts[k];
      SplitOfJoin(init, sep);
      SplitAppendPart(Join(init, sep), sep, parts[|parts| - 1]);
      assert init + [parts[|parts| - 1]] == parts;
    }
  }

  /** An unsigned decimal integer without a dot is checked by the integer rule alone. */
  lemma PlainInteger(str: string)
    requires '.' !in str && |str| > 0 && '1' <= str[0] <= '9'
    ensures IntegerDigits(str) == str && FractionDigits(str) == ""
    ensures ReasonablyGrouped(str) <==> GroupedPart(str, true)
  {
    assert FindChar(str, '.') == |str|;
    assert str[..|str|] == str;
    SplitWithoutSeparator("", '_');
  }

  /** A part given as joined groups is checked on the sizes of those groups. */
  lemma GroupedJoin(parts: seq<string>, integer: bool)
    requires |parts| >= 1
    requires forall k :: 0 <= k < |parts| ==> '_' !in parts[k]
    ensures GroupedPart(Join(parts, '_'), integer) <==>
      NoEmptyInnerPart(parts) && (if integer then IntegerGroupsOk(Sizes(parts)) else FractionGroupsOk(Sizes(parts)))
  {
    SplitOfJoin(parts, '_');
  }

  lemma JoinOfGroupedExample()
    ensures Join(["12", "345", "678"], '_') == "12_345_678"
  {
    var p := ["12", "345", "678"];
    assert p[..2][..1] == ["12"];
    assert p[..2] == ["12", "345"];
  }

  lemma JoinOfIndianExample()
    ensures Join(["1", "23", "45", "678"], '_') == "1_23_45_678"
  {
    var p := ["1", "23", "45", "678"];
    var p3 := p[..3];
    assert p3 == ["1", "23", "45"];
    var p2 := p3[..2];
    assert p2 == ["1", "23"];
    assert p2[..1] == ["1"];
    assert Join(p2, '_') == "1_23";
    assert Join(p3, '_') == "1_23_45";
  }

  lemma JoinOfSingleDigitExample()
    ensures Join(["1", "2", "3"], '_') == "1_2_3"
  {
    var p := ["1", "2", "3"];
    assert p[..2][..1] == ["1"];
    assert p[..2] == ["1", "2"];
  }

  lemma JoinOfDoubleUnderscoreExample()
    ensures Join(["1", "", "000"], '_') == "1__000"
  {
    var p := ["1", "", "000"];
    assert p[..2][..1] == ["1"];
    assert p[..2] == ["1", ""];
  }

  lemma GroupedIntegerPart()
    ensures GroupedPart("12_345_678", true)
  {
    var parts := ["12", "345", "678"];
    JoinOfGroupedExample();
    GroupedJoin(parts, true);
    var sz := Sizes(parts);
    assert sz[1] == 3 && sz[2] == 3;
    assert UniformFromSecond(sz);
  }

  lemma GroupedIntegerExample()
    ensures ReasonablyGrouped("12_345_678")
  {
    GroupedIntegerPart();
    PlainInteger("12_345_678");
  }

  lemma IndianGroupingPart()
    ensures GroupedPart("1_23_45_678", true)
  {
    var parts := ["1", "23", "45", "678"];
    JoinOfIndianExample();
    GroupedJoin(parts, true);
    var sz := Sizes(parts);
    assert sz[1] == 2 && sz[2] == 2 && sz[3] == 3;
    assert forall k :: 1 <= k < |sz| - 1 ==> sz[k] == 2;
  }

  lemma IndianGroupingExample()
    ensures ReasonablyGrouped("1_23_45_678")
  {
    IndianGroupingPart();
    PlainInteger("1_23_45_678");
  }

  lemma SingleDigitPart()
    ensures !GroupedPart("1_2_3", true)
  {
    var parts := ["1", "2", "3"];
    JoinOfSingleDigitExample();
    GroupedJoin(parts, true);
    var sz := Sizes(parts);
    assert sz[1] == 1 && sz[2] == 1;
  }

  lemma SingleDigitGroupsRefused()
    ensures !ReasonablyGrouped("1_2_3")
  {
    SingleDigitPart();
    PlainInteger("1_2_3");
  }

  lemma DoubleUnderscorePart()
    ensures !GroupedPart("1__000", true)
  {
    var parts := ["1", "", "000"];
    JoinOfDoubleUnderscoreExample();
    GroupedJoin(parts, true);
    assert !NoEmptyInnerPart(parts);
  }

  lemma DoubleUnderscoreRefused()
    ensures !ReasonablyGrouped("1__000")
  {
    DoubleUnderscorePart();
    PlainInteger("1__000");
  }
}
