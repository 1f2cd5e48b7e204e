// Content checks of the CSL lexer: the validator for the four string kinds,
// line reading and the calendar check of date-time literals.

module LexerContent {

  import opened Utf8
  import opened LiteralTypes
  import opened Chars

  // ---------------------------------------------------------------------
  // String content: well-formed UTF-8 plus the control characters each
  // string kind admits.  The kinds are numbered as in the StringType
  // enumeration: 0 Basic, 1 MultiLineBasic, 2 Raw, 3 MultiLineRaw.
  // ---------------------------------------------------------------------

  /** Control characters refused by every check except the carriage-return rule. */
  predicate ControlRefused(cp: nat, stringType: int)
  {
    if stringType == 0 || stringType == 2 then
      cp <= 0x08 || (0x0A <= cp <= 0x1F) || cp == 0x7F
    else if stringType == 1 || stringType == 3 then
      cp <= 0x08 || cp == 0x0B || cp == 0x0C || (0x0E <= cp <= 0x1F) || cp == 0x7F
    else false
  }

  predicate IsMultiLine(stringType: int) { stringType == 1 || stringType == 3 }

  /**
   * The intended rule for the code point at index k: in a multi-line string
   * a carriage return is admitted only as the first half of CR LF.
   */
  predicate AdmittedAt(cps: seq<nat>, k: nat, stringType: int)
    requires k < |cps|
  {
    !ControlRefused(cps[k], stringType)
    && (IsMultiLine(stringType) && cps[k] == 0x0D ==> k + 1 < |cps| && cps[k + 1] == 0x0A)
  }

  /** What the validator is meant to accept. */
  predicate AllAdmitted(cps: seq<nat>, stringType: int)
  {
    forall k :: 0 <= k < |cps| ==> AdmittedAt(cps, k, stringType)
  }

  predicate ContentValid(s: seq<Byte>, stringType: int)
  {
    WellFormed(s) && AllAdmitted(Decode(s), stringType)
  }

  /** The rule as the source states it: the carriage-return test looks at the CR byte itself. */
  predicate AdmittedAsWritten(cp: nat, stringType: int)
  {
    !ControlRefused(cp, stringType) && !(IsMultiLine(stringType) && cp == 0x0D)
  }

  predicate AllAdmittedAsWritten(cps: seq<nat>, stringType: int)
  {
    forall k :: 0 <= k < |cps| ==> AdmittedAsWritten(cps[k], stringType)
  }

  predicate ContentValidAsWritten(s: seq<Byte>, stringType: int)
  {
    WellFormed(s) && AllAdmittedAsWritten(Decode(s), stringType)
  }

  /** The intended rule on a sequence whose first code point is cp. */
  lemma AllAdmittedCons(cp: nat, tail: seq<nat>, stringType: int)
    ensures AllAdmitted([cp] + tail, stringType) <==>
      !ControlRefused(cp, stringType)
      && (IsMultiLine(stringType) && cp == 0x0D ==> |tail| > 0 && tail[0] == 0x0A)
      && AllAdmitted(tail, stringType)
  {
    var cps := [cp] + tail;
    if AllAdmitted(cps, stringType) {
      assert AdmittedAt(cps, 0, stringType);
      forall k | 0 <= k < |tail| ensures AdmittedAt(tail, k, stringType) {
        assert AdmittedAt(cps, k + 1, stringType);
      }
    }
    if !ControlRefused(cp, stringType)
      && (IsMultiLine(stringType) && cp == 0x0D ==> |tail| > 0 && tail[0] == 0x0A)
      && AllAdmitted(tail, stringType) {
      forall k | 0 <= k < |cps| ensures AdmittedAt(cps, k, stringType) {
        if k > 0 { assert AdmittedAt(tail, k - 1, stringType); }
      }
    }
  }

  lemma AllAdmittedAsWrittenCons(cp: nat, tail: seq<nat>, stringType: int)
    ensures AllAdmittedAsWritten([cp] + tail, stringType) <==>
      AdmittedAsWritten(cp, stringType) && AllAdmittedAsWritten(tail, stringType)
  {
    var cps := [cp] + tail;
    assert forall k :: 0 <= k < |tail| ==> tail[k] == cps[k + 1];
    assert cps[0] == cp;
  }

  /** Decoding the first character of a suffix. */
  lemma DecodeFront(s: seq<Byte>, i: nat)
    requires i < |s|
    requires LeadDecode(s, i).Some?
    ensures var d := LeadDecode(s, i).value;
      i + d.length <= |s| && d.length >= 1
      && (WellFormed(s[i..]) <==> WellFormed(s[i + d.length..]))
      && (WellFormed(s[i..]) ==> Decode(s[i..]) == [d.codePoint] + Decode(s[i + d.length..]))
  {
    LeadDecodeMatchesSyntax(s, i);
    var d := LeadDecode(s, i).value;
    assert s[i..][d.length..] == s[i + d.length..];
  }

  /** A code point of 2 or more bytes is at least U+0080, so a line feed is always one byte. */
  lemma LineFeedIsOneByte(s: seq<Byte>, i: nat)
    requires i < |s| && WellFormed(s[i..])
    ensures Decode(s[i..])[0] == 0x0A <==> s[i] == 0x0A
  {
    LeadDecodeMatchesSyntax(s, i);
    DecodeFront(s, i);
  }

  /** Suffix form of ContentValid, the invariant of the validator's loop. */
  lemma ContentValidStep(s: seq<Byte>, i: nat, stringType: int)
    requires i < |s|
    requires LeadDecode(s, i).Some?
    ensures var d := LeadDecode(s, i).value;
      var rest := s[i + d.length..];
      ContentValid(s[i..], stringType) <==>
        !ControlRefused(d.codePoint, stringType)
        && (IsMultiLine(stringType) && d.codePoint == 0x0D ==> i + 1 < |s| && s[i + 1] == 0x0A)
        && ContentValid(rest, stringType)
  {
    var d := LeadDecode(s, i).value;
    var rest := s[i + d.length..];
    DecodeFront(s, i);
    if WellFormed(s[i..]) {
      var tail := Decode(rest);
      AllAdmittedCons(d.codePoint, tail, stringType);
      if d.codePoint == 0x0D {
        LeadDecodeMatchesSyntax(s, i);
        assert d.length == 1;
        if |rest| > 0 {
          assert rest == s[i + 1..];
          LineFeedIsOneByte(s, i + 1);
        }
      }
    }
  }

  lemma ContentValidAsWrittenStep(s: seq<Byte>, i: nat, stringType: int)
    requires i < |s|
    requires LeadDecode(s, i).Some?
    ensures var d := LeadDecode(s, i).value;
      ContentValidAsWritten(s[i..], stringType) <==>
        AdmittedAsWritten(d.codePoint, stringType) && ContentValidAsWritten(s[i + d.length..], stringType)
  {
    var d := LeadDecode(s, i).value;
    DecodeFront(s, i);
    if WellFormed(s[i..]) {
      AllAdmittedAsWrittenCons(d.codePoint, Decode(s[i + d.length..]), stringType);
    }
  }

  lemma FailedLeadIsInvalid(s: seq<Byte>, i: nat)
    requires i < |s| && LeadDecode(s, i).None?
    ensures !WellFormed(s[i..])
  {
    LeadDecodeMatchesSyntax(s, i);
  }

  /**
   * The validator as the source has it.  For a multi-line string the
   * carriage-return test compares the current byte, which is the CR itself,
   * with a line feed, so every CR is refused.
   */
  method IsStringContentValidAsWritten(s: seq<Byte>, stringType: int) returns (ok: bool)
    ensures ok == ContentValidAsWritten(s, stringType)
  {
    var i := 0;
    while i < |s|
      invariant 0 <= i <= |s|
      invariant ContentValidAsWritten(s, stringType) == ContentValidAsWritten(s[i..], stringType)
      decreases |s| - i
    {
      var step := LeadDecode(s, i);
      if step.None? {
        FailedLeadIsInvalid(s, i);
        return false;
      }
      ContentValidAsWrittenStep(s, i, stringType);
      var cp := step.value.codePoint;
      if (stringType == 0 || stringType == 2)
        && (cp <= 0x08 || (0x0A <= cp <= 0x1F) || cp == 0x7F) {
        return false;
      }
      if stringType == 1 || stringType == 3 {
        if cp <= 0x08 || cp == 0x0B || cp == 0x0C || (0x0E <= cp <= 0x1F) || cp == 0x7F {
          return false;
        } else if cp == 0x0D && (i + 1 >= |s| || s[i] != 0x0A) {
          return false;
        }
      }
      i := i + step.value.length;
    }
    assert s[i..] == [];
    ok := true;
  }

  /** The validator with the carriage-return test looking at the following byte. */
  method IsStringContentValid(s: seq<Byte>, stringType: int) returns (ok: bool)
    ensures ok == ContentValid(s, stringType)
  {
    var i := 0;
    while i < |s|
      invariant 0 <= i <= |s|
      invariant ContentValid(s, stringType) == ContentValid(s[i..], stringType)
      decreases |s| - i
    {
      var step := LeadDecode(s, i);
      if step.None? {
        FailedLeadIsInvalid(s, i);
        return false;
      }
      ContentValidStep(s, i, stringType);
      var cp := step.value.codePoint;
      if (stringType == 0 || stringType == 2)
        && (cp <= 0x08 || (0x0A <= cp <= 0x1F) || cp == 0x7F) {
        return false;
      }
      if stringType == 1 || stringType == 3 {
        if cp <= 0x08 || cp == 0x0B || cp == 0x0C || (0x0E <= cp <= 0x1F) || cp == 0x7F {
          return false;
        } else if cp == 0x0D && (i + 1 >= |s| || s[i + 1] != 0x0A) {
          return false;
        }
      }
      i := i + step.value.length;
    }
    assert s[i..] == [];
    ok := true;
  }

  /** The validator refuses every malformed byte sequence, whatever the kind. */
  lemma ValidContentIsUtf8(s: seq<Byte>, stringType: int)
    ensures ContentValid(s, stringType) ==> WellFormed(s)
    ensures ContentValidAsWritten(s, stringType) ==> WellFormed(s)
  {
  }

  /** Tab is admitted in every kind; line feed only in the multi-line kinds. */
  lemma TabAndLineFeed(k: StringType)
    ensures ContentValid([0x09], StringTypeIndex(k))
    ensures ContentValid([0x0A], StringTypeIndex(k)) <==> (k.MultiLineBasic? || k.MultiLineRaw?)
  {
    assert Decode([0x09]) == [0x09] by { assert [0x09][1..] == []; }
    assert Decode([0x0A]) == [0x0A] by { assert [0x0A][1..] == []; }
    var cps: seq<nat> := [0x0A];
    if k.MultiLineBasic? || k.MultiLineRaw? {
      assert AdmittedAt(cps, 0, StringTypeIndex(k));
    } else {
      assert !AdmittedAt(cps, 0, StringTypeIndex(k));
    }
  }

  lemma CrLfDecodes()
    ensures WellFormed([0x0D, 0x0A]) && Decode([0x0D, 0x0A]) == [0x0D, 0x0A]
  {
    var s: seq<Byte> := [0x0D, 0x0A];
    assert s[1..] == [0x0A];
    assert s[1..][1..] == [];
  }

  /** A CR LF line ending inside a multi-line basic string: refused as written, admitted as intended. */
  lemma CrLfInMultiLineString()
    ensures !ContentValidAsWritten([0x0D, 0x0A], 1)
    ensures ContentValid([0x0D, 0x0A], 1)
  {
    CrLfDecodes();
    var cps := Decode([0x0D, 0x0A]);
    assert !AdmittedAsWritten(cps[0], 1);
    assert AdmittedAt(cps, 0, 1) && AdmittedAt(cps, 1, 1);
  }

  /** The two rules differ only on carriage returns. */
  lemma AsWrittenDiffersOnlyOnCr(s: seq<Byte>, stringType: int)
    requires WellFormed(s)
    requires forall k :: 0 <= k < |Decode(s)| ==> Decode(s)[k] != 0x0D
    ensures ContentValidAsWritten(s, stringType) <==> ContentValid(s, stringType)
  {
    var cps := Decode(s);
    forall k | 0 <= k < |cps|
      ensures AdmittedAsWritten(cps[k], stringType) <==> AdmittedAt(cps, k, stringType)
    {
    }
  }

  // ---------------------------------------------------------------------
  // Line reading: input up to the next '\n', a CR before it dropped
  // ---------------------------------------------------------------------

  function FirstNewline(input: string, pos: nat): (j: nat)
    requires pos <= |input|
    ensures pos <= j <= |input|
    ensures j < |input| ==> input[j] == '\n'
    ensures forall k :: pos <= k < j ==> input[k] != '\n'
    decreases |input| - pos
  {
    if pos == |input| then pos else if input[pos] == '\n' then pos else FirstNewline(input, pos + 1)
  }

  datatype LineRead = LineRead(ok: bool, line: string, next: nat)

  /** Reading one line from position pos of the stream. */
  function ReadLine(input: string, pos: nat): LineRead
    requires pos <= |input|
  {
    var j := FirstNewline(input, pos);
    if j < |input| then
      var raw := input[pos..j];
      LineRead(true, if |raw| > 0 && raw[|raw| - 1] == '\r' then raw[..|raw| - 1] else raw, j + 1)
    else LineRead(input[pos..] != "", input[pos..], |input|)
  }

  /** The line loop over the characters of the stream. */
  method CustomGetline(input: string, pos: nat) returns (ok: bool, line: string, next: nat)
    requires pos <= |input|
    ensures LineRead(ok, line, next) == ReadLine(input, pos)
  {
    line := "";
    next := pos;
    while next < |input|
      invariant pos <= next <= |input|
      invariant line == input[pos..next]
      invariant forall k :: pos <= k < next ==> input[k] != '\n'
      invariant FirstNewline(input, pos) == FirstNewline(input, next)
      decreases |input| - next
    {
      var ch := input[next];
      next := next + 1;
      if ch == '\n' {
        if |line| > 0 && line[|line| - 1] == '\r' {
          line := line[..|line| - 1];
        }
        return true, line, next;
      }
      line := line + [ch];
    }
    ok := |line| > 0;
  }

  /**
   * The line read is what lies between pos and the newline, with an optional
   * CR in front of the newline removed; nothing else is lost.
   */
  lemma ReadLineReconstructs(input: string, pos: nat)
    requires pos <= |input|
    ensures var r := ReadLine(input, pos);
      pos <= r.next <= |input| && '\n' !in r.line
      && (input[pos..r.next] == r.line + "\n" || input[pos..r.next] == r.line + "\r\n" || (r.next == |input| && input[pos..] == r.line))
      && (r.ok <==> pos < |input|)
  {
    var j := FirstNewline(input, pos);
    var raw := input[pos..j];
    assert forall k :: 0 <= k < |raw| ==> raw[k] == input[pos + k];
    if j < |input| {
      assert input[pos..j + 1] == raw + "\n";
      if |raw| > 0 && raw[|raw| - 1] == '\r' {
        assert raw == raw[..|raw| - 1] + "\r";
      }
    }
  }

  // ---------------------------------------------------------------------
  // Calendar check of the date part of a date-time literal
  // ---------------------------------------------------------------------

  predicate IsLeapYear(year: int)
  {
    (year % 4 == 0 && year % 100 != 0) || year % 400 == 0
  }

  function DaysInMonth(year: int, month: int): nat
    requires 1 <= month <= 12
  {
    if month == 2 then (if IsLeapYear(year) then 29 else 28)
    else if month == 4 || month == 6 || month == 9 || month == 11 then 30
    else 31
  }

  /** The month and day fields are read as numbers only once the shape checks pass. */
  predicate DateFieldsAreDigits(d: string)
  {
    |d| == 10 && d[4] == '-' && d[7] == '-' ==> IsDigit(d[5]) && IsDigit(d[6]) && IsDigit(d[8]) && IsDigit(d[9])
  }

  /** YYYY-MM-DD with year at least 1, a month 1..12 and a day within the month. */
  predicate IsValidDate(d: string)
    requires DateFieldsAreDigits(d)
  {
    if |d| != 10 || d[4] != '-' || d[7] != '-' then false
    else if !(IsDigit(d[0]) && IsDigit(d[1]) && IsDigit(d[2]) && IsDigit(d[3])) then false
    else
      var year := DigitValue(d[0]) * 1000 + DigitValue(d[1]) * 100 + DigitValue(d[2]) * 10 + DigitValue(d[3]);
      var month := DigitValue(d[5]) * 10 + DigitValue(d[6]);
      var day := DigitValue(d[8]) * 10 + DigitValue(d[9]);
      if year < 1 || month < 1 || month > 12 then false
      else 1 <= day <= DaysInMonth(year, month)
  }

  /** A February 29 is a valid date exactly in Gregorian leap years. */
  lemma LeapDay(d: string)
    requires |d| == 10 && d[4] == '-' && d[7] == '-'
    requires forall k :: 0 <= k < 4 ==> IsDigit(d[k])
    requires d[5..] == "02-29"
    ensures DateFieldsAreDigits(d)
    ensures IsValidDate(d) <==>
      var year := DigitValue(d[0]) * 1000 + DigitValue(d[1]) * 100 + DigitValue(d[2]) * 10 + DigitValue(d[3]);
      year >= 1 && IsLeapYear(year)
  {
    assert d[5] == d[5..][0] && d[6] == d[5..][1] && d[8] == d[5..][3] && d[9] == d[5..][4];
  }

  function YearLength(year: int): nat
  {
    DaysInMonth(year, 1) + DaysInMonth(year, 2) + DaysInMonth(year, 3) + DaysInMonth(year, 4)
    + DaysInMonth(year, 5) + DaysInMonth(year, 6) + DaysInMonth(year, 7) + DaysInMonth(year, 8)
    + DaysInMonth(year, 9) + DaysInMonth(year, 10) + DaysInMonth(year, 11) + DaysInMonth(year, 12)
  }

  /** The month table gives 365 days, or 366 in leap years. */
  lemma CalendarYear(year: int)
    ensures YearLength(year) == if IsLeapYear(year) then 366 else 365
  {
    assert DaysInMonth(year, 2) == if IsLeapYear(year) then 29 else 28;
  }

  /** The leap-year rule repeats every 400 years. */
  lemma LeapYearCycle(year: int)
    ensures IsLeapYear(year) == IsLeapYear(year + 400)
  {
    PeriodOf4(year);
    PeriodOf100(year);
    PeriodOf400(year);
  }

  lemma PeriodOf4(year: int)
    ensures (year + 400) % 4 == year % 4
  {
    assert year + 400 == 4 * (year / 4 + 100) + year % 4;
  }

  lemma PeriodOf100(year: int)
    ensures (year + 400) % 100 == year % 100
  {
    assert year + 400 == 100 * (year / 100 + 4) + year % 100;
  }

  lemma PeriodOf400(year: int)
    ensures (year + 400) % 400 == year % 400
  {
    assert year + 400 == 400 * (year / 400 + 1) + year % 400;
  }
}
