// Exact JSON numbers: the Decimal value the parser builds (sign, unscaled
// digits with zeros stripped, int32 exponent) and the canonical text
// emitNumber writes for it.

module JsonNumber {

  import opened Utf8
  import opened JsonBigInt

  /** (-1)^neg · unscaled · 10^exp10, with exp10 stored as an int32. */
  datatype Decimal = Decimal(neg: bool, unscaled: seq<nat>, exp10: int)

  const Zero := Decimal(false, [], 0)

  predicate IsInt32(x: int) { -0x8000_0000 <= x < 0x8000_0000 }

  /** int32_t(x): two's-complement truncation to 32 bits. */
  function Int32(x: int): (r: int)
    ensures IsInt32(r)
    ensures IsInt32(x) ==> r == x
  {
    (x + 0x8000_0000) % 0x1_0000_0000 - 0x8000_0000
  }

  /** The invariant every Decimal the library builds keeps: trimmed digit limbs, an int32 exponent, no negative zero. */
  predicate WellFormed(d: Decimal)
  {
    Limbs(d.unscaled) && Trimmed(d.unscaled) && IsInt32(d.exp10) && (|d.unscaled| == 0 ==> !d.neg)
  }

  /** Decimal(I x): the integral constructor, for any integer type up to 64 bits. */
  method FromInteger(x: int) returns (d: Decimal)
    requires -0x8000_0000_0000_0000 <= x <= MaxU64
    ensures WellFormed(d) && d.exp10 == 0
    ensures Val(d.unscaled) == (if x < 0 then -x else x)
    ensures d.neg <==> x < 0
  {
    var neg := x < 0;
    var mag: nat := if x < 0 then -x else x;
    var n := BigInt.FromUint64(mag);
    ZeroIffEmpty(n.limb);
    if n.IsZero() {
      neg := false;
    }
    d := Decimal(neg, n.limb, 0);
  }

  // ---------------------------------------------------------------------
  // Digit strings
  // ---------------------------------------------------------------------

  predicate AllDigits(s: seq<Byte>)
  {
    forall i :: 0 <= i < |s| ==> IsDigitByte(s[i])
  }

  function Zeros(n: nat): (z: seq<Byte>)
    ensures |z| == n && AllDigits(z)
  {
    seq(n, _ => 0x30)
  }

  /** find_first_not_of('0'): the index of the first non-zero byte, or |s|. */
  function FirstNonZero(s: seq<Byte>): (i: nat)
    ensures i <= |s|
    ensures forall j :: 0 <= j < i ==> s[j] == 0x30
    ensures i < |s| ==> s[i] != 0x30
  {
    if |s| == 0 || s[0] != 0x30 then 0 else 1 + FirstNonZero(s[1..])
  }

  /** How many '0' bytes end s. */
  function TrailingZeros(s: seq<Byte>): (tz: nat)
    ensures tz <= |s|
    ensures forall j :: |s| - tz <= j < |s| ==> s[j] == 0x30
    ensures tz < |s| ==> s[|s| - tz - 1] != 0x30
    decreases |s|
  {
    if |s| == 0 || s[|s| - 1] != 0x30 then 0 else 1 + TrailingZeros(s[..|s| - 1])
  }

  /** s without its trailing '0' bytes. */
  function TrimZeros(s: seq<Byte>): (t: seq<Byte>)
    ensures |t| <= |s| && t == s[..|t|]
    ensures |t| > 0 ==> t[|t| - 1] != 0x30
  {
    s[..|s| - TrailingZeros(s)]
  }

  /** A run of '0' bytes ending at m, preceded by a non-zero byte or nothing, is exactly the trailing zeros. */
  lemma TrailingZerosUnique(s: seq<Byte>, m: nat)
    requires m <= |s| && (forall j :: m <= j < |s| ==> s[j] == 0x30) && (m == 0 || s[m - 1] != 0x30)
    ensures m == |s| - TrailingZeros(s)
  {
  }

  lemma {:induction false} LeadingZerosDontCount(z: seq<Byte>, t: seq<Byte>)
    requires AllDigits(t) && forall j :: 0 <= j < |z| ==> z[j] == 0x30
    ensures AllDigits(z + t) && DigitsValue(z + t) == DigitsValue(t)
    decreases |t|
  {
    if |t| == 0 {
      assert z + t == z;
      AllZerosValue(z);
    } else {
      var n := |t| - 1;
      assert (z + t)[..|z + t| - 1] == z + t[..n];
      LeadingZerosDontCount(z, t[..n]);
    }
  }

  lemma {:induction false} AllZerosValue(z: seq<Byte>)
    requires forall j :: 0 <= j < |z| ==> z[j] == 0x30
    ensures AllDigits(z) && DigitsValue(z) == 0
    decreases |z|
  {
    if |z| > 0 {
      AllZerosValue(z[..|z| - 1]);
    }
  }

  lemma {:induction false} TrailingZerosScale(c: seq<Byte>, n: nat)
    requires AllDigits(c)
    ensures AllDigits(c + Zeros(n)) && DigitsValue(c + Zeros(n)) == DigitsValue(c) * Pow(10, n)
    decreases n
  {
    if n > 0 {
      TrailingZerosScale(c, n - 1);
      assert (c + Zeros(n))[..|c| + n - 1] == c + Zeros(n - 1);
      assert DigitsValue(c) * Pow(10, n) == 10 * (DigitsValue(c) * Pow(10, n - 1));
    } else {
      assert c + Zeros(0) == c;
    }
  }

  /** Stripping zeros from the front does not change how many end the string, once a non-zero byte remains. */
  lemma {:induction false} TrailingZerosOfSuffix(a: seq<Byte>, b: seq<Byte>)
    requires exists j :: 0 <= j < |b| && b[j] != 0x30
    ensures TrailingZeros(a + b) == TrailingZeros(b)
    decreases |b|
  {
    var n := |b| - 1;
    if b[n] == 0x30 {
      var j :| 0 <= j < |b| && b[j] != 0x30;
      assert b[..n][j] == b[j];
      assert (a + b)[..|a + b| - 1] == a + b[..n];
      TrailingZerosOfSuffix(a, b[..n]);
    }
  }

  // ---------------------------------------------------------------------
  // The value parseNumber builds
  // ---------------------------------------------------------------------

  const ExpClamp: nat := 2000000000

  /** The exponent digits accumulated with the clamp to 2·10^9 after every digit. */
  function ClampedExp(s: seq<Byte>): nat
    requires AllDigits(s)
  {
    if |s| == 0 then 0
    else
      var e := 10 * ClampedExp(s[..|s| - 1]) + DigitOf(s[|s| - 1]);
      if e > ExpClamp then ExpClamp else e
  }

  /** Clamping after every digit is clamping the whole exponent once. */
  lemma {:induction false} ClampedExpIsMin(s: seq<Byte>)
    requires AllDigits(s)
    ensures ClampedExp(s) == if DigitsValue(s) > ExpClamp then ExpClamp else DigitsValue(s)
    decreases |s|
  {
    if |s| > 0 {
      ClampedExpIsMin(s[..|s| - 1]);
    }
  }

  /** The digits after the leading zeros. */
  function Stripped(combined: seq<Byte>): (t: seq<Byte>)
    requires AllDigits(combined)
    ensures AllDigits(t) && |t| <= |combined|
  {
    combined[FirstNonZero(combined)..]
  }

  /** The stripped digits without their trailing zeros. */
  function Core(stripped: seq<Byte>): (c: seq<Byte>)
    requires AllDigits(stripped)
    ensures AllDigits(c)
  {
    stripped[..|stripped| - TrailingZeros(stripped)]
  }

  /** The normalisation at the end of parseNumber: digits joined, leading zeros stripped, trailing zeros moved into the exponent. */
  function Normalize(neg: bool, intDigits: seq<Byte>, fracDigits: seq<Byte>, expPart: int): Decimal
    requires AllDigits(intDigits) && AllDigits(fracDigits)
  {
    var stripped := Stripped(intDigits + fracDigits);
    if |stripped| == 0 then Zero
    else
      var limbs := NatLimbs(DigitsValue(Core(stripped)));
      Decimal(neg && |limbs| > 0, limbs, Int32(expPart - |fracDigits| + TrailingZeros(stripped)))
  }

  /** The normalised number is exact: its digits times 10^tz are the digits read, and the exponent absorbs tz. */
  lemma NormalizeFacts(neg: bool, intDigits: seq<Byte>, fracDigits: seq<Byte>, expPart: int)
    requires AllDigits(intDigits) && AllDigits(fracDigits)
    ensures AllDigits(intDigits + fracDigits)
    ensures WellFormed(Normalize(neg, intDigits, fracDigits, expPart))
    ensures DigitsValue(intDigits + fracDigits) == 0 <==> Normalize(neg, intDigits, fracDigits, expPart) == Zero
    ensures DigitsValue(intDigits + fracDigits) > 0 ==>
      ExactShape(Normalize(neg, intDigits, fracDigits, expPart), neg, intDigits + fracDigits, |fracDigits|, expPart)
  {
    var combined := intDigits + fracDigits;
    assert AllDigits(combined);
    if |Stripped(combined)| > 0 {
      NormalizeNonZero(neg, intDigits, fracDigits, expPart);
    } else {
      AllZerosRead(combined);
    }
  }

  /** Digits that are all leading zeros read as zero. */
  lemma AllZerosRead(combined: seq<Byte>)
    requires AllDigits(combined) && |Stripped(combined)| == 0
    ensures DigitsValue(combined) == 0
  {
    var i := FirstNonZero(combined);
    LeadingZerosDontCount(combined[..i], combined[i..]);
    assert combined[..i] + combined[i..] == combined;
  }

  /** The non-zero case of Normalize: the limbs of the core digits, the trailing zeros in the exponent. */
  lemma NormalizeNonZero(neg: bool, intDigits: seq<Byte>, fracDigits: seq<Byte>, expPart: int)
    requires AllDigits(intDigits) && AllDigits(fracDigits)
    requires AllDigits(intDigits + fracDigits) && |Stripped(intDigits + fracDigits)| > 0
    ensures DigitsValue(intDigits + fracDigits) > 0
    ensures WellFormed(Normalize(neg, intDigits, fracDigits, expPart))
    ensures Normalize(neg, intDigits, fracDigits, expPart) != Zero
    ensures ExactShape(Normalize(neg, intDigits, fracDigits, expPart), neg, intDigits + fracDigits, |fracDigits|, expPart)
  {
    var combined := intDigits + fracDigits;
    var stripped := Stripped(combined);
    var tz := TrailingZeros(stripped);
    CombinedFacts(combined);
    var limbs := NatLimbs(DigitsValue(Core(stripped)));
    var d := Normalize(neg, intDigits, fracDigits, expPart);
    assert d == Decimal(neg, limbs, Int32(expPart - |fracDigits| + tz));
    ExactShapeIntro(d, neg, combined, |fracDigits|, expPart, tz);
  }

  /** The digits read, split into leading zeros, core and trailing zeros. */
  lemma CombinedFacts(combined: seq<Byte>)
    requires AllDigits(combined) && |Stripped(combined)| > 0
    ensures var stripped := Stripped(combined); var tz := TrailingZeros(stripped); var core := DigitsValue(Core(stripped));
      && DigitsValue(combined) > 0
      && TrailingZeros(combined) == tz
      && core % 10 != 0
      && DigitsValue(combined) == core * Pow(10, tz)
      && Val(NatLimbs(core)) == core && Limbs(NatLimbs(core)) && Trimmed(NatLimbs(core)) && |NatLimbs(core)| > 0
  {
    var i := FirstNonZero(combined);
    var stripped := Stripped(combined);
    assert combined[..i] + stripped == combined;
    LeadingZerosDontCount(combined[..i], stripped);
    StrippedFacts(stripped);
    assert stripped[0] != 0x30;
    TrailingZerosOfSuffix(combined[..i], stripped);
    var tz := TrailingZeros(stripped);
    var core := DigitsValue(Core(stripped));
    PowPositive(10, tz);
    ProductPositive(core, Pow(10, tz));
  }

  lemma ExactShapeIntro(d: Decimal, neg: bool, combined: seq<Byte>, fracLen: nat, expPart: int, tz: nat)
    requires AllDigits(combined) && TrailingZeros(combined) == tz
    requires Val(d.unscaled) % 10 != 0 && Val(d.unscaled) * Pow(10, tz) == DigitsValue(combined)
    requires d.neg == neg && d.exp10 == Int32(expPart - fracLen + tz)
    ensures ExactShape(d, neg, combined, fracLen, expPart)
  {
  }

  lemma ProductPositive(a: nat, b: nat)
    requires a > 0 && b > 0
    ensures a * b > 0
  {
  }

  /** The exact-value shape of a non-zero parsed number. */
  predicate ExactShape(d: Decimal, neg: bool, combined: seq<Byte>, fracLen: nat, expPart: int)
    requires AllDigits(combined)
  {
    var tz := TrailingZeros(combined);
    && Val(d.unscaled) % 10 != 0
    && Val(d.unscaled) * Pow(10, tz) == DigitsValue(combined)
    && d.neg == neg
    && d.exp10 == Int32(expPart - fracLen + tz)
  }

  /** A digit string with a non-zero first digit is its core digits followed by its trailing zeros. */
  lemma StrippedFacts(stripped: seq<Byte>)
    requires AllDigits(stripped) && |stripped| > 0 && stripped[0] != 0x30
    ensures var tz := TrailingZeros(stripped); var core := Core(stripped);
      && |core| > 0
      && DigitsValue(core) % 10 != 0
      && DigitsValue(stripped) == DigitsValue(core) * Pow(10, tz)
      && Val(NatLimbs(DigitsValue(core))) == DigitsValue(core)
      && Limbs(NatLimbs(DigitsValue(core))) && Trimmed(NatLimbs(DigitsValue(core)))
      && |NatLimbs(DigitsValue(core))| > 0
  {
    SplitTrailing(stripped);
    TrailingZerosScale(Core(stripped), TrailingZeros(stripped));
    CoreLastDigit(stripped);
    U64Facts(DigitsValue(Core(stripped)));
  }

  lemma SplitTrailing(s: seq<Byte>)
    requires AllDigits(s)
    ensures s == Core(s) + Zeros(TrailingZeros(s))
  {
  }

  /** The core of a string that starts with a non-zero digit is non-empty and ends in a non-zero digit. */
  lemma CoreLastDigit(s: seq<Byte>)
    requires AllDigits(s) && |s| > 0 && s[0] != 0x30
    ensures |Core(s)| > 0 && DigitsValue(Core(s)) % 10 != 0
  {
    var core := Core(s);
    var n := |core| - 1;
    assert core[n] != 0x30;
    assert core[..n] + [core[n]] == core;
    TenthDigit(DigitsValue(core[..n]), DigitOf(core[n]));
  }

  lemma TenthDigit(x: nat, d: nat)
    requires d < 10
    ensures (10 * x + d) % 10 == d && (10 * x + d) / 10 == x
  {
  }

  lemma U64Facts(n: nat)
    ensures Val(NatLimbs(n)) == n && Limbs(NatLimbs(n)) && Trimmed(NatLimbs(n))
    ensures |NatLimbs(n)| == 0 <==> n == 0
  {
    NatLimbsFacts(n);
    ZeroIffEmpty(NatLimbs(n));
  }

  // ---------------------------------------------------------------------
  // emitNumber: the canonical text, fixed or scientific, whichever is shorter
  // ---------------------------------------------------------------------

  /** The fixed rendering of digits s times 10^k. */
  function FixedText(s: seq<Byte>, k: int): seq<Byte>
  {
    if k >= 0 then s + Zeros(k)
    else
      var pos := |s| + k;
      if pos > 0 then
        var frac := TrimZeros(s[pos..]);
        if |frac| == 0 then s[..pos] else s[..pos] + [0x2E] + frac
      else [0x30, 0x2E] + Zeros(-pos) + s
  }

  function FixedLen(s: seq<Byte>, k: int): int
  {
    if k >= 0 then |s| + k
    else if |s| + k > 0 then |s| + 1
    else 2 - (|s| + k) + |s|
  }

  /** The scientific rendering d[.rest]e[-]E, with trailing zeros of the mantissa dropped and no '+'. */
  function SciText(s: seq<Byte>, e: int): seq<Byte>
    requires |s| > 0
  {
    Mantissa(s) + [0x65] + (if e < 0 then [0x2D] else []) + DecimalString(if e < 0 then -e else e)
  }

  /** The mantissa of the scientific rendering: the first digit, then a point and the other digits without trailing zeros, if any remain. */
  function Mantissa(s: seq<Byte>): seq<Byte>
    requires |s| > 0
  {
    var rest := if |s| > 1 then TrimZeros(s[1..]) else [];
    [s[0]] + (if |rest| > 0 then [0x2E] + rest else [])
  }

  /** The length emitNumber estimates for the scientific form. */
  function SciLen(s: seq<Byte>, e: int): int
  {
    1 + (if |s| > 1 then 1 + (|s| - 1) else 0) + 1 + (if e < 0 then 1 else 0) + 11
  }

  /** The digits s times 10^k in the shorter of the two forms, ties going to the fixed one. */
  function NumberBody(s: seq<Byte>, k: int): seq<Byte>
    requires |s| > 0
  {
    var e := |s| - 1 + k;
    if SciLen(s, e) < FixedLen(s, k) then SciText(s, e) else FixedText(s, k)
  }

  /** The text dump writes for a number. */
  function NumberText(d: Decimal): (t: seq<Byte>)
    requires Limbs(d.unscaled)
  {
    if |d.unscaled| == 0 then [0x30]
    else (if d.neg then [0x2D] else []) + NumberBody(DecimalString(Val(d.unscaled)), d.exp10)
  }

  /** emitNumber: appends the canonical text of d to out. */
  method EmitNumber(d: Decimal, out: seq<Byte>) returns (o: seq<Byte>)
    requires Limbs(d.unscaled)
    ensures o == out + NumberText(d)
  {
    var b := new BigInt();
    b.limb := d.unscaled;
    if b.IsZero() {
      assert NumberText(d) == [0x30];
      return out + [0x30];
    }
    o := out;
    if d.neg {
      o := o + [0x2D];
    }
    ghost var sign := if d.neg then [0x2D] else [];
    assert o == out + sign;
    var s := b.ToDecimalString();
    DigitsOfDecimal(Val(d.unscaled));
    var k := d.exp10;
    var e := |s| - 1 + k;
    var fixedLen;
    if k >= 0 {
      fixedLen := |s| + k;
    } else if |s| + k > 0 {
      fixedLen := |s| + 1;
    } else {
      fixedLen := 2 - (|s| + k) + |s|;
    }
    var sciLen := 1 + (if |s| > 1 then 1 + (|s| - 1) else 0) + 1 + (if e < 0 then 1 else 0) + 11;
    assert fixedLen == FixedLen(s, k) && sciLen == SciLen(s, e);
    ghost var body := NumberBody(s, k);
    assert NumberText(d) == sign + body;
    if sciLen < fixedLen {
      assert body == SciText(s, e);
      o := EmitSci(o, s, e);
    } else {
      assert body == FixedText(s, k);
      o := EmitFixed(o, s, k);
    }
    AppendAssoc(out, sign, body);
  }

  lemma AppendAssoc(a: seq<Byte>, b: seq<Byte>, c: seq<Byte>)
    ensures (a + b) + c == a + (b + c)
  {
  }

  /** emit_fixed: digits with the decimal point placed by k, fraction zeros trimmed. */
  method EmitFixed(out: seq<Byte>, s: seq<Byte>, k: int) returns (o: seq<Byte>)
    requires AllDigits(s)
    ensures o == out + FixedText(s, k)
  {
    if k >= 0 {
      o := out + s + Zeros(k);
      AppendAssoc(out, s, Zeros(k));
      return;
    }
    var pos := |s| + k;
    if pos > 0 {
      o := EmitPointed(out, s, pos);
      assert s[pos..] == s[|s| + k..];
    } else {
      o := out + [0x30, 0x2E] + Zeros(-pos) + s;
      AppendAssoc(out, [0x30, 0x2E], Zeros(-pos));
      AppendAssoc(out, [0x30, 0x2E] + Zeros(-pos), s);
    }
  }

  /** emit_fixed with the decimal point inside the digits: the integer digits, the point, the fraction without its trailing zeros. */
  method EmitPointed(out: seq<Byte>, s: seq<Byte>, pos: nat) returns (o: seq<Byte>)
    requires AllDigits(s) && 0 < pos <= |s|
    ensures var frac := TrimZeros(s[pos..]); o == out + if |frac| == 0 then s[..pos] else s[..pos] + [0x2E] + frac
  {
    var head := out + s[..pos] + [0x2E];
    var frac := s[pos..];
    TrimAfterPoint(head, frac);
    o := PopZeros(head + frac);
    ghost var frac' := TrimZeros(frac);
    ghost var text := if |frac'| == 0 then s[..pos] else s[..pos] + [0x2E] + frac';
    AppendAssoc(out, s[..pos], [0x2E]);
    if o[|o| - 1] == 0x2E {
      o := o[..|o| - 1];
      assert text == s[..pos];
      assert o == out + s[..pos];
    } else {
      assert text == s[..pos] + [0x2E] + TrimZeros(frac);
      AppendAssoc(out, s[..pos] + [0x2E], TrimZeros(frac));
    }
  }

  /** The trim loop of emit_fixed: pops '0' bytes off the end while there are any. */
  method PopZeros(t: seq<Byte>) returns (o: seq<Byte>)
    requires exists j :: 0 <= j < |t| && t[j] != 0x30
    ensures o == t[..|t| - TrailingZeros(t)]
  {
    ghost var j :| 0 <= j < |t| && t[j] != 0x30;
    o := t;
    while o[|o| - 1] == 0x30
      invariant j < |o| <= |t| && o == t[..|o|]
      invariant forall i :: |o| <= i < |t| ==> t[i] == 0x30
      decreases |o|
    {
      o := o[..|o| - 1];
    }
    TrailingZerosUnique(t, |o|);
  }

  /** Trimming zeros after a non-zero byte trims only the part after it. */
  lemma TrimAfterPoint(head: seq<Byte>, frac: seq<Byte>)
    requires |head| > 0 && head[|head| - 1] != 0x30
    ensures exists j :: 0 <= j < |head + frac| && (head + frac)[j] != 0x30
    ensures var t := head + frac; t[..|t| - TrailingZeros(t)] == head + TrimZeros(frac)
  {
    var t := head + frac;
    assert t[|head| - 1] != 0x30;
    var m := |head| + |TrimZeros(frac)|;
    TrailingZerosUnique(t, m);
    assert t[..m] == head + TrimZeros(frac);
  }

  /** emit_sci: the mantissa, then 'e', a '-' for a negative exponent and the exponent's digits. */
  method EmitSci(out: seq<Byte>, s: seq<Byte>, e: int) returns (o: seq<Byte>)
    requires |s| > 0 && AllDigits(s)
    ensures o == out + SciText(s, e)
  {
    o := EmitMantissa(out, s);
    o := o + [0x65];
    var mag := e;
    if mag < 0 {
      o := o + [0x2D];
      mag := -mag;
    }
    assert o == out + Mantissa(s) + [0x65] + (if e < 0 then [0x2D] else []);
    o := o + DecimalString(mag);
  }

  /** The mantissa part of emit_sci: the trailing zeros are found by scanning back from the last digit. */
  method EmitMantissa(out: seq<Byte>, s: seq<Byte>) returns (o: seq<Byte>)
    requires |s| > 0 && AllDigits(s)
    ensures o == out + Mantissa(s)
  {
    o := out + [s[0]];
    if |s| > 1 {
      ghost var rest := TrimZeros(s[1..]);
      o := o + [0x2E];
      var last := |s| - 1;
      while last > 0 && s[last] == 0x30
        invariant 0 <= last < |s|
        invariant forall j :: last < j < |s| ==> s[j] == 0x30
      {
        last := last - 1;
      }
      TrailingZerosUnique(s[1..], last);
      assert rest == s[1..last + 1];
      o := o + s[1..last + 1];
      if o[|o| - 1] == 0x2E {
        assert last == 0;
        o := o[..|o| - 1];
        assert o == out + [s[0]];
      } else {
        assert last > 0;
        assert o == out + [s[0]] + [0x2E] + rest;
        AppendAssoc(out + [s[0]], [0x2E], rest);
        AppendAssoc(out, [s[0]], [0x2E] + rest);
      }
    }
  }
}
