// The exact-decimal core of the JSON library: an unsigned big integer held
// as little-endian base-10^9 limbs, updated in place, and its decimal text.
// Limbs are uint32 and the temporaries uint64 in the library; the bounds
// proved below (every limb below 10^9, every carry at most 10^9) keep them
// in range, so the model uses unbounded naturals.

module JsonBigInt {

  import opened Utf8

  const Base: nat := 1000000000
  const MaxU64: nat := 0xFFFF_FFFF_FFFF_FFFF

  function Pow(b: nat, e: nat): nat
  {
    if e == 0 then 1 else b * Pow(b, e - 1)
  }

  /** The number the little-endian limbs stand for. */
  function Val(l: seq<nat>): nat
  {
    if |l| == 0 then 0 else l[0] + Base * Val(l[1..])
  }

  /** Every limb is a base-10^9 digit. */
  predicate Limbs(l: seq<nat>)
  {
    forall i :: 0 <= i < |l| ==> l[i] < Base
  }

  /** No high zero limb. */
  predicate Trimmed(l: seq<nat>)
  {
    |l| == 0 || l[|l| - 1] != 0
  }

  // ---------------------------------------------------------------------
  // Facts about Val
  // ---------------------------------------------------------------------

  lemma {:induction false} ValSnoc(l: seq<nat>, x: nat)
    ensures Val(l + [x]) == Val(l) + Pow(Base, |l|) * x
    decreases |l|
  {
    if |l| > 0 {
      assert (l + [x])[1..] == l[1..] + [x];
      ValSnoc(l[1..], x);
      calc {
        Val(l + [x]);
        l[0] + Base * Val(l[1..] + [x]);
        l[0] + Base * (Val(l[1..]) + Pow(Base, |l| - 1) * x);
        { assert Base * (Pow(Base, |l| - 1) * x) == Pow(Base, |l|) * x; }
        Val(l) + Pow(Base, |l|) * x;
      }
    } else {
      assert l + [x] == [x];
      assert [x][1..] == [];
    }
  }

  /** The loop step from the low end: one more limb of the prefix. */
  lemma ValPrefixStep(l: seq<nat>, i: nat)
    requires i < |l|
    ensures Val(l[..i + 1]) == Val(l[..i]) + Pow(Base, i) * l[i]
  {
    assert l[..i + 1] == l[..i] + [l[i]];
    ValSnoc(l[..i], l[i]);
  }

  /** The loop step from the high end: one more limb of the suffix. */
  lemma ValSuffixStep(l: seq<nat>, i: nat)
    requires i < |l|
    ensures Val(l[i..]) == l[i] + Base * Val(l[i + 1..])
  {
    assert l[i..][1..] == l[i + 1..];
  }

  lemma {:induction false} ValBelow(l: seq<nat>)
    requires Limbs(l)
    ensures Val(l) < Pow(Base, |l|)
    decreases |l|
  {
    if |l| > 0 {
      ValBelow(l[1..]);
      assert Val(l[1..]) + 1 <= Pow(Base, |l| - 1);
      assert Base * (Val(l[1..]) + 1) <= Base * Pow(Base, |l| - 1);
    }
  }

  /** A trimmed non-empty number is at least Base^(n-1): the limbs are the shortest digits. */
  lemma ValAtLeast(l: seq<nat>)
    requires |l| > 0 && Trimmed(l)
    ensures Val(l) >= Pow(Base, |l| - 1)
  {
    var n := |l| - 1;
    assert l == l[..n] + [l[n]];
    ValSnoc(l[..n], l[n]);
    assert Pow(Base, n) * l[n] >= Pow(Base, n);
  }

  /** For trimmed limbs, the value is zero exactly when there are no limbs. */
  lemma ZeroIffEmpty(l: seq<nat>)
    ensures Trimmed(l) ==> (Val(l) == 0 <==> |l| == 0)
  {
    if |l| > 0 && Trimmed(l) {
      ValAtLeast(l);
      PowPositive(Base, |l| - 1);
    }
  }

  lemma {:induction false} PowPositive(b: nat, e: nat)
    requires b > 0
    ensures Pow(b, e) > 0
  {
    if e > 0 {
      PowPositive(b, e - 1);
    }
  }

  /** Trimmed limbs of a value below Base^k number at most k. */
  lemma LengthBound(l: seq<nat>, k: nat)
    requires Trimmed(l) && Val(l) < Pow(Base, k)
    ensures |l| <= k
  {
    if |l| > k {
      ValAtLeast(l);
      PowMonotone(k, |l| - 1);
    }
  }

  lemma {:induction false} PowMonotone(i: nat, j: nat)
    requires i <= j
    ensures Pow(Base, i) <= Pow(Base, j)
    decreases j - i
  {
    if i < j {
      PowMonotone(i + 1, j);
      assert Pow(Base, i + 1) == Base * Pow(Base, i);
    }
  }

  // ---------------------------------------------------------------------
  // The limb-level results of the arithmetic loops
  // ---------------------------------------------------------------------

  /** The limbs mul_small and mul10_add leave: each limb times k plus the running carry, the last carry appended. */
  function MulAddLimbs(l: seq<nat>, k: nat, carry: nat): seq<nat>
    decreases |l|
  {
    if |l| == 0 then (if carry > 0 then [carry] else [])
    else var v := l[0] * k + carry; [v % Base] + MulAddLimbs(l[1..], k, v / Base)
  }

  /** One step of the multiply loop: the uint64 temporary does not overflow and the carry stays a digit. */
  lemma MulStepBound(x: nat, k: nat, carry: nat)
    requires x < Base && k <= Base && carry < Base
    ensures (x * k + carry) / Base < Base
    ensures x * k + carry < 0x1_0000_0000_0000_0000
    ensures x > 0 && k > 0 ==> (x * k + carry) % Base != 0 || (x * k + carry) / Base != 0
  {
    var v := x * k + carry;
    assert x * k <= (Base - 1) * Base by {
      assert x * k <= x * Base;
      assert x * Base <= (Base - 1) * Base;
    }
    assert v == Base * (v / Base) + v % Base;
    assert x > 0 && k > 0 ==> v > 0;
  }

  /** mul_small and mul10_add compute k·v + carry, keep every limb a digit and keep trimmed limbs trimmed. */
  lemma {:induction false} MulAddLimbsFacts(l: seq<nat>, k: nat, carry: nat)
    requires Limbs(l) && k <= Base && carry < Base
    ensures Val(MulAddLimbs(l, k, carry)) == k * Val(l) + carry
    ensures Limbs(MulAddLimbs(l, k, carry))
    ensures |MulAddLimbs(l, k, carry)| >= |l|
    ensures k > 0 && Trimmed(l) ==> Trimmed(MulAddLimbs(l, k, carry))
    decreases |l|
  {
    if |l| > 0 {
      var v := l[0] * k + carry;
      MulStepBound(l[0], k, carry);
      MulAddLimbsFacts(l[1..], k, v / Base);
      var t := MulAddLimbs(l[1..], k, v / Base);
      var r := MulAddLimbs(l, k, carry);
      assert r == [v % Base] + t;
      assert r[1..] == t;
      assert v == Base * (v / Base) + v % Base;
      calc {
        Val(r);
        v % Base + Base * Val(t);
        v % Base + Base * (k * Val(l[1..]) + v / Base);
        v + Base * (k * Val(l[1..]));
        { MulAddArith(l[0], k, carry, Val(l[1..])); }
        k * (l[0] + Base * Val(l[1..])) + carry;
      }
      if |l| > 1 {
        assert l[1..][|l| - 2] == l[|l| - 1];
      }
    }
  }

  lemma MulAddArith(x: nat, k: nat, carry: nat, t: nat)
    ensures (x * k + carry) + Base * (k * t) == k * (x + Base * t) + carry
  {
    assert k * (x + Base * t) == k * x + k * (Base * t);
    assert k * (Base * t) == Base * (k * t);
  }

  /** The multiply loop's invariant over one more limb. */
  lemma MulAddSplit(o: seq<nat>, i: nat, k: nat, carry: nat, prefix: seq<nat>)
    requires i < |o|
    ensures prefix + MulAddLimbs(o[i..], k, carry)
         == (prefix + [(o[i] * k + carry) % Base]) + MulAddLimbs(o[i + 1..], k, (o[i] * k + carry) / Base)
  {
    assert o[i..][1..] == o[i + 1..];
  }

  /** One iteration of the multiply loop keeps its invariant. */
  lemma MulAddLoopStep(o: seq<nat>, l: seq<nat>, i: nat, k: nat, carry: nat, c0: nat)
    requires Limbs(o) && i < |l| == |o| && l[i..] == o[i..] && carry < Base && k <= Base
    requires l[..i] + MulAddLimbs(o[i..], k, carry) == MulAddLimbs(o, k, c0)
    ensures (l[i] * k + carry) / Base < Base
    ensures l[i := (l[i] * k + carry) % Base][i + 1..] == o[i + 1..]
    ensures l[i := (l[i] * k + carry) % Base][..i + 1] + MulAddLimbs(o[i + 1..], k, (l[i] * k + carry) / Base) == MulAddLimbs(o, k, c0)
  {
    assert l[i] == o[i];
    var v := l[i] * k + carry;
    MulStepBound(l[i], k, carry);
    MulAddSplit(o, i, k, carry, l[..i]);
    var l' := l[i := v % Base];
    assert l'[..i + 1] == l[..i] + [v % Base];
  }

  /** div_small from the top limb down: the quotient limbs and the remainder. */
  function DivTop(l: seq<nat>, m: nat): (seq<nat>, nat)
    requires m > 0
    decreases |l|
  {
    if |l| == 0 then ([], 0)
    else
      var high := DivTop(l[1..], m);
      var cur := l[0] + high.1 * Base;
      ([cur / m] + high.0, cur % m)
  }

  /** One step of the divide loop: the new limb is a digit and the value splits into quotient and remainder. */
  lemma DivStep(x: nat, rem: nat, m: nat, q: nat, t: nat)
    requires 0 < m && rem < m && x < Base && t == m * q + rem
    ensures (x + rem * Base) / m < Base
    ensures x + Base * t == m * ((x + rem * Base) / m + Base * q) + (x + rem * Base) % m
  {
    var cur := x + rem * Base;
    assert cur < m * Base by {
      assert rem * Base <= (m - 1) * Base;
    }
    assert cur == m * (cur / m) + cur % m;
    assert (cur / m) * m <= cur;
  }

  /** div_small leaves the quotient and returns the remainder: v == m·q + r with r < m. */
  lemma {:induction false} DivTopFacts(l: seq<nat>, m: nat)
    requires Limbs(l) && 0 < m
    ensures Val(l) == m * Val(DivTop(l, m).0) + DivTop(l, m).1
    ensures DivTop(l, m).1 < m && Limbs(DivTop(l, m).0) && |DivTop(l, m).0| == |l|
    decreases |l|
  {
    if |l| > 0 {
      var high := DivTop(l[1..], m);
      DivTopFacts(l[1..], m);
      DivStep(l[0], high.1, m, Val(high.0), Val(l[1..]));
      var cur := l[0] + high.1 * Base;
      var q := [cur / m] + high.0;
      assert DivTop(l, m) == (q, cur % m);
      assert q[1..] == high.0;
      assert Val(q) == cur / m + Base * Val(high.0);
      assert Val(l) == l[0] + Base * Val(l[1..]);
    }
  }

  /** The canonical limbs of w, as from_uint64 pushes them: the base-10^9 digits, low first. */
  function NatLimbs(w: nat): seq<nat>
    decreases w
  {
    if w == 0 then [] else [w % Base] + NatLimbs(w / Base)
  }

  lemma {:induction false} NatLimbsFacts(w: nat)
    ensures Val(NatLimbs(w)) == w && Limbs(NatLimbs(w)) && Trimmed(NatLimbs(w))
    decreases w
  {
    if w > 0 {
      NatLimbsFacts(w / Base);
      var t := NatLimbs(w / Base);
      assert NatLimbs(w)[1..] == t;
      assert w == Base * (w / Base) + w % Base;
      if w / Base > 0 {
        ZeroIffEmpty(t);
        assert NatLimbs(w)[|NatLimbs(w)| - 1] == t[|t| - 1];
      }
    }
  }

  /** Trimmed limbs are the canonical limbs of their value: the representation is unique. */
  lemma {:induction false} CanonicalLimbs(l: seq<nat>)
    requires Limbs(l) && Trimmed(l)
    ensures l == NatLimbs(Val(l))
    decreases |l|
  {
    if |l| > 0 {
      ZeroIffEmpty(l);
      var t := l[1..];
      assert Trimmed(t) by {
        if |t| > 0 {
          assert t[|t| - 1] == l[|l| - 1];
        }
      }
      CanonicalLimbs(t);
      var v := Val(l);
      assert v == l[0] + Base * Val(t);
      assert v % Base == l[0] && v / Base == Val(t);
    }
  }

  /** Val distributes over concatenation, shifting the high part by the length of the low part. */
  lemma {:induction false} ValConcat(a: seq<nat>, b: seq<nat>)
    ensures Val(a + b) == Val(a) + Pow(Base, |a|) * Val(b)
    decreases |a|
  {
    if |a| > 0 {
      assert (a + b)[1..] == a[1..] + b;
      ValConcat(a[1..], b);
      assert Base * (Pow(Base, |a| - 1) * Val(b)) == Pow(Base, |a|) * Val(b);
    } else {
      assert a + b == b;
    }
  }

  // ---------------------------------------------------------------------
  // Decimal text
  // ---------------------------------------------------------------------

  predicate IsDigitByte(b: Byte) { 0x30 <= b <= 0x39 }

  function DigitByte(n: nat): (b: Byte)
    requires n < 10
    ensures IsDigitByte(b)
  {
    0x30 + n
  }

  /** std::to_string of a natural number: its shortest decimal digits, "0" for zero. */
  function DecimalString(n: nat): (s: seq<Byte>)
    ensures |s| > 0
    decreases n
  {
    if n < 10 then [DigitByte(n)] else DecimalString(n / 10) + [DigitByte(n % 10)]
  }

  /** "%0ku": the low k decimal digits of b, zero-padded. */
  function Pad(b: nat, k: nat): (s: seq<Byte>)
    ensures |s| == k
  {
    if k == 0 then [] else Pad(b / 10, k - 1) + [DigitByte(b % 10)]
  }

  /** The value of a digit string, most significant first (Horner's rule). */
  function DigitsValue(s: seq<Byte>): nat
    requires forall i :: 0 <= i < |s| ==> IsDigitByte(s[i])
  {
    if |s| == 0 then 0 else 10 * DigitsValue(s[..|s| - 1]) + DigitOf(s[|s| - 1])
  }

  function DigitOf(b: Byte): (d: nat)
    requires IsDigitByte(b)
    ensures d < 10
  {
    b as int - 0x30
  }

  /** A digit string with no leading zero, other than "0" itself. */
  predicate Canonical(s: seq<Byte>)
  {
    |s| > 0 && (forall i :: 0 <= i < |s| ==> IsDigitByte(s[i])) && (|s| == 1 || s[0] != 0x30)
  }

  /** Writing a number in front of k padded digits: the decimal text of a·10^k + b. */
  lemma {:induction false} DecimalShift(a: nat, b: nat, k: nat)
    requires a > 0 && b < Pow(10, k)
    ensures DecimalString(a * Pow(10, k) + b) == DecimalString(a) + Pad(b, k)
    decreases k
  {
    if k > 0 {
      var p := Pow(10, k - 1);
      var n := a * Pow(10, k) + b;
      assert Pow(10, k) == 10 * p;
      assert b / 10 < p;
      assert n == (a * p + b / 10) * 10 + b % 10;
      PowPositive(10, k - 1);
      assert n >= 10;
      assert n / 10 == a * p + b / 10;
      assert n % 10 == b % 10;
      DecimalShift(a, b / 10, k - 1);
    }
  }

  /** One more base-10^9 limb below a non-zero number: nine more zero-padded digits. */
  lemma DecimalShiftBase(a: nat, b: nat)
    requires a > 0 && b < Base
    ensures DecimalString(a * Base + b) == DecimalString(a) + Pad(b, 9)
  {
    assert Base == Pow(10, 9);
    DecimalShift(a, b, 9);
  }

  /** The canonical digits are the decimal text of their value, and conversely. */
  lemma {:induction false} DecimalOfDigits(s: seq<Byte>)
    requires Canonical(s)
    ensures DecimalString(DigitsValue(s)) == s
    ensures |s| > 1 ==> DigitsValue(s) >= 10
    ensures DigitsValue(s) > 0 || s == [0x30]
    decreases |s|
  {
    var n := |s| - 1;
    if n > 0 {
      var init := s[..n];
      assert init[0] == s[0];
      DecimalOfDigits(init);
      var v := DigitsValue(init);
      assert v > 0;
      var d := DigitOf(s[n]);
      assert DigitsValue(s) == 10 * v + d;
      assert (10 * v + d) / 10 == v && (10 * v + d) % 10 == d;
      assert s == init + [s[n]];
    }
  }

  lemma {:induction false} DigitsOfDecimal(n: nat)
    ensures Canonical(DecimalString(n))
    ensures DigitsValue(DecimalString(n)) == n
    decreases n
  {
    if n >= 10 {
      var s := DecimalString(n);
      DigitsOfDecimal(n / 10);
      var t := DecimalString(n / 10);
      assert s[..|s| - 1] == t;
      assert s[0] == t[0];
    }
  }

  /** A longer prefix of a digit string is worth at least as much. */
  lemma {:induction false} DigitsValueGrows(s: seq<Byte>, i: nat, j: nat)
    requires i <= j <= |s| && forall k :: 0 <= k < |s| ==> IsDigitByte(s[k])
    ensures DigitsValue(s[..i]) <= DigitsValue(s[..j])
    decreases j - i
  {
    if i < j {
      DigitsValueGrows(s, i, j - 1);
      assert s[..j][..j - 1] == s[..j - 1];
    }
  }

  lemma DigitsValueStep(s: seq<Byte>, i: nat)
    requires i < |s| && forall k :: 0 <= k < |s| ==> IsDigitByte(s[k])
    ensures DigitsValue(s[..i + 1]) == 10 * DigitsValue(s[..i]) + (s[i] - 0x30)
  {
    assert s[..i + 1][..i] == s[..i];
  }

  // ---------------------------------------------------------------------
  // The big integer
  // ---------------------------------------------------------------------

  class BigInt {
    var limb: seq<nat>

    constructor()
      ensures limb == []
    {
      limb := [];
    }

    /** isZero: no limbs, which for trimmed limbs is the value 0. */
    function IsZero(): (z: bool)
      reads this
      ensures z <==> |limb| == 0
      ensures Trimmed(limb) ==> (z <==> Val(limb) == 0)
    {
      ZeroIffEmpty(limb);
      |limb| == 0
    }

    /** trim: drops high zero limbs, keeping the value. */
    method Trim()
      modifies this
      ensures Val(limb) == Val(old(limb)) && Trimmed(limb)
      ensures |limb| <= |old(limb)| && limb == old(limb)[..|limb|]
      ensures Limbs(old(limb)) ==> Limbs(limb)
      ensures Trimmed(old(limb)) ==> limb == old(limb)
    {
      while |limb| > 0 && limb[|limb| - 1] == 0
        invariant |limb| <= |old(limb)| && Val(limb) == Val(old(limb)) && limb == old(limb)[..|limb|]
        invariant Trimmed(old(limb)) ==> limb == old(limb)
      {
        var n := |limb| - 1;
        assert limb == limb[..n] + [0];
        ValSnoc(limb[..n], 0);
        limb := limb[..n];
      }
    }

    /** from_uint64: the limbs of v. */
    static method FromUint64(v: nat) returns (n: BigInt)
      requires v <= MaxU64
      ensures fresh(n) && n.limb == NatLimbs(v)
      ensures Val(n.limb) == v && Limbs(n.limb) && Trimmed(n.limb)
    {
      n := new BigInt();
      var w: nat := v;
      while w > 0
        invariant n.limb + NatLimbs(w) == NatLimbs(v)
        decreases w
      {
        assert NatLimbs(w) == [w % Base] + NatLimbs(w / Base);
        assert n.limb + NatLimbs(w) == (n.limb + [w % Base]) + NatLimbs(w / Base);
        n.limb := n.limb + [w % Base];
        w := w / Base;
      }
      assert n.limb + [] == n.limb;
      NatLimbsFacts(v);
      n.Trim();
      assert n.limb == NatLimbs(v);
    }

    /** mul_small: multiplies the value by k, at most 10^9. */
    method MulSmall(k: nat)
      requires k <= Base && Limbs(limb)
      modifies this
      ensures Limbs(limb) && Val(limb) == Val(old(limb)) * k
      ensures Trimmed(old(limb)) ==> Trimmed(limb)
    {
      if IsZero() || k == 1 { return; }
      if k == 0 { limb := []; return; }
      MultiplyAdd(k, 0);
      MulAddLimbsFacts(old(limb), k, 0);
    }

    /** mul10_add: the value becomes 10·v + d. */
    method Mul10Add(d: nat)
      requires d <= 9 && Limbs(limb)
      modifies this
      ensures Limbs(limb) && Val(limb) == 10 * Val(old(limb)) + d
      ensures Trimmed(old(limb)) ==> Trimmed(limb)
    {
      MultiplyAdd(10, d);
      MulAddLimbsFacts(old(limb), 10, d);
    }

    /** The loop mul_small and mul10_add share: every limb times k plus the carry, the last carry as a new limb. */
    method MultiplyAdd(k: nat, c0: nat)
      requires k <= Base && c0 < Base && Limbs(limb)
      modifies this
      ensures limb == MulAddLimbs(old(limb), k, c0)
    {
      ghost var o := limb;
      var carry: nat := c0;
      var i := 0;
      while i < |limb|
        invariant 0 <= i <= |limb| == |o| && carry < Base
        invariant limb[i..] == o[i..]
        invariant limb[..i] + MulAddLimbs(o[i..], k, carry) == MulAddLimbs(o, k, c0)
      {
        var v: nat := limb[i] * k + carry;
        MulAddLoopStep(o, limb, i, k, carry, c0);
        limb := limb[i := v % Base];
        carry := v / Base;
        i := i + 1;
      }
      assert limb[..i] == limb && o[i..] == [];
      if carry > 0 {
        limb := limb + [carry];
      } else {
        assert limb + [] == limb;
      }
    }

    /** div_small: the value becomes the quotient by m and the remainder is returned. */
    method DivSmall(m: nat) returns (r: nat)
      requires 2 <= m <= Base && Limbs(limb)
      modifies this
      ensures Val(old(limb)) == m * Val(limb) + r && r < m
      ensures Limbs(limb) && Trimmed(limb) && |limb| <= |old(limb)|
    {
      ghost var o := limb;
      var rem: nat := 0;
      var i := |limb|;
      assert o[i..] == [];
      while i > 0
        invariant 0 <= i <= |limb| == |o|
        invariant limb[..i] == o[..i]
        invariant (limb[i..], rem) == DivTop(o[i..], m)
      {
        i := i - 1;
        var cur: nat := limb[i] + rem * Base;
        assert o[i..][1..] == o[i + 1..];
        ghost var prev := limb;
        limb := limb[i := cur / m];
        assert limb[i..] == [cur / m] + prev[i + 1..];
        assert limb[..i] == prev[..i];
        rem := cur % m;
      }
      assert o[0..] == o && limb[0..] == limb;
      DivTopFacts(o, m);
      Trim();
      r := rem;
    }

    /** toDecimalString: the decimal text of the value. */
    method ToDecimalString() returns (s: seq<Byte>)
      requires Limbs(limb)
      ensures s == DecimalString(Val(limb))
    {
      if IsZero() { return [0x30]; }
      var tmp := new BigInt();
      tmp.limb := limb;
      var parts: seq<nat> := [];
      assert parts + tmp.limb == limb;
      while !tmp.IsZero()
        invariant Limbs(tmp.limb) && Limbs(parts)
        invariant Val(parts + tmp.limb) == Val(limb)
        invariant |parts| > 0 ==> Trimmed(tmp.limb)
        invariant |parts| == 0 ==> |tmp.limb| > 0
        invariant |parts| > 1 && |tmp.limb| == 0 ==> parts[|parts| - 1] != 0
        decreases |tmp.limb|
      {
        ghost var before := tmp.limb;
        var part := tmp.DivSmall(Base);
        PartsStep(parts, part, before, tmp.limb);
        if |parts| > 0 {
          ZeroIffEmpty(before);
          if |tmp.limb| == 0 {
            assert Val(before) == part;
          }
        }
        QuotientShorter(before, tmp.limb, part);
        parts := parts + [part];
      }
      assert parts + [] == parts;
      s := DecimalString(parts[|parts| - 1]);
      var i := |parts| - 1;
      assert parts[i..] == [parts[i]];
      assert Val([parts[i]]) == parts[i];
      while i > 0
        invariant 0 <= i <= |parts| - 1
        invariant s == DecimalString(Val(parts[i..]))
        invariant Val(parts[i..]) > 0 || |parts| == 1
      {
        var hi := Val(parts[i..]);
        var lo := parts[i - 1];
        ValSuffixStep(parts, i - 1);
        DecimalShiftBase(hi, lo);
        assert hi * Base + lo == Val(parts[i - 1..]);
        s := s + Pad(lo, 9);
        i := i - 1;
      }
      assert parts[0..] == parts;
    }

    /** to_ull: the value if it fits in 64 bits. */
    method ToUll() returns (ok: bool, out: nat)
      requires Limbs(limb)
      ensures ok <==> Val(limb) <= MaxU64
      ensures ok ==> out == Val(limb)
    {
      var d := ToDecimalString();
      DigitsOfDecimal(Val(limb));
      var v := 0;
      for i := 0 to |d|
        invariant v == DigitsValue(d[..i]) && v <= MaxU64
      {
        DigitsValueStep(d, i);
        var dig := DigitOf(d[i]);
        if v > MaxU64 / 10 {
          DigitsValueGrows(d, i + 1, |d|);
          assert d[..|d|] == d;
          return false, 0;
        }
        v := v * 10;
        if v > MaxU64 - dig {
          DigitsValueGrows(d, i + 1, |d|);
          assert d[..|d|] == d;
          return false, 0;
        }
        v := v + dig;
      }
      assert d[..|d|] == d;
      return true, v;
    }

    /** fromDecimalDigits: the number a digit string denotes. */
    static method FromDecimalDigits(digits: seq<Byte>) returns (n: BigInt)
      requires forall i :: 0 <= i < |digits| ==> IsDigitByte(digits[i])
      ensures fresh(n) && Val(n.limb) == DigitsValue(digits) && Limbs(n.limb) && Trimmed(n.limb)
    {
      n := new BigInt();
      for i := 0 to |digits|
        invariant Limbs(n.limb) && Val(n.limb) == DigitsValue(digits[..i])
      {
        DigitsValueStep(digits, i);
        n.Mul10Add(DigitOf(digits[i]));
      }
      assert digits[..|digits|] == digits;
      n.Trim();
    }
  }

  /** The parts loop: the remainder joins the parts as the next low digit. */
  lemma PartsStep(parts: seq<nat>, part: nat, before: seq<nat>, after: seq<nat>)
    requires Val(before) == Base * Val(after) + part
    ensures Val(parts + [part] + after) == Val(parts + before)
  {
    assert parts + [part] + after == parts + ([part] + after);
    ValConcat(parts, before);
    ValConcat(parts, [part] + after);
    assert ([part] + after)[1..] == after;
    assert Val([part] + after) == Val(before);
  }

  /** Dividing by Base drops a limb: the trimmed quotient is shorter. */
  lemma QuotientShorter(before: seq<nat>, q: seq<nat>, r: nat)
    requires Limbs(before) && Trimmed(q) && |before| > 0
    requires Val(before) == Base * Val(q) + r
    ensures |q| < |before|
  {
    ValBelow(before);
    if |q| >= |before| {
      PowMonotone(|before| - 1, |q| - 1);
      assert Pow(Base, |before|) == Base * Pow(Base, |before| - 1);
      ValAtLeast(q);
      assert false;
    }
  }
}
