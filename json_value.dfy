// The JSON document model of jsonio: a tagged value whose objects keep their members in order,
// duplicates included, with the access helpers and the exact integer conversion.

module JsonValue {

  import opened Wrappers
  import opened Utf8
  import opened JsonBigInt
  import opened JsonNumber

  /** A JSON value; an object is its member list in document order. */
  datatype Value =
    | Null
    | Bool(b: bool)
    | Number(n: Decimal)
    | String(s: seq<Byte>)
    | Array(a: seq<Value>)
    | Object(o: seq<KeyPair>)

  datatype KeyPair = KeyPair(name: seq<Byte>, value: Value)

  /** The two exception classes the accessors throw. */
  datatype Exception = LogicError | OutOfRange

  /** What an accessor returns, or the exception it throws with its message. */
  datatype Access<T> = Found(value: T) | Thrown(kind: Exception, msg: string)

  /** typeName: the name error messages use for the value's kind. */
  function TypeName(v: Value): (name: string)
    ensures |name| >= 4
  {
    match v
    case Null => "Null"
    case Bool(_) => "Bool"
    case Number(_) => "Number"
    case String(_) => "String"
    case Array(_) => "Array"
    case Object(_) => "Object"
  }

  /** The kinds of two values, compared by constructor only. */
  predicate SameKind(v: Value, w: Value)
  {
    (v.Null? && w.Null?) || (v.Bool? && w.Bool?) || (v.Number? && w.Number?)
    || (v.String? && w.String?) || (v.Array? && w.Array?) || (v.Object? && w.Object?)
  }

  /** Two values have the same type name exactly when they are of the same kind. */
  lemma TypeNamesDistinct(v: Value, w: Value)
    ensures TypeName(v) == TypeName(w) <==> SameKind(v, w)
  {
    if TypeName(v) == TypeName(w) {
      match v
      case Null => assert TypeName(w)[0] == 'N' && TypeName(w)[1] == 'u';
      case Number(_) => assert TypeName(w)[0] == 'N' && TypeName(w)[1] == 'u';
      case Bool(_) => assert TypeName(w)[0] == 'B';
      case String(_) => assert TypeName(w)[0] == 'S';
      case Array(_) => assert TypeName(w)[0] == 'A';
      case Object(_) => assert TypeName(w)[0] == 'O';
    }
  }

  // ---------------------------------------------------------------------
  // Array and object indexing
  // ---------------------------------------------------------------------

  /** operator[](size_t): the element at idx of an array. */
  function At(v: Value, idx: nat): (r: Access<Value>)
    ensures r.Found? <==> v.Array? && idx < |v.a|
    ensures r.Found? ==> r.value == v.a[idx]
    ensures !v.Array? ==> r.Thrown? && r.kind == LogicError
    ensures v.Array? && idx >= |v.a| ==> r.Thrown? && r.kind == OutOfRange
  {
    if !v.Array? then
      Thrown(LogicError, "jsonio::Value: operator[](size_t) requires Array, got " + TypeName(v))
    else if idx >= |v.a| then
      Thrown(OutOfRange, "jsonio::Value: array index out of range")
    else Found(v.a[idx])
  }

  /** The index of the last member named key. */
  function LastMatch(o: seq<KeyPair>, key: seq<Byte>): (r: Option<nat>)
    ensures r.Some? ==> r.value < |o| && o[r.value].name == key
    ensures r.Some? ==> forall j :: r.value < j < |o| ==> o[j].name != key
    ensures r.None? ==> forall j :: 0 <= j < |o| ==> o[j].name != key
    decreases |o|
  {
    if |o| == 0 then None
    else if o[|o| - 1].name == key then Some(|o| - 1)
    else LastMatch(o[..|o| - 1], key)
  }

  /** The index of the first member named key. */
  function FirstMatch(o: seq<KeyPair>, key: seq<Byte>): (r: Option<nat>)
    ensures r.Some? ==> r.value < |o| && o[r.value].name == key
    ensures r.Some? ==> forall j :: 0 <= j < r.value ==> o[j].name != key
    ensures r.None? ==> forall j :: 0 <= j < |o| ==> o[j].name != key
    decreases |o|
  {
    if |o| == 0 then None
    else
      var earlier := FirstMatch(o[..|o| - 1], key);
      if earlier.Some? then earlier
      else if o[|o| - 1].name == key then Some(|o| - 1)
      else None
  }

  /** A key is present for the first-match search exactly when it is for the last-match one, and the first comes no later. */
  lemma MatchesAgree(o: seq<KeyPair>, key: seq<Byte>)
    ensures FirstMatch(o, key).Some? <==> LastMatch(o, key).Some?
    ensures FirstMatch(o, key).Some? ==> FirstMatch(o, key).value <= LastMatch(o, key).value
  {
    var f := FirstMatch(o, key);
    var l := LastMatch(o, key);
    if f.Some? {
      assert o[f.value].name == key;
    }
    if l.Some? {
      assert o[l.value].name == key;
    }
  }

  /** A key that occurs once is found at the same place by both searches. */
  lemma UniqueKeyAgrees(o: seq<KeyPair>, key: seq<Byte>, i: nat)
    requires i < |o| && o[i].name == key
    requires forall j :: 0 <= j < |o| && j != i ==> o[j].name != key
    ensures FirstMatch(o, key) == Some(i) && LastMatch(o, key) == Some(i)
  {
    MatchesAgree(o, key);
  }

  /** Appending a member makes it the last match of its key, leaves the first match of a present key and every other key alone. */
  lemma {:induction false} AppendMatches(o: seq<KeyPair>, kp: KeyPair, key: seq<Byte>)
    ensures LastMatch(o + [kp], kp.name) == Some(|o|)
    ensures key != kp.name ==> LastMatch(o + [kp], key) == LastMatch(o, key)
    ensures key != kp.name ==> FirstMatch(o + [kp], key) == FirstMatch(o, key)
    ensures FirstMatch(o, key).Some? ==> FirstMatch(o + [kp], key) == FirstMatch(o, key)
  {
    assert (o + [kp])[..|o|] == o;
  }

  /** The message operator[](string_view) throws on a value that is not an object. */
  function KeyTypeMessage(v: Value): string
  {
    "jsonio::Value: operator[](string_view) requires Object, got " + TypeName(v)
  }

  /** The result operator[](string_view) specifies: the value of the last member named key. */
  function KeyResult(v: Value, key: seq<Byte>): Access<Value>
  {
    if !v.Object? then Thrown(LogicError, KeyTypeMessage(v))
    else match LastMatch(v.o, key)
      case Some(i) => Found(v.o[i].value)
      case None => Thrown(OutOfRange, "jsonio::Value: key not found")
  }

  /** operator[](string_view): scans the members from the end; the last match wins. */
  method Key(v: Value, key: seq<Byte>) returns (r: Access<Value>)
    ensures r == KeyResult(v, key)
  {
    if !v.Object? {
      return Thrown(LogicError, KeyTypeMessage(v));
    }
    var o := v.o;
    var i := |o|;
    while i > 0
      invariant 0 <= i <= |o|
      invariant LastMatch(o, key) == LastMatch(o[..i], key)
    {
      assert o[..i][..i - 1] == o[..i - 1];
      if o[i - 1].name == key {
        return Found(o[i - 1].value);
      }
      i := i - 1;
    }
    return Thrown(OutOfRange, "jsonio::Value: key not found");
  }

  /** getFirst: the value of the first member named key, or nothing for a non-object. */
  method GetFirst(obj: Value, key: seq<Byte>) returns (r: Option<Value>)
    ensures obj.Object? && FirstMatch(obj.o, key).Some? ==> r == Some(obj.o[FirstMatch(obj.o, key).value].value)
    ensures !obj.Object? || FirstMatch(obj.o, key).None? ==> r == None
  {
    if !obj.Object? { return None; }
    var o := obj.o;
    for i := 0 to |o|
      invariant forall j :: 0 <= j < i ==> o[j].name != key
    {
      if o[i].name == key {
        return Some(o[i].value);
      }
    }
    return None;
  }

  /** getLast: the value of the last member named key, or nothing for a non-object. */
  method GetLast(obj: Value, key: seq<Byte>) returns (r: Option<Value>)
    ensures obj.Object? && LastMatch(obj.o, key).Some? ==> r == Some(obj.o[LastMatch(obj.o, key).value].value)
    ensures !obj.Object? || LastMatch(obj.o, key).None? ==> r == None
  {
    if !obj.Object? { return None; }
    var o := obj.o;
    var i := |o|;
    while i > 0
      invariant 0 <= i <= |o|
      invariant forall j :: i <= j < |o| ==> o[j].name != key
    {
      if o[i - 1].name == key {
        return Some(o[i - 1].value);
      }
      i := i - 1;
    }
    return None;
  }

  /** hasKey: whether an object has a member named key. */
  method HasKey(obj: Value, key: seq<Byte>) returns (b: bool)
    ensures b <==> obj.Object? && exists j :: 0 <= j < |obj.o| && obj.o[j].name == key
  {
    if !obj.Object? { return false; }
    var o := obj.o;
    var i := |o|;
    while i > 0
      invariant 0 <= i <= |o|
      invariant forall j :: i <= j < |o| ==> o[j].name != key
    {
      if o[i - 1].name == key {
        return true;
      }
      i := i - 1;
    }
    return false;
  }

  // ---------------------------------------------------------------------
  // Container helpers
  // ---------------------------------------------------------------------

  /** size(): the number of elements or members. */
  function Size(v: Value): (r: Access<nat>)
    ensures r.Found? <==> v.Array? || v.Object?
    ensures v.Array? ==> r == Found(|v.a|)
    ensures v.Object? ==> r == Found(|v.o|)
    ensures r.Thrown? ==> r.kind == LogicError
  {
    if v.Array? then Found(|v.a|)
    else if v.Object? then Found(|v.o|)
    else Access<nat>.Thrown(LogicError, "jsonio::Value: size() requires Array or Object, got " + TypeName(v))
  }

  /** empty(): whether the container has no elements or members. */
  function Empty(v: Value): (r: Access<bool>)
    ensures r.Found? <==> v.Array? || v.Object?
    ensures r.Thrown? ==> r.kind == LogicError
  {
    if v.Array? then Found(|v.a| == 0)
    else if v.Object? then Found(|v.o| == 0)
    else Thrown(LogicError, "jsonio::Value: empty() requires Array or Object, got " + TypeName(v))
  }

  /** empty() answers whether size() is zero, and both throw on the same values. */
  lemma EmptyIsSizeZero(v: Value)
    ensures Empty(v).Found? <==> Size(v).Found?
    ensures Empty(v).Found? ==> (Empty(v).value <==> Size(v).value == 0)
  {
  }

  /** reserve(n): capacity only; the value is unchanged. */
  function Reserve(v: Value, n: nat): (r: Access<Value>)
    ensures r.Found? <==> v.Array? || v.Object?
    ensures r.Found? ==> r.value == v
    ensures r.Thrown? ==> r.kind == LogicError
  {
    if v.Array? || v.Object? then Found(v)
    else Thrown(LogicError, "jsonio::Value: reserve(size_t) requires Array or Object, got " + TypeName(v))
  }

  /** clear(): the container emptied, of the same kind. */
  function Clear(v: Value): (r: Access<Value>)
    ensures r.Found? <==> v.Array? || v.Object?
    ensures r.Found? ==> SameKind(r.value, v) && Size(r.value) == Found(0)
    ensures r.Thrown? ==> r.kind == LogicError
  {
    if v.Array? then Found(Array([]))
    else if v.Object? then Found(Object([]))
    else Thrown(LogicError, "jsonio::Value: clear() requires Array or Object, got " + TypeName(v))
  }

  /** push_back(Value): the array with x appended. */
  function PushBack(v: Value, x: Value): (r: Access<Value>)
    ensures r.Found? <==> v.Array?
    ensures r.Found? ==> r.value.Array? && r.value.a == v.a + [x]
    ensures r.Thrown? ==> r.kind == LogicError
  {
    if !v.Array? then
      Thrown(LogicError, "jsonio::Value: push_back(const Value&) requires Array, got " + TypeName(v))
    else Found(Array(v.a + [x]))
  }

  /** push_back(name, value): the object with the member appended, duplicates kept. */
  function PushMember(v: Value, name: seq<Byte>, x: Value): (r: Access<Value>)
    ensures r.Found? <==> v.Object?
    ensures r.Found? ==> r.value.Object? && r.value.o == v.o + [KeyPair(name, x)]
    ensures r.Thrown? ==> r.kind == LogicError
  {
    if !v.Object? then
      Thrown(LogicError, "jsonio::Value: push_back(std::string, Value) requires Object, got " + TypeName(v))
    else Found(Object(v.o + [KeyPair(name, x)]))
  }

  /** An appended element is at the old size; the earlier ones are where they were. */
  lemma PushBackThenAt(v: Value, x: Value, i: nat)
    requires v.Array?
    ensures At(PushBack(v, x).value, |v.a|) == Found(x)
    ensures i < |v.a| ==> At(PushBack(v, x).value, i) == At(v, i)
    ensures Size(PushBack(v, x).value) == Found(|v.a| + 1)
  {
  }

  /** A pushed member is what indexing by its name then returns, even over an earlier duplicate; other keys are unaffected. */
  lemma PushMemberThenKey(v: Value, name: seq<Byte>, x: Value, key: seq<Byte>)
    requires v.Object?
    ensures KeyResult(PushMember(v, name, x).value, name) == Found(x)
    ensures key != name ==> KeyResult(PushMember(v, name, x).value, key) == KeyResult(v, key)
  {
    var o := v.o + [KeyPair(name, x)];
    AppendMatches(v.o, KeyPair(name, x), key);
    if key != name {
      match LastMatch(v.o, key)
      case Some(i) => assert o[i] == v.o[i];
      case None =>
    }
  }

  // ---------------------------------------------------------------------
  // get<T>
  // ---------------------------------------------------------------------

  function GetNull(v: Value): (r: Access<()>)
    ensures r.Found? <==> v.Null?
    ensures r.Thrown? ==> r.kind == LogicError
  {
    if v.Null? then Found(()) else Thrown(LogicError, "json get<std::nullptr_t>: value is not null")
  }

  function GetBool(v: Value): (r: Access<bool>)
    ensures r.Found? <==> v.Bool?
    ensures r.Thrown? ==> r.kind == LogicError
  {
    if v.Bool? then Found(v.b) else Thrown(LogicError, "json get<bool>: value is not a boolean")
  }

  function GetString(v: Value): (r: Access<seq<Byte>>)
    ensures r.Found? <==> v.String?
    ensures r.Thrown? ==> r.kind == LogicError
  {
    if v.String? then Found(v.s) else Thrown(LogicError, "json get<std::string>: value is not a string")
  }

  function GetArray(v: Value): (r: Access<seq<Value>>)
    ensures r.Found? <==> v.Array?
    ensures r.Thrown? ==> r.kind == LogicError
  {
    if v.Array? then Found(v.a) else Thrown(LogicError, "json get<array_t>: value is not an array")
  }

  function GetObject(v: Value): (r: Access<seq<KeyPair>>)
    ensures r.Found? <==> v.Object?
    ensures r.Thrown? ==> r.kind == LogicError
  {
    if v.Object? then Found(v.o) else Thrown(LogicError, "json get<object_t>: value is not an object")
  }

  function GetDecimal(v: Value): (r: Access<Decimal>)
    ensures r.Found? <==> v.Number?
    ensures r.Thrown? ==> r.kind == LogicError
  {
    if v.Number? then Found(v.n) else Thrown(LogicError, "json get<Decimal>: value is not a number")
  }

  /** Every typed accessor gives back what the matching factory stored. */
  lemma GetRoundTrips(b: bool, d: Decimal, s: seq<Byte>, a: seq<Value>, o: seq<KeyPair>)
    ensures GetNull(Null) == Found(()) && GetBool(Bool(b)) == Found(b) && GetDecimal(Number(d)) == Found(d)
    ensures GetString(String(s)) == Found(s) && GetArray(Array(a)) == Found(a) && GetObject(Object(o)) == Found(o)
  {
  }

  /** The integral target types of get<T>, by width and signedness. */
  datatype IntType = I8 | U8 | I16 | U16 | I32 | U32 | I64 | U64

  function MinOf(t: IntType): int
  {
    match t
    case I8 => -0x80
    case I16 => -0x8000
    case I32 => -0x8000_0000
    case I64 => -0x8000_0000_0000_0000
    case _ => 0
  }

  function MaxOf(t: IntType): int
  {
    match t
    case I8 => 0x7F
    case U8 => 0xFF
    case I16 => 0x7FFF
    case U16 => 0xFFFF
    case I32 => 0x7FFF_FFFF
    case U32 => 0xFFFF_FFFF
    case I64 => 0x7FFF_FFFF_FFFF_FFFF
    case U64 => 0xFFFF_FFFF_FFFF_FFFF
  }

  /** C++ integer division, which truncates toward zero. */
  function CDiv(a: int, b: int): int
    requires b > 0
  {
    if a >= 0 then a / b else -((-a) / b)
  }

  /** The integer an exponent-free-of-fraction decimal denotes. */
  function IntegerValue(d: Decimal): int
    requires d.exp10 >= 0
  {
    var m := Val(d.unscaled) * Pow(10, d.exp10);
    if d.neg then -m else m
  }

  /** The overflow guard of the accumulation loop: the next step stays within bound exactly when the guard passes. */
  lemma GuardExact(acc: nat, dig: nat, bound: nat)
    requires dig <= 9 && dig <= bound
    ensures acc > (bound - dig) / 10 <==> 10 * acc + dig > bound
  {
  }

  /** get<integral>: exact integers only, built digit by digit with overflow checks, negative values kept negative. */
  method GetIntegral(v: Value, t: IntType) returns (r: Access<int>)
    requires v.Number? ==> Limbs(v.n.unscaled)
    ensures !v.Number? ==> r == Thrown(LogicError, "json get<integral>: value is not a number")
    ensures v.Number? && v.n.exp10 < 0 ==> r == Thrown(LogicError, "json get<integral>: number has a fractional component")
    ensures v.Number? && v.n.exp10 >= 0 ==>
      (r.Found? <==> MinOf(t) <= IntegerValue(v.n) <= MaxOf(t))
      && (r.Found? ==> r.value == IntegerValue(v.n))
      && (r.Thrown? ==> r.kind == OutOfRange)
  {
    if !v.Number? {
      return Thrown(LogicError, "json get<integral>: value is not a number");
    }
    var d := v.n;
    if d.exp10 < 0 {
      return Thrown(LogicError, "json get<integral>: number has a fractional component");
    }
    var big := new BigInt();
    big.limb := d.unscaled;
    var digits := big.ToDecimalString();
    DigitsOfDecimal(Val(d.unscaled));
    if digits == [0x30] {
      assert Val(d.unscaled) == 0;
      return Found(0);
    }
    ghost var head := digits;
    digits := digits + Zeros(d.exp10);
    TrailingZerosScale(head, d.exp10);
    ghost var mag := DigitsValue(digits);
    assert mag == Val(d.unscaled) * Pow(10, d.exp10);
    if d.neg {
      if MinOf(t) == 0 {
        assert mag > 0 by {
          PowPositive(10, d.exp10);
          ProductPositive(Val(d.unscaled), Pow(10, d.exp10));
        }
        return Thrown(OutOfRange, "json get<integral>: value out of range");
      }
      var ok, out := AccumulateNegative(digits, MinOf(t));
      if !ok {
        return Thrown(OutOfRange, "json get<integral>: value out of range");
      }
      return Found(out);
    } else {
      var ok, out := AccumulatePositive(digits, MaxOf(t));
      if !ok {
        return Thrown(OutOfRange, "json get<integral>: value out of range");
      }
      return Found(out);
    }
  }

  /** The accumulation loop for a negative number: out := out·10 - digit, guarded against passing minv. */
  method AccumulateNegative(digits: seq<Byte>, minv: int) returns (ok: bool, out: int)
    requires AllDigits(digits) && minv <= -9
    ensures ok <==> minv <= -(DigitsValue(digits) as int)
    ensures ok ==> out == -(DigitsValue(digits) as int)
  {
    out := 0;
    for i := 0 to |digits|
      invariant out == -(DigitsValue(digits[..i]) as int) && minv <= out
    {
      var dig := DigitOf(digits[i]);
      DigitsValueStep(digits, i);
      GuardExact(-out, dig, -minv);
      if out < CDiv(minv + dig, 10) {
        DigitsValueGrows(digits, i + 1, |digits|);
        assert digits[..|digits|] == digits;
        return false, 0;
      }
      out := out * 10 - dig;
    }
    assert digits[..|digits|] == digits;
    return true, out;
  }

  /** The accumulation loop for a non-negative number: out := out·10 + digit, guarded against passing maxv. */
  method AccumulatePositive(digits: seq<Byte>, maxv: int) returns (ok: bool, out: int)
    requires AllDigits(digits) && maxv >= 9
    ensures ok <==> DigitsValue(digits) <= maxv
    ensures ok ==> out == DigitsValue(digits)
  {
    out := 0;
    for i := 0 to |digits|
      invariant out == DigitsValue(digits[..i]) && out <= maxv
    {
      var dig := DigitOf(digits[i]);
      DigitsValueStep(digits, i);
      GuardExact(out, dig, maxv);
      if out > (maxv - dig) / 10 {
        DigitsValueGrows(digits, i + 1, |digits|);
        assert digits[..|digits|] == digits;
        return false, 0;
      }
      out := out * 10 + dig;
    }
    assert digits[..|digits|] == digits;
    return true, out;
  }
}
