// The table a position is in, as findDeepestTableTypeAtPosition finds it
// for hover, completion and definition: the innermost table type whose
// region contains the position, searched through keys, array elements and
// union members, then the narrowest such table over all schemas.

module LangSvrTables {

  import opened Wrappers
  import opened Positions
  import opened Repr

  /** The region a type was parsed from; InvalidType, which stands for a null type, has the empty one. */
  function RegionOf(t: CslType): Region
  {
    if t.InvalidType? then EmptyRegion else t.region
  }

  /**
   * descend: nothing for a null type or one whose region misses p; for a
   * table, the candidate of its wildcard key, else of its last explicit key
   * that has one, else the table itself; for an array, its element's; for a
   * union, its last member's that has one.
   */
  function Descend(t: CslType, p: Position): Option<CslType>
    decreases t, 2
  {
    if t.InvalidType? || !Contains(RegionOf(t), p) then None
    else
      match t
      case TableType(keys, wildcard, _, _) =>
        var fromWildcard := if wildcard.Some? then Descend(wildcard.value.keyType, p) else None;
        if fromWildcard.Some? then fromWildcard
        else
          var fromKeys := KeysDeepest(keys, p);
          if fromKeys.Some? then fromKeys else Some(t)
      case ArrayType(elem, _) => Descend(elem, p)
      case UnionType(members, _) => MembersDeepest(members, p)
      case _ => None
  }

  /** The candidate of the last key that has one. */
  function KeysDeepest(keys: seq<KeyDefinition>, p: Position): Option<CslType>
    decreases keys, 1
  {
    if |keys| == 0 then None
    else
      var c := Descend(keys[|keys| - 1].keyType, p);
      if c.Some? then c else KeysDeepest(keys[..|keys| - 1], p)
  }

  /** The candidate of the last member that has one. */
  function MembersDeepest(members: seq<CslType>, p: Position): Option<CslType>
    decreases members, 1
  {
    if |members| == 0 then None
    else
      var c := Descend(members[|members| - 1], p);
      if c.Some? then c else MembersDeepest(members[..|members| - 1], p)
  }

  // ---------------------------------------------------------------------
  // descend, as a recursive method with its loops
  // ---------------------------------------------------------------------

  /** The loop over a table's explicit keys, starting from the table itself. */
  method DescendKeys(t: CslType, p: Position) returns (deepest: CslType)
    requires t.TableType?
    ensures deepest == (if KeysDeepest(t.explicitKeys, p).Some? then KeysDeepest(t.explicitKeys, p).value else t)
    decreases t, 1
  {
    var keys := t.explicitKeys;
    deepest := t;
    for i := 0 to |keys|
      invariant deepest == (if KeysDeepest(keys[..i], p).Some? then KeysDeepest(keys[..i], p).value else t)
    {
      assert keys[..i + 1][..i] == keys[..i];
      var cand := DescendMethod(keys[i].keyType, p);
      if cand.Some? {
        deepest := cand.value;
      }
    }
    assert keys[..|keys|] == keys;
  }

  /** The loop over a union's members. */
  method DescendMembers(t: CslType, p: Position) returns (deepest: Option<CslType>)
    requires t.UnionType?
    ensures deepest == MembersDeepest(t.memberTypes, p)
    decreases t, 1
  {
    var members := t.memberTypes;
    deepest := None;
    for i := 0 to |members|
      invariant deepest == MembersDeepest(members[..i], p)
    {
      assert members[..i + 1][..i] == members[..i];
      var cand := DescendMethod(members[i], p);
      if cand.Some? {
        deepest := cand;
      }
    }
    assert members[..|members|] == members;
  }

  /** descend. */
  method DescendMethod(t: CslType, p: Position) returns (r: Option<CslType>)
    ensures r == Descend(t, p)
    decreases t, 2
  {
    if t.InvalidType? {
      return None;
    }
    if !Contains(RegionOf(t), p) {
      return None;
    }
    match t
    case TableType(keys, wildcard, _, _) =>
      var deepest := DescendKeys(t, p);
      if wildcard.Some? {
        var cand := DescendMethod(wildcard.value.keyType, p);
        if cand.Some? {
          deepest := cand.value;
        }
      }
      r := Some(deepest);
    case ArrayType(elem, _) =>
      r := DescendMethod(elem, p);
    case UnionType(_, _) =>
      r := DescendMembers(t, p);
    case _ =>
      r := None;
  }

  // ---------------------------------------------------------------------
  // What descend finds
  // ---------------------------------------------------------------------

  /** d is t or lies under one of t's keys, its element type or one of its members. */
  predicate Within(d: CslType, t: CslType)
    decreases t, 2
  {
    d == t ||
    match t
    case TableType(keys, wildcard, _, _) => WithinKeys(d, keys) || (wildcard.Some? && Within(d, wildcard.value.keyType))
    case ArrayType(elem, _) => Within(d, elem)
    case UnionType(members, _) => WithinMembers(d, members)
    case _ => false
  }

  predicate WithinKeys(d: CslType, keys: seq<KeyDefinition>)
    decreases keys, 1
  {
    |keys| > 0 && (Within(d, keys[|keys| - 1].keyType) || WithinKeys(d, keys[..|keys| - 1]))
  }

  predicate WithinMembers(d: CslType, members: seq<CslType>)
    decreases members, 1
  {
    |members| > 0 && (Within(d, members[|members| - 1]) || WithinMembers(d, members[..|members| - 1]))
  }

  /** What a candidate is: a table under t whose region contains p. */
  predicate IsCandidate(d: CslType, t: CslType, p: Position)
  {
    d.TableType? && Contains(d.region, p) && Within(d, t)
  }

  /**
   * A result of descend is a table within t that contains p, and it is
   * deepest: descend finds nothing further inside it, so it is its own
   * result.
   */
  lemma {:induction false} DescendFinds(t: CslType, p: Position)
    ensures Descend(t, p).Some? ==> IsCandidate(Descend(t, p).value, t, p) && Descend(Descend(t, p).value, p) == Descend(t, p)
    decreases t, 2
  {
    if !t.InvalidType? && Contains(RegionOf(t), p) {
      match t
      case TableType(keys, wildcard, _, _) =>
        if wildcard.Some? && Descend(wildcard.value.keyType, p).Some? {
          DescendFinds(wildcard.value.keyType, p);
        } else if KeysDeepest(keys, p).Some? {
          KeysDeepestFinds(keys, p);
        }
      case ArrayType(elem, _) =>
        DescendFinds(elem, p);
      case UnionType(members, _) =>
        MembersDeepestFinds(members, p);
      case _ =>
    }
  }

  lemma {:induction false} KeysDeepestFinds(keys: seq<KeyDefinition>, p: Position)
    ensures KeysDeepest(keys, p).Some? ==>
      var d := KeysDeepest(keys, p).value;
      d.TableType? && Contains(d.region, p) && WithinKeys(d, keys) && Descend(d, p) == Some(d)
    decreases keys, 1
  {
    if |keys| > 0 {
      var c := Descend(keys[|keys| - 1].keyType, p);
      if c.Some? {
        DescendFinds(keys[|keys| - 1].keyType, p);
      } else {
        KeysDeepestFinds(keys[..|keys| - 1], p);
      }
    }
  }

  lemma {:induction false} MembersDeepestFinds(members: seq<CslType>, p: Position)
    ensures MembersDeepest(members, p).Some? ==>
      var d := MembersDeepest(members, p).value;
      d.TableType? && Contains(d.region, p) && WithinMembers(d, members) && Descend(d, p) == Some(d)
    decreases members, 1
  {
    if |members| > 0 {
      var c := Descend(members[|members| - 1], p);
      if c.Some? {
        DescendFinds(members[|members| - 1], p);
      } else {
        MembersDeepestFinds(members[..|members| - 1], p);
      }
    }
  }

  /** A table whose region contains p always yields a candidate; one whose region misses p never does. */
  lemma TableAlwaysFinds(t: CslType, p: Position)
    requires t.TableType?
    ensures Descend(t, p).Some? <==> Contains(t.region, p)
  {
  }

  // ---------------------------------------------------------------------
  // The narrowest table over all schemas
  // ---------------------------------------------------------------------

  /** A region is narrower: fewer lines, or as many lines and fewer columns. */
  predicate Narrower(a: Region, b: Region)
  {
    LineSpan(a) < LineSpan(b) || (LineSpan(a) == LineSpan(b) && ColSpan(a) < ColSpan(b))
  }

  /** The candidate of one schema. */
  function SchemaCandidate(s: ConfigSchema, p: Position): Option<CslType>
  {
    Descend(s.rootTable, p)
  }

  /** The best candidate after the schemas in order: the first, replaced by each strictly narrower one. */
  function Best(schemas: seq<ConfigSchema>, p: Position): Option<CslType>
  {
    if |schemas| == 0 then None
    else
      var best := Best(schemas[..|schemas| - 1], p);
      var cand := SchemaCandidate(schemas[|schemas| - 1], p);
      if cand.None? then best
      else if best.None? then cand
      else if Narrower(RegionOf(cand.value), RegionOf(best.value)) then cand
      else best
  }

  /** findDeepestTableTypeAtPosition. */
  method FindDeepestTable(schemas: seq<ConfigSchema>, p: Position) returns (best: Option<CslType>)
    ensures best == Best(schemas, p)
  {
    best := None;
    for i := 0 to |schemas|
      invariant best == Best(schemas[..i], p)
    {
      assert schemas[..i + 1][..i] == schemas[..i];
      var cand := DescendMethod(schemas[i].rootTable, p);
      if cand.Some? {
        if best.None? {
          best := cand;
        } else {
          var b, c := RegionOf(best.value), RegionOf(cand.value);
          if LineSpan(c) < LineSpan(b) || (LineSpan(c) == LineSpan(b) && ColSpan(c) < ColSpan(b)) {
            best := cand;
          }
        }
      }
    }
    assert schemas[..|schemas|] == schemas;
  }

  /**
   * The result is the candidate of some schema k: no other schema's
   * candidate is narrower, and every schema before k has none or a strictly
   * wider one, so the first of the narrowest wins.
   */
  lemma {:induction false} BestIsNarrowestFirst(schemas: seq<ConfigSchema>, p: Position)
    ensures Best(schemas, p).None? <==> forall j :: 0 <= j < |schemas| ==> SchemaCandidate(schemas[j], p).None?
    ensures Best(schemas, p).Some? ==>
      exists k :: 0 <= k < |schemas| && Best(schemas, p) == SchemaCandidate(schemas[k], p) && BestAt(schemas, p, k)
  {
    if |schemas| > 0 {
      var init := schemas[..|schemas| - 1];
      BestIsNarrowestFirst(init, p);
      var n := |schemas| - 1;
      var best := Best(init, p);
      var cand := SchemaCandidate(schemas[n], p);
      assert forall j :: 0 <= j < n ==> init[j] == schemas[j];
      if best.Some? {
        var k :| 0 <= k < n && best == SchemaCandidate(init[k], p) && BestAt(init, p, k);
        if cand.Some? && Narrower(RegionOf(cand.value), RegionOf(best.value)) {
          NewBest(schemas, p, k);
          assert BestAt(schemas, p, n);
        } else {
          KeepBest(schemas, p, k);
        }
      } else if cand.Some? {
        assert BestAt(schemas, p, n);
      }
    }
  }

  /** The candidate of schema k is the result, none is narrower, and each earlier one is none or wider. */
  predicate BestAt(schemas: seq<ConfigSchema>, p: Position, k: nat)
    requires k < |schemas|
  {
    var r := SchemaCandidate(schemas[k], p);
    r.Some?
    && (forall j :: 0 <= j < |schemas| && SchemaCandidate(schemas[j], p).Some? ==>
         !Narrower(RegionOf(SchemaCandidate(schemas[j], p).value), RegionOf(r.value)))
    && (forall j :: 0 <= j < k && SchemaCandidate(schemas[j], p).Some? ==>
         Narrower(RegionOf(r.value), RegionOf(SchemaCandidate(schemas[j], p).value)))
  }

  lemma KeepBest(schemas: seq<ConfigSchema>, p: Position, k: nat)
    requires |schemas| > 0 && k < |schemas| - 1 && BestAt(schemas[..|schemas| - 1], p, k)
    requires var cand := SchemaCandidate(schemas[|schemas| - 1], p);
      cand.None? || !Narrower(RegionOf(cand.value), RegionOf(SchemaCandidate(schemas[k], p).value))
    ensures BestAt(schemas, p, k)
  {
    var init := schemas[..|schemas| - 1];
    assert forall j :: 0 <= j < |init| ==> init[j] == schemas[j];
  }

  lemma NewBest(schemas: seq<ConfigSchema>, p: Position, k: nat)
    requires |schemas| > 0 && k < |schemas| - 1 && BestAt(schemas[..|schemas| - 1], p, k)
    requires var cand := SchemaCandidate(schemas[|schemas| - 1], p);
      cand.Some? && Narrower(RegionOf(cand.value), RegionOf(SchemaCandidate(schemas[k], p).value))
    ensures BestAt(schemas, p, |schemas| - 1)
  {
    var init := schemas[..|schemas| - 1];
    assert forall j :: 0 <= j < |init| ==> init[j] == schemas[j];
  }
}
