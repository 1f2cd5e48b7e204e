// Properties of the printed text: how arrays, expressions, constraints,
// duplicate keys and the order of key definitions show in the output.

module FormatterProperties {

  import opened Wrappers
  import opened Positions
  import opened Repr
  import opened StringOrder
  import opened FormatterText


  /** The two branches of the array printer agree: an array prints as its element type followed by "[]". */
  lemma ArrayTextIsElementText(elem: CslType, r: Region, indent: nat)
    ensures TypeText(ArrayType(elem, r), indent) == TypeText(elem, indent) + "[]"
  {
  }

  /** The printer adds no parentheses: two different groupings of + and * print alike. */
  lemma GroupingIsNotPrinted(a: Expr, b: Expr, c: Expr, r: Region)
    ensures BinaryExpr("*", BinaryExpr("+", a, b, r), c, r) != BinaryExpr("+", a, BinaryExpr("*", b, c, r), r)
    ensures ExprText(BinaryExpr("*", BinaryExpr("+", a, b, r), c, r)) == ExprText(BinaryExpr("+", a, BinaryExpr("*", b, c, r), r))
  {
    var x, y, z := ExprText(a), ExprText(b), ExprText(c);
    calc {
      ExprText(BinaryExpr("*", BinaryExpr("+", a, b, r), c, r));
      (x + " " + "+" + " " + y) + " " + "*" + " " + z;
      { Append5(x + " " + "+" + " ", y, " ", "*", " ", z); }
      x + " " + "+" + " " + (y + " " + "*" + " " + z);
      ExprText(BinaryExpr("+", a, BinaryExpr("*", b, c, r), r));
    }
  }

  /** A table without constraints prints no constraints block; one with constraints ends with the closing "};". */
  lemma ConstraintsBlockOnlyWhenPresent(t: CslType, indent: nat)
    requires t.TableType?
    ensures |t.constraints| == 0 ==> TableBodyText(t, indent) == KeyLinesText(t, SortNames(KeyNames(t.explicitKeys)), indent) + WildcardText(t, indent)
    ensures |t.constraints| > 0 ==> |TableBodyText(t, indent)| >= 2 * indent + 3 && TableBodyText(t, indent)[|TableBodyText(t, indent)| - 3..] == "};\n"
  {
    var keysAndWildcard := KeyLinesText(t, SortNames(KeyNames(t.explicitKeys)), indent) + WildcardText(t, indent);
    if |t.constraints| == 0 {
      assert ConstraintsBlock(t.constraints, indent) == "";
      assert keysAndWildcard + "" == keysAndWildcard;
    } else {
      var block := ConstraintsBlock(t.constraints, indent);
      var front := Indent(indent) + "constraints {\n" + ConstraintLinesText(t.constraints, indent + 1) + Indent(indent);
      assert block == front + "};\n";
      assert (keysAndWildcard + block)[|keysAndWildcard + block| - 3..] == block[|block| - 3..];
    }
  }

  /** A second definition of a name replaces the first in every line printed for that name. */
  lemma DuplicateKeyPrintsLast(k1: KeyDefinition, k2: KeyDefinition, indent: nat, r: Region)
    requires k1.name == k2.name
    ensures TableBodyText(TableType([k1, k2], None, [], r), indent) == KeyLine(k2, KeyLabel(k2), indent) + KeyLine(k2, KeyLabel(k2), indent)
  {
    var t := TableType([k1, k2], None, [], r);
    var names := KeyNames(t.explicitKeys);
    assert names == [k1.name, k1.name];
    assert SortNames(names) == names by {
      LexLeqTotal(k1.name, k1.name);
      SortedUnique(SortNames(names), names);
    }
    assert LastKey(t.explicitKeys, k1.name) == 1;
    var line := NamedKeyLine(t, k1.name, indent);
    assert names[..1] == [k1.name] && [k1.name][..0] == [];
    assert KeyLinesText(t, [k1.name], indent) == "" + line;
    assert KeyLinesText(t, names, indent) == KeyLinesText(t, [k1.name], indent) + line;
    assert WildcardText(t, indent) == "" && ConstraintsBlock(t.constraints, indent) == "";
    assert "" + line + line + "" + "" == line + line;
  }

  /** Names are distinct within a sequence of keys. */
  predicate DistinctNames(keys: seq<KeyDefinition>)
  {
    forall i, j :: 0 <= i < j < |keys| ==> keys[i].name != keys[j].name
  }

  /** With distinct names, the definition printed for a name does not depend on the order of the keys. */
  lemma SameDefinitionForName(keys: seq<KeyDefinition>, keys2: seq<KeyDefinition>, name: string)
    requires multiset(keys) == multiset(keys2) && DistinctNames(keys) && DistinctNames(keys2)
    ensures (LastKey(keys, name) < |keys|) == (LastKey(keys2, name) < |keys2|)
    ensures LastKey(keys, name) < |keys| ==> keys[LastKey(keys, name)] == keys2[LastKey(keys2, name)]
  {
    var k := LastKey(keys, name);
    var k2 := LastKey(keys2, name);
    if k < |keys| {
      assert keys[k] in multiset(keys2);
      var j :| 0 <= j < |keys2| && keys2[j] == keys[k];
      assert j == k2;
    }
    if k2 < |keys2| {
      assert keys2[k2] in multiset(keys);
      var j :| 0 <= j < |keys| && keys[j] == keys2[k2];
    }
  }

  lemma {:induction false} KeyLinesAlike(t: CslType, t2: CslType, names: seq<string>, indent: nat)
    requires t.TableType? && t2.TableType?
    requires multiset(t.explicitKeys) == multiset(t2.explicitKeys) && DistinctNames(t.explicitKeys) && DistinctNames(t2.explicitKeys)
    ensures KeyLinesText(t, names, indent) == KeyLinesText(t2, names, indent)
  {
    if |names| > 0 {
      KeyLinesAlike(t, t2, names[..|names| - 1], indent);
      SameDefinitionForName(t.explicitKeys, t2.explicitKeys, names[|names| - 1]);
    }
  }

  lemma {:induction false} KeyNamesMultiset(keys: seq<KeyDefinition>, keys2: seq<KeyDefinition>)
    requires multiset(keys) == multiset(keys2)
    ensures multiset(KeyNames(keys)) == multiset(KeyNames(keys2))
    decreases |keys|
  {
    if |keys| == 0 {
      assert |keys2| == |multiset(keys2)| == 0;
    } else {
      var n := |keys| - 1;
      var init, x := keys[..n] + keys[n + 1..], keys[n];
      RemoveOne(keys, n);
      assert x in multiset(keys2);
      var j :| 0 <= j < |keys2| && keys2[j] == x;
      var rest := keys2[..j] + keys2[j + 1..];
      RemoveOne(keys2, j);
      assert multiset(init) == multiset(keys) - multiset{x} == multiset(rest);
      KeyNamesMultiset(init, rest);
    }
  }

  /** Taking one key out of a sequence takes its name out of the names. */
  lemma RemoveOne(keys: seq<KeyDefinition>, j: nat)
    requires j < |keys|
    ensures multiset(keys) == multiset(keys[..j] + keys[j + 1..]) + multiset{keys[j]}
    ensures multiset(KeyNames(keys)) == multiset(KeyNames(keys[..j] + keys[j + 1..])) + multiset{keys[j].name}
  {
    MultisetRemove(keys, j);
    var names := KeyNames(keys);
    MultisetRemove(names, j);
    KeyNamesOfAppend(keys[..j], keys[j + 1..]);
    KeyNamesSlice(keys, 0, j);
    KeyNamesSlice(keys, j + 1, |keys|);
    assert keys[0..j] == keys[..j] && keys[j + 1..|keys|] == keys[j + 1..];
    assert names[0..j] == names[..j] && names[j + 1..|keys|] == names[j + 1..];
  }

  lemma KeyNamesSlice(keys: seq<KeyDefinition>, lo: nat, hi: nat)
    requires lo <= hi <= |keys|
    ensures KeyNames(keys[lo..hi]) == KeyNames(keys)[lo..hi]
  {
    var l, r := KeyNames(keys[lo..hi]), KeyNames(keys)[lo..hi];
    forall i | 0 <= i < |l| ensures l[i] == r[i] {
      assert keys[lo..hi][i] == keys[lo + i];
    }
  }

  lemma MultisetRemove<T>(s: seq<T>, j: nat)
    requires j < |s|
    ensures multiset(s) == multiset(s[..j] + s[j + 1..]) + multiset{s[j]}
  {
    assert s == s[..j] + [s[j]] + s[j + 1..];
  }

  lemma KeyNamesOfAppend(a: seq<KeyDefinition>, b: seq<KeyDefinition>)
    ensures KeyNames(a + b) == KeyNames(a) + KeyNames(b)
  {
    var l, r := KeyNames(a + b), KeyNames(a) + KeyNames(b);
    forall i | 0 <= i < |l| ensures l[i] == r[i] {
      if i >= |a| {
        assert (a + b)[i] == b[i - |a|];
      }
    }
  }

  /** The printer is canonical: keys with distinct names print alike in whatever order they are defined. */
  lemma KeyOrderDoesNotMatter(t: CslType, keys2: seq<KeyDefinition>, indent: nat)
    requires t.TableType? && DistinctNames(t.explicitKeys) && DistinctNames(keys2)
    requires multiset(keys2) == multiset(t.explicitKeys)
    ensures TableBodyText(t.(explicitKeys := keys2), indent) == TableBodyText(t, indent)
  {
    var t2 := t.(explicitKeys := keys2);
    KeyNamesMultiset(t.explicitKeys, keys2);
    SortedUnique(SortNames(KeyNames(t.explicitKeys)), SortNames(KeyNames(keys2)));
    KeyLinesAlike(t, t2, SortNames(KeyNames(t.explicitKeys)), indent);
  }
}
