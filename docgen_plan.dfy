// The table-page plan of the documentation generator: the depth-first walk
// over a schema's tables, the pages it plans (one per distinct path key, the
// root excluded) and the path-key to file-name map, with the properties the
// generator relies on.

module DocGenPlan {

  import opened Wrappers
  import opened Repr
  import opened DocGenText

  /** A table reached by the walk, with the path of segments leading to it. */
  datatype WalkItem = WalkItem(path: seq<string>, table: CslType)

  /** A planned table page (TablePageMeta). */
  datatype TablePage = TablePage(path: seq<string>, table: CslType, filename: string)

  /**
   * The walk from a table at path: the table itself unless it is the root,
   * then the tables under its explicit keys in declaration order, then the
   * one under its wildcard key.
   */
  function Walk(t: CslType, path: seq<string>): seq<WalkItem>
    requires t.TableType?
    decreases t, 2
  {
    (if |path| == 0 then [] else [WalkItem(path, t)]) + KeysWalk(t.explicitKeys, path) + WildcardWalk(t.wildcardKey, path)
  }

  function KeysWalk(keys: seq<KeyDefinition>, path: seq<string>): seq<WalkItem>
    decreases keys, 1
  {
    if |keys| == 0 then [] else KeysWalk(keys[..|keys| - 1], path) + KeyWalk(keys[|keys| - 1], path)
  }

  /** A key of table type is walked under its name, a key of array-of-table type under name + "[]". */
  function KeyWalk(kd: KeyDefinition, path: seq<string>): seq<WalkItem>
    decreases kd, 0
  {
    match kd.keyType
    case TableType(_, _, _, _) => Walk(kd.keyType, path + [kd.name])
    case ArrayType(elem, _) => if elem.TableType? then Walk(elem, path + [kd.name + "[]"]) else []
    case _ => []
  }

  /** The wildcard key is walked under "*", or "*[]" for an array of tables. */
  function WildcardWalk(w: Option<KeyDefinition>, path: seq<string>): seq<WalkItem>
    decreases w, 0
  {
    match w
    case None => []
    case Some(kd) =>
      match kd.keyType
      case TableType(_, _, _, _) => Walk(kd.keyType, path + ["*"])
      case ArrayType(elem, _) => if elem.TableType? then Walk(elem, path + ["*[]"]) else []
      case _ => []
  }

  /** The path keys of the items. */
  function KeysOf(items: seq<WalkItem>): set<string>
  {
    if |items| == 0 then {} else {PathKey(items[0].path)} + KeysOf(items[1..])
  }

  /** The pages planned for the items in order, skipping a path key already seen. */
  function Dedup(items: seq<WalkItem>, seen: set<string>, schemaName: string): seq<TablePage>
  {
    if |items| == 0 then []
    else
      var x := items[0];
      var pk := PathKey(x.path);
      if pk in seen then Dedup(items[1..], seen, schemaName)
      else [TablePage(x.path, x.table, PageFile(schemaName, x.path))] + Dedup(items[1..], seen + {pk}, schemaName)
  }

  /** The file map after recording each page under its path key, in order. */
  function AddFiles(m: map<string, string>, pages: seq<TablePage>): map<string, string>
  {
    if |pages| == 0 then m
    else AddFiles(m, pages[..|pages| - 1])[PathKey(pages[|pages| - 1].path) := pages[|pages| - 1].filename]
  }

  /** The pages of a schema: the walk from its root table with nothing seen yet. */
  function Plan(schemaName: string, root: CslType): seq<TablePage>
    requires root.TableType?
  {
    Dedup(Walk(root, []), {}, schemaName)
  }

  // ---------------------------------------------------------------------
  // Composition lemmas for the walk method
  // ---------------------------------------------------------------------

  lemma {:induction false} KeysOfAppend(a: seq<WalkItem>, b: seq<WalkItem>)
    ensures KeysOf(a + b) == KeysOf(a) + KeysOf(b)
    decreases |a|
  {
    if |a| > 0 {
      assert (a + b)[1..] == a[1..] + b;
      KeysOfAppend(a[1..], b);
    } else {
      assert a + b == b;
    }
  }

  /** Planning two stretches of the walk: the second sees the keys of the first. */
  lemma {:induction false} DedupAppend(a: seq<WalkItem>, b: seq<WalkItem>, seen: set<string>, schemaName: string)
    ensures Dedup(a + b, seen, schemaName) == Dedup(a, seen, schemaName) + Dedup(b, seen + KeysOf(a), schemaName)
    decreases |a|
  {
    if |a| == 0 {
      assert a + b == b;
      assert seen + KeysOf(a) == seen;
    } else {
      var x := a[0];
      var pk := PathKey(x.path);
      assert (a + b)[0] == x && (a + b)[1..] == a[1..] + b;
      assert KeysOf(a) == {pk} + KeysOf(a[1..]);
      if pk in seen {
        calc {
          Dedup(a + b, seen, schemaName);
          Dedup(a[1..] + b, seen, schemaName);
          { DedupAppend(a[1..], b, seen, schemaName); }
          Dedup(a[1..], seen, schemaName) + Dedup(b, seen + KeysOf(a[1..]), schemaName);
          { assert seen + KeysOf(a[1..]) == seen + KeysOf(a); }
          Dedup(a, seen, schemaName) + Dedup(b, seen + KeysOf(a), schemaName);
        }
      } else {
        var page := [TablePage(x.path, x.table, PageFile(schemaName, x.path))];
        calc {
          Dedup(a + b, seen, schemaName);
          page + Dedup(a[1..] + b, seen + {pk}, schemaName);
          { DedupAppend(a[1..], b, seen + {pk}, schemaName); }
          page + (Dedup(a[1..], seen + {pk}, schemaName) + Dedup(b, seen + {pk} + KeysOf(a[1..]), schemaName));
          { assert seen + {pk} + KeysOf(a[1..]) == seen + KeysOf(a); }
          (page + Dedup(a[1..], seen + {pk}, schemaName)) + Dedup(b, seen + KeysOf(a), schemaName);
          Dedup(a, seen, schemaName) + Dedup(b, seen + KeysOf(a), schemaName);
        }
      }
    }
  }

  lemma {:induction false} AddFilesAppend(m: map<string, string>, a: seq<TablePage>, b: seq<TablePage>)
    ensures AddFiles(m, a + b) == AddFiles(AddFiles(m, a), b)
    decreases |b|
  {
    if |b| == 0 {
      assert a + b == a;
    } else {
      var n := |b| - 1;
      assert (a + b)[..|a + b| - 1] == a + b[..n];
      assert (a + b)[|a + b| - 1] == b[n];
      AddFilesAppend(m, a, b[..n]);
    }
  }

  /** The walk produces exactly one item for a non-root table before its children. */
  lemma WalkStart(t: CslType, path: seq<string>)
    requires t.TableType? && |path| > 0
    ensures Walk(t, path) == [WalkItem(path, t)] + KeysWalk(t.explicitKeys, path) + WildcardWalk(t.wildcardKey, path)
  {
  }

  lemma KeysWalkStep(keys: seq<KeyDefinition>, i: nat, path: seq<string>)
    requires i < |keys|
    ensures KeysWalk(keys[..i + 1], path) == KeysWalk(keys[..i], path) + KeyWalk(keys[i], path)
  {
    assert keys[..i + 1][..i] == keys[..i];
  }

  // ---------------------------------------------------------------------
  // Properties of the plan
  // ---------------------------------------------------------------------

  predicate DistinctKeys(pages: seq<TablePage>)
  {
    forall i, j :: 0 <= i < j < |pages| ==> PathKey(pages[i].path) != PathKey(pages[j].path)
  }

  /** No planned page has a key seen before, and every planned key is a walked key. */
  lemma {:induction false} DedupUnseen(items: seq<WalkItem>, seen: set<string>, schemaName: string)
    ensures forall i :: 0 <= i < |Dedup(items, seen, schemaName)| ==> PathKey(Dedup(items, seen, schemaName)[i].path) !in seen
    ensures forall i :: 0 <= i < |Dedup(items, seen, schemaName)| ==> PathKey(Dedup(items, seen, schemaName)[i].path) in KeysOf(items)
    decreases |items|
  {
    if |items| > 0 {
      var x := items[0];
      var pk := PathKey(x.path);
      assert KeysOf(items) == {pk} + KeysOf(items[1..]);
      if pk in seen {
        DedupUnseen(items[1..], seen, schemaName);
      } else {
        var rest := Dedup(items[1..], seen + {pk}, schemaName);
        DedupUnseen(items[1..], seen + {pk}, schemaName);
        var d := [TablePage(x.path, x.table, PageFile(schemaName, x.path))] + rest;
        assert d == Dedup(items, seen, schemaName);
        assert forall i :: 1 <= i < |d| ==> d[i] == rest[i - 1];
      }
    }
  }

  /** The planned keys and the keys seen before cover every walked key. */
  lemma {:induction false} DedupCovers(items: seq<WalkItem>, seen: set<string>, schemaName: string)
    ensures KeysOf(items) <= seen + PageKeys(Dedup(items, seen, schemaName))
    decreases |items|
  {
    if |items| > 0 {
      var x := items[0];
      var pk := PathKey(x.path);
      assert KeysOf(items) == {pk} + KeysOf(items[1..]);
      if pk in seen {
        DedupCovers(items[1..], seen, schemaName);
      } else {
        var rest := Dedup(items[1..], seen + {pk}, schemaName);
        DedupCovers(items[1..], seen + {pk}, schemaName);
        var page := TablePage(x.path, x.table, PageFile(schemaName, x.path));
        assert [page] + rest == Dedup(items, seen, schemaName);
        PageKeysCons(page, rest);
      }
    }
  }

  /** The planned pages' path keys are pairwise distinct. */
  lemma {:induction false} DedupDistinct(items: seq<WalkItem>, seen: set<string>, schemaName: string)
    ensures DistinctKeys(Dedup(items, seen, schemaName))
    decreases |items|
  {
    if |items| > 0 {
      var x := items[0];
      var pk := PathKey(x.path);
      if pk in seen {
        DedupDistinct(items[1..], seen, schemaName);
      } else {
        var rest := Dedup(items[1..], seen + {pk}, schemaName);
        DedupDistinct(items[1..], seen + {pk}, schemaName);
        DedupUnseen(items[1..], seen + {pk}, schemaName);
        var page := TablePage(x.path, x.table, PageFile(schemaName, x.path));
        assert [page] + rest == Dedup(items, seen, schemaName);
        assert forall i :: 0 <= i < |rest| ==> PathKey(rest[i].path) != PathKey(page.path);
        DistinctCons(page, rest);
      }
    }
  }

  lemma DistinctCons(page: TablePage, rest: seq<TablePage>)
    requires DistinctKeys(rest)
    requires forall i :: 0 <= i < |rest| ==> PathKey(rest[i].path) != PathKey(page.path)
    ensures DistinctKeys([page] + rest)
  {
    var d := [page] + rest;
    forall i, j | 0 <= i < j < |d| ensures PathKey(d[i].path) != PathKey(d[j].path) {
      assert d[j] == rest[j - 1];
      if i > 0 { assert d[i] == rest[i - 1]; }
    }
  }

  /** The path keys of the pages. */
  function PageKeys(pages: seq<TablePage>): set<string>
  {
    set i | 0 <= i < |pages| :: PathKey(pages[i].path)
  }

  lemma PageKeysCons(p: TablePage, rest: seq<TablePage>)
    ensures PageKeys([p] + rest) == {PathKey(p.path)} + PageKeys(rest)
  {
    var d := [p] + rest;
    forall k | k in PageKeys(d) ensures k in {PathKey(p.path)} + PageKeys(rest) {
      var i :| 0 <= i < |d| && k == PathKey(d[i].path);
      if i > 0 { assert d[i] == rest[i - 1]; }
    }
    forall k | k in PageKeys(rest) ensures k in PageKeys(d) {
      var i :| 0 <= i < |rest| && k == PathKey(rest[i].path);
      assert d[i + 1] == rest[i];
    }
    assert PathKey(d[0].path) in PageKeys(d);
  }

  /** Every planned page is named by pageFileFor of its path. */
  lemma {:induction false} DedupFileNames(items: seq<WalkItem>, seen: set<string>, schemaName: string)
    ensures forall i :: 0 <= i < |Dedup(items, seen, schemaName)| ==>
      Dedup(items, seen, schemaName)[i].filename == PageFile(schemaName, Dedup(items, seen, schemaName)[i].path)
    decreases |items|
  {
    if |items| > 0 {
      var pk := PathKey(items[0].path);
      DedupFileNames(items[1..], if pk in seen then seen else seen + {pk}, schemaName);
    }
  }

  /** Each planned page comes from an item of the walk. */
  lemma {:induction false} DedupFromItems(items: seq<WalkItem>, seen: set<string>, schemaName: string)
    ensures forall i :: 0 <= i < |Dedup(items, seen, schemaName)| ==>
      WalkItem(Dedup(items, seen, schemaName)[i].path, Dedup(items, seen, schemaName)[i].table) in items
    decreases |items|
  {
    if |items| > 0 {
      var pk := PathKey(items[0].path);
      var s2 := if pk in seen then seen else seen + {pk};
      DedupFromItems(items[1..], s2, schemaName);
      var d := Dedup(items, seen, schemaName);
      var rest := Dedup(items[1..], s2, schemaName);
      forall i | 0 <= i < |d| ensures WalkItem(d[i].path, d[i].table) in items {
        if pk in seen {
          assert d[i] == rest[i];
        } else if i > 0 {
          assert d[i] == rest[i - 1];
        }
      }
    }
  }

  /** Walked paths extend the starting path by at least one segment and reach tables only. */
  lemma {:induction false} WalkShape(t: CslType, path: seq<string>)
    requires t.TableType?
    ensures forall x :: x in Walk(t, path) ==> x.table.TableType? && |x.path| > 0 && |x.path| >= |path| && x.path[..|path|] == path
    decreases t, 1
  {
    KeysWalkShape(t.explicitKeys, path);
    WildcardWalkShape(t.wildcardKey, path);
  }

  lemma {:induction false} KeysWalkShape(keys: seq<KeyDefinition>, path: seq<string>)
    ensures forall x :: x in KeysWalk(keys, path) ==> x.table.TableType? && |x.path| > |path| && x.path[..|path|] == path
    decreases keys, 1
  {
    if |keys| > 0 {
      KeysWalkShape(keys[..|keys| - 1], path);
      KeyWalkShape(keys[|keys| - 1], path);
    }
  }

  lemma {:induction false} KeyWalkShape(kd: KeyDefinition, path: seq<string>)
    ensures forall x :: x in KeyWalk(kd, path) ==> x.table.TableType? && |x.path| > |path| && x.path[..|path|] == path
    decreases kd, 0
  {
    match kd.keyType
    case TableType(_, _, _, _) =>
      ChildShape(kd.keyType, path, kd.name);
    case ArrayType(elem, _) =>
      if elem.TableType? { ChildShape(elem, path, kd.name + "[]"); }
    case _ =>
  }

  lemma {:induction false} WildcardWalkShape(w: Option<KeyDefinition>, path: seq<string>)
    ensures forall x :: x in WildcardWalk(w, path) ==> x.table.TableType? && |x.path| > |path| && x.path[..|path|] == path
    decreases w, 0
  {
    match w
    case None =>
    case Some(kd) =>
      match kd.keyType
      case TableType(_, _, _, _) =>
        ChildShape(kd.keyType, path, "*");
      case ArrayType(elem, _) =>
        if elem.TableType? { ChildShape(elem, path, "*[]"); }
      case _ =>
  }

  /** The walk under path + [seg] stays under path. */
  lemma {:induction false} ChildShape(c: CslType, path: seq<string>, seg: string)
    requires c.TableType?
    ensures forall x :: x in Walk(c, path + [seg]) ==> x.table.TableType? && |x.path| > |path| && x.path[..|path|] == path
    decreases c, 2
  {
    WalkShape(c, path + [seg]);
    forall x | x in Walk(c, path + [seg]) ensures x.path[..|path|] == path {
      assert x.path[..|path| + 1] == path + [seg];
      assert x.path[..|path|] == x.path[..|path| + 1][..|path|];
    }
  }

  /**
   * The plan of a schema: no page for the root, one page per distinct path
   * key of the walk, each named by pageFileFor, each for a table.
   */
  lemma PlanFacts(schemaName: string, root: CslType)
    requires root.TableType?
    ensures DistinctKeys(Plan(schemaName, root))
    ensures PageKeys(Plan(schemaName, root)) == KeysOf(Walk(root, []))
    ensures forall i :: 0 <= i < |Plan(schemaName, root)| ==> |Plan(schemaName, root)[i].path| > 0 && Plan(schemaName, root)[i].table.TableType?
    ensures forall i :: 0 <= i < |Plan(schemaName, root)| ==> Plan(schemaName, root)[i].filename == PageFile(schemaName, Plan(schemaName, root)[i].path)
  {
    var items := Walk(root, []);
    var pages := Plan(schemaName, root);
    DedupDistinct(items, {}, schemaName);
    DedupUnseen(items, {}, schemaName);
    DedupCovers(items, {}, schemaName);
    DedupFileNames(items, {}, schemaName);
    DedupFromItems(items, {}, schemaName);
    WalkShape(root, []);
    forall i | 0 <= i < |pages| ensures |pages[i].path| > 0 && pages[i].table.TableType? {
      assert WalkItem(pages[i].path, pages[i].table) in items;
    }
  }

  /** Recording pages adds exactly their keys. */
  lemma {:induction false} AddFilesKeys(m: map<string, string>, pages: seq<TablePage>)
    ensures AddFiles(m, pages).Keys == m.Keys + PageKeys(pages)
    decreases |pages|
  {
    if |pages| > 0 {
      var n := |pages| - 1;
      var init := pages[..n];
      AddFilesKeys(m, init);
      assert PageKeys(pages) == PageKeys(init) + {PathKey(pages[n].path)} by {
        forall k | k in PageKeys(pages) ensures k in PageKeys(init) + {PathKey(pages[n].path)} {
          var i :| 0 <= i < |pages| && k == PathKey(pages[i].path);
          if i < n { assert pages[i] == init[i]; }
        }
        forall k | k in PageKeys(init) ensures k in PageKeys(pages) {
          var i :| 0 <= i < |init| && k == PathKey(init[i].path);
          assert init[i] == pages[i];
        }
      }
    }
  }

  lemma DistinctKeysInit(pages: seq<TablePage>, n: nat)
    requires DistinctKeys(pages) && n <= |pages|
    ensures DistinctKeys(pages[..n])
  {
    var init := pages[..n];
    forall i, j | 0 <= i < j < |init| ensures PathKey(init[i].path) != PathKey(init[j].path) {
      assert init[i] == pages[i] && init[j] == pages[j];
    }
  }

  /** Recording pages with distinct keys maps each page's key to its file name. */
  lemma {:induction false} AddFilesFinds(m: map<string, string>, pages: seq<TablePage>)
    requires DistinctKeys(pages)
    ensures forall i :: 0 <= i < |pages| ==> PathKey(pages[i].path) in AddFiles(m, pages) && AddFiles(m, pages)[PathKey(pages[i].path)] == pages[i].filename
    decreases |pages|
  {
    if |pages| > 0 {
      var n := |pages| - 1;
      var init := pages[..n];
      DistinctKeysInit(pages, n);
      AddFilesFinds(m, init);
      var last := pages[n];
      assert AddFiles(m, pages) == AddFiles(m, init)[PathKey(last.path) := last.filename];
      forall i | 0 <= i < |pages|
        ensures PathKey(pages[i].path) in AddFiles(m, pages) && AddFiles(m, pages)[PathKey(pages[i].path)] == pages[i].filename
      {
        if i < n {
          assert init[i] == pages[i];
          assert PathKey(pages[i].path) != PathKey(last.path);
        }
      }
    }
  }

  /** The file map of a plan sends each planned path key to that page's pageFileFor name, and holds no other key. */
  lemma PlanFiles(schemaName: string, root: CslType)
    requires root.TableType?
    ensures AddFiles(map[], Plan(schemaName, root)).Keys == KeysOf(Walk(root, []))
    ensures forall i :: 0 <= i < |Plan(schemaName, root)| ==>
      PathKey(Plan(schemaName, root)[i].path) in AddFiles(map[], Plan(schemaName, root)) &&
      AddFiles(map[], Plan(schemaName, root))[PathKey(Plan(schemaName, root)[i].path)] == PageFile(schemaName, Plan(schemaName, root)[i].path)
  {
    PlanFacts(schemaName, root);
    AddFilesFinds(map[], Plan(schemaName, root));
    AddFilesKeys(map[], Plan(schemaName, root));
  }

  // ---------------------------------------------------------------------
  // The plan against nestedDepth
  // ---------------------------------------------------------------------

  /** A table reached k segments below another is at least k levels shallower in nestedDepth. */
  lemma {:induction false} WalkDepth(t: CslType, path: seq<string>)
    requires t.TableType?
    ensures forall x :: x in Walk(t, path) ==> |x.path| - |path| + NestedDepth(x.table) <= NestedDepth(t)
    decreases t, 1
  {
    KeysWalkDepth(t.explicitKeys, path, NestedDepth(t));
    match t.wildcardKey
    case None =>
    case Some(kd) =>
      WildcardWalkDepth(kd, path, NestedDepth(t));
  }

  lemma {:induction false} KeysWalkDepth(keys: seq<KeyDefinition>, path: seq<string>, bound: nat)
    requires forall i :: 0 <= i < |keys| ==> 1 + NestedDepth(keys[i].keyType) <= bound
    ensures forall x :: x in KeysWalk(keys, path) ==> |x.path| - |path| + NestedDepth(x.table) <= bound
    decreases keys, 1
  {
    if |keys| > 0 {
      var init := keys[..|keys| - 1];
      assert forall i :: 0 <= i < |init| ==> init[i] == keys[i];
      KeysWalkDepth(init, path, bound);
      KeyWalkDepth(keys[|keys| - 1], path, bound);
    }
  }

  lemma {:induction false} KeyWalkDepth(kd: KeyDefinition, path: seq<string>, bound: nat)
    requires 1 + NestedDepth(kd.keyType) <= bound
    ensures forall x :: x in KeyWalk(kd, path) ==> |x.path| - |path| + NestedDepth(x.table) <= bound
    decreases kd, 0
  {
    match kd.keyType
    case TableType(_, _, _, _) =>
      ChildDepth(kd.keyType, path, kd.name, bound);
    case ArrayType(elem, _) =>
      if elem.TableType? { ChildDepth(elem, path, kd.name + "[]", bound); }
    case _ =>
  }

  lemma {:induction false} WildcardWalkDepth(kd: KeyDefinition, path: seq<string>, bound: nat)
    requires 1 + NestedDepth(kd.keyType) <= bound
    ensures forall x :: x in WildcardWalk(Some(kd), path) ==> |x.path| - |path| + NestedDepth(x.table) <= bound
    decreases kd, 0
  {
    match kd.keyType
    case TableType(_, _, _, _) =>
      ChildDepth(kd.keyType, path, "*", bound);
    case ArrayType(elem, _) =>
      if elem.TableType? { ChildDepth(elem, path, "*[]", bound); }
    case _ =>
  }

  lemma {:induction false} ChildDepth(c: CslType, path: seq<string>, seg: string, bound: nat)
    requires c.TableType? && 1 + NestedDepth(c) <= bound
    ensures forall x :: x in Walk(c, path + [seg]) ==> |x.path| - |path| + NestedDepth(x.table) <= bound
    decreases c, 2
  {
    WalkDepth(c, path + [seg]);
  }

  /** Planned page paths are shorter than the root table's nestedDepth. */
  lemma PlanDepth(schemaName: string, root: CslType)
    requires root.TableType?
    ensures forall i :: 0 <= i < |Plan(schemaName, root)| ==> |Plan(schemaName, root)[i].path| < NestedDepth(root)
  {
    var pages := Plan(schemaName, root);
    DedupFromItems(Walk(root, []), {}, schemaName);
    WalkDepth(root, []);
    WalkShape(root, []);
    forall i | 0 <= i < |pages| ensures |pages[i].path| < NestedDepth(root) {
      var x := WalkItem(pages[i].path, pages[i].table);
      assert x in Walk(root, []);
      TableDepth(x.table);
    }
  }
}
