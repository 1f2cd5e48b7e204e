// The documentation generator's string helpers as the loops they are, each
// proved to compute its function in DocGenText, and the page planner: the
// HtmlPagesGen state with the planned pages and the path-key to file map of
// each schema, filled by a recursive walk over the schema's tables.

module DocGen {

  import opened Wrappers
  import opened Repr
  import opened DocGenText
  import opened DocGenPlan

  /** htmlEscape */
  method HtmlEscape(s: string) returns (r: string)
    ensures r == HtmlEscaped(s)
  {
    r := "";
    for i := 0 to |s|
      invariant r == FlatMap(s[..i], HtmlEntity)
    {
      FlatMapSnoc(s, i, HtmlEntity);
      var c := s[i];
      if c == '&' {
        r := r + "&amp;";
      } else if c == '<' {
        r := r + "&lt;";
      } else if c == '>' {
        r := r + "&gt;";
      } else if c == '"' {
        r := r + "&quot;";
      } else if c == '\'' {
        r := r + "&#39;";
      } else {
        r := r + [c];
      }
    }
    assert s[..|s|] == s;
  }

  const Hex: string := "0123456789ABCDEF"

  /** jsonEscape */
  method JsonEscape(s: string) returns (r: string)
    ensures r == JsonEscaped(s)
  {
    r := "";
    for i := 0 to |s|
      invariant r == FlatMap(s[..i], JsonEscapeChar)
    {
      FlatMapSnoc(s, i, JsonEscapeChar);
      var c := s[i];
      if c == '"' {
        r := r + "\\\"";
      } else if c == '\\' {
        r := r + "\\\\";
      } else if c == '\U{8}' {
        r := r + "\\b";
      } else if c == '\U{C}' {
        r := r + "\\f";
      } else if c == '\n' {
        r := r + "\\n";
      } else if c == '\r' {
        r := r + "\\r";
      } else if c == '\t' {
        r := r + "\\t";
      } else if c as int < 0x20 || c as int == 0x7F {
        r := r + "\\u00" + [Hex[c as int / 16], Hex[c as int % 16]];
      } else {
        r := r + [c];
      }
    }
    assert s[..|s|] == s;
  }

  /** slugify */
  method Slugify(s: string) returns (r: string)
    ensures r == Slug(s)
  {
    if s == "*" { return "wildcard"; }
    if s == "*[]" { return "wildcard-array"; }
    if s == "[]" { return "array"; }
    r := "";
    for i := 0 to |s|
      invariant r == FlatMap(s[..i], SlugChar)
    {
      FlatMapSnoc(s, i, SlugChar);
      var c := s[i];
      if 'A' <= c <= 'Z' {
        r := r + [ToLower(c)];
      } else if 'a' <= c <= 'z' || '0' <= c <= '9' {
        r := r + [c];
      } else if c == '_' || c == '-' {
        r := r + "-";
      } else if c == '`' {
      } else {
        r := r + "-";
      }
    }
    assert s[..|s|] == s;
    ghost var mapped := r;
    while |r| > 0 && r[|r| - 1] == '-'
      invariant TrimEnd(r) == TrimEnd(mapped)
    {
      r := r[..|r| - 1];
    }
    ghost var trimmed := r;
    while |r| > 0 && r[0] == '-'
      invariant TrimStart(r) == TrimStart(trimmed)
    {
      r := r[1..];
    }
    if r == "" {
      r := "page";
    }
  }

  /** toLowerAlphaNum */
  method ToLowerAlphaNum(s: string) returns (o: string)
    ensures o == LowerAlphaNum(s)
  {
    o := "";
    for i := 0 to |s|
      invariant o == FlatMap(s[..i], AlnumLowered)
    {
      FlatMapSnoc(s, i, AlnumLowered);
      if IsAlnum(s[i]) {
        o := o + [ToLower(s[i])];
      }
    }
    assert s[..|s|] == s;
  }

  /** toLowerCamelAlphaNum */
  method ToLowerCamelAlphaNum(s: string) returns (r: string)
    ensures r == Camel(s)
  {
    var out := "";
    var upperNext := false;
    for i := 0 to |s|
      invariant CamelState(out, upperNext) == CamelScan(s[..i])
    {
      CamelPrefixStep(s, i);
      var c := s[i];
      if IsAlnum(c) {
        var lower := ToLower(c);
        if out == "" {
          out := out + [lower];
        } else if upperNext {
          out := out + [ToUpper(lower)];
          upperNext := false;
        } else {
          out := out + [lower];
        }
      } else {
        upperNext := out != "";
      }
    }
    assert s[..|s|] == s;
    if |out| > 1 && out[|out| - 1] == 's' {
      out := out[..|out| - 1];
    }
    r := if out == "" then "key" else out;
  }

  /** dynamicKeyPlaceholder */
  method DynamicKeyPlaceholder(parentPath: seq<string>) returns (r: string)
    ensures r == Placeholder(parentPath)
  {
    if |parentPath| == 0 { return "<key>"; }
    var base := parentPath[|parentPath| - 1];
    if |base| >= 2 && base[|base| - 2..] == "[]" {
      base := base[..|base| - 2];
    }
    if base == "*" || base == "" { return "<key>"; }
    var camel := ToLowerCamelAlphaNum(base);
    r := "<" + camel + "Key>";
  }

  /** displaySegment */
  method DisplaySegmentOf(prefix: seq<string>, seg: string) returns (r: string)
    ensures r == DisplaySegment(prefix, seg)
  {
    if seg == "*" {
      r := DynamicKeyPlaceholder(prefix);
    } else if seg == "*[]" {
      r := DynamicKeyPlaceholder(prefix);
      r := r + "[]";
    } else {
      r := seg;
    }
  }

  /** The segments with sep between neighbours: the loop of joinWithDot and of pathKey. */
  method JoinWith(segs: seq<string>, sep: char) returns (r: string)
    ensures r == Join(segs, sep)
  {
    r := "";
    for i := 0 to |segs|
      invariant r == Join(segs[..i], sep)
    {
      assert segs[..i + 1][..i] == segs[..i];
      if i > 0 {
        r := r + [sep];
      }
      r := r + segs[i];
    }
    assert segs[..|segs|] == segs;
  }

  /** joinWithDot */
  method JoinWithDot(segs: seq<string>) returns (r: string)
    ensures r == Join(segs, '.')
  {
    r := JoinWith(segs, '.');
  }

  /** pathKey */
  method PathKeyOf(path: seq<string>) returns (r: string)
    ensures r == PathKey(path)
  {
    r := JoinWith(path, '\U{1F}');
  }

  /** displayPath */
  method DisplayPathOf(path: seq<string>) returns (r: string)
    ensures r == DisplayPath(path)
  {
    var segs: seq<string> := [];
    var prefix: seq<string> := [];
    for i := 0 to |path|
      invariant prefix == path[..i]
      invariant segs == DisplaySegments(path)[..i]
    {
      var shown := DisplaySegmentOf(prefix, path[i]);
      assert DisplaySegments(path)[..i + 1] == segs + [shown];
      segs := segs + [shown];
      prefix := prefix + [path[i]];
    }
    assert segs == DisplaySegments(path);
    r := JoinWithDot(segs);
  }

  /** pageFileFor */
  method PageFileFor(schemaName: string, tablePath: seq<string>) returns (f: string)
    ensures f == PageFile(schemaName, tablePath)
  {
    f := Slugify(schemaName);
    for i := 0 to |tablePath|
      invariant f == PageStem(schemaName, tablePath[..i])
    {
      assert tablePath[..i + 1][..i] == tablePath[..i];
      var slug := Slugify(tablePath[i]);
      f := f + "-" + slug;
    }
    assert tablePath[..|tablePath|] == tablePath;
    f := f + ".html";
  }

  /** schemaFileFor */
  method SchemaFileFor(schemaName: string) returns (f: string)
    ensures f == SchemaFile(schemaName)
  {
    var slug := Slugify(schemaName);
    f := slug + ".html";
  }

  /** The generator state the planner fills: per schema, the planned table pages and the path-key to file map. */
  class HtmlPagesGen {
    var planned: map<string, seq<TablePage>>
    var pathToFile: map<string, map<string, string>>

    constructor()
      ensures planned == map[] && pathToFile == map[]
    {
      planned := map[];
      pathToFile := map[];
    }

    /**
     * planTablesForSchema: clears the schema's entries, then walks from the
     * root; the schema's pages become the plan of the walk, its file map
     * the plan's file names; other schemas keep theirs.
     */
    method PlanTablesForSchema(schemaName: string, rootTable: CslType)
      requires rootTable.TableType?
      modifies this
      ensures planned == old(planned)[schemaName := Plan(schemaName, rootTable)]
      ensures pathToFile == old(pathToFile)[schemaName := AddFiles(map[], Plan(schemaName, rootTable))]
    {
      planned := planned[schemaName := []];
      pathToFile := pathToFile[schemaName := map[]];
      var seen := Walk(schemaName, rootTable, [], {});
      assert KeysOf([]) == {};
      ghost var d := Plan(schemaName, rootTable);
      assert [] + d == d;
      UpdateTwice(old(planned), schemaName, [], d);
      UpdateTwice(old(pathToFile), schemaName, map[], AddFiles(map[], d));
    }

    /** linkToPageIfExists: the label wrapped in a link to the page planned for the path, if there is one. */
    function LinkToPageIfExists(schemaName: string, path: seq<string>, labelHtml: string): (r: string)
      reads this
      ensures (schemaName !in pathToFile || PathKey(path) !in pathToFile[schemaName]) ==> r == labelHtml
    {
      if schemaName !in pathToFile then labelHtml
      else if PathKey(path) !in pathToFile[schemaName] then labelHtml
      else Anchor(pathToFile[schemaName][PathKey(path)], labelHtml)
    }

    /** planned and pathToFile hold, for the schema, what they held before plus the pages of the items, and seen their keys. */
    ghost predicate Tracks(p0: map<string, seq<TablePage>>, f0: map<string, map<string, string>>, schemaName: string,
                           items: seq<WalkItem>, seen0: set<string>, seen: set<string>)
      reads this
    {
      && schemaName in p0 && schemaName in f0
      && seen == seen0 + KeysOf(items)
      && planned == p0[schemaName := p0[schemaName] + Dedup(items, seen0, schemaName)]
      && pathToFile == f0[schemaName := AddFiles(f0[schemaName], Dedup(items, seen0, schemaName))]
    }

    /**
     * The walk lambda: records the table at a non-root path unless its key
     * was seen, then walks the explicit keys' tables in order, then the
     * wildcard's.  It appends the plan of its walk and returns the seen set
     * grown by the walked keys.
     */
    method Walk(schemaName: string, table: CslType, path: seq<string>, seen0: set<string>) returns (seen: set<string>)
      requires table.TableType? && schemaName in planned && schemaName in pathToFile
      modifies this
      ensures Tracks(old(planned), old(pathToFile), schemaName, DocGenPlan.Walk(table, path), seen0, seen)
      decreases table, 1
    {
      ghost var p0 := planned;
      ghost var f0 := pathToFile;
      ghost var items;
      items, seen := VisitTable(schemaName, table, path, seen0);
      items, seen := WalkKeys(schemaName, table.explicitKeys, path, p0, f0, items, seen0, seen);
      items, seen := WalkWildcard(schemaName, table.wildcardKey, path, p0, f0, items, seen0, seen);
      assert items == DocGenPlan.Walk(table, path);
    }

    /** The page for the table at a non-root path whose key is new. */
    method VisitTable(schemaName: string, table: CslType, path: seq<string>, seen0: set<string>)
      returns (ghost items: seq<WalkItem>, seen: set<string>)
      requires schemaName in planned && schemaName in pathToFile
      modifies this
      ensures items == if |path| == 0 then [] else [WalkItem(path, table)]
      ensures Tracks(old(planned), old(pathToFile), schemaName, items, seen0, seen)
    {
      ghost var p0 := planned;
      ghost var f0 := pathToFile;
      seen := seen0;
      items := [];
      if |path| > 0 {
        var pk := PathKeyOf(path);
        items := [WalkItem(path, table)];
        assert KeysOf(items) == {pk};
        if pk !in seen {
          seen := seen + {pk};
          var filename := PageFileFor(schemaName, path);
          var meta := TablePage(path, table, filename);
          planned := planned[schemaName := planned[schemaName] + [meta]];
          pathToFile := pathToFile[schemaName := pathToFile[schemaName][pk := filename]];
          FirstPage(p0, f0, schemaName, items, seen0, meta);
        } else {
          NoPage(p0, f0, schemaName, items, seen0);
        }
      } else {
        NoPage(p0, f0, schemaName, items, seen0);
      }
    }

    /** The loop over the explicit keys: a table under its name, a table array under name + "[]". */
    method WalkKeys(schemaName: string, keys: seq<KeyDefinition>, path: seq<string>,
                    ghost p0: map<string, seq<TablePage>>, ghost f0: map<string, map<string, string>>,
                    ghost items0: seq<WalkItem>, ghost seen0: set<string>, seen1: set<string>)
      returns (ghost items: seq<WalkItem>, seen: set<string>)
      requires Tracks(p0, f0, schemaName, items0, seen0, seen1)
      modifies this
      ensures items == items0 + KeysWalk(keys, path)
      ensures Tracks(p0, f0, schemaName, items, seen0, seen)
      decreases keys, 0
    {
      items, seen := items0, seen1;
      for i := 0 to |keys|
        invariant items == items0 + KeysWalk(keys[..i], path)
        invariant Tracks(p0, f0, schemaName, items, seen0, seen)
      {
        KeysWalkStep(keys, i, path);
        var kd := keys[i];
        var t := kd.keyType;
        ghost var before := items;
        if t.TableType? {
          items, seen := WalkChild(schemaName, t, path + [kd.name], p0, f0, items, seen0, seen);
        } else if t.ArrayType? && t.elementType.TableType? {
          items, seen := WalkChild(schemaName, t.elementType, path + [kd.name + "[]"], p0, f0, items, seen0, seen);
        }
        assert items == before + KeyWalk(kd, path);
      }
      assert keys[..|keys|] == keys;
    }

    /** The wildcard key: a table under "*", a table array under "*[]". */
    method WalkWildcard(schemaName: string, w: Option<KeyDefinition>, path: seq<string>,
                        ghost p0: map<string, seq<TablePage>>, ghost f0: map<string, map<string, string>>,
                        ghost items0: seq<WalkItem>, ghost seen0: set<string>, seen1: set<string>)
      returns (ghost items: seq<WalkItem>, seen: set<string>)
      requires Tracks(p0, f0, schemaName, items0, seen0, seen1)
      modifies this
      ensures items == items0 + WildcardWalk(w, path)
      ensures Tracks(p0, f0, schemaName, items, seen0, seen)
      decreases w, 0
    {
      items, seen := items0, seen1;
      match w {
        case None =>
        case Some(wk) =>
          var t := wk.keyType;
          if t.TableType? {
            items, seen := WalkChild(schemaName, t, path + ["*"], p0, f0, items, seen0, seen);
          } else if t.ArrayType? && t.elementType.TableType? {
            items, seen := WalkChild(schemaName, t.elementType, path + ["*[]"], p0, f0, items, seen0, seen);
          }
      }
    }

    /**
     * One recursive call of the walk: the child's items follow those walked
     * so far, and the pages and file map grow by the child's plan.
     */
    method WalkChild(schemaName: string, child: CslType, childPath: seq<string>,
                     ghost p0: map<string, seq<TablePage>>, ghost f0: map<string, map<string, string>>,
                     ghost items: seq<WalkItem>, ghost seen0: set<string>, seen: set<string>)
      returns (ghost items': seq<WalkItem>, seen': set<string>)
      requires child.TableType?
      requires Tracks(p0, f0, schemaName, items, seen0, seen)
      modifies this
      ensures items' == items + DocGenPlan.Walk(child, childPath)
      ensures Tracks(p0, f0, schemaName, items', seen0, seen')
      decreases child, 2
    {
      ghost var w := DocGenPlan.Walk(child, childPath);
      seen' := Walk(schemaName, child, childPath, seen);
      items' := items + w;
      ChildPages(p0, f0, schemaName, items, w, seen0);
    }
  }

  /** The link markup around a label. */
  function Anchor(file: string, labelHtml: string): string
  {
    "<a class=\"link\" href=\"" + HtmlEscaped(file) + "\">" + labelHtml + "</a>"
  }

  /**
   * After planning a schema, a label for a planned table's path links to
   * that table's page, and a label for any path the walk did not reach
   * stays plain.
   */
  lemma LinksAfterPlanning(gen: HtmlPagesGen, schemaName: string, root: CslType, path: seq<string>, labelHtml: string)
    requires root.TableType?
    requires schemaName in gen.pathToFile && gen.pathToFile[schemaName] == AddFiles(map[], Plan(schemaName, root))
    ensures PathKey(path) !in KeysOf(DocGenPlan.Walk(root, [])) ==> gen.LinkToPageIfExists(schemaName, path, labelHtml) == labelHtml
    ensures forall i :: 0 <= i < |Plan(schemaName, root)| && Plan(schemaName, root)[i].path == path ==>
      gen.LinkToPageIfExists(schemaName, path, labelHtml) == Anchor(PageFile(schemaName, path), labelHtml)
  {
    PlanFiles(schemaName, root);
  }

  /** The walk's bookkeeping when the table at the path gives no page: nothing changes. */
  lemma NoPage(p0: map<string, seq<TablePage>>, f0: map<string, map<string, string>>, s: string, items: seq<WalkItem>, seen0: set<string>)
    requires s in p0 && s in f0 && Dedup(items, seen0, s) == []
    ensures p0 == p0[s := p0[s] + Dedup(items, seen0, s)]
    ensures f0 == f0[s := AddFiles(f0[s], Dedup(items, seen0, s))]
  {
    assert p0[s] + [] == p0[s];
  }

  /** The walk's bookkeeping when the table at the path gives the first page. */
  lemma FirstPage(p0: map<string, seq<TablePage>>, f0: map<string, map<string, string>>, s: string, items: seq<WalkItem>, seen0: set<string>, meta: TablePage)
    requires s in p0 && s in f0
    requires |items| == 1 && PathKey(items[0].path) !in seen0
    requires meta == TablePage(items[0].path, items[0].table, PageFile(s, items[0].path))
    ensures p0[s := p0[s] + [meta]] == p0[s := p0[s] + Dedup(items, seen0, s)]
    ensures f0[s := f0[s][PathKey(meta.path) := meta.filename]] == f0[s := AddFiles(f0[s], Dedup(items, seen0, s))]
  {
    assert items[1..] == [];
    assert Dedup(items, seen0, s) == [meta];
    assert [meta][..0] == [];
  }

  /**
   * The walk's bookkeeping around a recursive call: the pages planned so
   * far, then the child's pages planned after the keys seen so far, are the
   * pages of the combined items.
   */
  lemma ChildPages(p0: map<string, seq<TablePage>>, f0: map<string, map<string, string>>, s: string, items: seq<WalkItem>, w: seq<WalkItem>, seen0: set<string>)
    requires s in p0 && s in f0
    ensures var a := Dedup(items, seen0, s);
      var b := Dedup(w, seen0 + KeysOf(items), s);
      && p0[s := p0[s] + a][s := p0[s] + a + b] == p0[s := p0[s] + Dedup(items + w, seen0, s)]
      && f0[s := AddFiles(f0[s], a)][s := AddFiles(AddFiles(f0[s], a), b)] == f0[s := AddFiles(f0[s], Dedup(items + w, seen0, s))]
      && seen0 + KeysOf(items) + KeysOf(w) == seen0 + KeysOf(items + w)
  {
    var a := Dedup(items, seen0, s);
    var b := Dedup(w, seen0 + KeysOf(items), s);
    KeysOfAppend(items, w);
    DedupAppend(items, w, seen0, s);
    assert p0[s] + a + b == p0[s] + (a + b);
    AddFilesAppend(f0[s], a, b);
  }

  lemma UpdateTwice<K, V>(m: map<K, V>, k: K, a: V, b: V)
    ensures m[k := a][k := b] == m[k := b]
  {
  }
}
