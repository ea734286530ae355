/** The contentWriter of the SQLite store: it edits the tables of one open transaction on
    behalf of one catalog. */
module ContentWriters {
  import opened Wrappers
  import opened Text
  import opened Content
  import opened Semver
  import opened Writer
  import opened WriterRefinement
  import opened Cascade

  /** op was carried out on t for catalog c with result ok and left u behind: the tables took
      their step, they are valid, and the catalog by name took the same step. */
  ghost predicate Did(lib: SemverLib, t: Tables, c: string, op: Op, ok: bool, u: Tables) {
    && Outcome(ok, u) == Step(lib, t, c, op)
    && Valid(u)
    && ViewStep(lib, ViewOf(t, c), op) == Outcome(ok, ViewOf(u, c))
  }

  class ContentWriter {
    const lib: SemverLib
    const catalogName: string
    var tables: Tables

    ghost predicate Valid()
      reads this
    {
      Content.Valid(tables)
    }

    constructor (lib: SemverLib, tables: Tables, catalogName: string)
      requires Content.Valid(tables)
      ensures Valid() && this.tables == tables && this.catalogName == catalogName && this.lib == lib
    {
      this.lib, this.tables, this.catalogName := lib, tables, catalogName;
    }

    /** SELECT id FROM content_graphs WHERE catalog_name = ? AND path = ? */
    method FindGraph(path: string) returns (g: Option<nat>)
      requires Valid()
      ensures g == GraphId(tables, catalogName, path)
    {
      var rows := set k | k in tables.graphs && tables.graphs[k].catalog == catalogName &&
        tables.graphs[k].path == path;
      if rows == {} {
        assert forall k :: IsGraph(tables, catalogName, path, k) ==> k in rows;
        g := None;
      } else {
        var k :| k in rows;
        assert IsGraph(tables, catalogName, path, k);
        g := Some(k);
      }
    }

    /** SELECT id FROM content_bundles WHERE bundle_id = ? AND catalog_name = ? */
    method FindBundle(id: string) returns (b: Option<nat>)
      requires Valid()
      ensures b == BundleId(tables, catalogName, id)
    {
      var rows := set k | k in tables.bundles && tables.bundles[k].catalog == catalogName && tables.bundles[k].id == id;
      if rows == {} {
        assert forall k :: IsBundle(tables, catalogName, id, k) ==> k in rows;
        b := None;
      } else {
        var k :| k in rows;
        assert IsBundle(tables, catalogName, id, k);
        b := Some(k);
      }
    }

    method ResolveGraphID(path: seq<string>) returns (g: Option<nat>)
      requires Valid()
      ensures g == Resolve(tables, catalogName, path)
    {
      if path == [] {
        return None;
      }
      var p := GraphPath(path);
      if p.None? {
        return None;
      }
      g := FindGraph(p.value);
    }

    method InsertBundle(id: string, pkg: string, version: string, release: string, uri: string) returns (ok: bool)
      requires Valid()
      modifies this`tables
      ensures Did(lib, old(tables), catalogName, Op.InsertBundle(id, pkg, version, release, uri), ok, tables)
    {
      StepRefines(lib, tables, catalogName, Op.InsertBundle(id, pkg, version, release, uri));
      var b := FindBundle(id);
      if b.None? {
        tables := WithBundle(tables, BundleRow(catalogName, id, BundleInfo(pkg, version, release, uri, None)));
      }
      ok := true;
    }

    method CreateGraph(path: seq<string>) returns (ok: bool)
      requires Valid()
      modifies this`tables
      ensures Did(lib, old(tables), catalogName, Op.CreateGraph(path), ok, tables)
    {
      StepRefines(lib, tables, catalogName, Op.CreateGraph(path));
      if path == [] {
        return false;
      }
      var p := GraphPath(path);
      if p.None? {
        return false;
      }
      var parent: Option<nat> := None;
      if |path| > 1 {
        parent := ResolveGraphID(path[..|path| - 1]);
        if parent.None? {
          return false;
        }
      }
      var taken := FindGraph(p.value);
      if taken.Some? {
        return false;
      }
      tables := WithGraph(tables, GraphRow(catalogName, path[|path| - 1], p.value, parent, None));
      ok := true;
    }

    method AddBundleToGraph(path: seq<string>, id: string) returns (ok: bool)
      requires Valid()
      modifies this`tables
      ensures Did(lib, old(tables), catalogName, Op.AddBundleToGraph(path, id), ok, tables)
    {
      StepRefines(lib, tables, catalogName, Op.AddBundleToGraph(path, id));
      var g := ResolveGraphID(path);
      if g.None? {
        return false;
      }
      var b := FindBundle(id);
      if b.Some? {
        if Slot(g.value, b.value) in tables.members {
          return false;
        }
        tables := WithMember(tables, Slot(g.value, b.value));
      }
      ok := true;
    }

    method AddEdge(path: seq<string>, from: string, to: string) returns (ok: bool)
      requires Valid()
      modifies this`tables
      ensures Did(lib, old(tables), catalogName, Op.AddEdge(path, from, to), ok, tables)
    {
      StepRefines(lib, tables, catalogName, Op.AddEdge(path, from, to));
      var g := ResolveGraphID(path);
      if g.None? {
        return false;
      }
      var f := FindBundle(from);
      var n := FindBundle(to);
      if f.Some? && n.Some? {
        tables := WithEdge(tables, EdgeRow(g.value, f.value, n.value));
      }
      ok := true;
    }

    method AddPredecessorRange(path: seq<string>, id: string, range: string) returns (ok: bool)
      requires Valid()
      modifies this`tables
      ensures Did(lib, old(tables), catalogName, Op.AddPredecessorRange(path, id, range), ok, tables)
    {
      StepRefines(lib, tables, catalogName, Op.AddPredecessorRange(path, id, range));
      if !lib.parsesRange(range) {
        return false;
      }
      var g := ResolveGraphID(path);
      if g.None? {
        return false;
      }
      var b := FindBundle(id);
      if b.None? || Slot(g.value, b.value) in tables.ranges {
        return false;
      }
      tables := WithRange(tables, Slot(g.value, b.value), range);
      ok := true;
    }

    method SetBundleProperty(id: string, key: string, json: Option<string>) returns (ok: bool)
      requires Valid()
      modifies this`tables
      ensures Did(lib, old(tables), catalogName, Op.SetBundleProperty(id, key, json), ok, tables)
    {
      StepRefines(lib, tables, catalogName, Op.SetBundleProperty(id, key, json));
      if json.None? || json.value == "" {
        return false;
      }
      var b := FindBundle(id);
      if b.None? {
        return false;
      }
      tables := WithBundleProp(tables, BundleProp(catalogName, id, key), json.value);
      ok := true;
    }

    method SetGraphProperty(path: seq<string>, key: string, json: Option<string>) returns (ok: bool)
      requires Valid()
      modifies this`tables
      ensures Did(lib, old(tables), catalogName, Op.SetGraphProperty(path, key, json), ok, tables)
    {
      StepRefines(lib, tables, catalogName, Op.SetGraphProperty(path, key, json));
      SetGraphPropertyStep(lib, tables, catalogName, path, key, json);
      if json.None? {
        return false;
      }
      var g := ResolveGraphID(path);
      if g.None? || json.value == "" {
        return false;
      }
      tables := WithGraphProp(tables, GraphProp(g.value, key), json.value);
      ok := true;
    }

    method SetGraphDeprecation(path: seq<string>, message: string) returns (ok: bool)
      requires Valid()
      modifies this`tables
      ensures Did(lib, old(tables), catalogName, Op.SetGraphDeprecation(path, message), ok, tables)
    {
      StepRefines(lib, tables, catalogName, Op.SetGraphDeprecation(path, message));
      var p := GraphPath(path);
      if p.None? {
        return false;
      }
      var g := ResolveGraphID(path);
      if g.Some? {
        if message == "" {
          return false;
        }
        tables := WithGraphMessage(tables, g.value, message);
      }
      ok := true;
    }

    method SetBundleDeprecation(id: string, message: string) returns (ok: bool)
      requires Valid()
      modifies this`tables
      ensures Did(lib, old(tables), catalogName, Op.SetBundleDeprecation(id, message), ok, tables)
    {
      StepRefines(lib, tables, catalogName, Op.SetBundleDeprecation(id, message));
      var b := FindBundle(id);
      if b.Some? {
        if message == "" {
          return false;
        }
        tables := WithBundleMessage(tables, b.value, message);
      }
      ok := true;
    }

    /** DELETE FROM content_graphs WHERE id IN seed, with ON DELETE CASCADE on parent_id: the
        engine deletes children of deleted rows until none is left. */
    method DeleteGraphs(seed: set<nat>) returns (ghost dead: set<nat>)
      requires Valid() && seed <= tables.graphs.Keys
      modifies this`tables
      ensures IsCascade(old(tables), seed, dead)
      ensures tables == RemoveGraphs(old(tables), dead)
    {
      var gone := seed;
      var more := set g | g in tables.graphs && g !in gone && tables.graphs[g].parent.Some? &&
        tables.graphs[g].parent.value in gone;
      while more != {}
        invariant seed <= gone <= tables.graphs.Keys
        invariant more == set g | g in tables.graphs && g !in gone && tables.graphs[g].parent.Some? &&
                  tables.graphs[g].parent.value in gone
        invariant forall s: set<nat> | seed <= s && CascadeClosed(tables, s) :: gone <= s
        decreases tables.graphs.Keys - gone
      {
        gone := gone + more;
        more := set g | g in tables.graphs && g !in gone && tables.graphs[g].parent.Some? &&
          tables.graphs[g].parent.value in gone;
      }
      assert CascadeClosed(tables, gone) by {
        forall g <- tables.graphs | tables.graphs[g].parent.Some? && tables.graphs[g].parent.value in gone
          ensures g in gone
        {
          assert g !in more;
        }
      }
      dead := gone;
      tables := RemoveGraphs(tables, gone);
    }

    method DeleteAll()
      requires Valid()
      modifies this`tables
      ensures Valid() && tables == DeleteContent(old(tables), catalogName)
      ensures NoRows(tables, catalogName) && OthersSame(old(tables), tables, catalogName)
      ensures ViewOf(tables, catalogName) == NO_CONTENT
    {
      DeleteContentExact(tables, catalogName);
      ghost var dead := DeleteGraphs(set g | g in tables.graphs && tables.graphs[g].catalog == catalogName);
      CascadeStays(old(tables), catalogName, dead);
      var bundles := set b | b in tables.bundles && tables.bundles[b].catalog == catalogName;
      tables := RemoveBundles(tables, bundles);
      NoRowsView(tables, catalogName);
    }
  }

  method GraphPath(path: seq<string>) returns (p: Option<string>)
    ensures p == if AcceptedPath(path) then Some(Join(path, '/')) else None
  {
    for i := 0 to |path|
      invariant AcceptedPath(path[..i])
    {
      if path[i] == "" || '/' in path[i] {
        assert !AcceptedSegment(path[i]);
        return None;
      }
      assert path[..i + 1] == path[..i] + [path[i]];
    }
    assert path[..|path|] == path;
    p := Some(Join(path, '/'));
  }

  /** graphPath never gives two paths the same text. */
  lemma GraphPathInjective(p: seq<string>, q: seq<string>)
    requires p != [] && q != [] && AcceptedPath(p) && AcceptedPath(q)
    ensures Join(p, '/') == Join(q, '/') <==> p == q
  {
    SplitJoin(p, '/');
    SplitJoin(q, '/');
  }
}
