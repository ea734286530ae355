/** Update graphs as the catalog hands them out: how a graph is found by name, what a plain and
    a composite graph answer, and how a composite's answer relates to its children's. */
module Handles {
  import opened Wrappers
  import opened Ordering
  import opened Seqs
  import opened Content
  import opened Semver
  import opened Graphs
  import opened Query

  /** hasChildren decides which kind of graph a row becomes. */
  datatype Handle =
    | Plain(id: nat, name: string, deprecation: Option<string>)
    | Composite(id: nat, name: string, deprecation: Option<string>)

  function HandleOf(t: Tables, g: nat): Handle
    requires g in t.graphs
  {
    var row := t.graphs[g];
    if Children(t, g) != {} then Composite(g, row.name, row.deprecation) else Plain(g, row.name, row.deprecation)
  }

  /** The rows queryGraphNodes selects; the empty name selects by parent alone. */
  predicate Selected(t: Tables, c: string, parent: Option<nat>, name: string, g: nat) {
    && g in t.graphs
    && t.graphs[g].parent == parent
    && (parent.None? ==> t.graphs[g].catalog == c)
    && (name != "" ==> t.graphs[g].name == name)
  }

  function NameOf(h: Handle): string {
    h.name
  }

  /** The handles of the rows selected, in no particular order. */
  method SelectHandles(t: Tables, c: string, parent: Option<nat>, name: string) returns (hs: seq<Handle>)
    ensures forall h <- hs :: Selected(t, c, parent, name, h.id) && h == HandleOf(t, h.id)
    ensures forall g :: Selected(t, c, parent, name, g) ==> HandleOf(t, g) in hs
    ensures Distinct(hs)
  {
    var ids := Enumerate(set g | g in t.graphs && Selected(t, c, parent, name, g));
    hs := [];
    for i := 0 to |ids|
      invariant |hs| == i
      invariant forall j | 0 <= j < i :: ids[j] in t.graphs && hs[j] == HandleOf(t, ids[j])
    {
      assert ids[i] in ids;
      hs := hs + [HandleOf(t, ids[i])];
    }
    assert forall i | 0 <= i < |hs| :: ids[i] in ids && hs[i].id == ids[i];
    forall g | Selected(t, c, parent, name, g)
      ensures HandleOf(t, g) in hs
    {
      assert g in ids;
      var i :| 0 <= i < |ids| && ids[i] == g;
      assert hs[i] == HandleOf(t, g);
    }
  }

  /** Every graph below the parent, by name, or the one of the given name. */
  method QueryGraphNodes(t: Tables, c: string, parent: Option<nat>, name: string) returns (hs: seq<Handle>)
    ensures forall h <- hs :: Selected(t, c, parent, name, h.id) && h == HandleOf(t, h.id)
    ensures forall g :: Selected(t, c, parent, name, g) ==> HandleOf(t, g) in hs
    ensures Distinct(hs)
    ensures forall i, j | 0 <= i < j < |hs| :: CompareStrings(hs[i].name, hs[j].name) <= 0
  {
    var rows := SelectHandles(t, c, parent, name);
    hs := OrderBy(rows, NameOf);
    SameMultisetDistinct(rows, hs);
    forall i, j | 0 <= i < j < |hs| ensures CompareStrings(hs[i].name, hs[j].name) <= 0 {
      assert CompareStrings(NameOf(hs[i]), NameOf(hs[j])) <= 0;
    }
  }

  /** In valid tables the names ascend strictly. */
  lemma SelectedOnce(t: Tables, c: string, parent: Option<nat>, name: string, g: nat, h: nat)
    requires Valid(t) && Selected(t, c, parent, name, g) && Selected(t, c, parent, name, h)
    requires t.graphs[g].name == t.graphs[h].name
    ensures g == h
  {
    assert GraphShape(t, g) && GraphShape(t, h);
  }

  function PathUnder(t: Tables, parent: Option<nat>, name: string): string
    requires parent.Some? ==> parent.value in t.graphs
  {
    if parent.None? then name else t.graphs[parent.value].path + "/" + name
  }

  ghost function HandleAt(t: Tables, c: string, path: string): Option<Handle> {
    match GraphId(t, c, path) case None => None case Some(g) => Some(HandleOf(t, g))
  }

  /** The graph of that name below the parent, if there is one. */
  ghost function Named(t: Tables, c: string, parent: Option<nat>, name: string): Option<Handle>
    requires parent.Some? ==> parent.value in t.graphs
  {
    if !AcceptedSegment(name) then None
    else HandleAt(t, c, PathUnder(t, parent, name))
  }

  ghost predicate HasChild(t: Tables, c: string, parent: Option<nat>) {
    exists g :: Selected(t, c, parent, "", g)
  }

  /** The least name below the parent. */
  ghost predicate LeastNamed(t: Tables, c: string, parent: Option<nat>, h: Handle) {
    && Selected(t, c, parent, "", h.id) && h == HandleOf(t, h.id)
    && forall g | Selected(t, c, parent, "", g) :: CompareStrings(h.name, t.graphs[g].name) <= 0
  }

  /** GetPackage and GetGraph: the first row of queryGraphNodes, if any. The empty name names no graph,
      but finds the first one there is; so what is returned is the graph of that name, or none, exactly
      if the name is not empty or there is nothing to find. */
  method QueryGraphNode(t: Tables, c: string, parent: Option<nat>, name: string) returns (h: Option<Handle>)
    requires Valid(t) && (parent.Some? ==> Owns(t, c, parent.value))
    ensures name != "" ==> h == Named(t, c, parent, name)
    ensures name == "" ==> (h.Some? <==> HasChild(t, c, parent)) && (h.Some? ==> LeastNamed(t, c, parent, h.value))
    ensures h == Named(t, c, parent, name) <==> name != "" || !HasChild(t, c, parent)
    ensures h.Some? ==> Selected(t, c, parent, name, h.value.id) && h.value == HandleOf(t, h.value.id)
  {
    var hs := QueryGraphNodes(t, c, parent, name);
    if hs == [] {
      h := None;
    } else {
      h := Some(hs[0]);
      assert hs[0] in hs;
      CompareStringsZero(hs[0].name, hs[0].name);
    }
    if name != "" {
      SelectedIsNamed(t, c, parent, name);
    } else {
      forall g | Selected(t, c, parent, name, g) ensures h.Some? &&
        CompareStrings(h.value.name, t.graphs[g].name) <= 0 {
        var i :| 0 <= i < |hs| && hs[i] == HandleOf(t, g);
        assert hs[i].name == t.graphs[g].name;
      }
    }
  }

  /** Selecting by a name is selecting the row at the path of that name. */
  lemma SelectedIsNamed(t: Tables, c: string, parent: Option<nat>, name: string)
    requires Valid(t) && name != "" && (parent.Some? ==> Owns(t, c, parent.value))
    ensures forall g: nat :: Selected(t, c, parent, name, g) ==> Named(t, c, parent, name) == Some(HandleOf(t, g))
    ensures Named(t, c, parent, name).Some? ==>
              exists g: nat :: Selected(t, c, parent, name, g) && Named(t, c, parent, name) == Some(HandleOf(t, g))
  {
    forall g: nat | Selected(t, c, parent, name, g)
      ensures Named(t, c, parent, name) == Some(HandleOf(t, g))
    {
      assert GraphShape(t, g);
      assert IsGraph(t, c, PathUnder(t, parent, name), g);
    }
    if AcceptedSegment(name) {
      NamedIsSelected(t, c, parent, name);
    }
  }

  /** A row at the path of a child is that child. */
  lemma NamedIsSelected(t: Tables, c: string, parent: Option<nat>, name: string)
    requires Valid(t) && AcceptedSegment(name) && (parent.Some? ==> Owns(t, c, parent.value))
    ensures forall g :: IsGraph(t, c, PathUnder(t, parent, name), g) ==> Selected(t, c, parent, name, g)
  {
    var path := PathUnder(t, parent, name);
    forall g | IsGraph(t, c, path, g)
      ensures Selected(t, c, parent, name, g)
    {
      assert GraphShape(t, g);
      var row := t.graphs[g];
      if parent.Some? {
        ExtensionHasSlash(t.graphs[parent.value].path, path);
      }
      if row.parent.Some? {
        ExtensionHasSlash(t.graphs[row.parent.value].path, path);
        LastSegment(t.graphs[parent.value].path, name, t.graphs[row.parent.value].path, row.name);
      }
    }
  }

  lemma LastSegment(p: string, m: string, q: string, n: string)
    requires '/' !in m && '/' !in n && p + "/" + m == q + "/" + n
    ensures p == q && m == n
  {
    var whole := p + "/" + m;
    assert whole[|p|] == '/' && whole[|q|] == (q + "/" + n)[|q|] == '/';
    assert forall i | |p| < i < |whole| :: whole[i] == m[i - |p| - 1];
    assert forall i | |q| < i < |whole| :: whole[i] == n[i - |q| - 1];
    assert |p| == |q|;
    assert p == whole[..|p|] && q == (q + "/" + n)[..|q|];
    assert m == whole[|p| + 1..] && n == (q + "/" + n)[|q| + 1..];
  }

  lemma BelowHasSlash(t: Tables, g: nat)
    requires Shaped(t) && g in t.graphs
    ensures t.graphs[g].parent.Some? ==> '/' in t.graphs[g].path
  {
    assert GraphShape(t, g);
    if t.graphs[g].parent.Some? {
      ExtensionHasSlash(t.graphs[t.graphs[g].parent.value].path, t.graphs[g].path);
    }
  }

  /** A row below a root is a child of the row at that root's path. */
  lemma RootOf(t: Tables, c: string, pkg: string, ch: string, g: nat) returns (p: nat)
    requires Valid(t) && AcceptedSegment(pkg) && AcceptedSegment(ch) && IsGraph(t, c, pkg + "/" + ch, g)
    ensures IsGraph(t, c, pkg, p) && IsChild(t, p, g) && t.graphs[p].parent == None && t.graphs[g].name == ch
  {
    assert GraphShape(t, g);
    ExtensionHasSlash(pkg, pkg + "/" + ch);
    assert t.graphs[g].parent.Some?;
    p := t.graphs[g].parent.value;
    LastSegment(pkg, ch, t.graphs[p].path, t.graphs[g].name);
    BelowHasSlash(t, p);
  }

  /** GetPackage, and GetGraph on what it returns if that is a composite. */
  method GetChannel(t: Tables, c: string, pkg: string, ch: string) returns (h: Option<Handle>)
    requires Valid(t)
    ensures AcceptedSegment(pkg) && AcceptedSegment(ch) ==> h == HandleAt(t, c, pkg + "/" + ch)
    ensures h.Some? ==> h.value.id in t.graphs && h.value == HandleOf(t, h.value.id) && Owns(t, c, h.value.id)
  {
    var p := QueryGraphNode(t, c, None, pkg);
    h := None;
    if p.Some? {
      if p.value.Composite? {
        h := QueryGraphNode(t, c, Some(p.value.id), ch);
        assert h.Some? ==> GraphShape(t, h.value.id);
      }
    }
    if AcceptedSegment(pkg) && AcceptedSegment(ch) {
      var g := GraphId(t, c, pkg + "/" + ch);
      if g.Some? {
        var q := RootOf(t, c, pkg, ch, g.value);
        assert IsGraph(t, c, pkg, p.value.id) && q == p.value.id && g.value in Children(t, q);
      }
    }
  }

  // ---------------------------------------------------------------- answers

  /** The graphs that answer for g: g itself, or its descendants when it has children. */
  ghost function Scope(t: Tables, g: nat): (scope: set<nat>)
  {
    if Children(t, g) == {} then {g} else set d | d in t.graphs && Descends(t, g, d)
  }

  lemma ScopeInCatalog(t: Tables, c: string, g: nat)
    requires Shaped(t) && Owns(t, c, g)
    ensures InCatalog(t, c, Scope(t, g))
  {
    forall d | d in t.graphs && Descends(t, g, d)
      ensures Owns(t, c, d)
    {
      DescendsBelow(t, g, d);
    }
  }

  method ScopeOf(t: Tables, h: Handle) returns (scope: set<nat>)
    requires Shaped(t) && h.id in t.graphs && h == HandleOf(t, h.id)
    ensures scope == Scope(t, h.id)
  {
    match h
    case Plain(id, _, _) => scope := {id};
    case Composite(id, _, _) =>
      var ids := DescendantIds(t, id);
      scope := Elems(ids);
  }

  method ListBundles(lib: SemverLib, t: Tables, h: Handle) returns (out: seq<Yield>)
    requires Valid(t) && h.id in t.graphs && h == HandleOf(t, h.id)
    ensures StreamsInOrder(lib, out, ListedRows(t, Scope(t, h.id)))
    ensures TextsParse(lib, t, t.graphs[h.id].catalog) ==>
            YieldsExactly(out, ListedRows(t, Scope(t, h.id))) && IdsAscend(out)
  {
    var scope := ScopeOf(t, h);
    ghost var c := t.graphs[h.id].catalog;
    ScopeInCatalog(t, c, h.id);
    out := QueryBundles(lib, t, scope, c);
  }

  method Successors(lib: SemverLib, t: Tables, h: Handle, fromID: string, version: string) returns (out: seq<Yield>)
    requires Valid(t) && h.id in t.graphs && h == HandleOf(t, h.id)
    ensures TextsParse(lib, t, t.graphs[h.id].catalog) ==>
            YieldsSuccessors(lib, t, Scope(t, h.id), fromID, version, out)
  {
    var scope := ScopeOf(t, h);
    ghost var c := t.graphs[h.id].catalog;
    ScopeInCatalog(t, c, h.id);
    out := QuerySuccessors(lib, t, scope, fromID, version, c);
  }

  /** Where no other catalog stores the id, the answer is the one for the catalog's own bundle. */
  lemma OwnIdAnswers(lib: SemverLib, t: Tables, c: string, scope: set<nat>, fromID: string, version: string,
                     out: seq<Yield>)
    requires Valid(t) && YieldsSuccessors(lib, t, scope, fromID, version, out)
    requires forall b <- t.bundles | t.bundles[b].id == fromID :: t.bundles[b].catalog == c
    ensures YieldsExactly(out, SuccessorRows(lib, t, scope, BundleId(t, c, fromID), version))
  {
    var from :| ScalarBundle(t, fromID, from) && YieldsExactly(out, SuccessorRows(lib, t, scope, from, version));
    if from.Some? {
      assert IsBundle(t, c, fromID, from.value);
    }
  }

  // ---------------------------------------------------------------- a composite and its children

  lemma {:induction false} FirstChild(t: Tables, g: nat, d: nat)
    requires Shaped(t) && Descends(t, g, d)
    ensures exists k :: IsChild(t, g, k) && (k == d || Descends(t, k, d))
    decreases d
  {
    assert GraphShape(t, d);
    var q := t.graphs[d].parent.value;
    if q == g {
      assert IsChild(t, g, d);
    } else {
      FirstChild(t, g, q);
      var k :| IsChild(t, g, k) && (k == q || Descends(t, k, q));
      DescendsFrom(t, k, q, d);
    }
  }

  lemma {:induction false} DescendsThrough(t: Tables, g: nat, k: nat, d: nat)
    requires Shaped(t) && IsChild(t, g, k) && Descends(t, k, d)
    ensures Descends(t, g, d)
    decreases d
  {
    assert GraphShape(t, k) && GraphShape(t, d);
    var q := t.graphs[d].parent.value;
    if q == k {
      DescendsFrom(t, g, g, k);
      DescendsFrom(t, g, k, d);
    } else {
      DescendsThrough(t, g, k, q);
      DescendsFrom(t, g, q, d);
    }
  }

  /** A composite's scope is its children and their scopes: exactly the children that have
      children of their own are in it without being in a child's scope. */
  lemma ScopeOfChildren(t: Tables, g: nat, d: nat)
    requires Shaped(t) && g in t.graphs && Children(t, g) != {}
    ensures d in Scope(t, g) <==> exists k :: IsChild(t, g, k) && (d == k || d in Scope(t, k))
  {
    if d in Scope(t, g) {
      FirstChild(t, g, d);
      var k :| IsChild(t, g, k) && (k == d || Descends(t, k, d));
      if k != d {
        FirstChild(t, k, d);
        var j :| IsChild(t, k, j) && (j == d || Descends(t, j, d));
        assert j in Children(t, k);
      }
    }
    if k :| IsChild(t, g, k) && (d == k || d in Scope(t, k)) {
      assert GraphShape(t, k);
      DescendsFrom(t, g, g, k);
      if d != k {
        DescendsThrough(t, g, k, d);
      }
    }
  }

  /** The catalog's graphs with children hold no members, edges or ranges of their own. */
  ghost predicate LeafOnly(t: Tables, c: string) {
    && (forall m <- t.members | Owns(t, c, m.graph) :: Children(t, m.graph) == {})
    && (forall e <- t.edges | Owns(t, c, e.graph) :: Children(t, e.graph) == {})
    && (forall k <- t.ranges | Owns(t, c, k.graph) :: Children(t, k.graph) == {})
  }

  ghost function LeavesUnder(t: Tables, g: nat): set<nat> {
    set d | d in t.graphs && Descends(t, g, d) && Children(t, d) == {}
  }

  /** Main result: when only childless graphs hold content, a composite graph lists and offers
      exactly the union of what its children list and offer, and, at any depth, of what the
      leaves under it hold. */
  lemma CompositeIsUnion(lib: SemverLib, t: Tables, g: nat, from: Option<nat>, version: string)
    requires Valid(t) && g in t.graphs && LeafOnly(t, t.graphs[g].catalog) && Children(t, g) != {}
    ensures forall b :: b in ListedBundles(t, Scope(t, g)) <==>
                          exists k :: IsChild(t, g, k) && b in ListedBundles(t, Scope(t, k))
    ensures forall b :: b in ListedBundles(t, Scope(t, g)) <==>
                          exists l :: l in LeavesUnder(t, g) && b in ListedBundles(t, {l})
    ensures forall r :: r in SuccessorRows(lib, t, Scope(t, g), from, version) <==>
                          exists k :: IsChild(t, g, k) && r in SuccessorRows(lib, t, Scope(t, k), from, version)
    ensures forall r :: r in SuccessorRows(lib, t, Scope(t, g), from, version) <==>
                          exists l :: l in LeavesUnder(t, g) && r in SuccessorRows(lib, t, {l}, from, version)
  {
    forall b
      ensures b in ListedBundles(t, Scope(t, g)) <==> exists k :: IsChild(t, g, k) && b in ListedBundles(t, Scope(t, k))
      ensures b in ListedBundles(t, Scope(t, g)) <==> exists l :: l in LeavesUnder(t, g) && b in ListedBundles(t, {l})
    {
      ListedUnion(t, g, b);
    }
    forall r
      ensures r in SuccessorRows(lib, t, Scope(t, g), from, version) <==>
                exists k :: IsChild(t, g, k) && r in SuccessorRows(lib, t, Scope(t, k), from, version)
      ensures r in SuccessorRows(lib, t, Scope(t, g), from, version) <==>
                exists l :: l in LeavesUnder(t, g) && r in SuccessorRows(lib, t, {l}, from, version)
    {
      SuccessorUnion(lib, t, g, from, version, r);
    }
  }

  /** Where a bundle listed over a set of graphs comes from. */
  lemma ListedAt(t: Tables, scope: set<nat>, b: nat)
    ensures b in ListedBundles(t, scope) <==> exists d :: d in scope && b in ListedBundles(t, {d})
  {
    if b in ListedBundles(t, scope) {
      var m :| m in t.members && m.graph in scope && m.bundle in t.bundles &&
        t.bundles[m.bundle].info.version != "" && m.bundle == b;
      assert b in ListedBundles(t, {m.graph});
    }
  }

  lemma ListedUnion(t: Tables, g: nat, b: nat)
    requires Shaped(t) && g in t.graphs && LeafOnly(t, t.graphs[g].catalog) && Children(t, g) != {}
    ensures b in ListedBundles(t, Scope(t, g)) <==> exists k :: IsChild(t, g, k) && b in ListedBundles(t, Scope(t, k))
    ensures b in ListedBundles(t, Scope(t, g)) <==> exists l :: l in LeavesUnder(t, g) && b in ListedBundles(t, {l})
  {
    ListedAt(t, Scope(t, g), b);
    if d :| d in Scope(t, g) && b in ListedBundles(t, {d}) {
      ScopeInCatalog(t, t.graphs[g].catalog, g);
      assert d in LeavesUnder(t, g);
      ScopeOfChildren(t, g, d);
      var k :| IsChild(t, g, k) && (d == k || d in Scope(t, k));
      ListedAt(t, Scope(t, k), b);
    }
    if k :| IsChild(t, g, k) && b in ListedBundles(t, Scope(t, k)) {
      ListedAt(t, Scope(t, k), b);
      var d :| d in Scope(t, k) && b in ListedBundles(t, {d});
      ScopeOfChildren(t, g, d);
    }
  }

  lemma SuccessorAt(lib: SemverLib, t: Tables, scope: set<nat>, from: Option<nat>, version: string, r: Row)
    ensures r in SuccessorRows(lib, t, scope, from, version) <==>
              exists d :: d in scope && r in SuccessorRows(lib, t, {d}, from, version)
  {
    if r in RowsAt(t, ExplicitBundles(t, scope, from)) {
      var b :| b in ExplicitBundles(t, scope, from) && r == RowOf(t, b);
      var e :| e in t.edges && e.graph in scope && from == Some(e.from) && e.to == b;
      assert b in ExplicitBundles(t, {e.graph}, from);
      assert r in SuccessorRows(lib, t, {e.graph}, from, version);
    } else if r in RowsAt(t, MatchedBundles(lib, t, scope, version)) {
      var b :| b in MatchedBundles(lib, t, scope, version) && r == RowOf(t, b);
      var k :| k in RangeSlots(t, scope) && lib.inRange(t.ranges[k], version) && k.bundle == b;
      assert k in RangeSlots(t, {k.graph});
      assert r in SuccessorRows(lib, t, {k.graph}, from, version);
    }
    if d :| d in scope && r in SuccessorRows(lib, t, {d}, from, version) {
      assert ExplicitBundles(t, {d}, from) <= ExplicitBundles(t, scope, from);
      assert RangeSlots(t, {d}) <= RangeSlots(t, scope);
    }
  }

  lemma SuccessorLeaf(lib: SemverLib, t: Tables, c: string, d: nat, from: Option<nat>, version: string, r: Row)
    requires LeafOnly(t, c) && Owns(t, c, d) && r in SuccessorRows(lib, t, {d}, from, version)
    ensures Children(t, d) == {}
  {
  }

  lemma SuccessorUnion(lib: SemverLib, t: Tables, g: nat, from: Option<nat>, version: string, r: Row)
    requires Shaped(t) && g in t.graphs && LeafOnly(t, t.graphs[g].catalog) && Children(t, g) != {}
    ensures r in SuccessorRows(lib, t, Scope(t, g), from, version) <==>
              exists k :: IsChild(t, g, k) && r in SuccessorRows(lib, t, Scope(t, k), from, version)
    ensures r in SuccessorRows(lib, t, Scope(t, g), from, version) <==>
              exists l :: l in LeavesUnder(t, g) && r in SuccessorRows(lib, t, {l}, from, version)
  {
    SuccessorAt(lib, t, Scope(t, g), from, version, r);
    if d :| d in Scope(t, g) && r in SuccessorRows(lib, t, {d}, from, version) {
      ScopeInCatalog(t, t.graphs[g].catalog, g);
      SuccessorLeaf(lib, t, t.graphs[g].catalog, d, from, version, r);
      assert d in LeavesUnder(t, g);
      ScopeOfChildren(t, g, d);
      var k :| IsChild(t, g, k) && (d == k || d in Scope(t, k));
      SuccessorAt(lib, t, Scope(t, k), from, version, r);
    }
    if k :| IsChild(t, g, k) && r in SuccessorRows(lib, t, Scope(t, k), from, version) {
      SuccessorAt(lib, t, Scope(t, k), from, version, r);
      var d :| d in Scope(t, k) && r in SuccessorRows(lib, t, {d}, from, version);
      ScopeOfChildren(t, g, d);
    }
  }

  // ---------------------------------------------------------------- where the union fails

  /** A graph with children answers for its descendants only: what it holds itself is lost to
      its parent's children, though not to the parent. Exactly these bundles make the difference. */
  lemma CompositeExactly(t: Tables, g: nat, b: nat)
    requires Shaped(t) && g in t.graphs && Children(t, g) != {}
    ensures b in ListedBundles(t, Scope(t, g)) <==>
              exists k :: IsChild(t, g, k) && (b in ListedBundles(t, Scope(t, k)) || b in ListedBundles(t, {k}))
  {
    ListedAt(t, Scope(t, g), b);
    if d :| d in Scope(t, g) && b in ListedBundles(t, {d}) {
      ScopeOfChildren(t, g, d);
      var k :| IsChild(t, g, k) && (d == k || d in Scope(t, k));
      ListedAt(t, Scope(t, k), b);
    }
    if k :| IsChild(t, g, k) && (b in ListedBundles(t, Scope(t, k)) || b in ListedBundles(t, {k})) {
      ListedAt(t, Scope(t, k), b);
      if b !in ListedBundles(t, {k}) {
        var d :| d in Scope(t, k) && b in ListedBundles(t, {d});
        ScopeOfChildren(t, g, d);
      } else {
        ScopeOfChildren(t, g, k);
      }
    }
  }

  /** The same for successors: edges and ranges held by a graph with children. */
  lemma CompositeOffersExactly(lib: SemverLib, t: Tables, g: nat, from: Option<nat>, version: string, r: Row)
    requires Shaped(t) && g in t.graphs && Children(t, g) != {}
    ensures r in SuccessorRows(lib, t, Scope(t, g), from, version) <==>
              exists k :: IsChild(t, g, k) && OffersBelow(lib, t, k, from, version, r)
  {
    SuccessorAt(lib, t, Scope(t, g), from, version, r);
    if d :| d in Scope(t, g) && r in SuccessorRows(lib, t, {d}, from, version) {
      ScopeOfChildren(t, g, d);
      var k :| IsChild(t, g, k) && (d == k || d in Scope(t, k));
      SuccessorAt(lib, t, Scope(t, k), from, version, r);
      assert OffersBelow(lib, t, k, from, version, r);
    }
    if k :| IsChild(t, g, k) && OffersBelow(lib, t, k, from, version, r) {
      SuccessorAt(lib, t, Scope(t, k), from, version, r);
      if r !in SuccessorRows(lib, t, {k}, from, version) {
        var d :| d in Scope(t, k) && r in SuccessorRows(lib, t, {d}, from, version);
        ScopeOfChildren(t, g, d);
      } else {
        ScopeOfChildren(t, g, k);
      }
    }
  }

  /** k offers the row, or holds it itself. */
  ghost predicate OffersBelow(lib: SemverLib, t: Tables, k: nat, from: Option<nat>, version: string, r: Row) {
    r in SuccessorRows(lib, t, Scope(t, k), from, version) || r in SuccessorRows(lib, t, {k}, from, version)
  }

  ghost predicate ChildLists(t: Tables, g: nat, b: nat) {
    exists k :: IsChild(t, g, k) && b in ListedBundles(t, Scope(t, k))
  }

  ghost predicate ChildOffers(lib: SemverLib, t: Tables, g: nat, from: Option<nat>, version: string, r: Row) {
    exists k :: IsChild(t, g, k) && r in SuccessorRows(lib, t, Scope(t, k), from, version)
  }

  /** So a composite lists the union of what its children list exactly when whatever a child holds itself
      is also listed by some child. */
  lemma UnionListsExactly(t: Tables, g: nat)
    requires Shaped(t) && g in t.graphs && Children(t, g) != {}
    ensures (forall b :: b in ListedBundles(t, Scope(t, g)) <==> ChildLists(t, g, b))
            <==> forall k, b | IsChild(t, g, k) && b in ListedBundles(t, {k}) :: ChildLists(t, g, b)
  {
    forall b
      ensures b in ListedBundles(t, Scope(t, g)) <==>
                ChildLists(t, g, b) || exists k :: IsChild(t, g, k) && b in ListedBundles(t, {k})
    {
      CompositeExactly(t, g, b);
    }
  }

  /** And likewise for what it offers. */
  lemma UnionOffersExactly(lib: SemverLib, t: Tables, g: nat, from: Option<nat>, version: string)
    requires Shaped(t) && g in t.graphs && Children(t, g) != {}
    ensures (forall r ::
            r in SuccessorRows(lib, t, Scope(t, g), from, version) <==> ChildOffers(lib, t, g, from, version, r))
            <==> forall k, r | IsChild(t, g, k) && r in SuccessorRows(lib, t, {k}, from, version) ::
                   ChildOffers(lib, t, g, from, version, r)
  {
    forall r
      ensures r in SuccessorRows(lib, t, Scope(t, g), from, version) <==>
                ChildOffers(lib, t, g, from, version, r) ||
                exists k :: IsChild(t, g, k) && r in SuccessorRows(lib, t, {k}, from, version)
    {
      CompositeOffersExactly(lib, t, g, from, version, r);
      assert forall k :: OffersBelow(lib, t, k, from, version, r) <==>
                           r in SuccessorRows(lib, t, Scope(t, k), from, version) ||
                             r in SuccessorRows(lib, t, {k}, from, version);
    }
  }

  /** A package with one channel that has a sub-graph, and a bundle held by the channel itself. */
  function NestedExample(): Tables {
    EMPTY.(
      graphs := map[1 := GraphRow("c", "p", "p", None, None),
                    2 := GraphRow("c", "a", "p/a", Some(1), None),
                    3 := GraphRow("c", "b", "p/a/b", Some(2), None)],
      bundles := map[1 := BundleRow("c", "x", BundleInfo("p", "1.0.0", "", "", None))],
      members := {Slot(2, 1)}, lastGraph := 3, lastBundle := 1)
  }

  lemma NestedPaths()
    ensures UniquePaths(NestedExample())
  {
    var t := NestedExample();
    assert |t.graphs[1].path| == 1 && |t.graphs[2].path| == 3 && |t.graphs[3].path| == 5;
  }

  lemma NestedValid()
    ensures Valid(NestedExample())
  {
    var t := NestedExample();
    assert "p/a" == "p" + "/" + "a" && "p/a/b" == "p/a" + "/" + "b";
    assert GraphShape(t, 1) && GraphShape(t, 2) && GraphShape(t, 3);
    assert BundleShape(t, 1);
    NestedPaths();
  }

  /** Asked for the package of the empty name, which it does not have, the store finds package "p". */
  lemma EmptyNameFinds(h: Handle)
    ensures var t := NestedExample();
            && Valid(t) && Named(t, "c", None, "") == None && HasChild(t, "c", None)
            && (LeastNamed(t, "c", None, h) ==> h.name == "p")
  {
    var t := NestedExample();
    NestedValid();
    assert Selected(t, "c", None, "", 1);
    assert forall g: nat :: Selected(t, "c", None, "", g) ==> g == 1;
  }

  /** The hypothesis is needed: here the package lists a bundle that no child graph lists. */
  lemma UnionNeedsLeaves()
    ensures var t := NestedExample();
            && Valid(t) && !LeafOnly(t, "c")
            && 1 in ListedBundles(t, Scope(t, 1))
            && !exists k :: IsChild(t, 1, k) && 1 in ListedBundles(t, Scope(t, k))
  {
    var t := NestedExample();
    NestedValid();
    assert IsChild(t, 1, 2) && IsChild(t, 2, 3);
    assert 2 in Children(t, 1) && 3 in Children(t, 2);
    assert Slot(2, 1) in t.members;
    assert 1 in ListedBundles(t, {2});
    CompositeExactly(t, 1, 1);
    assert 2 !in Scope(t, 2);
    assert forall m <- t.members :: m.graph == 2;
  }

  // ---------------------------------------------------------------- the id shared between catalogs

  /** The from-bundle subquery has no catalog filter. Whatever row it picks, the explicit edges
      are the intended ones exactly when there are none to find or no other catalog stores the id. */
  lemma ForeignIdExact(t: Tables, c: string, scope: set<nat>, id: string)
    requires Valid(t) && InCatalog(t, c, scope)
    ensures (forall from | ScalarBundle(t, id, from) ::
               ExplicitBundles(t, scope, from) == ExplicitBundles(t, scope, BundleId(t, c, id)))
            <==> (ExplicitBundles(t, scope, BundleId(t, c, id)) == {} ||
                  forall b <- t.bundles | t.bundles[b].id == id :: t.bundles[b].catalog == c)
  {
    var own := BundleId(t, c, id);
    forall b | b in t.bundles && t.bundles[b].id == id && t.bundles[b].catalog != c
      ensures ScalarBundle(t, id, Some(b)) && ExplicitBundles(t, scope, Some(b)) == {}
    {
      assert forall e <- t.edges | e.graph in scope :: OwnsBundle(t, c, e.from);
    }
    forall from | ScalarBundle(t, id, from) && from.Some? && OwnsBundle(t, c, from.value)
      ensures from == own
    {
      assert IsBundle(t, c, id, from.value);
    }
    if own.Some? {
      assert OwnsBundle(t, c, own.value) && t.bundles[own.value].id == id;
    }
  }

  /** Two catalogs store bundle "x"; in catalog "c" an edge leads from it to "y". */
  function SharedExample(): Tables {
    EMPTY.(
      graphs := map[1 := GraphRow("c", "p", "p", None, None)],
      bundles := map[1 := BundleRow("d", "x", BundleInfo("p", "1.0.0", "", "", None)),
                     2 := BundleRow("c", "x", BundleInfo("p", "1.0.0", "", "", None)),
                     3 := BundleRow("c", "y", BundleInfo("p", "2.0.0", "", "", None))],
      edges := {EdgeRow(1, 2, 3)}, lastGraph := 1, lastBundle := 3)
  }

  lemma SharedValid()
    ensures Valid(SharedExample())
  {
    var t := SharedExample();
    assert GraphShape(t, 1) && BundleShape(t, 1) && BundleShape(t, 2) && BundleShape(t, 3);
    assert t.bundles[2].id[0] != t.bundles[3].id[0];
    assert t.bundles[1].catalog[0] != t.bundles[2].catalog[0];
  }

  lemma OneBundleId(t: Tables, c: string, id: string, b: nat)
    requires UniqueIds(t) && IsBundle(t, c, id, b)
    ensures BundleId(t, c, id) == Some(b)
  {
  }

  /** The subquery may pick the other catalog's row, and then the edge is lost. */
  lemma SharedIdLosesEdge()
    ensures var t := SharedExample();
            && Valid(t) && ScalarBundle(t, "x", Some(1))
            && ExplicitBundles(t, {1}, BundleId(t, "c", "x")) == {3} && ExplicitBundles(t, {1}, Some(1)) == {}
  {
    var t := SharedExample();
    SharedValid();
    OneBundleId(t, "c", "x", 2);
    assert forall e <- t.edges :: e == EdgeRow(1, 2, 3);
    assert EdgeRow(1, 2, 3) in t.edges;
  }
}
