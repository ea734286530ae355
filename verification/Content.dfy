/** The relational content of the store: seven tables with surrogate ids, their keys,
    foreign keys and uniqueness rules, and two readings of them: the rows that belong to
    one catalog (`SameRows`) and the same rows by name, without ids (`ViewOf`). */
module Content {
  import opened Wrappers
  import opened Text

  datatype GraphRow = GraphRow(catalog: string, name: string, path: string, parent: Option<nat>,
                               deprecation: Option<string>)
  datatype BundleInfo = BundleInfo(pkg: string, version: string, release: string, uri: string,
                                   deprecation: Option<string>)
  datatype BundleRow = BundleRow(catalog: string, id: string, info: BundleInfo)
  datatype Slot = Slot(graph: nat, bundle: nat)
  datatype EdgeRow = EdgeRow(graph: nat, from: nat, to: nat)
  datatype BundleProp = BundleProp(catalog: string, bundle: string, key: string)
  datatype GraphProp = GraphProp(graph: nat, key: string)

  /** `lastGraph` and `lastBundle` are the AUTOINCREMENT counters: they never go down. */
  datatype Tables = Tables(
    graphs: map<nat, GraphRow>,
    bundles: map<nat, BundleRow>,
    members: set<Slot>,
    edges: set<EdgeRow>,
    ranges: map<Slot, string>,
    bundleProps: map<BundleProp, string>,
    graphProps: map<GraphProp, string>,
    lastGraph: nat,
    lastBundle: nat)

  const EMPTY := Tables(map[], map[], {}, {}, map[], map[], map[], 0, 0)

  // ---------------------------------------------------------------- keys and references

  /** The path segments graphPath accepts. */
  predicate AcceptedPath(path: seq<string>) {
    forall seg <- path :: AcceptedSegment(seg)
  }

  predicate AcceptedSegment(seg: string) {
    seg != "" && '/' !in seg
  }

  ghost predicate IsGraph(t: Tables, c: string, path: string, g: nat) {
    g in t.graphs && t.graphs[g].catalog == c && t.graphs[g].path == path
  }

  ghost predicate IsBundle(t: Tables, c: string, id: string, b: nat) {
    b in t.bundles && t.bundles[b].catalog == c && t.bundles[b].id == id
  }

  ghost function GraphId(t: Tables, c: string, path: string): (g: Option<nat>)
    ensures g.Some? ==> IsGraph(t, c, path, g.value)
    ensures g.None? ==> forall k :: !IsGraph(t, c, path, k)
  {
    if exists k :: IsGraph(t, c, path, k) then var k :| IsGraph(t, c, path, k); Some(k) else None
  }

  ghost function BundleId(t: Tables, c: string, id: string): (b: Option<nat>)
    ensures b.Some? ==> IsBundle(t, c, id, b.value)
    ensures b.None? ==> forall k :: !IsBundle(t, c, id, k)
  {
    if exists k :: IsBundle(t, c, id, k) then var k :| IsBundle(t, c, id, k); Some(k) else None
  }

  predicate Owns(t: Tables, c: string, g: nat) {
    g in t.graphs && t.graphs[g].catalog == c
  }

  /** A root's path is its name; any other row's path is its parent's path, '/' and its name,
      and the parent is an older row of the same catalog. */
  predicate GraphShape(t: Tables, g: nat)
    requires g in t.graphs
  {
    var row := t.graphs[g];
    && g <= t.lastGraph
    && AcceptedSegment(row.name)
    && row.deprecation != Some("")
    && match row.parent
       case None => row.path == row.name
       case Some(q) => q < g && Owns(t, row.catalog, q) && row.path == t.graphs[q].path + "/" + row.name
  }

  predicate BundleShape(t: Tables, b: nat)
    requires b in t.bundles
  {
    b <= t.lastBundle && t.bundles[b].info.deprecation != Some("")
  }

  /** Foreign keys of a link, and the catalog both ends share. */
  predicate Linked(t: Tables, g: nat, b: nat) {
    g in t.graphs && b in t.bundles && t.graphs[g].catalog == t.bundles[b].catalog
  }

  ghost predicate UniquePaths(t: Tables) {
    forall g, h | g in t.graphs && h in t.graphs && t.graphs[g].catalog == t.graphs[h].catalog
                  && t.graphs[g].path == t.graphs[h].path :: g == h
  }

  ghost predicate UniqueIds(t: Tables) {
    forall b, d | b in t.bundles && d in t.bundles && t.bundles[b].catalog == t.bundles[d].catalog
                  && t.bundles[b].id == t.bundles[d].id :: b == d
  }

  ghost predicate Valid(t: Tables) {
    && Shaped(t)
    && UniquePaths(t)
    && UniqueIds(t)
    && LinksStay(t)
  }

  ghost predicate Shaped(t: Tables) {
    && (forall g <- t.graphs :: GraphShape(t, g))
    && (forall b <- t.bundles :: BundleShape(t, b))
  }

  /** Every foreign key resolves, and no link leaves its catalog. */
  ghost predicate LinksStay(t: Tables) {
    && (forall m <- t.members :: Linked(t, m.graph, m.bundle))
    && (forall e <- t.edges :: Linked(t, e.graph, e.from) && Linked(t, e.graph, e.to))
    && (forall k <- t.ranges :: Linked(t, k.graph, k.bundle))
    && (forall p <- t.bundleProps :: exists b :: IsBundle(t, p.catalog, p.bundle, b))
    && (forall p <- t.graphProps :: p.graph in t.graphs)
  }

  // ---------------------------------------------------------------- one catalog's rows

  predicate OwnsBundle(t: Tables, c: string, b: nat) {
    b in t.bundles && t.bundles[b].catalog == c
  }

  /** t and u hold the same rows of catalog c in every table, ids included. */
  ghost predicate SameRows(t: Tables, u: Tables, c: string) {
    && (forall g :: Owns(t, c, g) || Owns(u, c, g) ==> g in t.graphs && g in u.graphs && t.graphs[g] == u.graphs[g])
    && (forall b :: OwnsBundle(t, c, b) || OwnsBundle(u, c, b) ==>
          b in t.bundles && b in u.bundles && t.bundles[b] == u.bundles[b])
    && (forall m: Slot :: Owns(t, c, m.graph) ==> (m in t.members <==> m in u.members))
    && (forall e: EdgeRow :: Owns(t, c, e.graph) ==> (e in t.edges <==> e in u.edges))
    && (forall k: Slot :: Owns(t, c, k.graph) ==> (k in t.ranges <==> k in u.ranges))
    && (forall k: Slot :: Owns(t, c, k.graph) && k in t.ranges ==> t.ranges[k] == u.ranges[k])
    && (forall p: BundleProp :: p.catalog == c ==> (p in t.bundleProps <==> p in u.bundleProps))
    && (forall p: BundleProp :: p.catalog == c && p in t.bundleProps ==> t.bundleProps[p] == u.bundleProps[p])
    && (forall p: GraphProp :: Owns(t, c, p.graph) ==> (p in t.graphProps <==> p in u.graphProps))
    && (forall p: GraphProp :: Owns(t, c, p.graph) && p in t.graphProps ==> t.graphProps[p] == u.graphProps[p])
  }

  // ---------------------------------------------------------------- the rows by name

  /** What one graph holds, with bundles named by their id text. */
  datatype Node = Node(
    deprecation: Option<string>,
    members: set<string>,
    edges: set<(string, string)>,
    ranges: set<(string, string)>,
    props: map<string, string>)

  /** A catalog without surrogate ids: bundles by id, graphs by path. */
  datatype View = View(
    bundles: map<string, BundleInfo>,
    nodes: map<string, Node>,
    props: map<(string, string), string>)

  const NO_CONTENT := View(map[], map[], map[])
  const NEW_NODE := Node(None, {}, {}, {}, map[])

  function MemberNames(t: Tables, g: nat): set<string> {
    set m | m in t.members && m.graph == g && m.bundle in t.bundles :: t.bundles[m.bundle].id
  }

  function EdgeNames(t: Tables, g: nat): set<(string, string)> {
    set e | e in t.edges && e.graph == g && e.from in t.bundles && e.to in t.bundles ::
      (t.bundles[e.from].id, t.bundles[e.to].id)
  }

  function RangeNames(t: Tables, g: nat): set<(string, string)> {
    set k | k in t.ranges && k.graph == g && k.bundle in t.bundles :: (t.bundles[k.bundle].id, t.ranges[k])
  }

  function GraphPropsOf(t: Tables, g: nat): map<string, string> {
    map p | p in t.graphProps && p.graph == g :: p.key := t.graphProps[p]
  }

  function NodeOf(t: Tables, g: nat): Node
    requires g in t.graphs
  {
    Node(t.graphs[g].deprecation, MemberNames(t, g), EdgeNames(t, g), RangeNames(t, g), GraphPropsOf(t, g))
  }

  function BundlePropsOf(t: Tables, c: string): map<(string, string), string> {
    map p | p in t.bundleProps && p.catalog == c :: (p.bundle, p.key) := t.bundleProps[p]
  }

  /** `nodes` answers for exactly the graphs of c. */
  ghost predicate ShowsNodes(t: Tables, c: string, nodes: map<string, Node>) {
    && (forall g | Owns(t, c, g) :: t.graphs[g].path in nodes && nodes[t.graphs[g].path] == NodeOf(t, g))
    && (forall path <- nodes :: exists g :: IsGraph(t, c, path, g))
  }

  ghost predicate ShowsBundles(t: Tables, c: string, bundles: map<string, BundleInfo>) {
    && (forall b | OwnsBundle(t, c, b) :: t.bundles[b].id in bundles && bundles[t.bundles[b].id] == t.bundles[b].info)
    && (forall id <- bundles :: exists b :: IsBundle(t, c, id, b))
  }

  ghost function NodesOf(t: Tables, c: string): map<string, Node>
  {
    assert forall g <- t.graphs :: IsGraph(t, t.graphs[g].catalog, t.graphs[g].path, g);
    var paths := set g | g in t.graphs && t.graphs[g].catalog == c :: t.graphs[g].path;
    map path | path in paths :: NodeOf(t, GraphId(t, c, path).value)
  }

  ghost function BundlesOf(t: Tables, c: string): map<string, BundleInfo>
  {
    assert forall b <- t.bundles :: IsBundle(t, t.bundles[b].catalog, t.bundles[b].id, b);
    var ids := set b | b in t.bundles && t.bundles[b].catalog == c :: t.bundles[b].id;
    map id | id in ids :: t.bundles[BundleId(t, c, id).value].info
  }

  ghost function ViewOf(t: Tables, c: string): View {
    View(BundlesOf(t, c), NodesOf(t, c), BundlePropsOf(t, c))
  }

  lemma NodesShown(t: Tables, c: string)
    requires UniquePaths(t)
    ensures ShowsNodes(t, c, NodesOf(t, c))
  {
    assert forall g <- t.graphs :: IsGraph(t, t.graphs[g].catalog, t.graphs[g].path, g);
  }

  lemma BundlesShown(t: Tables, c: string)
    requires UniqueIds(t)
    ensures ShowsBundles(t, c, BundlesOf(t, c))
  {
    assert forall b <- t.bundles :: IsBundle(t, t.bundles[b].catalog, t.bundles[b].id, b);
  }

  lemma OneNodes(t: Tables, c: string, m: map<string, Node>, n: map<string, Node>)
    requires ShowsNodes(t, c, m) && ShowsNodes(t, c, n)
    ensures m == n
  {
    forall path | path in m || path in n
      ensures path in m && path in n && m[path] == n[path]
    {
      var g :| IsGraph(t, c, path, g);
      assert Owns(t, c, g);
    }
  }

  lemma OneBundles(t: Tables, c: string, m: map<string, BundleInfo>, n: map<string, BundleInfo>)
    requires ShowsBundles(t, c, m) && ShowsBundles(t, c, n)
    ensures m == n
  {
    forall id | id in m || id in n
      ensures id in m && id in n && m[id] == n[id]
    {
      var b :| IsBundle(t, c, id, b);
      assert OwnsBundle(t, c, b);
    }
  }

  /** The view is the one value that shows the catalog's rows. */
  lemma ViewIs(t: Tables, c: string, v: View)
    requires UniquePaths(t) && UniqueIds(t)
    requires ShowsNodes(t, c, v.nodes) && ShowsBundles(t, c, v.bundles) && v.props == BundlePropsOf(t, c)
    ensures ViewOf(t, c) == v
  {
    NodesShown(t, c);
    BundlesShown(t, c);
    OneNodes(t, c, v.nodes, NodesOf(t, c));
    OneBundles(t, c, v.bundles, BundlesOf(t, c));
  }

  // ---------------------------------------------------------------- the view reads one catalog only

  lemma SameMembers(t: Tables, u: Tables, c: string, g: nat)
    requires LinksStay(t) && LinksStay(u) && SameRows(t, u, c) && Owns(t, c, g)
    ensures MemberNames(t, g) == MemberNames(u, g)
  {
    forall m: Slot | m.graph == g
      ensures m in t.members <==> m in u.members
      ensures m in t.members ==> OwnsBundle(t, c, m.bundle)
    {}
  }

  lemma SameEdges(t: Tables, u: Tables, c: string, g: nat)
    requires LinksStay(t) && LinksStay(u) && SameRows(t, u, c) && Owns(t, c, g)
    ensures EdgeNames(t, g) == EdgeNames(u, g)
  {
    forall e: EdgeRow | e.graph == g
      ensures e in t.edges <==> e in u.edges
      ensures e in t.edges ==> OwnsBundle(t, c, e.from) && OwnsBundle(t, c, e.to)
    {}
  }

  lemma SameRanges(t: Tables, u: Tables, c: string, g: nat)
    requires LinksStay(t) && LinksStay(u) && SameRows(t, u, c) && Owns(t, c, g)
    ensures RangeNames(t, g) == RangeNames(u, g)
  {
    forall k: Slot | k.graph == g
      ensures k in t.ranges <==> k in u.ranges
      ensures k in t.ranges ==> OwnsBundle(t, c, k.bundle) && t.ranges[k] == u.ranges[k]
    {}
  }

  lemma SameGraphProps(t: Tables, u: Tables, c: string, g: nat)
    requires SameRows(t, u, c) && Owns(t, c, g)
    ensures GraphPropsOf(t, g) == GraphPropsOf(u, g)
  {
    forall p: GraphProp | p.graph == g
      ensures p in t.graphProps <==> p in u.graphProps
      ensures p in t.graphProps ==> t.graphProps[p] == u.graphProps[p]
    {}
  }

  lemma SameNode(t: Tables, u: Tables, c: string, g: nat)
    requires LinksStay(t) && LinksStay(u) && SameRows(t, u, c) && Owns(t, c, g)
    ensures Owns(u, c, g) && NodeOf(t, g) == NodeOf(u, g)
  {
    SameMembers(t, u, c, g);
    SameEdges(t, u, c, g);
    SameRanges(t, u, c, g);
    SameGraphProps(t, u, c, g);
  }

  lemma SameBundleProps(t: Tables, u: Tables, c: string)
    requires SameRows(t, u, c)
    ensures BundlePropsOf(t, c) == BundlePropsOf(u, c)
  {
    forall p: BundleProp | p.catalog == c
      ensures p in t.bundleProps <==> p in u.bundleProps
      ensures p in t.bundleProps ==> t.bundleProps[p] == u.bundleProps[p]
    {}
  }

  lemma SameNodes(t: Tables, u: Tables, c: string, nodes: map<string, Node>)
    requires LinksStay(t) && LinksStay(u) && SameRows(t, u, c) && ShowsNodes(t, c, nodes)
    ensures ShowsNodes(u, c, nodes)
  {
    forall g | Owns(u, c, g)
      ensures u.graphs[g].path in nodes && nodes[u.graphs[g].path] == NodeOf(u, g)
    {
      SameNode(t, u, c, g);
    }
    forall path <- nodes
      ensures exists g :: IsGraph(u, c, path, g)
    {
      var g :| IsGraph(t, c, path, g);
      assert Owns(t, c, g);
      assert IsGraph(u, c, path, g);
    }
  }

  lemma SameBundles(t: Tables, u: Tables, c: string, bundles: map<string, BundleInfo>)
    requires SameRows(t, u, c) && ShowsBundles(t, c, bundles)
    ensures ShowsBundles(u, c, bundles)
  {
    forall id <- bundles
      ensures exists b :: IsBundle(u, c, id, b)
    {
      var b :| IsBundle(t, c, id, b);
      assert OwnsBundle(t, c, b);
      assert IsBundle(u, c, id, b);
    }
  }

  /** What a catalog holds by name depends on its own rows and on nothing else. */
  lemma SameView(t: Tables, u: Tables, c: string)
    requires Valid(t) && Valid(u) && SameRows(t, u, c)
    ensures ViewOf(t, c) == ViewOf(u, c)
  {
    var v := ViewOf(t, c);
    NodesShown(t, c);
    BundlesShown(t, c);
    SameNodes(t, u, c, v.nodes);
    SameBundles(t, u, c, v.bundles);
    SameBundleProps(t, u, c);
    ViewIs(u, c, v);
  }
}
