/** Resolution on the graphs a store hands out: why the order of the paths never matters there, and what
    resolving a channel of an imported catalog finds. */
module StoreResolution {
  import opened Wrappers
  import opened Ordering
  import opened Content
  import opened Semver
  import opened Graphs
  import opened Query
  import opened Handles
  import opened Fbc
  import opened FbcMeaning
  import opened FbcImport
  import opened FbcAnswers
  import L = Releases
  import R = Resolver
  import N = Resolution

  // ---------------------------------------------------------------- what a handle answers

  /** The version of a row without one: the zero value. */
  const ZERO_VERSION := "0.0.0"

  /** A row as the resolver sees it; versions are their texts. */
  function BundleFor(r: Row): R.Bundle<string> {
    var version := if r.info.version == "" then ZERO_VERSION else r.info.version;
    var release := match L.Parsed(r.info.release) case Some(parsed) => parsed case None => [];
    R.Bundle(R.Identity(r.id, L.NameVersionRelease(r.info.pkg, L.VersionRelease(version, release))),
             r.info.deprecation.Some?)
  }

  function AnswerFor(y: Yield): R.Answer<string> {
    if y.Bundle? then R.Got(BundleFor(Row(y.id, y.info))) else R.Failed
  }

  function AnswersFor(out: seq<Yield>): seq<R.Answer<string>> {
    seq(|out|, i requires 0 <= i < |out| => AnswerFor(out[i]))
  }

  /** The answers are what ListBundles on graph g may yield. */
  ghost predicate Lists(t: Tables, g: nat, answers: seq<R.Answer<string>>) {
    exists out :: YieldsExactly(out, ListedRows(t, Scope(t, g))) && answers == AnswersFor(out)
  }

  ghost predicate OffersFrom(lib: SemverLib, t: Tables, g: nat, from: R.Identity<string>,
                             answers: seq<R.Answer<string>>) {
    exists out :: YieldsSuccessors(lib, t, Scope(t, g), from.id, from.nvr.vr.version, out) && answers == AnswersFor(out)
  }

  /** GetGraph on g finds k: the child of that name, or for the empty name the least-named child. */
  ghost predicate Finds(t: Tables, c: string, g: nat, name: string, k: nat) {
    && Selected(t, c, Some(g), name, k)
    && (name == "" ==> LeastNamed(t, c, Some(g), HandleOf(t, k)))
  }

  lemma {:induction false} LeastExists(t: Tables, rows: set<nat>) returns (k: nat)
    requires rows != {} && forall h <- rows :: h in t.graphs
    ensures k in rows && forall h <- rows :: CompareStrings(t.graphs[k].name, t.graphs[h].name) <= 0
  {
    var j :| j in rows;
    CompareStringsZero(t.graphs[j].name, t.graphs[j].name);
    if rows == {j} {
      k := j;
    } else {
      assert rows - {j} != {} by {
        assert rows - {j} == {} ==> rows == {j};
      }
      var i := LeastExists(t, rows - {j});
      CompareStringsFlips(t.graphs[i].name, t.graphs[j].name);
      if CompareStrings(t.graphs[i].name, t.graphs[j].name) <= 0 {
        k := i;
      } else {
        k := j;
        forall h <- rows ensures CompareStrings(t.graphs[j].name, t.graphs[h].name) <= 0 {
          if h != j {
            CompareStringsTransitive(t.graphs[j].name, t.graphs[i].name, t.graphs[h].name);
          }
        }
      }
    }
  }

  /** The names GetGraph finds something for: those of the children, and the empty one. */
  function ChildNames(t: Tables, g: nat): set<string> {
    if Children(t, g) == {} then {} else (set k | k in Children(t, g) && k in t.graphs :: t.graphs[k].name) + {""}
  }

  lemma ChildExists(t: Tables, c: string, g: nat, name: string)
    requires Valid(t) && Owns(t, c, g) && name in ChildNames(t, g)
    ensures exists k :: Finds(t, c, g, name, k)
  {
    if name == "" {
      var k := LeastExists(t, Children(t, g));
      assert forall h: nat :: Selected(t, c, Some(g), "", h) ==> h in Children(t, g);
      assert Finds(t, c, g, name, k);
    } else {
      var k :| k in Children(t, g) && k in t.graphs && t.graphs[k].name == name;
      assert Finds(t, c, g, name, k);
    }
  }

  lemma FoundBelow(t: Tables, c: string, g: nat, name: string, k: nat)
    requires Valid(t) && Owns(t, c, g) && Finds(t, c, g, name, k)
    ensures Owns(t, c, k) && g < k <= t.lastGraph && name in ChildNames(t, g)
  {
    assert GraphShape(t, k) && k in Children(t, g);
  }

  ghost function ChildFor(t: Tables, c: string, g: nat, name: string): (k: nat)
    requires Valid(t) && Owns(t, c, g) && name in ChildNames(t, g)
    ensures Finds(t, c, g, name, k) && Owns(t, c, k) && g < k <= t.lastGraph
  {
    ChildExists(t, c, g, name);
    var k: nat :| Finds(t, c, g, name, k);
    FoundBelow(t, c, g, name, k);
    k
  }

  /** graph is the handle of row g, as far as the resolver can ask it: a composite exactly when the row has
      children, and then with the handle of the row GetGraph finds for every name it finds one for. */
  ghost predicate Serves(lib: SemverLib, t: Tables, c: string, g: nat, graph: R.Graph<string>)
    requires Valid(t)
    decreases t.lastGraph - g
  {
    && Owns(t, c, g) && graph.name == t.graphs[g].name
    && Lists(t, g, graph.listing)
    && (forall from :: OffersFrom(lib, t, g, from, graph.successors(from)))
    && (graph.children.None? <==> Children(t, g) == {})
    && (graph.children.Some? ==> graph.children.value.Keys == ChildNames(t, g))
    && (graph.children.Some? ==> forall name <- ChildNames(t, g) ::
          Serves(lib, t, c, ChildFor(t, c, g, name), graph.children.value[name]))
  }

  /** Every graph a path leads to is the handle of a row of the same catalog. */
  lemma {:induction false} WalkServes(lib: SemverLib, t: Tables, c: string, g: nat, graph: R.Graph<string>,
                                      path: seq<string>)
    returns (k: nat)
    requires Valid(t) && Serves(lib, t, c, g, graph) && N.Walk(graph, path).Some?
    ensures Serves(lib, t, c, k, N.Walk(graph, path).value)
    decreases |path|
  {
    if path == [] {
      k := g;
    } else {
      k := WalkServes(lib, t, c, ChildFor(t, c, g, path[0]), graph.children.value[path[0]], path[1..]);
    }
  }

  // ---------------------------------------------------------------- the order of the paths

  /** What an exact answer holds comes from a wanted row. */
  lemma RowBehind(out: seq<Yield>, want: set<Row>, b: R.Bundle<string>) returns (r: Row)
    requires YieldsExactly(out, want) && R.Got(b) in AnswersFor(out)
    ensures r in want && b == BundleFor(r)
  {
    var i :| 0 <= i < |out| && AnswersFor(out)[i] == R.Got(b);
    assert out[i] in out;
    r := Row(out[i].id, out[i].info);
  }

  lemma ListedAreRows(t: Tables, c: string, g: nat, answers: seq<R.Answer<string>>, b: R.Bundle<string>)
    requires Valid(t) && Owns(t, c, g) && Lists(t, g, answers) && R.Got(b) in answers
    ensures exists x :: OwnsBundle(t, c, x) && b == BundleFor(RowOf(t, x))
  {
    var out: seq<Yield> :| YieldsExactly(out, ListedRows(t, Scope(t, g))) && answers == AnswersFor(out);
    var r := RowBehind(out, ListedRows(t, Scope(t, g)), b);
    ScopeInCatalog(t, c, g);
    ScopeBundles(t, c, Scope(t, g));
    var x :| x in ListedBundles(t, Scope(t, g)) && r == RowOf(t, x);
  }

  lemma OfferedRow(lib: SemverLib, t: Tables, g: nat, from: R.Identity<string>, answers: seq<R.Answer<string>>,
                   b: R.Bundle<string>)
    returns (pick: Option<nat>, r: Row)
    requires OffersFrom(lib, t, g, from, answers) && R.Got(b) in answers
    ensures r in SuccessorRows(lib, t, Scope(t, g), pick, from.nvr.vr.version) && b == BundleFor(r)
  {
    var scope, version := Scope(t, g), from.nvr.vr.version;
    var out: seq<Yield> :| YieldsSuccessors(lib, t, scope, from.id, version, out) && answers == AnswersFor(out);
    pick := SomePick(lib, t, scope, from.id, version, out);
    r := RowBehind(out, SuccessorRows(lib, t, scope, pick, version), b);
  }

  lemma OfferedAreRows(lib: SemverLib, t: Tables, c: string, g: nat, from: R.Identity<string>,
                       answers: seq<R.Answer<string>>,
                       b: R.Bundle<string>)
    requires Valid(t) && Owns(t, c, g) && OffersFrom(lib, t, g, from, answers) && R.Got(b) in answers
    ensures exists x :: OwnsBundle(t, c, x) && b == BundleFor(RowOf(t, x))
  {
    var pick, r := OfferedRow(lib, t, g, from, answers, b);
    SuccessorIsOwn(lib, t, c, g, pick, from.nvr.vr.version, r);
  }

  lemma SuccessorIsOwn(lib: SemverLib, t: Tables, c: string, g: nat, pick: Option<nat>, version: string, r: Row)
    requires Valid(t) && Owns(t, c, g) && r in SuccessorRows(lib, t, Scope(t, g), pick, version)
    ensures exists x :: OwnsBundle(t, c, x) && r == RowOf(t, x)
  {
    ScopeInCatalog(t, c, g);
    ScopeBundles(t, c, Scope(t, g));
    if r in RowsAt(t, ExplicitBundles(t, Scope(t, g), pick)) {
      var x :| x in ExplicitBundles(t, Scope(t, g), pick) && r == RowOf(t, x);
    } else {
      var x :| x in MatchedBundles(lib, t, Scope(t, g), version) && r == RowOf(t, x);
    }
  }

  /** Whatever a served graph answers is a row of the catalog. */
  lemma AnswersAreRows(lib: SemverLib, t: Tables, c: string, g: nat, graph: R.Graph<string>,
                       from: Option<R.Identity<string>>,
                       b: R.Bundle<string>) returns (x: nat)
    requires Valid(t) && Serves(lib, t, c, g, graph) && N.First(N.AnswersOf(graph, from), b)
    ensures OwnsBundle(t, c, x) && b == BundleFor(RowOf(t, x))
  {
    var i: nat :| N.FirstAt(N.AnswersOf(graph, from), b, i);
    assert N.AnswersOf(graph, from)[i] == R.Got(b);
    if from.None? {
      ListedAreRows(t, c, g, graph.listing, b);
    } else {
      OfferedAreRows(lib, t, c, g, from.value, graph.successors(from.value), b);
    }
    x :| OwnsBundle(t, c, x) && b == BundleFor(RowOf(t, x));
  }

  lemma SelectedIsServed(lib: SemverLib, t: Tables, c: string, g: nat, pkg: R.Graph<string>, paths: seq<seq<string>>,
                         h: R.Graph<string>)
    returns (k: nat)
    requires Valid(t) && Serves(lib, t, c, g, pkg) && h in N.SelectedGraphs(pkg, paths)
    ensures Serves(lib, t, c, k, h)
  {
    if paths == [] {
      k := g;
    } else {
      var path := N.PathTo(pkg, paths, h);
      k := WalkServes(lib, t, c, g, pkg, path);
    }
  }

  lemma ServedAgree(lib: SemverLib, t: Tables, c: string, i: nat, g: R.Graph<string>, j: nat, h: R.Graph<string>,
                    cfg: R.Config<string>)
    requires Valid(t) && Serves(lib, t, c, i, g) && Serves(lib, t, c, j, h)
    ensures N.Agree(g, h, cfg)
  {
    forall b, d | N.First(N.AnswersOf(g, cfg.from), b) && N.First(N.AnswersOf(h, cfg.from), d) &&
      b.identity.id == d.identity.id
      ensures b == d
    {
      var x := AnswersAreRows(lib, t, c, i, g, cfg.from, b);
      var y := AnswersAreRows(lib, t, c, j, h, cfg.from, d);
      assert t.bundles[x].id == t.bundles[y].id;
    }
  }

  /** Main result: on the graphs of one catalog the order of the paths, and naming one twice, is irrelevant,
      without any hypothesis: an id is one row there, so all graphs agree on it. */
  lemma StoredOrderIrrelevant(lib: SemverLib, t: Tables, c: string, g: nat, pkg: R.Graph<string>, cfg: R.Config<string>)
    requires Valid(t) && Serves(lib, t, c, g, pkg)
    ensures N.AgreeAcross(pkg, cfg) && N.Independent(pkg, cfg)
  {
    forall x, y | x in N.SelectedGraphs(pkg, cfg.paths) && y in N.SelectedGraphs(pkg, cfg.paths)
      ensures N.Agree(x, y, cfg)
    {
      var i := SelectedIsServed(lib, t, c, g, pkg, cfg.paths, x);
      var j := SelectedIsServed(lib, t, c, g, pkg, cfg.paths, y);
      ServedAgree(lib, t, c, i, x, j, y, cfg);
    }
    N.PathOrderIrrelevant(pkg, cfg);
  }

  // ---------------------------------------------------------------- exact answers

  lemma RowIsFirst(out: seq<Yield>, want: set<Row>, r: Row)
    requires YieldsExactly(out, want) && r in want
    ensures N.First(AnswersFor(out), BundleFor(r))
  {
    var i: nat :| i < |out| && out[i] == Yield.Bundle(r.id, r.info);
    forall j | 0 <= j < i ensures out[j].Bundle? && out[j].id != r.id {
      assert out[j] in out;
    }
    assert N.FirstAt(AnswersFor(out), BundleFor(r), i);
  }

  lemma FirstIsRow(out: seq<Yield>, want: set<Row>, b: R.Bundle<string>) returns (r: Row)
    requires YieldsExactly(out, want) && N.First(AnswersFor(out), b)
    ensures r in want && b == BundleFor(r)
  {
    var i: nat :| N.FirstAt(AnswersFor(out), b, i);
    assert AnswersFor(out)[i] == R.Got(b);
    r := RowBehind(out, want, b);
  }

  /** On an exact answer every row counts, and none fails. */
  lemma ExactCandidates(out: seq<Yield>, want: set<Row>, b: R.Bundle<string>)
    requires YieldsExactly(out, want)
    ensures N.First(AnswersFor(out), b) <==> exists r :: r in want && b == BundleFor(r)
    ensures R.Failed !in AnswersFor(out)
  {
    if N.First(AnswersFor(out), b) {
      var r := FirstIsRow(out, want, b);
    }
    if r :| r in want && b == BundleFor(r) {
      RowIsFirst(out, want, r);
    }
    assert forall y <- out :: y.Bundle?;
  }

  lemma WalkStep(graph: R.Graph<string>, name: string)
    requires graph.children.Some? && name in graph.children.value
    ensures N.Walk(graph, [name]) == Some(graph.children.value[name])
  {
    assert [name][1..] == [];
  }

  lemma ServedChild(lib: SemverLib, t: Tables, c: string, p: nat, pkg: R.Graph<string>, name: string)
    requires Valid(t) && Serves(lib, t, c, p, pkg) && name in ChildNames(t, p)
    ensures pkg.children.Some? && name in pkg.children.value
    ensures Serves(lib, t, c, ChildFor(t, c, p, name), pkg.children.value[name])
  {
  }

  // ---------------------------------------------------------------- resolving any paths

  /** The rows graph g answers with. */
  ghost function GraphRows(lib: SemverLib, t: Tables, c: string, g: nat, from: Option<R.Identity<string>>): set<Row> {
    match from
    case None => ListedRows(t, Scope(t, g))
    case Some(id) => SuccessorRows(lib, t, Scope(t, g), BundleId(t, c, id.id), id.nvr.vr.version)
  }

  /** No other catalog stores the installed bundle's id. */
  predicate OwnFrom(t: Tables, c: string, from: Option<R.Identity<string>>) {
    from.Some? ==> forall x <- t.bundles | t.bundles[x].id == from.value.id :: t.bundles[x].catalog == c
  }

  ghost predicate FromRows(rows: set<Row>, b: R.Bundle<string>) {
    exists r :: r in rows && b == BundleFor(r)
  }

  lemma ExactAnswers(out: seq<Yield>, want: set<Row>, b: R.Bundle<string>)
    requires YieldsExactly(out, want)
    ensures R.Got(b) in AnswersFor(out) <==> FromRows(want, b)
    ensures R.Failed !in AnswersFor(out)
  {
    ExactCandidates(out, want, b);
    if R.Got(b) in AnswersFor(out) {
      var r := RowBehind(out, want, b);
    }
    if N.First(AnswersFor(out), b) {
      var i: nat :| N.FirstAt(AnswersFor(out), b, i);
      assert AnswersFor(out)[i] == R.Got(b);
    }
  }

  /** A served graph answers with its rows, and never fails. */
  lemma GraphAnswers(lib: SemverLib, t: Tables, c: string, g: nat, graph: R.Graph<string>,
                     from: Option<R.Identity<string>>, b: R.Bundle<string>)
    requires Valid(t) && Serves(lib, t, c, g, graph) && OwnFrom(t, c, from)
    ensures R.Got(b) in N.AnswersOf(graph, from) <==> FromRows(GraphRows(lib, t, c, g, from), b)
    ensures R.Failed !in N.AnswersOf(graph, from)
  {
    if from.None? {
      var out: seq<Yield> :| YieldsExactly(out, ListedRows(t, Scope(t, g))) && graph.listing == AnswersFor(out);
      ExactAnswers(out, ListedRows(t, Scope(t, g)), b);
    } else {
      var id := from.value;
      var out := OfferOut(lib, t, g, id, graph.successors(id));
      OwnIdAnswers(lib, t, c, Scope(t, g), id.id, id.nvr.vr.version, out);
      ExactAnswers(out, GraphRows(lib, t, c, g, from), b);
    }
  }

  lemma OfferOut(lib: SemverLib, t: Tables, g: nat, from: R.Identity<string>, answers: seq<R.Answer<string>>)
    returns (out: seq<Yield>)
    requires OffersFrom(lib, t, g, from, answers)
    ensures YieldsSuccessors(lib, t, Scope(t, g), from.id, from.nvr.vr.version, out) && answers == AnswersFor(out)
  {
    out :| YieldsSuccessors(lib, t, Scope(t, g), from.id, from.nvr.vr.version, out) && answers == AnswersFor(out);
  }

  /** What a channel has to offer to a resolution. */
  function ChannelRows(lib: FbcLib, ps: seq<Package>, skip: set<string>, ch: Channel,
                       from: Option<R.Identity<string>>): set<Row> {
    match from
    case None => Listing(lib, ps, skip, ch)
    case Some(id) => Offering(lib, ps, skip, ch, id.id, id.nvr.vr.version)
  }

  lemma ChannelGraphRows(lib: FbcLib, t: Tables, c: string, ps: seq<Package>, skip: set<string>, k: nat, ch: Channel,
                         from: Option<R.Identity<string>>) returns (g: nat)
    requires Imported(lib, t, c, ps, skip) && WritesChannel(lib, ps, skip, k, ch)
    ensures IsGraph(t, c, ChannelPath(ps[k].name, ch.name), g)
    ensures GraphRows(lib.semver, t, c, g, from) == ChannelRows(lib, ps, skip, ch, from)
  {
    if from.None? {
      g := ChannelListing(lib, t, c, ps, skip, k, ch);
    } else {
      g := ChannelSuccessors(lib, t, c, ps, skip, k, ch, from.value.id, from.value.nvr.vr.version);
    }
  }

  /** The children of an imported package are the graphs of its written channels. */
  lemma ChildIsChannel(lib: FbcLib, t: Tables, c: string, ps: seq<Package>, skip: set<string>, k: nat, p: nat, g: nat)
    returns (ch: Channel)
    requires Imported(lib, t, c, ps, skip) && k < |ps| && AcceptedSegment(ps[k].name)
    requires IsGraph(t, c, ps[k].name, p) && IsChild(t, p, g)
    ensures WritesChannel(lib, ps, skip, k, ch)
    ensures IsGraph(t, c, ChannelPath(ps[k].name, ch.name), g) && t.graphs[g].name == ch.name
  {
    var q := ps[k].name + "/" + t.graphs[g].name;
    ChildPath(t, c, p, g);
    var n := StoredAt(lib, t, c, ps, skip, g);
    ch := PlacedChannel(lib, ps, skip, k, t.graphs[g].name, n);
  }

  lemma ChildPath(t: Tables, c: string, p: nat, g: nat)
    requires Shaped(t) && Owns(t, c, p) && IsChild(t, p, g)
    ensures Owns(t, c, g) && t.graphs[g].path == t.graphs[p].path + "/" + t.graphs[g].name
    ensures AcceptedSegment(t.graphs[g].name)
  {
    assert GraphShape(t, g);
  }

  /** Every row of the catalog was placed by some package. */
  lemma StoredAt(lib: FbcLib, t: Tables, c: string, ps: seq<Package>, skip: set<string>, g: nat) returns (n: Node)
    requires Imported(lib, t, c, ps, skip) && Owns(t, c, g)
    ensures Placed(lib, ps, skip, t.graphs[g].path, n)
  {
    NodesShown(t, c);
    ImportedNodes(lib, NO_CONTENT, ps, skip);
    var q := t.graphs[g].path;
    assert q in ViewOf(t, c).nodes;
    n := ImportAll(lib, NO_CONTENT, ps, skip).nodes[q];
  }

  /** What lies below a package was placed by it, as one of its channels. */
  lemma PlacedChannel(lib: FbcLib, ps: seq<Package>, skip: set<string>, k: nat, name: string, n: Node)
    returns (ch: Channel)
    requires AllStaged(ps) && k < |ps| && AcceptedSegment(ps[k].name)
    requires Placed(lib, ps, skip, ps[k].name + "/" + name, n)
    ensures WritesChannel(lib, ps, skip, k, ch) && ch.name == name
  {
    var q := ps[k].name + "/" + name;
    var r :| r in ps && r.name !in skip && Places(lib, r, q, n);
    PlacesUnder(lib, r, q, n);
    PackagePathDiffers(ps[k].name, name);
    assert q == ChannelPath(ps[k].name, name) && Under(ps[k].name, q);
    PackagesDisjoint(r.name, ps[k].name, q);
    var j :| 0 <= j < |ps| && ps[j] == r;
    assert j == k;
    ch :| ch in GoodChannels(r.channels) && q == ChannelPath(r.name, ch.name) && n == StoredChannel(lib, r, ch);
    assert q[|r.name| + 1..] == ch.name && q[|r.name| + 1..] == name;
  }

  lemma ListedRowsUnion(t: Tables, g: nat, r: Row)
    requires Shaped(t) && g in t.graphs && LeafOnly(t, t.graphs[g].catalog) && Children(t, g) != {}
    ensures r in ListedRows(t, Scope(t, g)) <==> exists k :: IsChild(t, g, k) && r in ListedRows(t, Scope(t, k))
  {
    if r in ListedRows(t, Scope(t, g)) {
      var b :| b in ListedBundles(t, Scope(t, g)) && b in t.bundles && r == RowOf(t, b);
      ListedUnion(t, g, b);
      var k :| IsChild(t, g, k) && b in ListedBundles(t, Scope(t, k));
      assert r in ListedRows(t, Scope(t, k));
    }
    if k :| IsChild(t, g, k) && r in ListedRows(t, Scope(t, k)) {
      var b :| b in ListedBundles(t, Scope(t, k)) && b in t.bundles && r == RowOf(t, b);
      ListedUnion(t, g, b);
    }
  }

  /** A composite answers with the rows of its children. */
  lemma GraphRowsUnion(lib: SemverLib, t: Tables, c: string, g: nat, from: Option<R.Identity<string>>, r: Row)
    requires Valid(t) && Owns(t, c, g) && LeafOnly(t, c) && Children(t, g) != {}
    ensures r in GraphRows(lib, t, c, g, from) <==> exists k :: IsChild(t, g, k) && r in GraphRows(lib, t, c, k, from)
  {
    if from.None? {
      ListedRowsUnion(t, g, r);
    } else {
      SuccessorUnion(lib, t, g, BundleId(t, c, from.value.id), from.value.nvr.vr.version, r);
    }
  }

  lemma NoIds(rows: set<Row>)
    requires IdsOfRows(rows) == {}
    ensures rows == {}
  {
    assert forall r <- rows :: r.id in IdsOfRows(rows);
  }

  /** A graph that holds nothing and has no children answers with nothing. */
  lemma BareRows(lib: SemverLib, t: Tables, c: string, g: nat, from: Option<R.Identity<string>>)
    requires Valid(t) && Owns(t, c, g) && Children(t, g) == {} && Bare(NodeOf(t, g))
    ensures GraphRows(lib, t, c, g, from) == {}
  {
    if from.None? {
      forall n ensures n !in IdsOfRows(ListedRows(t, {g})) {
        ListedByName(t, c, g, n);
      }
      NoIds(ListedRows(t, {g}));
    } else {
      SuccessorsByName(lib, t, c, g, from.value.id, from.value.nvr.vr.version);
      NoIds(SuccessorRows(lib, t, {g}, BundleId(t, c, from.value.id), from.value.nvr.vr.version));
    }
  }

  /** The graph of a written channel is a child of the package's. */
  lemma ChannelIsChild(lib: FbcLib, t: Tables, c: string, ps: seq<Package>, skip: set<string>, k: nat, ch: Channel,
                       p: nat,
                       g: nat)
    requires Imported(lib, t, c, ps, skip) && WritesChannel(lib, ps, skip, k, ch) && IsGraph(t, c, ps[k].name, p)
    requires IsGraph(t, c, ChannelPath(ps[k].name, ch.name), g)
    ensures IsChild(t, p, g) && g in Children(t, p) && t.graphs[g].name == ch.name
  {
    GoodChannelsIs(ps[k].channels);
    var q := RootOf(t, c, ps[k].name, ch.name, g);
    assert q == p;
  }

  /** Some written channel of the package offers the row. */
  ghost predicate InSomeChannel(lib: FbcLib, ps: seq<Package>, skip: set<string>, k: nat,
                                from: Option<R.Identity<string>>,
                                r: Row)
    requires k < |ps|
  {
    exists ch <- GoodChannels(ps[k].channels) :: r in ChannelRows(lib, ps, skip, ch, from)
  }

  lemma ChildRowInChannel(lib: FbcLib, t: Tables, c: string, ps: seq<Package>, skip: set<string>, k: nat, p: nat,
                          g: nat,
                          from: Option<R.Identity<string>>, r: Row)
    requires Imported(lib, t, c, ps, skip) && k < |ps| && AcceptedSegment(ps[k].name)
    requires IsGraph(t, c, ps[k].name, p) && IsChild(t, p, g) && r in GraphRows(lib.semver, t, c, g, from)
    ensures InSomeChannel(lib, ps, skip, k, from, r)
  {
    var ch := ChildIsChannel(lib, t, c, ps, skip, k, p, g);
    var h := ChannelGraphRows(lib, t, c, ps, skip, k, ch, from);
    assert h == g;
  }

  lemma ChannelRowInChild(lib: FbcLib, t: Tables, c: string, ps: seq<Package>, skip: set<string>, k: nat, p: nat,
                          ch: Channel,
                          from: Option<R.Identity<string>>, r: Row)
    requires Imported(lib, t, c, ps, skip) && WritesChannel(lib, ps, skip, k, ch) && IsGraph(t, c, ps[k].name, p)
    requires r in ChannelRows(lib, ps, skip, ch, from)
    ensures Children(t, p) != {} && exists g :: IsChild(t, p, g) && r in GraphRows(lib.semver, t, c, g, from)
  {
    var g := ChannelGraphRows(lib, t, c, ps, skip, k, ch, from);
    ChannelIsChild(lib, t, c, ps, skip, k, ch, p, g);
  }

  lemma PackageIsBare(lib: FbcLib, t: Tables, c: string, ps: seq<Package>, skip: set<string>, k: nat, p: nat)
    requires Imported(lib, t, c, ps, skip) && k < |ps| && ps[k].name !in skip && Enters(lib, ps[k])
    requires IsGraph(t, c, ps[k].name, p)
    ensures Bare(NodeOf(t, p))
  {
    var q := PackageGraph(lib, t, c, ps, skip, k);
    assert q == p;
  }

  /** The package itself answers with the union over its written channels. */
  lemma PackageRows(lib: FbcLib, t: Tables, c: string, ps: seq<Package>, skip: set<string>, k: nat, p: nat,
                    from: Option<R.Identity<string>>, r: Row)
    requires Imported(lib, t, c, ps, skip) && k < |ps| && ps[k].name !in skip && Enters(lib, ps[k])
    requires IsGraph(t, c, ps[k].name, p)
    ensures r in GraphRows(lib.semver, t, c, p, from) <==> InSomeChannel(lib, ps, skip, k, from, r)
  {
    if InSomeChannel(lib, ps, skip, k, from, r) {
      var ch :| ch in GoodChannels(ps[k].channels) && r in ChannelRows(lib, ps, skip, ch, from);
      ChannelRowInChild(lib, t, c, ps, skip, k, p, ch, from, r);
    }
    if Children(t, p) == {} {
      PackageIsBare(lib, t, c, ps, skip, k, p);
      BareRows(lib.semver, t, c, p, from);
    } else {
      ImportIsReadable(lib, t, c, ps, skip);
      GraphRowsUnion(lib.semver, t, c, p, from, r);
      if g :| IsChild(t, p, g) && r in GraphRows(lib.semver, t, c, g, from) {
        ChildRowInChannel(lib, t, c, ps, skip, k, p, g, from, r);
      }
    }
  }

  /** The channels a path stands for: all of them if it stops at the package, the one it names, or for the
      empty name the least-named. Channels have no graphs below them, so longer paths lead nowhere. */
  predicate Covers(channels: seq<Channel>, path: seq<string>, ch: Channel) {
    || |path| == 0
    || (|path| == 1 && path[0] == ch.name)
    || (|path| == 1 && path[0] == "" && forall d <- channels :: CompareStrings(ch.name, d.name) <= 0)
  }

  /** A bundle that some channel the path stands for has to offer. */
  ghost predicate OnPath(lib: FbcLib, ps: seq<Package>, skip: set<string>, k: nat, from: Option<R.Identity<string>>,
                         path: seq<string>, b: R.Bundle<string>)
    requires k < |ps|
  {
    exists ch <- GoodChannels(ps[k].channels) ::
      Covers(GoodChannels(ps[k].channels), path, ch) && FromRows(ChannelRows(lib, ps, skip, ch, from), b)
  }

  /** Following a path from the package, whatever it is. */
  ghost predicate WalkAnswers(pkg: R.Graph<string>, path: seq<string>, from: Option<R.Identity<string>>,
                              b: R.Bundle<string>) {
    N.Walk(pkg, path).Some? && R.Got(b) in N.AnswersOf(N.Walk(pkg, path).value, from)
  }

  /** The package's row, its handle, and the import it comes from. */
  ghost predicate PackageServed(lib: FbcLib, t: Tables, c: string, ps: seq<Package>, skip: set<string>, k: nat, p: nat,
                                pkg: R.Graph<string>) {
    && Imported(lib, t, c, ps, skip)
    && k < |ps| && ps[k].name !in skip && Enters(lib, ps[k])
    && IsGraph(t, c, ps[k].name, p) && Serves(lib.semver, t, c, p, pkg)
  }

  /** A path that stops at the package. */
  lemma EmptyPath(lib: FbcLib, t: Tables, c: string, ps: seq<Package>, skip: set<string>, k: nat, p: nat,
                  pkg: R.Graph<string>, from: Option<R.Identity<string>>, b: R.Bundle<string>)
    requires PackageServed(lib, t, c, ps, skip, k, p, pkg) && OwnFrom(t, c, from)
    ensures R.Got(b) in N.AnswersOf(pkg, from) <==> OnPath(lib, ps, skip, k, from, [], b)
  {
    GraphAnswers(lib.semver, t, c, p, pkg, from, b);
    var rows := GraphRows(lib.semver, t, c, p, from);
    if r :| r in rows && b == BundleFor(r) {
      PackageRows(lib, t, c, ps, skip, k, p, from, r);
      var ch :| ch in GoodChannels(ps[k].channels) && r in ChannelRows(lib, ps, skip, ch, from);
      assert FromRows(ChannelRows(lib, ps, skip, ch, from), b);
    }
    if ch :| ch in GoodChannels(ps[k].channels) && FromRows(ChannelRows(lib, ps, skip, ch, from), b) {
      var r :| r in ChannelRows(lib, ps, skip, ch, from) && b == BundleFor(r);
      PackageRows(lib, t, c, ps, skip, k, p, from, r);
    }
  }

  /** One step finds the graph of a written channel, and the channel is one the step stands for. */
  lemma StepToChannel(lib: FbcLib, t: Tables, c: string, ps: seq<Package>, skip: set<string>, k: nat, p: nat,
                      name: string)
    returns (ch: Channel)
    requires Imported(lib, t, c, ps, skip) && k < |ps| && AcceptedSegment(ps[k].name)
    requires IsGraph(t, c, ps[k].name, p) && name in ChildNames(t, p)
    ensures WritesChannel(lib, ps, skip, k, ch) && Covers(GoodChannels(ps[k].channels), [name], ch)
    ensures IsGraph(t, c, ChannelPath(ps[k].name, ch.name), ChildFor(t, c, p, name))
  {
    assert Owns(t, c, p);
    var g := ChildFor(t, c, p, name);
    ch := ChildIsChannel(lib, t, c, ps, skip, k, p, g);
    if name == "" {
      forall d <- GoodChannels(ps[k].channels) ensures CompareStrings(ch.name, d.name) <= 0 {
        var h := ChannelGraph(lib, t, c, ps, skip, k, d);
        ChannelIsChild(lib, t, c, ps, skip, k, d, p, h);
        assert Selected(t, c, Some(p), "", h);
      }
    }
  }

  /** And every channel a step stands for is the one it finds. */
  lemma ChannelByStep(lib: FbcLib, t: Tables, c: string, ps: seq<Package>, skip: set<string>, k: nat, p: nat,
                      name: string,
                      ch: Channel)
    requires Imported(lib, t, c, ps, skip) && WritesChannel(lib, ps, skip, k, ch) && IsGraph(t, c, ps[k].name, p)
    requires Covers(GoodChannels(ps[k].channels), [name], ch)
    ensures name in ChildNames(t, p)
    ensures Owns(t, c, p) && IsGraph(t, c, ChannelPath(ps[k].name, ch.name), ChildFor(t, c, p, name))
  {
    assert Owns(t, c, p);
    var g := ChannelGraph(lib, t, c, ps, skip, k, ch);
    ChannelIsChild(lib, t, c, ps, skip, k, ch, p, g);
    if name != "" {
      assert Finds(t, c, p, name, g);
      SelectedOnce(t, c, Some(p), name, g, ChildFor(t, c, p, name));
    } else {
      LeastChannel(lib, t, c, ps, skip, k, p, ch, g);
    }
  }

  lemma LeastChannel(lib: FbcLib, t: Tables, c: string, ps: seq<Package>, skip: set<string>, k: nat, p: nat,
                     ch: Channel,
                     g: nat)
    requires Imported(lib, t, c, ps, skip) && WritesChannel(lib, ps, skip, k, ch) && IsGraph(t, c, ps[k].name, p)
    requires forall d <- GoodChannels(ps[k].channels) :: CompareStrings(ch.name, d.name) <= 0
    requires IsChild(t, p, g) && t.graphs[g].name == ch.name
    ensures "" in ChildNames(t, p) && Owns(t, c, p) && ChildFor(t, c, p, "") == g
  {
    assert g in Children(t, p);
    var h := ChildFor(t, c, p, "");
    var d := ChildIsChannel(lib, t, c, ps, skip, k, p, h);
    CompareStringsFlips(ch.name, d.name);
    CompareStringsZero(ch.name, d.name);
    assert Selected(t, c, Some(p), "", g) && Selected(t, c, Some(p), "", h);
    SelectedOnce(t, c, Some(p), "", g, h);
  }

  lemma WalkNone(graph: R.Graph<string>, path: seq<string>)
    requires path != [] && (graph.children.None? || path[0] !in graph.children.value)
    ensures N.Walk(graph, path) == None
  {
  }

  lemma WalkFirst(graph: R.Graph<string>, path: seq<string>)
    requires path != [] && graph.children.Some? && path[0] in graph.children.value
    ensures N.Walk(graph, path) == N.Walk(graph.children.value[path[0]], path[1..])
  {
  }

  lemma NotAChild(lib: SemverLib, t: Tables, c: string, p: nat, pkg: R.Graph<string>, name: string)
    requires Valid(t) && Serves(lib, t, c, p, pkg) && name !in ChildNames(t, p)
    ensures pkg.children.None? || name !in pkg.children.value
  {
  }

  lemma LeafHasNone(lib: SemverLib, t: Tables, c: string, g: nat, graph: R.Graph<string>)
    requires Valid(t) && Serves(lib, t, c, g, graph) && Children(t, g) == {}
    ensures graph.children.None?
  {
  }

  /** A path that goes on after a channel leads nowhere. */
  lemma LongPath(lib: FbcLib, t: Tables, c: string, ps: seq<Package>, skip: set<string>, k: nat, p: nat,
                 pkg: R.Graph<string>, path: seq<string>)
    requires PackageServed(lib, t, c, ps, skip, k, p, pkg) && |path| > 1
    ensures N.Walk(pkg, path) == None
  {
    if path[0] !in ChildNames(t, p) {
      NotAChild(lib.semver, t, c, p, pkg, path[0]);
      WalkNone(pkg, path);
    } else {
      var ch := StepToChannel(lib, t, c, ps, skip, k, p, path[0]);
      ServedChild(lib.semver, t, c, p, pkg, path[0]);
      ImportedShape(lib, t, c, ps, skip);
      ChannelLeaf(t, c, ps[k].name, ch.name, ChildFor(t, c, p, path[0]));
      LeafHasNone(lib.semver, t, c, ChildFor(t, c, p, path[0]), pkg.children.value[path[0]]);
      WalkFirst(pkg, path);
      WalkNone(pkg.children.value[path[0]], path[1..]);
    }
  }

  /** The channel one step stands for is unique. */
  lemma OneCovered(lib: FbcLib, t: Tables, c: string, ps: seq<Package>, skip: set<string>, k: nat, p: nat, name: string,
                   ch: Channel, d: Channel)
    requires Imported(lib, t, c, ps, skip) && k < |ps| && IsGraph(t, c, ps[k].name, p)
    requires WritesChannel(lib, ps, skip, k, ch) && Covers(GoodChannels(ps[k].channels), [name], ch)
    requires WritesChannel(lib, ps, skip, k, d) && Covers(GoodChannels(ps[k].channels), [name], d)
    ensures ch == d
  {
    ChannelByStep(lib, t, c, ps, skip, k, p, name, ch);
    ChannelByStep(lib, t, c, ps, skip, k, p, name, d);
    SameChannelName(ps[k].name, ch.name, d.name);
    assert ps[k] in ps;
    GoodChannelsIs(ps[k].channels);
  }

  lemma SameChannelName(pkg: string, a: string, b: string)
    requires ChannelPath(pkg, a) == ChannelPath(pkg, b)
    ensures a == b
  {
    if a != b {
      PathsDiffer(pkg, a, b);
    }
  }

  /** Where one step leads, its channel answers. */
  lemma StepAnswers(lib: FbcLib, t: Tables, c: string, ps: seq<Package>, skip: set<string>, k: nat, p: nat,
                    pkg: R.Graph<string>, name: string, ch: Channel, from: Option<R.Identity<string>>,
                    b: R.Bundle<string>)
    requires PackageServed(lib, t, c, ps, skip, k, p, pkg) && OwnFrom(t, c, from) && name in ChildNames(t, p)
    requires WritesChannel(lib, ps, skip, k, ch)
    requires Owns(t, c, p) && IsGraph(t, c, ChannelPath(ps[k].name, ch.name), ChildFor(t, c, p, name))
    ensures WalkAnswers(pkg, [name], from, b) <==> FromRows(ChannelRows(lib, ps, skip, ch, from), b)
    ensures N.Walk(pkg, [name]).Some? && R.Failed !in N.AnswersOf(N.Walk(pkg, [name]).value, from)
  {
    ServedChild(lib.semver, t, c, p, pkg, name);
    WalkStep(pkg, name);
    var g := ChannelGraphRows(lib, t, c, ps, skip, k, ch, from);
    assert g == ChildFor(t, c, p, name);
    GraphAnswers(lib.semver, t, c, g, pkg.children.value[name], from, b);
  }

  lemma OneStep(lib: FbcLib, t: Tables, c: string, ps: seq<Package>, skip: set<string>, k: nat, p: nat,
                pkg: R.Graph<string>, name: string, from: Option<R.Identity<string>>, b: R.Bundle<string>)
    requires PackageServed(lib, t, c, ps, skip, k, p, pkg) && OwnFrom(t, c, from)
    ensures WalkAnswers(pkg, [name], from, b) <==> OnPath(lib, ps, skip, k, from, [name], b)
    ensures N.Walk(pkg, [name]).Some? ==> R.Failed !in N.AnswersOf(N.Walk(pkg, [name]).value, from)
  {
    if name in ChildNames(t, p) {
      var ch := StepToChannel(lib, t, c, ps, skip, k, p, name);
      StepAnswers(lib, t, c, ps, skip, k, p, pkg, name, ch, from, b);
      if d :| d in GoodChannels(ps[k].channels) && Covers(GoodChannels(ps[k].channels), [name], d)
              && FromRows(ChannelRows(lib, ps, skip, d, from), b) {
        OneCovered(lib, t, c, ps, skip, k, p, name, ch, d);
      }
    } else {
      NotAChild(lib.semver, t, c, p, pkg, name);
      WalkNone(pkg, [name]);
      var channels := GoodChannels(ps[k].channels);
      forall d | d in channels ensures !Covers(channels, [name], d) {
        NotCovered(lib, t, c, ps, skip, k, p, name, d);
      }
    }
  }

  lemma NotCovered(lib: FbcLib, t: Tables, c: string, ps: seq<Package>, skip: set<string>, k: nat, p: nat, name: string,
                   d: Channel)
    requires Imported(lib, t, c, ps, skip) && WritesChannel(lib, ps, skip, k, d) && IsGraph(t, c, ps[k].name, p)
    requires name !in ChildNames(t, p)
    ensures !Covers(GoodChannels(ps[k].channels), [name], d)
  {
    if Covers(GoodChannels(ps[k].channels), [name], d) {
      ChannelByStep(lib, t, c, ps, skip, k, p, name, d);
    }
  }

  lemma NoStep(lib: FbcLib, t: Tables, c: string, ps: seq<Package>, skip: set<string>, k: nat, p: nat,
               pkg: R.Graph<string>, from: Option<R.Identity<string>>, b: R.Bundle<string>)
    requires PackageServed(lib, t, c, ps, skip, k, p, pkg) && OwnFrom(t, c, from)
    ensures WalkAnswers(pkg, [], from, b) <==> OnPath(lib, ps, skip, k, from, [], b)
    ensures N.Walk(pkg, []) == Some(pkg) && R.Failed !in N.AnswersOf(pkg, from)
  {
    EmptyPath(lib, t, c, ps, skip, k, p, pkg, from, b);
    GraphAnswers(lib.semver, t, c, p, pkg, from, b);
  }

  lemma OnePath(lib: FbcLib, t: Tables, c: string, ps: seq<Package>, skip: set<string>, k: nat, p: nat,
                pkg: R.Graph<string>, path: seq<string>, from: Option<R.Identity<string>>, b: R.Bundle<string>)
    requires PackageServed(lib, t, c, ps, skip, k, p, pkg) && OwnFrom(t, c, from) && |path| == 1
    ensures WalkAnswers(pkg, path, from, b) <==> OnPath(lib, ps, skip, k, from, path, b)
    ensures N.Walk(pkg, path).Some? ==> R.Failed !in N.AnswersOf(N.Walk(pkg, path).value, from)
  {
    assert path == [path[0]];
    OneStep(lib, t, c, ps, skip, k, p, pkg, path[0], from, b);
  }

  /** Whatever the path, following it answers with the channels it stands for. */
  lemma PathAnswers(lib: FbcLib, t: Tables, c: string, ps: seq<Package>, skip: set<string>, k: nat, p: nat,
                    pkg: R.Graph<string>, path: seq<string>, from: Option<R.Identity<string>>, b: R.Bundle<string>)
    requires PackageServed(lib, t, c, ps, skip, k, p, pkg) && OwnFrom(t, c, from)
    ensures WalkAnswers(pkg, path, from, b) <==> OnPath(lib, ps, skip, k, from, path, b)
    ensures N.Walk(pkg, path).Some? ==> R.Failed !in N.AnswersOf(N.Walk(pkg, path).value, from)
  {
    if path == [] {
      NoStep(lib, t, c, ps, skip, k, p, pkg, from, b);
    } else if |path| == 1 {
      OnePath(lib, t, c, ps, skip, k, p, pkg, path, from, b);
    } else {
      LongPath(lib, t, c, ps, skip, k, p, pkg, path);
    }
  }

  /** What is found on any of the paths, or, without paths, in the package. */
  ghost predicate OnPaths(lib: FbcLib, ps: seq<Package>, skip: set<string>, k: nat, cfg: R.Config<string>,
                          b: R.Bundle<string>)
    requires k < |ps|
  {
    if cfg.paths == [] then OnPath(lib, ps, skip, k, cfg.from, [], b)
    else exists path <- cfg.paths :: OnPath(lib, ps, skip, k, cfg.from, path, b)
  }

  lemma SearchedAnswers(pkg: R.Graph<string>, cfg: R.Config<string>, a: R.Answer<string>)
    ensures a in N.Searched(pkg, cfg) <==>
            if cfg.paths == [] then a in N.AnswersOf(pkg, cfg.from)
            else exists path <- cfg.paths ::
                   N.Walk(pkg, path).Some? && a in N.AnswersOf(N.Walk(pkg, path).value, cfg.from)
  {
    if cfg.paths == [] {
      N.OneGraph(pkg, cfg.from);
    } else {
      N.InAnswers(N.Reached(pkg, cfg.paths), cfg.from, a);
      if g :| g in N.Reached(pkg, cfg.paths) && a in N.AnswersOf(g, cfg.from) {
        var path := N.PathTo(pkg, cfg.paths, g);
      }
      if path :| path in cfg.paths && N.Walk(pkg, path).Some?
                 && a in N.AnswersOf(N.Walk(pkg, path).value, cfg.from) {
        N.ReachedBy(pkg, cfg.paths, N.Walk(pkg, path).value);
      }
    }
  }

  lemma SearchedOnPaths(lib: FbcLib, t: Tables, c: string, ps: seq<Package>, skip: set<string>, k: nat, p: nat,
                        pkg: R.Graph<string>, cfg: R.Config<string>, b: R.Bundle<string>)
    requires PackageServed(lib, t, c, ps, skip, k, p, pkg) && OwnFrom(t, c, cfg.from)
    ensures R.Got(b) in N.Searched(pkg, cfg) <==> OnPaths(lib, ps, skip, k, cfg, b)
  {
    SearchedAnswers(pkg, cfg, R.Got(b));
    PathAnswers(lib, t, c, ps, skip, k, p, pkg, [], cfg.from, b);
    forall path <- cfg.paths
      ensures WalkAnswers(pkg, path, cfg.from, b) <==> OnPath(lib, ps, skip, k, cfg.from, path, b)
    {
      PathAnswers(lib, t, c, ps, skip, k, p, pkg, path, cfg.from, b);
    }
  }

  /** No stream fails on the way. */
  lemma SearchedSucceeds(lib: FbcLib, t: Tables, c: string, ps: seq<Package>, skip: set<string>, k: nat, p: nat,
                         pkg: R.Graph<string>, cfg: R.Config<string>)
    requires PackageServed(lib, t, c, ps, skip, k, p, pkg) && OwnFrom(t, c, cfg.from)
    ensures R.Failed !in N.Searched(pkg, cfg)
  {
    var b: R.Bundle<string> := *;
    SearchedAnswers(pkg, cfg, R.Failed);
    PathAnswers(lib, t, c, ps, skip, k, p, pkg, [], cfg.from, b);
    forall path <- cfg.paths
      ensures N.Walk(pkg, path).Some? ==> R.Failed !in N.AnswersOf(N.Walk(pkg, path).value, cfg.from)
    {
      PathAnswers(lib, t, c, ps, skip, k, p, pkg, path, cfg.from, b);
    }
  }

  /** Where an id has one bundle, the first answer with the id is any of them. */
  lemma FirstIsAny(answers: seq<R.Answer<string>>, b: R.Bundle<string>)
    requires forall x, y | R.Got(x) in answers && R.Got(y) in answers && x.identity.id == y.identity.id :: x == y
    ensures N.First(answers, b) <==> R.Got(b) in answers
  {
    if R.Got(b) in answers {
      var i: nat :| i < |answers| && answers[i] == R.Got(b);
      var f := N.FirstExists(answers, i);
      var j: nat :| N.FirstAt(answers, f, j);
      assert R.Got(f) in answers;
    }
    if i: nat :| N.FirstAt(answers, b, i) {
      assert answers[i] == R.Got(b);
    }
  }

  lemma ChannelRowStored(lib: FbcLib, ps: seq<Package>, skip: set<string>, ch: Channel,
                         from: Option<R.Identity<string>>, r: Row)
    requires r in ChannelRows(lib, ps, skip, ch, from)
    ensures r == StoredRow(lib, ps, skip, r.id)
  {
  }

  lemma OnPathRow(lib: FbcLib, ps: seq<Package>, skip: set<string>, k: nat, from: Option<R.Identity<string>>,
                  path: seq<string>, b: R.Bundle<string>) returns (ch: Channel, r: Row)
    requires k < |ps| && OnPath(lib, ps, skip, k, from, path, b)
    ensures r in ChannelRows(lib, ps, skip, ch, from) && b == BundleFor(r)
  {
    var channels := GoodChannels(ps[k].channels);
    ch :| ch in channels && Covers(channels, path, ch) && FromRows(ChannelRows(lib, ps, skip, ch, from), b);
    r :| r in ChannelRows(lib, ps, skip, ch, from) && b == BundleFor(r);
  }

  lemma OnPathIsStored(lib: FbcLib, ps: seq<Package>, skip: set<string>, k: nat, from: Option<R.Identity<string>>,
                       path: seq<string>, b: R.Bundle<string>)
    requires k < |ps| && OnPath(lib, ps, skip, k, from, path, b)
    ensures b == BundleFor(StoredRow(lib, ps, skip, b.identity.id))
  {
    var ch, r := OnPathRow(lib, ps, skip, k, from, path, b);
    ChannelRowStored(lib, ps, skip, ch, from, r);
  }

  lemma SomePath(lib: FbcLib, ps: seq<Package>, skip: set<string>, k: nat, cfg: R.Config<string>, b: R.Bundle<string>)
    returns (path: seq<string>)
    requires k < |ps| && OnPaths(lib, ps, skip, k, cfg, b)
    ensures OnPath(lib, ps, skip, k, cfg.from, path, b)
  {
    if cfg.paths == [] {
      path := [];
    } else {
      path :| path in cfg.paths && OnPath(lib, ps, skip, k, cfg.from, path, b);
    }
  }

  /** Main result, from an import to the resolver: whatever the paths, in whatever order and however often,
      the bundles found are exactly those that satisfy the constraint and are listed by one of the channels
      the paths stand for, or, from an installed bundle whose id no other catalog stores, offered by one. */
  lemma ImportResolved(lib: FbcLib, t: Tables, c: string, ps: seq<Package>, skip: set<string>, k: nat, p: nat,
                       pkg: R.Graph<string>, cfg: R.Config<string>, b: R.Bundle<string>)
    requires PackageServed(lib, t, c, ps, skip, k, p, pkg) && OwnFrom(t, c, cfg.from)
    ensures N.Candidate(pkg, cfg, b) <==> OnPaths(lib, ps, skip, k, cfg, b) && N.Satisfies(cfg.constraint, b)
    ensures R.Failed !in N.Searched(pkg, cfg)
  {
    var answers := N.Searched(pkg, cfg);
    forall x | R.Got(x) in answers ensures x == BundleFor(StoredRow(lib, ps, skip, x.identity.id)) {
      SearchedOnPaths(lib, t, c, ps, skip, k, p, pkg, cfg, x);
      var path := SomePath(lib, ps, skip, k, cfg, x);
      OnPathIsStored(lib, ps, skip, k, cfg.from, path, x);
    }
    FirstIsAny(answers, b);
    SearchedOnPaths(lib, t, c, ps, skip, k, p, pkg, cfg, b);
    SearchedSucceeds(lib, t, c, ps, skip, k, p, pkg, cfg);
  }

  lemma OneNamed(lib: FbcLib, ps: seq<Package>, skip: set<string>, k: nat, ch: Channel, d: Channel)
    requires AllStaged(ps) && WritesChannel(lib, ps, skip, k, ch) && d in GoodChannels(ps[k].channels)
    ensures Covers(GoodChannels(ps[k].channels), [ch.name], d) <==> d == ch
  {
    assert ps[k] in ps;
    GoodChannelsIs(ps[k].channels);
  }

  lemma OnOnePath(lib: FbcLib, ps: seq<Package>, skip: set<string>, k: nat, ch: Channel, cfg: R.Config<string>,
                  b: R.Bundle<string>)
    requires AllStaged(ps) && WritesChannel(lib, ps, skip, k, ch) && cfg.paths == [[ch.name]]
    ensures OnPaths(lib, ps, skip, k, cfg, b) <==> FromRows(ChannelRows(lib, ps, skip, ch, cfg.from), b)
  {
    assert [ch.name] in cfg.paths;
    forall d <- GoodChannels(ps[k].channels)
      ensures Covers(GoodChannels(ps[k].channels), [ch.name], d) <==> d == ch
    {
      OneNamed(lib, ps, skip, k, ch, d);
    }
  }

  /** So the path of one written channel finds exactly what that channel lists or offers. */
  lemma ChannelResolved(lib: FbcLib, t: Tables, c: string, ps: seq<Package>, skip: set<string>, k: nat, ch: Channel,
                        p: nat, pkg: R.Graph<string>, cfg: R.Config<string>, b: R.Bundle<string>)
    requires PackageServed(lib, t, c, ps, skip, k, p, pkg) && OwnFrom(t, c, cfg.from)
    requires WritesChannel(lib, ps, skip, k, ch) && cfg.paths == [[ch.name]]
    ensures N.Candidate(pkg, cfg, b) <==>
            FromRows(ChannelRows(lib, ps, skip, ch, cfg.from), b) && N.Satisfies(cfg.constraint, b)
  {
    ImportResolved(lib, t, c, ps, skip, k, p, pkg, cfg, b);
    OnOnePath(lib, ps, skip, k, ch, cfg, b);
  }

  // ---------------------------------------------------------------- every row has a handle

  lemma ExactNext(rest: seq<Yield>, want: set<Row>, r: Row)
    requires YieldsExactly(rest, want) && forall x <- want :: x.id != r.id
    ensures YieldsExactly(rest + [Yield.Bundle(r.id, r.info)], want + {r})
  {
    forall i | 0 <= i < |rest| ensures rest[i].Bundle? && rest[i].id != r.id {
      assert rest[i] in rest;
    }
  }

  lemma {:induction false} ExactExists(want: set<Row>) returns (out: seq<Yield>)
    requires Query.Coherent(want)
    ensures YieldsExactly(out, want)
  {
    if want == {} {
      out := [];
    } else {
      var r :| r in want;
      var rest := ExactExists(want - {r});
      out := rest + [Yield.Bundle(r.id, r.info)];
      ExactNext(rest, want - {r}, r);
      assert want - {r} + {r} == want;
    }
  }

  lemma ListingExists(t: Tables, c: string, g: nat)
    requires Valid(t) && Owns(t, c, g)
    ensures exists answers :: Lists(t, g, answers)
  {
    ScopeInCatalog(t, c, g);
    ScopeBundles(t, c, Scope(t, g));
    CatalogRowsCoherent(t, c, ListedBundles(t, Scope(t, g)));
    var out := ExactExists(ListedRows(t, Scope(t, g)));
    assert Lists(t, g, AnswersFor(out));
  }

  lemma SuccessorsCoherent(lib: SemverLib, t: Tables, c: string, g: nat, pick: Option<nat>, version: string)
    requires Valid(t) && Owns(t, c, g)
    ensures Query.Coherent(SuccessorRows(lib, t, Scope(t, g), pick, version))
  {
    var rows := SuccessorRows(lib, t, Scope(t, g), pick, version);
    forall r, s | r in rows && s in rows && r.id == s.id ensures r == s {
      SuccessorIsOwn(lib, t, c, g, pick, version, r);
      SuccessorIsOwn(lib, t, c, g, pick, version, s);
    }
  }

  lemma PickExists(t: Tables, id: string) returns (pick: Option<nat>)
    ensures ScalarBundle(t, id, pick)
  {
    pick := None;
    if b :| b in t.bundles && t.bundles[b].id == id {
      pick := Some(b);
    }
  }

  lemma OffersExist(lib: SemverLib, t: Tables, c: string, g: nat, from: R.Identity<string>)
    requires Valid(t) && Owns(t, c, g)
    ensures exists answers :: OffersFrom(lib, t, g, from, answers)
  {
    var pick := PickExists(t, from.id);
    SuccessorsCoherent(lib, t, c, g, pick, from.nvr.vr.version);
    var out := ExactExists(SuccessorRows(lib, t, Scope(t, g), pick, from.nvr.vr.version));
    assert OffersFrom(lib, t, g, from, AnswersFor(out));
  }

  ghost function SomeListing(t: Tables, c: string, g: nat): (answers: seq<R.Answer<string>>)
    requires Valid(t) && Owns(t, c, g)
    ensures Lists(t, g, answers)
  {
    ListingExists(t, c, g);
    var answers :| Lists(t, g, answers);
    answers
  }

  ghost function SomeOffer(lib: SemverLib, t: Tables, c: string, g: nat,
                           from: R.Identity<string>): (answers: seq<R.Answer<string>>)
    requires Valid(t) && Owns(t, c, g)
    ensures OffersFrom(lib, t, g, from, answers)
  {
    OffersExist(lib, t, c, g, from);
    var answers :| OffersFrom(lib, t, g, from, answers);
    answers
  }

  ghost function SomeHandle(lib: SemverLib, t: Tables, c: string, g: nat): R.Graph<string>
    requires Valid(t) && Owns(t, c, g)
    decreases t.lastGraph - g
  {
    R.Graph(t.graphs[g].name, SomeListing(t, c, g), from => SomeOffer(lib, t, c, g, from),
            if Children(t, g) == {} then None
            else Some(map name | name in ChildNames(t, g) :: SomeHandle(lib, t, c, ChildFor(t, c, g, name))))
  }

  lemma HandleAnswers(lib: SemverLib, t: Tables, c: string, g: nat)
    requires Valid(t) && Owns(t, c, g)
    ensures var graph := SomeHandle(lib, t, c, g);
            && graph.name == t.graphs[g].name && Lists(t, g, graph.listing)
            && forall from :: OffersFrom(lib, t, g, from, graph.successors(from))
  {
  }

  lemma HandleChildren(lib: SemverLib, t: Tables, c: string, g: nat)
    requires Valid(t) && Owns(t, c, g)
    ensures var graph := SomeHandle(lib, t, c, g);
            && (graph.children.None? <==> Children(t, g) == {})
            && (graph.children.Some? ==>
                  && graph.children.value.Keys == ChildNames(t, g)
                  && forall name <- ChildNames(t, g) ::
                       graph.children.value[name] == SomeHandle(lib, t, c, ChildFor(t, c, g, name)))
  {
    if Children(t, g) != {} {
      var m := map name | name in ChildNames(t, g) :: SomeHandle(lib, t, c, ChildFor(t, c, g, name));
      assert SomeHandle(lib, t, c, g).children == Some(m);
    }
  }

  /** Every row of valid tables has a handle the results above apply to. */
  lemma {:induction false} HandleExists(lib: SemverLib, t: Tables, c: string, g: nat)
    requires Valid(t) && Owns(t, c, g)
    ensures Serves(lib, t, c, g, SomeHandle(lib, t, c, g))
    decreases t.lastGraph - g
  {
    HandleAnswers(lib, t, c, g);
    HandleChildren(lib, t, c, g);
    forall name <- ChildNames(t, g)
      ensures Serves(lib, t, c, ChildFor(t, c, g, name), SomeHandle(lib, t, c, ChildFor(t, c, g, name)))
    {
      HandleExists(lib, t, c, ChildFor(t, c, g, name));
    }
  }
}
