/** The end-to-end reading of an import: what the store answers for a channel, from the tables,
    is what the channel's entries say. */
module FbcAnswers {
  import opened Wrappers
  import opened Text
  import opened Content
  import opened Semver
  import opened Writer
  import opened Graphs
  import opened Query
  import opened Handles
  import opened Fbc
  import opened FbcMeaning
  import opened FbcImport

  // ---------------------------------------------------------------- the meaning of an entry

  /** Entry e can be upgraded to from the given bundle. */
  predicate Offers(lib: SemverLib, e: ChannelEntry, from: string, version: string) {
    || (e.replaced != "" && e.replaced == from)
    || from in e.skips
    || (e.skipRange != "" && lib.inRange(e.skipRange, version))
  }

  function OfferedNames(lib: SemverLib, entries: seq<ChannelEntry>, from: string, version: string): set<string> {
    set e | e in entries && Offers(lib, e, from, version) :: e.name
  }

  lemma {:induction false} EdgesMean(entries: seq<ChannelEntry>, from: string, to: string)
    ensures (from, to) in ChannelEdges(entries) <==> exists e <- entries :: e.name == to && from in Refs(e)
  {
    if entries != [] {
      EdgesMean(entries[1..], from, to);
      assert forall e :: e in entries <==> e == entries[0] || e in entries[1..];
    }
  }

  lemma {:induction false} RangesMean(entries: seq<ChannelEntry>, n: string, range: string)
    ensures (n, range) in ChannelRanges(entries) <==>
              exists e <- entries :: e.name == n && e.skipRange == range && range != ""
  {
    if entries != [] {
      RangesMean(entries[1..], n, range);
      assert forall e :: e in entries <==> e == entries[0] || e in entries[1..];
    }
  }

  // ---------------------------------------------------------------- answers by name

  function IdsOfRows(rows: set<Row>): set<string> {
    set r <- rows :: r.id
  }

  function NodeSuccessors(lib: SemverLib, n: Node, from: string, version: string): set<string> {
    (set e | e in n.edges && e.0 == from :: e.1) + (set r | r in n.ranges && lib.inRange(r.1, version) :: r.0)
  }

  lemma ExplicitByName(t: Tables, c: string, g: nat, from: string)
    requires UniqueIds(t) && LinksStay(t) && Owns(t, c, g)
    ensures IdsOfRows(RowsAt(t, ExplicitBundles(t, {g}, BundleId(t, c, from)))) == set e | e in EdgeNames(t, g) &&
            e.0 == from :: e.1
  {
    var own := BundleId(t, c, from);
    forall e <- t.edges | e.graph == g
      ensures own == Some(e.from) <==> t.bundles[e.from].id == from
    {
      assert t.bundles[e.from].id == from ==> IsBundle(t, c, from, e.from);
    }
    forall to | to in (set e | e in EdgeNames(t, g) && e.0 == from :: e.1)
      ensures to in IdsOfRows(RowsAt(t, ExplicitBundles(t, {g}, own)))
    {
      var e :| e in t.edges && e.graph == g && t.bundles[e.from].id == from && t.bundles[e.to].id == to;
      assert e.to in ExplicitBundles(t, {g}, own);
      assert RowOf(t, e.to) in RowsAt(t, ExplicitBundles(t, {g}, own));
    }
    forall to <- IdsOfRows(RowsAt(t, ExplicitBundles(t, {g}, own)))
      ensures to in (set e | e in EdgeNames(t, g) && e.0 == from :: e.1)
    {
      var r :| r in RowsAt(t, ExplicitBundles(t, {g}, own)) && r.id == to;
      var e :| e in t.edges && e.graph == g && own == Some(e.from) && e.to in t.bundles && RowOf(t, e.to) == r;
      assert (from, to) in EdgeNames(t, g);
    }
  }

  lemma MatchedByName(lib: SemverLib, t: Tables, g: nat, version: string)
    requires LinksStay(t)
    ensures IdsOfRows(RowsAt(t, MatchedBundles(lib, t, {g}, version))) == set r | r in RangeNames(t, g) &&
            lib.inRange(r.1, version) :: r.0
  {
    forall n | n in (set r | r in RangeNames(t, g) && lib.inRange(r.1, version) :: r.0)
      ensures n in IdsOfRows(RowsAt(t, MatchedBundles(lib, t, {g}, version)))
    {
      var k :| k in t.ranges && k.graph == g && lib.inRange(t.ranges[k], version) && k.bundle in t.bundles &&
        t.bundles[k.bundle].id == n;
      assert k in RangeSlots(t, {g}) && k.bundle in MatchedBundles(lib, t, {g}, version);
      assert RowOf(t, k.bundle) in RowsAt(t, MatchedBundles(lib, t, {g}, version));
    }
    forall n <- IdsOfRows(RowsAt(t, MatchedBundles(lib, t, {g}, version)))
      ensures n in (set r | r in RangeNames(t, g) && lib.inRange(r.1, version) :: r.0)
    {
      var r :| r in RowsAt(t, MatchedBundles(lib, t, {g}, version)) && r.id == n;
      var k :| k in RangeSlots(t, {g}) && lib.inRange(t.ranges[k], version) && RowOf(t, k.bundle) == r;
      assert (n, t.ranges[k]) in RangeNames(t, g);
    }
  }

  lemma SuccessorsByName(lib: SemverLib, t: Tables, c: string, g: nat, from: string, version: string)
    requires UniqueIds(t) && LinksStay(t) && Owns(t, c, g)
    ensures IdsOfRows(SuccessorRows(lib, t, {g}, BundleId(t, c, from), version)) ==
            NodeSuccessors(lib, NodeOf(t, g), from, version)
  {
    ExplicitByName(t, c, g, from);
    MatchedByName(lib, t, g, version);
  }

  lemma ListedByName(t: Tables, c: string, g: nat, n: string)
    requires UniqueIds(t) && LinksStay(t) && Owns(t, c, g)
    ensures n in IdsOfRows(ListedRows(t, {g})) <==>
              n in MemberNames(t, g) && n in BundlesOf(t, c) && BundlesOf(t, c)[n].version != ""
  {
    BundlesShown(t, c);
    if n in MemberNames(t, g) {
      var m :| m in t.members && m.graph == g && t.bundles[m.bundle].id == n;
      assert OwnsBundle(t, c, m.bundle);
      if t.bundles[m.bundle].info.version != "" {
        assert m.bundle in ListedBundles(t, {g});
        assert RowOf(t, m.bundle) in ListedRows(t, {g});
      }
    }
    if n in IdsOfRows(ListedRows(t, {g})) {
      ListedRowStored(t, c, g, n);
    }
  }

  lemma ListedRowStored(t: Tables, c: string, g: nat, n: string)
    requires LinksStay(t) && Owns(t, c, g) && n in IdsOfRows(ListedRows(t, {g}))
    ensures exists m <- t.members ::
            m.graph == g && OwnsBundle(t, c, m.bundle) && t.bundles[m.bundle].id == n &&
              t.bundles[m.bundle].info.version != ""
  {
    var r :| r in ListedRows(t, {g}) && r.id == n;
    var m :| m in t.members && m.graph == g && m.bundle in t.bundles && t.bundles[m.bundle].info.version != "" &&
      RowOf(t, m.bundle) == r;
  }

  /** The texts by name are the texts in the tables. */
  lemma TextsInTables(lib: SemverLib, t: Tables, c: string)
    requires UniquePaths(t) && UniqueIds(t) && LinksStay(t) && TextsOk(lib, ViewOf(t, c))
    ensures TextsParse(lib, t, c)
  {
    forall b <- t.bundles | t.bundles[b].catalog == c
      ensures Clean(lib, RowOf(t, b))
    {
      BundleText(lib, t, c, b);
    }
    forall k <- t.ranges | Owns(t, c, k.graph)
      ensures lib.parsesRange(t.ranges[k])
    {
      RangeText(lib, t, c, k);
    }
  }

  lemma BundleText(lib: SemverLib, t: Tables, c: string, b: nat)
    requires UniqueIds(t) && OwnsBundle(t, c, b) && TextsOk(lib, ViewOf(t, c))
    ensures Clean(lib, RowOf(t, b))
  {
    BundlesShown(t, c);
  }

  lemma RangeText(lib: SemverLib, t: Tables, c: string, k: Slot)
    requires UniquePaths(t) && LinksStay(t) && k in t.ranges && Owns(t, c, k.graph) && TextsOk(lib, ViewOf(t, c))
    ensures lib.parsesRange(t.ranges[k])
  {
    NodesShown(t, c);
    var r := (t.bundles[k.bundle].id, t.ranges[k]);
    assert r in RangeNames(t, k.graph);
    assert r in ViewOf(t, c).nodes[t.graphs[k.graph].path].ranges;
  }

  lemma NotThreeDeep(a: string, b: string, q: string, name: string)
    requires AcceptedSegment(a) && AcceptedSegment(b) && AcceptedSegment(name) && '/' in q
    ensures ChannelPath(a, b) != q + "/" + name
  {
    if ChannelPath(a, b) == q + "/" + name {
      LastSegment(a, b, q, name);
    }
  }

  lemma FlatPath(t: Tables, c: string, g: nat)
    requires UniquePaths(t) && Flat(ViewOf(t, c)) && Owns(t, c, g)
    ensures var q := t.graphs[g].path;
            (AcceptedSegment(q) && Bare(NodeOf(t, g))) ||
            exists a, b :: AcceptedSegment(a) && AcceptedSegment(b) && q == ChannelPath(a, b)
  {
    NodesShown(t, c);
    assert t.graphs[g].path in ViewOf(t, c).nodes;
  }

  /** In a flat catalog a graph that holds something, or is a channel, has no children. */
  lemma FlatLeaves(t: Tables, c: string, g: nat)
    requires Shaped(t) && UniquePaths(t) && Flat(ViewOf(t, c)) && Owns(t, c, g)
    requires '/' in t.graphs[g].path || !Bare(NodeOf(t, g))
    ensures Children(t, g) == {}
  {
    var q := t.graphs[g].path;
    FlatPath(t, c, g);
    forall a, b | q == ChannelPath(a, b)
      ensures '/' in q
    {
      ExtensionHasSlash(a, q);
    }
    forall k | k in t.graphs
      ensures t.graphs[k].parent != Some(g)
    {
      ChildTooDeep(t, c, g, k);
    }
  }

  lemma ChildTooDeep(t: Tables, c: string, g: nat, k: nat)
    requires Shaped(t) && UniquePaths(t) && Flat(ViewOf(t, c)) && Owns(t, c, g) && '/' in t.graphs[g].path
    requires k in t.graphs
    ensures t.graphs[k].parent != Some(g)
  {
    assert GraphShape(t, k);
    if t.graphs[k].parent == Some(g) {
      FlatPath(t, c, k);
      var q, r := t.graphs[g].path, t.graphs[k].path;
      ExtensionHasSlash(q, r);
      var a, b :| AcceptedSegment(a) && AcceptedSegment(b) && r == ChannelPath(a, b);
      NotThreeDeep(a, b, q, t.graphs[k].name);
    }
  }

  lemma FlatLeafOnly(t: Tables, c: string)
    requires Valid(t) && Flat(ViewOf(t, c))
    ensures LeafOnly(t, c)
  {
    forall m <- t.members | Owns(t, c, m.graph) ensures Children(t, m.graph) == {} {
      assert t.bundles[m.bundle].id in MemberNames(t, m.graph);
      FlatLeaves(t, c, m.graph);
    }
    forall e <- t.edges | Owns(t, c, e.graph) ensures Children(t, e.graph) == {} {
      assert (t.bundles[e.from].id, t.bundles[e.to].id) in EdgeNames(t, e.graph);
      FlatLeaves(t, c, e.graph);
    }
    forall k <- t.ranges | Owns(t, c, k.graph) ensures Children(t, k.graph) == {} {
      assert (t.bundles[k.bundle].id, t.ranges[k]) in RangeNames(t, k.graph);
      FlatLeaves(t, c, k.graph);
    }
  }

  // ---------------------------------------------------------------- end to end

  /** The tables hold, for catalog c, the outcome of importing ps into an emptied catalog, and perhaps
      properties an extension has set since. */
  ghost predicate Imported(lib: FbcLib, t: Tables, c: string, ps: seq<Package>, skip: set<string>) {
    && lib.semver.Ok() && Valid(t) && AllStaged(ps)
    && SameButProps(ImportAll(lib, NO_CONTENT, ps, skip), ViewOf(t, c))
  }

  lemma PropsDoNotMatter(lib: SemverLib, v: View, w: View)
    requires SameButProps(v, w) && Flat(v) && TextsOk(lib, v)
    ensures Flat(w) && TextsOk(lib, w)
  {
    assert forall q <- w.nodes ::
      q in v.nodes && w.nodes[q].ranges == v.nodes[q].ranges && (Bare(v.nodes[q]) <==> Bare(w.nodes[q]));
  }

  lemma ImportedShape(lib: FbcLib, t: Tables, c: string, ps: seq<Package>, skip: set<string>)
    requires Imported(lib, t, c, ps, skip)
    ensures Flat(ViewOf(t, c)) && TextsOk(lib.semver, ViewOf(t, c))
  {
    ImportKeeps(lib, NO_CONTENT, ps, skip);
    PropsDoNotMatter(lib.semver, ImportAll(lib, NO_CONTENT, ps, skip), ViewOf(t, c));
  }

  /** Every import leaves tables that can be read without an error or a panic, and in which only
      childless graphs hold content. */
  lemma ImportIsReadable(lib: FbcLib, t: Tables, c: string, ps: seq<Package>, skip: set<string>)
    requires Imported(lib, t, c, ps, skip)
    ensures TextsParse(lib.semver, t, c) && LeafOnly(t, c)
  {
    ImportedShape(lib, t, c, ps, skip);
    TextsInTables(lib.semver, t, c);
    FlatLeafOnly(t, c);
  }

  /** Package k is not skipped, gets as far as its graph, and ch is among the channels it writes. */
  predicate WritesChannel(lib: FbcLib, ps: seq<Package>, skip: set<string>, k: nat, ch: Channel) {
    k < |ps| && ps[k].name !in skip && Enters(lib, ps[k]) && ch in GoodChannels(ps[k].channels)
  }

  lemma GraphShown(t: Tables, c: string, q: string) returns (g: nat)
    requires UniquePaths(t) && q in ViewOf(t, c).nodes
    ensures IsGraph(t, c, q, g) && NodeOf(t, g) == ViewOf(t, c).nodes[q]
  {
    NodesShown(t, c);
    g :| IsGraph(t, c, q, g);
    assert Owns(t, c, g);
  }

  /** What a package places is stored. */
  lemma PlacedStored(lib: FbcLib, t: Tables, c: string, ps: seq<Package>, skip: set<string>, q: string, n: Node)
    returns (g: nat)
    requires Imported(lib, t, c, ps, skip) && Placed(lib, ps, skip, q, n)
    ensures IsGraph(t, c, q, g) && NodeOf(t, g) == n.(props := NodeOf(t, g).props)
  {
    ImportedNodes(lib, NO_CONTENT, ps, skip);
    assert q in ImportAll(lib, NO_CONTENT, ps, skip).nodes;
    g := GraphShown(t, c, q);
  }

  lemma ChannelPlaced(lib: FbcLib, ps: seq<Package>, skip: set<string>, k: nat, ch: Channel)
    requires WritesChannel(lib, ps, skip, k, ch)
    ensures Placed(lib, ps, skip, ChannelPath(ps[k].name, ch.name), StoredChannel(lib, ps[k], ch))
  {
    assert PlacesChannel(lib, ps[k], ChannelPath(ps[k].name, ch.name), StoredChannel(lib, ps[k], ch));
    assert ps[k] in ps;
  }

  lemma ChannelHasSlash(a: string, b: string)
    ensures '/' in ChannelPath(a, b)
  {
    assert ChannelPath(a, b)[|a|] == '/';
  }

  lemma ChannelLeaf(t: Tables, c: string, a: string, b: string, g: nat)
    requires Valid(t) && Flat(ViewOf(t, c)) && IsGraph(t, c, ChannelPath(a, b), g)
    ensures Children(t, g) == {}
  {
    ChannelHasSlash(a, b);
    FlatLeaves(t, c, g);
  }

  /** The graph of a written channel is stored, answers for itself, and holds what the channel
      declares. */
  lemma ChannelGraph(lib: FbcLib, t: Tables, c: string, ps: seq<Package>, skip: set<string>, k: nat, ch: Channel)
    returns (g: nat)
    requires Imported(lib, t, c, ps, skip) && WritesChannel(lib, ps, skip, k, ch)
    ensures IsGraph(t, c, ChannelPath(ps[k].name, ch.name), g) && Scope(t, g) == {g}
    ensures NodeOf(t, g) == StoredChannel(lib, ps[k], ch).(props := NodeOf(t, g).props)
  {
    ChannelPlaced(lib, ps, skip, k, ch);
    g := PlacedStored(lib, t, c, ps, skip, ChannelPath(ps[k].name, ch.name), StoredChannel(lib, ps[k], ch));
    ImportedShape(lib, t, c, ps, skip);
    ChannelLeaf(t, c, ps[k].name, ch.name, g);
  }

  /** And the package's own graph, which is a root. */
  lemma PackageGraph(lib: FbcLib, t: Tables, c: string, ps: seq<Package>, skip: set<string>, k: nat) returns (g: nat)
    requires Imported(lib, t, c, ps, skip) && k < |ps| && ps[k].name !in skip && Enters(lib, ps[k])
    ensures IsGraph(t, c, ps[k].name, g)
    ensures NodeOf(t, g) == StoredPackage(lib, ps[k]).(props := NodeOf(t, g).props)
  {
    assert ps[k] in ps && Places(lib, ps[k], ps[k].name, StoredPackage(lib, ps[k]));
    g := PlacedStored(lib, t, c, ps, skip, ps[k].name, StoredPackage(lib, ps[k]));
  }

  function StoredRow(lib: FbcLib, ps: seq<Package>, skip: set<string>, n: string): Row {
    Row(n, match FirstRow(lib, ps, skip, n) case Some(info) => info case None => PHANTOM)
  }

  /** The rows a channel lists: those of its entries that are not phantoms. */
  function Listing(lib: FbcLib, ps: seq<Package>, skip: set<string>, ch: Channel): set<Row> {
    set e | e in ch.entries && StoredRow(lib, ps, skip, e.name).info.version != "" :: StoredRow(lib, ps, skip, e.name)
  }

  /** The rows it offers: those of its entries that replace the bundle, skip it or range over its
      version. */
  function Offering(lib: FbcLib, ps: seq<Package>, skip: set<string>, ch: Channel, from: string,
                    version: string): set<Row> {
    set e | e in ch.entries && Offers(lib.semver, e, from, version) :: StoredRow(lib, ps, skip, e.name)
  }

  /** Every bundle row of the catalog is the row the import left for its id. */
  lemma RowStored(lib: FbcLib, t: Tables, c: string, ps: seq<Package>, skip: set<string>, b: nat)
    requires Imported(lib, t, c, ps, skip) && OwnsBundle(t, c, b)
    ensures RowOf(t, b) == StoredRow(lib, ps, skip, t.bundles[b].id)
  {
    ImportedRow(lib, NO_CONTENT, ps, skip, t.bundles[b].id);
    BundlesShown(t, c);
    assert ViewOf(t, c).bundles == BundlesOf(t, c);
  }

  lemma RowsStored(lib: FbcLib, t: Tables, c: string, ps: seq<Package>, skip: set<string>, bundles: set<nat>)
    requires Imported(lib, t, c, ps, skip) && forall b <- bundles :: OwnsBundle(t, c, b)
    ensures forall r <- RowsAt(t, bundles) :: r == StoredRow(lib, ps, skip, r.id)
  {
    forall b <- bundles ensures RowOf(t, b) == StoredRow(lib, ps, skip, t.bundles[b].id) {
      RowStored(lib, t, c, ps, skip, b);
    }
  }

  /** Rows that are the import's are known by their ids. */
  lemma SameIds(lib: FbcLib, ps: seq<Package>, skip: set<string>, a: set<Row>, b: set<Row>)
    requires forall r <- a :: r == StoredRow(lib, ps, skip, r.id)
    requires forall r <- b :: r == StoredRow(lib, ps, skip, r.id)
    requires IdsOfRows(a) == IdsOfRows(b)
    ensures a == b
  {
    assert forall r <- a :: r.id in IdsOfRows(b);
    assert forall r <- b :: r.id in IdsOfRows(a);
  }

  lemma OfferingIds(lib: FbcLib, ps: seq<Package>, skip: set<string>, ch: Channel, from: string, version: string)
    ensures IdsOfRows(Offering(lib, ps, skip, ch, from, version)) == OfferedNames(lib.semver, ch.entries, from, version)
  {
    forall n <- OfferedNames(lib.semver, ch.entries, from, version)
      ensures n in IdsOfRows(Offering(lib, ps, skip, ch, from, version))
    {
      assert StoredRow(lib, ps, skip, n) in Offering(lib, ps, skip, ch, from, version);
    }
  }

  /** Main result: after an import, the successors a written channel offers from a bundle are, as whole
      rows, exactly its entries that replace the bundle, skip it or range over its version. */
  lemma ChannelSuccessors(lib: FbcLib, t: Tables, c: string, ps: seq<Package>, skip: set<string>, k: nat, ch: Channel,
                          from: string, version: string) returns (g: nat)
    requires Imported(lib, t, c, ps, skip) && WritesChannel(lib, ps, skip, k, ch)
    ensures IsGraph(t, c, ChannelPath(ps[k].name, ch.name), g)
    ensures SuccessorRows(lib.semver, t, Scope(t, g), BundleId(t, c, from), version) ==
            Offering(lib, ps, skip, ch, from, version)
  {
    g := ChannelGraph(lib, t, c, ps, skip, k, ch);
    assert Owns(t, c, g);
    SuccessorsByName(lib.semver, t, c, g, from, version);
    OfferedByNode(lib.semver, ch, from, version);
    OfferingIds(lib, ps, skip, ch, from, version);
    var scope, own := {g}, BundleId(t, c, from);
    ScopeBundles(t, c, scope);
    RowsStored(lib, t, c, ps, skip, ExplicitBundles(t, scope, own));
    RowsStored(lib, t, c, ps, skip, MatchedBundles(lib.semver, t, scope, version));
    SameIds(lib, ps, skip, SuccessorRows(lib.semver, t, scope, own, version),
      Offering(lib, ps, skip, ch, from, version));
  }

  lemma OfferedByNode(lib: SemverLib, ch: Channel, from: string, version: string)
    ensures NodeSuccessors(lib, ChannelNode(ch), from, version) == OfferedNames(lib, ch.entries, from, version)
  {
    var n := ChannelNode(ch);
    forall id
      ensures id in NodeSuccessors(lib, n, from, version) <==> id in OfferedNames(lib, ch.entries, from, version)
    {
      EdgesMean(ch.entries, from, id);
      if id in NodeSuccessors(lib, n, from, version) {
        if (from, id) !in n.edges {
          var r :| r in n.ranges && lib.inRange(r.1, version) && r.0 == id;
          RangesMean(ch.entries, r.0, r.1);
        }
      }
      if e :| e in ch.entries && Offers(lib, e, from, version) && e.name == id {
        if from in Refs(e) {
          assert (from, id) in n.edges;
        } else {
          RangesMean(ch.entries, id, e.skipRange);
          assert (id, e.skipRange) in n.ranges;
        }
      }
    }
  }

  lemma EntryStored(lib: FbcLib, t: Tables, c: string, ps: seq<Package>, skip: set<string>, k: nat, ch: Channel,
                    e: ChannelEntry)
    requires Imported(lib, t, c, ps, skip) && WritesChannel(lib, ps, skip, k, ch) && e in ch.entries
    ensures e.name in BundlesOf(t, c) && BundlesOf(t, c)[e.name] == StoredRow(lib, ps, skip, e.name).info
  {
    EntryEntered(lib, ps, skip, k, ch, e);
    FirstRowIs(lib, ps, skip, e.name);
    assert ps[k] in ps;
    ImportedRow(lib, NO_CONTENT, ps, skip, e.name);
  }

  lemma EntryEntered(lib: FbcLib, ps: seq<Package>, skip: set<string>, k: nat, ch: Channel, e: ChannelEntry)
    requires WritesChannel(lib, ps, skip, k, ch) && e in ch.entries
    ensures e.name in Entered(lib, ps[k]) && DeclOf(ps[k].bundles, e.name).Some?
  {
    GoodChannelsIs(ps[k].channels);
    assert ch in ps[k].channels && EntryOk(lib, ps[k], e);
    DeclOfIs(ps[k].bundles, e.name);
  }

  /** Main result: the channel lists, as whole rows, exactly those of its entries whose row is not a
      phantom. */
  lemma ChannelListing(lib: FbcLib, t: Tables, c: string, ps: seq<Package>, skip: set<string>, k: nat, ch: Channel)
    returns (g: nat)
    requires Imported(lib, t, c, ps, skip) && WritesChannel(lib, ps, skip, k, ch)
    ensures IsGraph(t, c, ChannelPath(ps[k].name, ch.name), g)
    ensures ListedRows(t, Scope(t, g)) == Listing(lib, ps, skip, ch)
  {
    g := ChannelGraph(lib, t, c, ps, skip, k, ch);
    assert Owns(t, c, g);
    ScopeBundles(t, c, {g});
    RowsStored(lib, t, c, ps, skip, ListedBundles(t, {g}));
    forall n
      ensures n in IdsOfRows(ListedRows(t, {g})) <==> n in IdsOfRows(Listing(lib, ps, skip, ch))
    {
      ListedByName(t, c, g, n);
      ListedEntry(lib, ps, skip, ch, n);
      if e :| e in ch.entries && e.name == n {
        EntryStored(lib, t, c, ps, skip, k, ch, e);
      }
    }
    SameIds(lib, ps, skip, ListedRows(t, {g}), Listing(lib, ps, skip, ch));
  }

  lemma ListedEntry(lib: FbcLib, ps: seq<Package>, skip: set<string>, ch: Channel, n: string)
    ensures n in IdsOfRows(Listing(lib, ps, skip, ch)) <==>
            n in EntryNames(ch.entries) && StoredRow(lib, ps, skip, n).info.version != ""
  {
    if n in EntryNames(ch.entries) && StoredRow(lib, ps, skip, n).info.version != "" {
      assert StoredRow(lib, ps, skip, n) in Listing(lib, ps, skip, ch);
    }
  }

  // ---------------------------------------------------------------- when an entry is hidden

  /** The first package that enters the id only refers to it. */
  ghost predicate Hidden(lib: FbcLib, ps: seq<Package>, skip: set<string>, n: string) {
    exists j: nat :: FirstEnters(lib, ps, skip, j, n) && DeclOf(ps[j].bundles, n).None?
  }

  lemma HiddenExactly(lib: FbcLib, ps: seq<Package>, skip: set<string>, k: nat, n: string)
    requires lib.semver.Ok() && k < |ps| && ps[k].name !in skip && n in Entered(lib, ps[k])
    ensures StoredRow(lib, ps, skip, n).info.version == "" <==> Hidden(lib, ps, skip, n)
  {
    var j := FirstExists(lib, ps, skip, n, k);
    FirstRowIs(lib, ps, skip, n);
    DeclOfIs(ps[j].bundles, n);
    if DeclOf(ps[j].bundles, n).Some? {
      assert BundleOk(lib, DeclOf(ps[j].bundles, n).value);
    }
    forall i: nat | FirstEnters(lib, ps, skip, i, n)
      ensures i == j
    {
      OneFirstEnters(lib, ps, skip, i, j, n);
    }
  }

  lemma OneFirstEnters(lib: FbcLib, ps: seq<Package>, skip: set<string>, i: nat, j: nat, n: string)
    requires FirstEnters(lib, ps, skip, i, n) && FirstEnters(lib, ps, skip, j, n)
    ensures i == j
  {
  }

  /** Main result: a written channel lists all its entries exactly when none of them was first entered by
      a package that does not declare it; then each row is that package's. */
  lemma ListsAllExactly(lib: FbcLib, ps: seq<Package>, skip: set<string>, k: nat, ch: Channel)
    requires lib.semver.Ok() && WritesChannel(lib, ps, skip, k, ch)
    ensures forall n :: n in IdsOfRows(Listing(lib, ps, skip, ch)) <==>
                        n in EntryNames(ch.entries) && !Hidden(lib, ps, skip, n)
    ensures IdsOfRows(Listing(lib, ps, skip, ch)) == EntryNames(ch.entries) <==>
            forall n <- EntryNames(ch.entries) :: !Hidden(lib, ps, skip, n)
  {
    forall n
      ensures n in IdsOfRows(Listing(lib, ps, skip, ch)) <==> n in EntryNames(ch.entries) && !Hidden(lib, ps, skip, n)
    {
      ListedEntry(lib, ps, skip, ch, n);
      if e :| e in ch.entries && e.name == n {
        EntryEntered(lib, ps, skip, k, ch, e);
        HiddenExactly(lib, ps, skip, k, n);
      }
    }
    assert IdsOfRows(Listing(lib, ps, skip, ch)) <= EntryNames(ch.entries);
  }

  /** No earlier package, not skipped, enters an id of the channel's entries. */
  predicate NoCrossing(lib: FbcLib, ps: seq<Package>, skip: set<string>, k: nat, ch: Channel)
    requires k <= |ps|
  {
    forall j | 0 <= j < k && ps[j].name !in skip :: Entered(lib, ps[j]) !! EntryNames(ch.entries)
  }

  /** The package's own row for one of its bundles, under the last message aimed at it. */
  function OwnRow(lib: FbcLib, ps: seq<Package>, skip: set<string>, k: nat, n: string): Row
    requires k < |ps|
  {
    Row(n, EnteredInfo(lib, ps[k],
      n).(deprecation := FinalMessage(None, Executions(lib, ps[k..], skip), BundleTarget, n)))
  }

  lemma OwnEntry(lib: FbcLib, ps: seq<Package>, skip: set<string>, k: nat, ch: Channel, e: ChannelEntry)
    requires lib.semver.Ok() && WritesChannel(lib, ps, skip, k, ch) && NoCrossing(lib, ps, skip, k, ch) &&
             e in ch.entries
    ensures StoredRow(lib, ps, skip, e.name) == OwnRow(lib, ps, skip, k, e.name) && !Hidden(lib, ps, skip, e.name)
    ensures OwnRow(lib, ps, skip, k, e.name).info.version != ""
  {
    EntryEntered(lib, ps, skip, k, ch, e);
    FirstRowIs(lib, ps, skip, e.name);
    assert e.name in EntryNames(ch.entries);
    assert FirstEnters(lib, ps, skip, k, e.name);
    DeclOfIs(ps[k].bundles, e.name);
    assert BundleOk(lib, DeclOf(ps[k].bundles, e.name).value);
    HiddenExactly(lib, ps, skip, k, e.name);
  }

  /** Where the ids of packages do not cross, a channel lists all its entries, and what it lists and
      offers are the rows its own package declares. */
  lemma OwnChannel(lib: FbcLib, ps: seq<Package>, skip: set<string>, k: nat, ch: Channel, from: string, version: string)
    requires lib.semver.Ok() && WritesChannel(lib, ps, skip, k, ch) && NoCrossing(lib, ps, skip, k, ch)
    ensures Listing(lib, ps, skip, ch) == set e | e in ch.entries :: OwnRow(lib, ps, skip, k, e.name)
    ensures Offering(lib, ps, skip, ch, from, version) ==
            set e | e in ch.entries && Offers(lib.semver, e, from, version) :: OwnRow(lib, ps, skip, k, e.name)
  {
    forall e <- ch.entries
      ensures StoredRow(lib, ps, skip, e.name) == OwnRow(lib, ps, skip, k, e.name)
      ensures OwnRow(lib, ps, skip, k, e.name).info.version != ""
    {
      OwnEntry(lib, ps, skip, k, ch, e);
    }
  }

  // ---------------------------------------------------------------- two packages that cross

  /** Package "p" replaces a bundle of package "q". */
  function Referring(): Package {
    Package("p", [BundleDecl("p1", "p", "1.0.0", "", "i")], [Channel("c", [ChannelEntry("p1", "q1", [], "")])], [])
  }

  function Referred(): Package {
    Package("q", [BundleDecl("q1", "q", "1.0.0", "", "i")], [Channel("c", [ChannelEntry("q1", "", [], "")])], [])
  }

  ghost predicate ReadsSample(lib: FbcLib) {
    lib.semver.Ok() && lib.semver.parsesVersion("1.0.0") && lib.imageRef("i").Some?
  }

  lemma SampleChannels()
    ensures ChannelsRefs(Referring().channels) == ["q1"] && GoodChannels(Referring().channels) == Referring().channels
    ensures ChannelsRefs(Referred().channels) == [] && GoodChannels(Referred().channels) == Referred().channels
    ensures EntryNames(Referred().channels[0].entries) == {"q1"}
  {
    var p, q := Referring().channels, Referred().channels;
    var e, f := p[0].entries, q[0].entries;
    GoodChannelsIs(p);
    GoodChannelsIs(q);
    assert AllRefs(e[1..]) == [] && AllRefs(e) == ["q1"] + [] == ["q1"];
    assert AllRefs(f[1..]) == [] && AllRefs(f) == [];
    assert ChannelsRefs(p[1..]) == [] && ChannelsRefs(q[1..]) == [];
    assert f[0].name == "q1";
  }

  lemma SampleEnters(lib: FbcLib)
    requires ReadsSample(lib)
    ensures Enters(lib, Referring()) && Enters(lib, Referred())
    ensures "q1" in Entered(lib, Referring()) && "q1" in Entered(lib, Referred())
    ensures DeclOf(Referring().bundles, "q1") == None
  {
    var p, q := Referring(), Referred();
    SampleChannels();
    assert p.bundles[0].name == "p1" && q.bundles[0].name == "q1";
    assert EntryKnown(p, p.channels[0].entries[0]) && EntryKnown(q, q.channels[0].entries[0]);
    assert p.bundles[1..] == [] && "p1"[0] != "q1"[0];
  }

  /** The order of two packages decides whether the second channel lists its only entry. */
  lemma ReferenceShadows(lib: FbcLib)
    requires ReadsSample(lib)
    ensures var p, q, ch := Referring(), Referred(), Referred().channels[0];
            && WritesChannel(lib, [p, q], {}, 1, ch) && WritesChannel(lib, [q, p], {}, 0, ch)
            && IdsOfRows(Listing(lib, [p, q], {}, ch)) == {} && IdsOfRows(Listing(lib, [q, p], {}, ch)) == {"q1"}
  {
    var p, q, ch := Referring(), Referred(), Referred().channels[0];
    SampleEnters(lib);
    SampleChannels();
    assert FirstEnters(lib, [p, q], {}, 0, "q1");
    ListsAllExactly(lib, [p, q], {}, 1, ch);
    ListsAllExactly(lib, [q, p], {}, 0, ch);
    assert ch.entries[0].name == "q1";
    OwnEntry(lib, [q, p], {}, 0, ch, ch.entries[0]);
  }

  lemma SampleStaged()
    ensures AllStaged([Referring(), Referred()]) && AllStaged([Referred(), Referring()])
  {
    assert Referring().name[0] != Referred().name[0];
  }
}
