/** The whole way: an FBC import committed by Set, and what the store answers in any later state. */
module StoredCatalogs {
  import opened Wrappers
  import opened Content
  import opened Semver
  import opened Writer
  import opened Graphs
  import opened Query
  import opened Handles
  import opened Fbc
  import opened FbcMeaning
  import opened FbcImport
  import opened FbcAnswers
  import opened Staging
  import I = Importer
  import opened Issuing
  import opened Stores
  import opened ContentSchema
  import opened StoreRuns

  /** The operations that were issued before a run stopped, the failing one included. */
  lemma {:induction false} Issued(lib: SemverLib, v: View, ops: seq<Op>) returns (k: nat)
    ensures k <= |ops| && ViewAll(lib, v, ops[..k]) == ViewRun(lib, v, ops).state
    decreases |ops|
  {
    if ops == [] {
      k := 0;
    } else {
      var r := ViewStep(lib, v, ops[0]);
      if r.ok {
        var rest := Issued(lib, r.state, ops[1..]);
        k := rest + 1;
        assert ops[..k][0] == ops[0] && ops[..k][1..] == ops[1..][..rest];
      } else {
        k := 1;
        var one := ops[..1];
        assert one[0] == ops[0] && one[1..] == [];
        assert ViewAll(lib, r.state, one[1..]) == r.state;
      }
    }
  }

  /** An FBC import, failing packages and all, is an importer in the store's sense. */
  lemma {:induction false} FbcImportIssues(lib: FbcLib, v: View, ps: seq<Package>, skip: set<string>)
    returns (ops: seq<Op>)
    ensures ViewAll(lib.semver, v, ops) == ImportAll(lib, v, ps, skip)
    decreases |ps|
  {
    if ps == [] {
      ops := [];
    } else if ps[0].name in skip {
      ops := FbcImportIssues(lib, v, ps[1..], skip);
    } else {
      var first: seq<Op> := [];
      if Validates(lib, ps[0]) {
        var k := Issued(lib.semver, v, Compile(lib, ps[0]));
        first := Compile(lib, ps[0])[..k];
      }
      var next := ImportPackage(lib, v, ps[0]).state;
      assert ViewAll(lib.semver, v, first) == next;
      var rest := FbcImportIssues(lib, next, ps[1..], skip);
      ViewAllAppend(lib.semver, v, first, rest);
      ops := first + rest;
    }
  }

  /** What the importer writes is what the packages mean, properties aside. */
  ghost predicate ImportsFbc(lib: FbcLib, importer: Importer, ps: seq<Package>, skip: set<string>) {
    && lib.semver.Ok() && AllStaged(ps)
    && SameButProps(ImportAll(lib, NO_CONTENT, ps, skip), ViewAll(lib.semver, NO_CONTENT, importer.ops))
  }

  /** That holds of every FBC import, whatever an extension sets afterwards and however it ends. */
  lemma FbcImporter(lib: FbcLib, ps: seq<Package>, skip: set<string>, writes: seq<Op>, result: ImportResult)
    returns (importer: Importer)
    requires lib.semver.Ok() && AllStaged(ps) && forall op <- writes :: PropertyOp(op)
    ensures importer.result == result && ImportsFbc(lib, importer, ps, skip)
  {
    var ops := FbcImportIssues(lib, NO_CONTENT, ps, skip);
    I.PropertiesAside(lib.semver, ImportAll(lib, NO_CONTENT, ps, skip), writes);
    ViewAllAppend(lib.semver, NO_CONTENT, ops, writes);
    importer := Stores.Importer(ops + writes, result);
  }

  /** In any state of any run, a catalog whose last committed content came from an FBC import holds
      that import's outcome. */
  lemma StoredIsImported(lib: FbcLib, states: seq<System>, events: seq<Event>, i: nat, c: string, ps: seq<Package>,
                         skip: set<string>)
    requires IsRun(lib.semver, states, events) && i < |states|
    requires c in states[i].imported && ImportsFbc(lib, states[i].imported[c].importer, ps, skip)
    ensures Imported(lib, states[i].db.content, c, ps, skip)
  {
    RunInvariant(lib.semver, states, events, i);
    assert Vouches(lib.semver, states[i], c);
  }

  /** Every such state can be read: no stored text makes a query fail, and only graphs without
      children hold content, so composites answer with the union of their children. */
  lemma StoredIsReadable(lib: FbcLib, states: seq<System>, events: seq<Event>, i: nat, c: string, ps: seq<Package>,
                         skip: set<string>)
    requires IsRun(lib.semver, states, events) && i < |states|
    requires c in states[i].imported && ImportsFbc(lib, states[i].imported[c].importer, ps, skip)
    ensures TextsParse(lib.semver, states[i].db.content, c) && LeafOnly(states[i].db.content, c)
  {
    StoredIsImported(lib, states, events, i, c, ps, skip);
    ImportIsReadable(lib, states[i].db.content, c, ps, skip);
  }

  // ---------------------------------------------------------------- asking for a channel

  lemma NamesOfWritten(lib: FbcLib, ps: seq<Package>, skip: set<string>, k: nat, ch: Channel)
    requires WritesChannel(lib, ps, skip, k, ch)
    ensures AcceptedSegment(ps[k].name) && AcceptedSegment(ch.name)
  {
    GoodChannelsIs(ps[k].channels);
  }

  /** Main result, from FBC to the answer over whole runs: whatever was set, deleted, refused or reopened
      since, the channel of a package that was not skipped and got that far is found, and ListBundles
      yields, each once and by ascending id, exactly its entries whose row is not a phantom, with the rows
      the import left for them. */
  method AskListing(lib: FbcLib, ghost states: seq<System>, ghost events: seq<Event>, ghost i: nat, t: Tables,
                    c: string,
                    ghost ps: seq<Package>, ghost skip: set<string>, ghost k: nat, ghost ch: Channel, pkg: string,
                      name: string)
    returns (out: Option<seq<Yield>>)
    requires IsRun(lib.semver, states, events) && i < |states| && t == states[i].db.content
    requires c in states[i].imported && ImportsFbc(lib, states[i].imported[c].importer, ps, skip)
    requires WritesChannel(lib, ps, skip, k, ch) && pkg == ps[k].name && name == ch.name
    ensures out.Some? && YieldsExactly(out.value, Listing(lib, ps, skip, ch)) && IdsAscend(out.value)
  {
    StoredIsImported(lib, states, events, i, c, ps, skip);
    ImportIsReadable(lib, t, c, ps, skip);
    NamesOfWritten(lib, ps, skip, k, ch);
    var h := GetChannel(t, c, pkg, name);
    ghost var g := FoundAt(lib, t, c, ps, skip, k, ch, h);
    ghost var g' := ChannelListing(lib, t, c, ps, skip, k, ch);
    OneGraph(t, c, ChannelPath(ps[k].name, ch.name), g, g');
    if h.None? {
      return None;
    }
    var answer := ListBundles(lib.semver, t, h.value);
    out := Some(answer);
  }

  /** The rows offered by range alone. */
  function Ranging(lib: FbcLib, ps: seq<Package>, skip: set<string>, ch: Channel, version: string): set<Row> {
    set e | e in ch.entries && e.skipRange != "" && lib.semver.inRange(e.skipRange, version) ::
      StoredRow(lib, ps, skip, e.name)
  }

  predicate OnlyIn(t: Tables, c: string, id: string) {
    forall b <- t.bundles | t.bundles[b].id == id :: t.bundles[b].catalog == c
  }

  lemma RangingIds(lib: FbcLib, ps: seq<Package>, skip: set<string>, ch: Channel, version: string, n: string)
    ensures n in IdsOfRows(Ranging(lib, ps, skip, ch, version)) <==>
            exists r <- ChannelRanges(ch.entries) :: lib.semver.inRange(r.1, version) && r.0 == n
  {
    if e :| e in ch.entries && e.skipRange != "" && lib.semver.inRange(e.skipRange, version) && e.name == n {
      RangesMean(ch.entries, n, e.skipRange);
      assert (n, e.skipRange) in ChannelRanges(ch.entries);
      assert StoredRow(lib, ps, skip, n) in Ranging(lib, ps, skip, ch, version);
    }
    if r :| r in ChannelRanges(ch.entries) && lib.semver.inRange(r.1, version) && r.0 == n {
      RangesMean(ch.entries, n, r.1);
      assert StoredRow(lib, ps, skip, n) in Ranging(lib, ps, skip, ch, version);
    }
  }

  /** The bundles matched by range are those of the entries whose range admits the version. */
  lemma MatchedAreRanging(lib: FbcLib, t: Tables, c: string, ps: seq<Package>, skip: set<string>, k: nat, ch: Channel,
                          g: nat, version: string)
    requires Imported(lib, t, c, ps, skip) && Owns(t, c, g)
    requires RangeNames(t, g) == ChannelRanges(ch.entries)
    ensures RowsAt(t, MatchedBundles(lib.semver, t, {g}, version)) == Ranging(lib, ps, skip, ch, version)
  {
    var rows := RowsAt(t, MatchedBundles(lib.semver, t, {g}, version));
    MatchedByName(lib.semver, t, g, version);
    ScopeBundles(t, c, {g});
    RowsStored(lib, t, c, ps, skip, MatchedBundles(lib.semver, t, {g}, version));
    forall n ensures n in IdsOfRows(rows) <==> n in IdsOfRows(Ranging(lib, ps, skip, ch, version)) {
      RangingIds(lib, ps, skip, ch, version, n);
    }
    SameIds(lib, ps, skip, rows, Ranging(lib, ps, skip, ch, version));
  }

  lemma OneGraph(t: Tables, c: string, q: string, g: nat, h: nat)
    requires UniquePaths(t) && IsGraph(t, c, q, g) && IsGraph(t, c, q, h)
    ensures g == h
  {
  }

  lemma ForeignPick(t: Tables, c: string, g: nat, pick: nat)
    requires LinksStay(t) && Owns(t, c, g) && pick in t.bundles && t.bundles[pick].catalog != c
    ensures ExplicitBundles(t, {g}, Some(pick)) == {}
  {
    assert forall e <- t.edges | e.graph in {g} :: OwnsBundle(t, c, e.from);
  }

  lemma ForeignSuccessors(lib: FbcLib, t: Tables, c: string, ps: seq<Package>, skip: set<string>, k: nat, ch: Channel,
                          g: nat, version: string, pick: nat)
    requires Imported(lib, t, c, ps, skip) && WritesChannel(lib, ps, skip, k, ch)
    requires IsGraph(t, c, ChannelPath(ps[k].name, ch.name), g)
    requires pick in t.bundles && t.bundles[pick].catalog != c
    ensures SuccessorRows(lib.semver, t, Scope(t, g), Some(pick), version) == Ranging(lib, ps, skip, ch, version)
  {
    var h := ChannelGraph(lib, t, c, ps, skip, k, ch);
    OneGraph(t, c, ChannelPath(ps[k].name, ch.name), g, h);
    ForeignPick(t, c, g, pick);
    MatchedAreRanging(lib, t, c, ps, skip, k, ch, g, version);
  }

  lemma OwnSuccessors(lib: FbcLib, t: Tables, c: string, ps: seq<Package>, skip: set<string>, k: nat, ch: Channel,
                      g: nat, from: string, version: string)
    requires Imported(lib, t, c, ps, skip) && WritesChannel(lib, ps, skip, k, ch)
    requires IsGraph(t, c, ChannelPath(ps[k].name, ch.name), g)
    ensures SuccessorRows(lib.semver, t, Scope(t, g), BundleId(t, c, from), version) ==
            Offering(lib, ps, skip, ch, from, version)
  {
    var h := ChannelSuccessors(lib, t, c, ps, skip, k, ch, from, version);
    OneGraph(t, c, ChannelPath(ps[k].name, ch.name), g, h);
  }

  lemma OwnPick(t: Tables, c: string, from: string, pick: Option<nat>)
    requires UniqueIds(t) && ScalarBundle(t, from, pick) && (pick.Some? ==> t.bundles[pick.value].catalog == c)
    ensures pick == BundleId(t, c, from)
  {
    if pick.Some? {
      assert IsBundle(t, c, from, pick.value);
    }
  }

  /** What the successor rows are, for every row the subquery can pick: the entries offered, or, if it
      picks the row of another catalog, only those offered by range. */
  lemma PickedSuccessors(lib: FbcLib, t: Tables, c: string, ps: seq<Package>, skip: set<string>, k: nat, ch: Channel,
                         g: nat, from: string, version: string, pick: Option<nat>)
    requires Imported(lib, t, c, ps, skip) && WritesChannel(lib, ps, skip, k, ch) && ScalarBundle(t, from, pick)
    requires IsGraph(t, c, ChannelPath(ps[k].name, ch.name), g)
    ensures var rows := SuccessorRows(lib.semver, t, Scope(t, g), pick, version);
            if pick.Some? && t.bundles[pick.value].catalog != c then rows == Ranging(lib, ps, skip, ch, version)
            else rows == Offering(lib, ps, skip, ch, from, version)
  {
    if pick.Some? && t.bundles[pick.value].catalog != c {
      ForeignSuccessors(lib, t, c, ps, skip, k, ch, g, version, pick.value);
    } else {
      OwnPick(t, c, from, pick);
      OwnSuccessors(lib, t, c, ps, skip, k, ch, g, from, version);
    }
  }

  /** out offers exactly the entries that replace the starting bundle, skip it or range over its version, as
      whole rows, each once; unless another catalog stores a bundle of the starting id, and then it is that
      or only the entries that range over the version. */
  ghost predicate OffersEntries(lib: FbcLib, t: Tables, c: string, ps: seq<Package>, skip: set<string>, ch: Channel,
                                from: string, version: string, out: seq<Yield>) {
    || YieldsExactly(out, Offering(lib, ps, skip, ch, from, version))
    || (!OnlyIn(t, c, from) && YieldsExactly(out, Ranging(lib, ps, skip, ch, version)))
  }

  lemma PickAnswers(lib: FbcLib, t: Tables, c: string, ps: seq<Package>, skip: set<string>, ch: Channel, from: string,
                    version: string, pick: Option<nat>, rows: set<Row>, out: seq<Yield>)
    requires ScalarBundle(t, from, pick) && YieldsExactly(out, rows)
    requires if pick.Some? && t.bundles[pick.value].catalog != c then rows == Ranging(lib, ps, skip, ch, version)
             else rows == Offering(lib, ps, skip, ch, from, version)
    ensures OffersEntries(lib, t, c, ps, skip, ch, from, version, out)
  {
  }

  lemma SuccessorsAnswer(lib: FbcLib, t: Tables, c: string, ps: seq<Package>, skip: set<string>, k: nat, ch: Channel,
                         g: nat,
                         from: string, version: string, out: seq<Yield>)
    requires Imported(lib, t, c, ps, skip) && WritesChannel(lib, ps, skip, k, ch)
    requires IsGraph(t, c, ChannelPath(ps[k].name, ch.name), g)
    requires YieldsSuccessors(lib.semver, t, Scope(t, g), from, version, out)
    ensures OffersEntries(lib, t, c, ps, skip, ch, from, version, out)
  {
    var pick := SomePick(lib.semver, t, Scope(t, g), from, version, out);
    PickedSuccessors(lib, t, c, ps, skip, k, ch, g, from, version, pick);
    PickAnswers(lib, t, c, ps, skip, ch, from, version, pick,
      SuccessorRows(lib.semver, t, Scope(t, g), pick, version), out);
  }

  lemma FoundAt(lib: FbcLib, t: Tables, c: string, ps: seq<Package>, skip: set<string>, k: nat, ch: Channel,
                h: Option<Handle>) returns (g: nat)
    requires Imported(lib, t, c, ps, skip) && WritesChannel(lib, ps, skip, k, ch)
    requires h == HandleAt(t, c, ps[k].name + "/" + ch.name)
    ensures IsGraph(t, c, ChannelPath(ps[k].name, ch.name), g) && h == Some(HandleOf(t, g))
  {
    g := ChannelGraph(lib, t, c, ps, skip, k, ch);
    assert ChannelPath(ps[k].name, ch.name) == ps[k].name + "/" + ch.name;
  }

  /** Main result: and Successors offers, likewise, exactly the entries that the channel offers. */
  method AskSuccessors(lib: FbcLib, ghost states: seq<System>, ghost events: seq<Event>, ghost i: nat, t: Tables,
                       c: string,
                       ghost ps: seq<Package>, ghost skip: set<string>, ghost k: nat, ghost ch: Channel, pkg: string,
                       name: string, from: string, version: string)
    returns (out: Option<seq<Yield>>)
    requires IsRun(lib.semver, states, events) && i < |states| && t == states[i].db.content
    requires c in states[i].imported && ImportsFbc(lib, states[i].imported[c].importer, ps, skip)
    requires WritesChannel(lib, ps, skip, k, ch) && pkg == ps[k].name && name == ch.name
    ensures out.Some? && OffersEntries(lib, t, c, ps, skip, ch, from, version, out.value)
  {
    StoredIsImported(lib, states, events, i, c, ps, skip);
    ImportIsReadable(lib, t, c, ps, skip);
    NamesOfWritten(lib, ps, skip, k, ch);
    var h := GetChannel(t, c, pkg, name);
    ghost var g := FoundAt(lib, t, c, ps, skip, k, ch, h);
    if h.None? {
      return None;
    }
    var answer := Successors(lib.semver, t, h.value, from, version);
    SuccessorsAnswer(lib, t, c, ps, skip, k, ch, g, from, version, answer);
    out := Some(answer);
  }

  /** The same from the blobs on: a channel blob without commas in its skips, of a package whose channels
      have names for graphs, is answered for as it was written, whichever place it had among the blobs and
      in whichever order the staged packages were scanned. */
  lemma DeclaredIsWritten(lib: FbcLib, metas: seq<Meta>, ps: seq<Package>, skip: set<string>, k: nat, m: Meta)
    requires InsertAll(NOTHING, metas).ok && m in metas && m.ChannelMeta? && forall e <- m.channel.entries ::
             SkipsSurvive(e.skips)
    requires DistinctPackages(ps) && forall p :: p in ps <==> p in I.PackagesOf(InsertAll(NOTHING, metas).state)
    requires k < |ps| && ps[k].name == m.pkg && m.pkg !in skip
    requires Validates(lib, ps[k]) && AcceptedSegment(m.pkg) && ChannelNamesAccepted(ps[k].channels)
    ensures AllStaged(ps) && WritesChannel(lib, ps, skip, k, m.channel)
  {
    var raw := InsertAll(NOTHING, metas).state;
    I.StagedBlobs(metas);
    assert ps[k] in I.PackagesOf(raw);
    assert ps[k] == ReadPackage(raw, m.pkg);
    StagingKeepsChannels(NOTHING, metas);
    DeclaredReadsBack(NOTHING, metas, m);
    GoodChannelsIs(ps[k].channels);
  }

  /** Main result: blobs in, answers out. */
  method DeclaredChannelAnswers(lib: FbcLib, ghost states: seq<System>, ghost events: seq<Event>, ghost i: nat,
                                t: Tables,
                                c: string, ghost metas: seq<Meta>, ghost ps: seq<Package>, ghost skip: set<string>,
                                ghost k: nat, ghost m: Meta, pkg: string, name: string, from: string, version: string)
    returns (listed: Option<seq<Yield>>, offered: Option<seq<Yield>>)
    requires IsRun(lib.semver, states, events) && i < |states| && t == states[i].db.content
    requires c in states[i].imported && ImportsFbc(lib, states[i].imported[c].importer, ps, skip)
    requires InsertAll(NOTHING, metas).ok && m in metas && m.ChannelMeta? && forall e <- m.channel.entries ::
             SkipsSurvive(e.skips)
    requires forall p :: p in ps <==> p in I.PackagesOf(InsertAll(NOTHING, metas).state)
    requires k < |ps| && ps[k].name == m.pkg && m.pkg !in skip
    requires Validates(lib, ps[k]) && AcceptedSegment(m.pkg) && ChannelNamesAccepted(ps[k].channels)
    requires pkg == m.pkg && name == m.channel.name
    ensures listed.Some? && YieldsExactly(listed.value, Listing(lib, ps, skip, m.channel)) && IdsAscend(listed.value)
    ensures offered.Some? && OffersEntries(lib, t, c, ps, skip, m.channel, from, version, offered.value)
  {
    DeclaredIsWritten(lib, metas, ps, skip, k, m);
    listed := AskListing(lib, states, events, i, t, c, ps, skip, k, m.channel, pkg, name);
    offered := AskSuccessors(lib, states, events, i, t, c, ps, skip, k, m.channel, pkg, name, from, version);
  }

  // ---------------------------------------------------------------- an entry hidden in the tables

  /** There are tables that hold the import of any packages. */
  lemma TablesExist(lib: FbcLib, c: string, ps: seq<Package>, skip: set<string>) returns (t: Tables)
    requires lib.semver.Ok() && AllStaged(ps)
    ensures Imported(lib, t, c, ps, skip)
  {
    var importer := FbcImporter(lib, ps, skip, [], Clean);
    EmptyValid();
    EmptyView(c);
    t := ApplyAll(lib.semver, EMPTY, c, importer.ops);
    ApplyAllRefines(lib.semver, EMPTY, c, importer.ops);
  }

  /** Valid tables that hold an import in which a channel with one entry lists nothing. */
  lemma HiddenInTables(lib: FbcLib, c: string) returns (t: Tables, g: nat)
    requires ReadsSample(lib)
    ensures Imported(lib, t, c, [Referring(), Referred()], {})
    ensures IsGraph(t, c, ChannelPath("q", "c"), g) && IdsOfRows(ListedRows(t, Scope(t, g))) == {}
    ensures EntryNames(Referred().channels[0].entries) == {"q1"}
  {
    SampleStaged();
    SampleChannels();
    ReferenceShadows(lib);
    t := TablesExist(lib, c, [Referring(), Referred()], {});
    g := ChannelListing(lib, t, c, [Referring(), Referred()], {}, 1, Referred().channels[0]);
  }
}
