/** File-based catalogs: what a package declares, the writer operations it is compiled into, and
    the handler that drives the writer through them. */
module Fbc {
  import opened Wrappers
  import opened Text
  import opened Seqs
  import opened Content
  import opened Semver
  import opened Writer
  import opened WriterRefinement
  import opened ContentWriters

  datatype ChannelEntry = ChannelEntry(name: string, replaced: string, skips: seq<string>, skipRange: string)
  datatype Channel = Channel(name: string, entries: seq<ChannelEntry>)
  datatype BundleDecl = BundleDecl(name: string, pkg: string, version: string, release: string, image: string)

  /** olm.package, olm.channel and olm.bundle; anything else is ignored. */
  datatype Target = PackageTarget | ChannelTarget | BundleTarget | OtherTarget
  datatype Deprecation = Deprecation(target: Target, name: string, message: string)

  /** One package as the staging accessors present it. */
  datatype Package = Package(name: string, bundles: seq<BundleDecl>, channels: seq<Channel>,
                             deprecations: seq<Deprecation>)

  /** The libraries the handler calls. imageRef is the canonical form of a tagged or digested image
      reference, and None for any other text. */
  datatype FbcLib = FbcLib(semver: SemverLib, imageRef: string -> Option<string>)

  // ---------------------------------------------------------------- validation

  predicate BundleOk(lib: FbcLib, b: BundleDecl) {
    && lib.semver.parsesVersion(b.version)
    && (b.release == "" || lib.semver.parsesRelease(b.release))
    && b.image != "" && lib.imageRef(b.image).Some?
  }

  predicate EntryKnown(p: Package, e: ChannelEntry) {
    exists b <- p.bundles :: b.name == e.name
  }

  predicate EntryOk(lib: FbcLib, p: Package, e: ChannelEntry) {
    EntryKnown(p, e) && (e.skipRange == "" || lib.semver.parsesRange(e.skipRange))
  }

  /** The validation phase accepts the package. */
  predicate Validates(lib: FbcLib, p: Package) {
    && (forall b <- p.bundles :: BundleOk(lib, b))
    && (forall ch <- p.channels :: forall e <- ch.entries :: EntryOk(lib, p, e))
  }

  // ---------------------------------------------------------------- running a list of operations

  /** Operations in order, up to and including the first that fails. */
  ghost function RunOps(lib: SemverLib, t: Tables, c: string, ops: seq<Op>): Outcome<Tables>
    decreases |ops|
  {
    if ops == [] then Outcome(true, t)
    else
      var r := Step(lib, t, c, ops[0]);
      if r.ok then RunOps(lib, r.state, c, ops[1..]) else r
  }

  function ViewRun(lib: SemverLib, v: View, ops: seq<Op>): Outcome<View>
    decreases |ops|
  {
    if ops == [] then Outcome(true, v)
    else
      var r := ViewStep(lib, v, ops[0]);
      if r.ok then ViewRun(lib, r.state, ops[1..]) else r
  }

  /** Whole runs: the tables and the catalog by name stay in step, and other catalogs stay put. */
  lemma {:induction false} RunRefines(lib: SemverLib, t: Tables, c: string, ops: seq<Op>)
    requires Content.Valid(t)
    ensures var r := RunOps(lib, t, c, ops);
            Content.Valid(r.state) && ViewRun(lib, ViewOf(t, c), ops) == Outcome(r.ok, ViewOf(r.state, c))
    decreases |ops|
  {
    if ops != [] {
      StepRefines(lib, t, c, ops[0]);
      var r := Step(lib, t, c, ops[0]);
      if r.ok {
        RunRefines(lib, r.state, c, ops[1..]);
      }
    }
  }

  lemma {:induction false} RunIsolates(lib: SemverLib, t: Tables, c: string, ops: seq<Op>, d: string)
    requires Content.Valid(t) && c != d
    ensures SameRows(t, RunOps(lib, t, c, ops).state, d)
    decreases |ops|
  {
    if ops == [] {
      SameRowsReflexive(t, d);
    } else {
      StepRefines(lib, t, c, ops[0]);
      StepIsolates(lib, t, c, ops[0], d);
      var r := Step(lib, t, c, ops[0]);
      if r.ok {
        RunIsolates(lib, r.state, c, ops[1..], d);
        SameRowsTransitive(t, r.state, RunOps(lib, r.state, c, ops[1..]).state, d);
      }
    }
  }

  lemma {:induction false} RunAppend(lib: SemverLib, t: Tables, c: string, a: seq<Op>, b: seq<Op>)
    ensures var r := RunOps(lib, t, c, a);
            RunOps(lib, t, c, a + b) == if r.ok then RunOps(lib, r.state, c, b) else r
    decreases |a|
  {
    if a == [] {
      assert a + b == b;
    } else {
      assert (a + b)[0] == a[0] && (a + b)[1..] == a[1..] + b;
      RunAppend(lib, Step(lib, t, c, a[0]).state, c, a[1..], b);
    }
  }

  lemma {:induction false} ViewRunAppend(lib: SemverLib, v: View, a: seq<Op>, b: seq<Op>)
    ensures var r := ViewRun(lib, v, a);
            ViewRun(lib, v, a + b) == if r.ok then ViewRun(lib, r.state, b) else r
    decreases |a|
  {
    if a == [] {
      assert a + b == b;
    } else {
      assert (a + b)[0] == a[0] && (a + b)[1..] == a[1..] + b;
      ViewRunAppend(lib, ViewStep(lib, v, a[0]).state, a[1..], b);
    }
  }

  // ---------------------------------------------------------------- the compiled operations

  function ImageUri(lib: FbcLib, image: string): string {
    "docker://" + match lib.imageRef(image) case Some(ref) => ref case None => ""
  }

  function InsertOf(lib: FbcLib, b: BundleDecl): Op {
    InsertBundle(b.name, b.pkg, b.version, b.release, ImageUri(lib, b.image))
  }

  function InsertOps(lib: FbcLib, bundles: seq<BundleDecl>): seq<Op> {
    if bundles == [] then [] else [InsertOf(lib, bundles[0])] + InsertOps(lib, bundles[1..])
  }

  function MemberOps(path: seq<string>, entries: seq<ChannelEntry>): seq<Op> {
    if entries == [] then [] else [AddBundleToGraph(path, entries[0].name)] + MemberOps(path, entries[1..])
  }

  /** A phantom row for the predecessor, if no row has that id yet, and the edge from it. */
  function EdgeOps(path: seq<string>, from: string, to: string): seq<Op> {
    [InsertBundle(from, "", "", "", ""), AddEdge(path, from, to)]
  }

  function SkipOps(path: seq<string>, skips: seq<string>, to: string): seq<Op> {
    if skips == [] then [] else EdgeOps(path, skips[0], to) + SkipOps(path, skips[1..], to)
  }

  function EntryOps(path: seq<string>, e: ChannelEntry): seq<Op> {
    (if e.replaced != "" then EdgeOps(path, e.replaced, e.name) else []) +
    SkipOps(path, e.skips, e.name) +
    (if e.skipRange != "" then [AddPredecessorRange(path, e.name, e.skipRange)] else [])
  }

  function SuccessorOps(path: seq<string>, entries: seq<ChannelEntry>): seq<Op> {
    if entries == [] then [] else EntryOps(path, entries[0]) + SuccessorOps(path, entries[1..])
  }

  function ChannelOps(pkg: string, ch: Channel): seq<Op> {
    var path := [pkg, ch.name];
    [CreateGraph(path)] + MemberOps(path, ch.entries) + SuccessorOps(path, ch.entries)
  }

  function ChannelsOps(pkg: string, channels: seq<Channel>): seq<Op> {
    if channels == [] then [] else ChannelOps(pkg, channels[0]) + ChannelsOps(pkg, channels[1..])
  }

  function DeprecationOp(pkg: string, d: Deprecation): seq<Op> {
    match d.target
    case PackageTarget => [SetGraphDeprecation([pkg], d.message)]
    case ChannelTarget => [SetGraphDeprecation([pkg, d.name], d.message)]
    case BundleTarget => [SetBundleDeprecation(d.name, d.message)]
    case OtherTarget => []
  }

  function DeprecationOps(pkg: string, ds: seq<Deprecation>): seq<Op> {
    if ds == [] then [] else DeprecationOp(pkg, ds[0]) + DeprecationOps(pkg, ds[1..])
  }

  function Compile(lib: FbcLib, p: Package): seq<Op> {
    [CreateGraph([p.name])] + InsertOps(lib, p.bundles) + ChannelsOps(p.name, p.channels) +
      DeprecationOps(p.name, p.deprecations)
  }

  // ---------------------------------------------------------------- the handler

  method ValidateBundles(lib: FbcLib, p: Package) returns (ok: bool)
    ensures ok <==> forall b <- p.bundles :: BundleOk(lib, b)
  {
    for i := 0 to |p.bundles|
      invariant forall b <- p.bundles[..i] :: BundleOk(lib, b)
    {
      var b := p.bundles[i];
      assert b in p.bundles;
      if !lib.semver.parsesVersion(b.version) {
        return false;
      }
      if b.release != "" && !lib.semver.parsesRelease(b.release) {
        return false;
      }
      if b.image == "" || lib.imageRef(b.image).None? {
        return false;
      }
      assert p.bundles[..i + 1] == p.bundles[..i] + [b];
    }
    assert p.bundles[..|p.bundles|] == p.bundles;
    ok := true;
  }

  /** validateEntries: the entries whose bundle the package does not have, channel by channel. */
  method ValidateEntries(p: Package) returns (missing: seq<(string, string)>)
    ensures missing == [] <==> forall ch <- p.channels :: forall e <- ch.entries :: EntryKnown(p, e)
    ensures forall m ::
            m in missing <==>
              exists ch, e :: ch in p.channels && e in ch.entries && !EntryKnown(p, e) && m == (ch.name, e.name)
  {
    var names: set<string> := {};
    for i := 0 to |p.bundles|
      invariant names == set b <- p.bundles[..i] :: b.name
    {
      assert p.bundles[..i + 1] == p.bundles[..i] + [p.bundles[i]];
      names := names + {p.bundles[i].name};
    }
    assert p.bundles[..|p.bundles|] == p.bundles;
    missing := [];
    for i := 0 to |p.channels|
      invariant forall m ::
                m in missing <==>
                  exists ch, e ::
                    ch in p.channels[..i] && e in ch.entries && !EntryKnown(p, e) && m == (ch.name, e.name)
    {
      var ch := p.channels[i];
      ghost var before := missing;
      for j := 0 to |ch.entries|
        invariant forall m ::
                  m in missing <==>
                    m in before || exists e :: e in ch.entries[..j] && !EntryKnown(p, e) && m == (ch.name, e.name)
      {
        var e := ch.entries[j];
        assert ch.entries[..j + 1] == ch.entries[..j] + [e];
        assert e.name in names <==> EntryKnown(p, e);
        if e.name !in names {
          missing := missing + [(ch.name, e.name)];
        }
      }
      assert ch.entries[..|ch.entries|] == ch.entries;
      assert p.channels[..i + 1] == p.channels[..i] + [ch];
    }
    assert p.channels[..|p.channels|] == p.channels;
    if missing == [] {
      forall ch <- p.channels, e <- ch.entries
        ensures EntryKnown(p, e)
      {
        assert (ch.name, e.name) !in missing;
      }
    } else {
      assert missing[0] in missing;
    }
  }

  lemma RunCons(lib: SemverLib, t: Tables, c: string, op: Op, rest: seq<Op>)
    ensures var r := Step(lib, t, c, op);
            RunOps(lib, t, c, [op] + rest) == if r.ok then RunOps(lib, r.state, c, rest) else r
  {
    assert ([op] + rest)[1..] == rest;
  }

  method WriteBundles(lib: FbcLib, w: ContentWriter, bundles: seq<BundleDecl>) returns (ok: bool)
    requires w.Valid()
    modifies w`tables
    ensures w.Valid() && Outcome(ok, w.tables) == RunOps(w.lib, old(w.tables), w.catalogName, InsertOps(lib, bundles))
  {
    ghost var all := RunOps(w.lib, w.tables, w.catalogName, InsertOps(lib, bundles));
    for i := 0 to |bundles|
      invariant w.Valid() && all == RunOps(w.lib, w.tables, w.catalogName, InsertOps(lib, bundles[i..]))
    {
      var b := bundles[i];
      assert bundles[i..][1..] == bundles[i + 1..];
      RunCons(w.lib, w.tables, w.catalogName, InsertOf(lib, b), InsertOps(lib, bundles[i + 1..]));
      ok := w.InsertBundle(b.name, b.pkg, b.version, b.release, ImageUri(lib, b.image));
      if !ok {
        return;
      }
    }
    ok := true;
  }

  method WriteMembers(w: ContentWriter, path: seq<string>, entries: seq<ChannelEntry>) returns (ok: bool)
    requires w.Valid()
    modifies w`tables
    ensures w.Valid() && Outcome(ok, w.tables) == RunOps(w.lib, old(w.tables), w.catalogName, MemberOps(path, entries))
  {
    ghost var all := RunOps(w.lib, w.tables, w.catalogName, MemberOps(path, entries));
    for i := 0 to |entries|
      invariant w.Valid() && all == RunOps(w.lib, w.tables, w.catalogName, MemberOps(path, entries[i..]))
    {
      assert entries[i..][1..] == entries[i + 1..];
      RunCons(w.lib, w.tables, w.catalogName, AddBundleToGraph(path, entries[i].name),
        MemberOps(path, entries[i + 1..]));
      ok := w.AddBundleToGraph(path, entries[i].name);
      if !ok {
        return;
      }
    }
    ok := true;
  }

  method WriteEdge(w: ContentWriter, path: seq<string>, from: string, to: string) returns (ok: bool)
    requires w.Valid()
    modifies w`tables
    ensures w.Valid() && Outcome(ok, w.tables) == RunOps(w.lib, old(w.tables), w.catalogName, EdgeOps(path, from, to))
  {
    RunCons(w.lib, w.tables, w.catalogName, InsertBundle(from, "", "", "", ""), [AddEdge(path, from, to)]);
    ok := w.InsertBundle(from, "", "", "", "");
    if ok {
      RunCons(w.lib, w.tables, w.catalogName, AddEdge(path, from, to), []);
      assert [AddEdge(path, from, to)] + [] == [AddEdge(path, from, to)];
      ok := w.AddEdge(path, from, to);
    }
  }

  method WriteSkips(w: ContentWriter, path: seq<string>, skips: seq<string>, to: string) returns (ok: bool)
    requires w.Valid()
    modifies w`tables
    ensures w.Valid() && Outcome(ok, w.tables) == RunOps(w.lib, old(w.tables), w.catalogName, SkipOps(path, skips, to))
  {
    ghost var all := RunOps(w.lib, w.tables, w.catalogName, SkipOps(path, skips, to));
    for i := 0 to |skips|
      invariant w.Valid() && all == RunOps(w.lib, w.tables, w.catalogName, SkipOps(path, skips[i..], to))
    {
      assert skips[i..][1..] == skips[i + 1..];
      RunAppend(w.lib, w.tables, w.catalogName, EdgeOps(path, skips[i], to), SkipOps(path, skips[i + 1..], to));
      ok := WriteEdge(w, path, skips[i], to);
      if !ok {
        return;
      }
    }
    ok := true;
  }

  /** The part of writeChannelSuccessors that one entry runs. */
  method WriteEntry(w: ContentWriter, path: seq<string>, e: ChannelEntry) returns (ok: bool)
    requires w.Valid()
    modifies w`tables
    ensures w.Valid() && Outcome(ok, w.tables) == RunOps(w.lib, old(w.tables), w.catalogName, EntryOps(path, e))
  {
    ghost var first := if e.replaced != "" then EdgeOps(path, e.replaced, e.name) else [];
    ghost var skips := SkipOps(path, e.skips, e.name);
    ghost var range := if e.skipRange != "" then [AddPredecessorRange(path, e.name, e.skipRange)] else [];
    assert EntryOps(path, e) == first + (skips + range);
    RunAppend(w.lib, w.tables, w.catalogName, first, skips + range);
    ok := true;
    if e.replaced != "" {
      ok := WriteEdge(w, path, e.replaced, e.name);
      if !ok {
        return;
      }
    }
    RunAppend(w.lib, w.tables, w.catalogName, skips, range);
    ok := WriteSkips(w, path, e.skips, e.name);
    if ok && e.skipRange != "" {
      RunCons(w.lib, w.tables, w.catalogName, AddPredecessorRange(path, e.name, e.skipRange), []);
      assert range + [] == range;
      ok := w.AddPredecessorRange(path, e.name, e.skipRange);
    }
  }

  method WriteChannelSuccessors(w: ContentWriter, path: seq<string>, entries: seq<ChannelEntry>) returns (ok: bool)
    requires w.Valid()
    modifies w`tables
    ensures w.Valid() &&
            Outcome(ok, w.tables) == RunOps(w.lib, old(w.tables), w.catalogName, SuccessorOps(path, entries))
  {
    ghost var all := RunOps(w.lib, w.tables, w.catalogName, SuccessorOps(path, entries));
    for i := 0 to |entries|
      invariant w.Valid() && all == RunOps(w.lib, w.tables, w.catalogName, SuccessorOps(path, entries[i..]))
    {
      assert entries[i..][1..] == entries[i + 1..];
      RunAppend(w.lib, w.tables, w.catalogName, EntryOps(path, entries[i]), SuccessorOps(path, entries[i + 1..]));
      ok := WriteEntry(w, path, entries[i]);
      if !ok {
        return;
      }
    }
    ok := true;
  }

  /** One channel: its graph, its members, its successors. */
  method WriteChannel(w: ContentWriter, pkg: string, ch: Channel) returns (ok: bool)
    requires w.Valid()
    modifies w`tables
    ensures w.Valid() && Outcome(ok, w.tables) == RunOps(w.lib, old(w.tables), w.catalogName, ChannelOps(pkg, ch))
  {
    var path := [pkg, ch.name];
    ghost var members, edges := MemberOps(path, ch.entries), SuccessorOps(path, ch.entries);
    assert ChannelOps(pkg, ch) == [CreateGraph(path)] + (members + edges);
    RunCons(w.lib, w.tables, w.catalogName, CreateGraph(path), members + edges);
    ok := w.CreateGraph(path);
    if !ok {
      return;
    }
    RunAppend(w.lib, w.tables, w.catalogName, members, edges);
    ok := WriteMembers(w, path, ch.entries);
    if ok {
      ok := WriteChannelSuccessors(w, path, ch.entries);
    }
  }

  method WriteChannels(w: ContentWriter, pkg: string, channels: seq<Channel>) returns (ok: bool)
    requires w.Valid()
    modifies w`tables
    ensures w.Valid() &&
            Outcome(ok, w.tables) == RunOps(w.lib, old(w.tables), w.catalogName, ChannelsOps(pkg, channels))
  {
    ghost var all := RunOps(w.lib, w.tables, w.catalogName, ChannelsOps(pkg, channels));
    for i := 0 to |channels|
      invariant w.Valid() && all == RunOps(w.lib, w.tables, w.catalogName, ChannelsOps(pkg, channels[i..]))
    {
      assert channels[i..][1..] == channels[i + 1..];
      RunAppend(w.lib, w.tables, w.catalogName, ChannelOps(pkg, channels[i]), ChannelsOps(pkg, channels[i + 1..]));
      ok := WriteChannel(w, pkg, channels[i]);
      if !ok {
        return;
      }
    }
    ok := true;
  }

  method WriteDeprecations(w: ContentWriter, pkg: string, ds: seq<Deprecation>) returns (ok: bool)
    requires w.Valid()
    modifies w`tables
    ensures w.Valid() && Outcome(ok, w.tables) == RunOps(w.lib, old(w.tables), w.catalogName, DeprecationOps(pkg, ds))
  {
    ghost var all := RunOps(w.lib, w.tables, w.catalogName, DeprecationOps(pkg, ds));
    for i := 0 to |ds|
      invariant w.Valid() && all == RunOps(w.lib, w.tables, w.catalogName, DeprecationOps(pkg, ds[i..]))
    {
      var d := ds[i];
      assert ds[i..][1..] == ds[i + 1..];
      ghost var rest := DeprecationOps(pkg, ds[i + 1..]);
      ok := true;
      match d.target {
        case PackageTarget =>
          RunCons(w.lib, w.tables, w.catalogName, SetGraphDeprecation([pkg], d.message), rest);
          ok := w.SetGraphDeprecation([pkg], d.message);
        case ChannelTarget =>
          RunCons(w.lib, w.tables, w.catalogName, SetGraphDeprecation([pkg, d.name], d.message), rest);
          ok := w.SetGraphDeprecation([pkg, d.name], d.message);
        case BundleTarget =>
          RunCons(w.lib, w.tables, w.catalogName, SetBundleDeprecation(d.name, d.message), rest);
          ok := w.SetBundleDeprecation(d.name, d.message);
        case OtherTarget =>
          assert [] + rest == rest;
      }
      if !ok {
        return;
      }
    }
    ok := true;
  }

  method CheckRanges(lib: FbcLib, p: Package) returns (ok: bool)
    ensures ok <==> forall ch <- p.channels, e <- ch.entries :: e.skipRange == "" || lib.semver.parsesRange(e.skipRange)
  {
    for i := 0 to |p.channels|
      invariant forall ch <- p.channels[..i], e <- ch.entries ::
                e.skipRange == "" || lib.semver.parsesRange(e.skipRange)
    {
      var ch := p.channels[i];
      assert ch in p.channels;
      for j := 0 to |ch.entries|
        invariant forall e <- ch.entries[..j] :: e.skipRange == "" || lib.semver.parsesRange(e.skipRange)
      {
        var e := ch.entries[j];
        assert e in ch.entries;
        if e.skipRange != "" && !lib.semver.parsesRange(e.skipRange) {
          return false;
        }
        assert ch.entries[..j + 1] == ch.entries[..j] + [e];
      }
      assert ch.entries[..|ch.entries|] == ch.entries;
      assert p.channels[..i + 1] == p.channels[..i] + [ch];
    }
    assert p.channels[..|p.channels|] == p.channels;
    ok := true;
  }

  method Validate(lib: FbcLib, p: Package) returns (ok: bool)
    ensures ok <==> Validates(lib, p)
  {
    ok := ValidateBundles(lib, p);
    if !ok {
      return;
    }
    var missing := ValidateEntries(p);
    if missing != [] {
      return false;
    }
    ok := CheckRanges(lib, p);
  }

  method WritePackage(lib: FbcLib, w: ContentWriter, p: Package) returns (ok: bool)
    requires w.Valid()
    modifies w`tables
    ensures w.Valid() && Outcome(ok, w.tables) == RunOps(w.lib, old(w.tables), w.catalogName, Compile(lib, p))
  {
    ghost var inserts, channels := InsertOps(lib, p.bundles), ChannelsOps(p.name, p.channels);
    ghost var deprecations := DeprecationOps(p.name, p.deprecations);
    assert Compile(lib, p) == [CreateGraph([p.name])] + (inserts + (channels + deprecations));
    RunCons(w.lib, w.tables, w.catalogName, CreateGraph([p.name]), inserts + (channels + deprecations));
    ok := w.CreateGraph([p.name]);
    if !ok {
      return;
    }
    RunAppend(w.lib, w.tables, w.catalogName, inserts, channels + deprecations);
    ok := WriteBundles(lib, w, p.bundles);
    if !ok {
      return;
    }
    RunAppend(w.lib, w.tables, w.catalogName, channels, deprecations);
    ok := WriteChannels(w, p.name, p.channels);
    if !ok {
      return;
    }
    ok := WriteDeprecations(w, p.name, p.deprecations);
  }

  /** OLMPackageHandler.Normalize. A package that fails validation is not written at all; any other
      is written operation by operation until one fails. */
  method Normalize(lib: FbcLib, w: ContentWriter, p: Package) returns (ok: bool)
    requires w.Valid() && w.lib == lib.semver
    modifies w`tables
    ensures w.Valid()
    ensures !Validates(lib, p) ==> !ok && w.tables == old(w.tables)
    ensures Validates(lib, p) ==>
            Outcome(ok, w.tables) == RunOps(lib.semver, old(w.tables), w.catalogName, Compile(lib, p))
  {
    ok := Validate(lib, p);
    if ok {
      ok := WritePackage(lib, w, p);
    }
  }
}
