/** A whole file-based import: packages one after another into an emptied catalog, some skipped,
    some failing, and what the catalog answers afterwards. */
module FbcImport {
  import opened Wrappers
  import opened Text
  import opened Seqs
  import opened Content
  import opened Semver
  import opened Writer
  import opened Graphs
  import opened Query
  import opened Handles
  import opened Fbc
  import opened FbcMeaning

  // ---------------------------------------------------------------- what any package's writes keep

  /** The ids a package may enter: its bundles and the ids its entries refer to. */
  function Mentioned(p: Package): set<string> {
    (set b <- p.bundles :: b.name) + (set r <- ChannelsRefs(p.channels))
  }

  /** The operations a package is compiled into: links go to channel graphs of that package, and
      new bundle rows have ids it mentions and texts that parse. */
  predicate PackageOp(lib: SemverLib, pkg: string, ids: set<string>, op: Op) {
    match op
    case InsertBundle(id, p, version, release, uri) => id in ids &&
      Clean(lib, Row(id, BundleInfo(p, version, release, uri, None)))
    case CreateGraph(path) => path == [pkg] || (|path| == 2 && path[0] == pkg)
    case AddBundleToGraph(path, _) => |path| == 2 && path[0] == pkg
    case AddEdge(path, _, _) => |path| == 2 && path[0] == pkg
    case AddPredecessorRange(path, _, _) => |path| == 2 && path[0] == pkg
    case SetGraphDeprecation(path, _) => path == [pkg] || (|path| == 2 && path[0] == pkg)
    case SetBundleDeprecation(_, _) => true
    case SetBundleProperty(_, _, _) => false
    case SetGraphProperty(_, _, _) => false
  }

  predicate Bare(n: Node) {
    n.members == {} && n.edges == {} && n.ranges == {}
  }

  /** Graphs are packages, which hold nothing, and their channels. */
  ghost predicate Flat(v: View) {
    forall q <- v.nodes ::
      (AcceptedSegment(q) && Bare(v.nodes[q])) ||
      exists a, b :: AcceptedSegment(a) && AcceptedSegment(b) && q == ChannelPath(a, b)
  }

  ghost predicate TextsOk(lib: SemverLib, v: View) {
    && (forall n <- v.bundles :: Clean(lib, Row(n, v.bundles[n])))
    && (forall q <- v.nodes, r <- v.nodes[q].ranges :: lib.parsesRange(r.1))
  }

  /** Writing package pkg leaves the other packages' graphs alone and never takes a bundle row
      away or replaces it. */
  ghost predicate Frame(pkg: string, ids: set<string>, v: View, v': View) {
    && (forall q <- v.nodes | !Under(pkg, q) :: q in v'.nodes && v'.nodes[q] == v.nodes[q])
    && (forall q <- v'.nodes :: q in v.nodes || Under(pkg, q))
    && (forall n <- v.bundles ::
          n in v'.bundles && v'.bundles[n] == v.bundles[n].(deprecation := v'.bundles[n].deprecation))
    && (forall n <- v'.bundles :: n in v.bundles || n in ids)
  }

  lemma OpPath(pkg: string, path: seq<string>)
    requires path == [pkg] || (|path| == 2 && path[0] == pkg)
    ensures AcceptedPath(path) ==> Under(pkg, Join(path, '/'))
    ensures |path| == 1 ==> Join(path, '/') == pkg
    ensures |path| == 2 ==> Join(path, '/') == ChannelPath(pkg, path[1])
    ensures AcceptedPath(path) && |path| == 2 ==> AcceptedSegment(path[1])
  {
    if |path| == 2 {
      assert path == [pkg, path[1]];
      ChannelPathText(pkg, path[1]);
    } else {
      ChannelPathText(pkg, "");
    }
  }

  /** An operation on a graph changes that graph's node only. */
  lemma StepNode(lib: SemverLib, v: View, op: Op)
    requires !op.InsertBundle? && !op.SetBundleDeprecation? && !op.SetBundleProperty?
    ensures var v', q := ViewStep(lib, v, op).state, Join(op.path, '/');
            v' == v ||
              (AcceptedPath(op.path) && v' == v.(nodes := v'.nodes) && q in v'.nodes &&
                v'.nodes == v.nodes[q := v'.nodes[q]])
  {
  }

  lemma StepFrame(lib: SemverLib, pkg: string, ids: set<string>, v: View, op: Op)
    requires PackageOp(lib, pkg, ids, op)
    ensures Frame(pkg, ids, v, ViewStep(lib, v, op).state)
  {
    if !op.InsertBundle? && !op.SetBundleDeprecation? {
      OpPath(pkg, op.path);
      StepNode(lib, v, op);
    }
  }

  lemma StepFlat(lib: SemverLib, pkg: string, ids: set<string>, v: View, op: Op)
    requires PackageOp(lib, pkg, ids, op) && Flat(v)
    ensures Flat(ViewStep(lib, v, op).state)
  {
    if !op.InsertBundle? && !op.SetBundleDeprecation? {
      OpPath(pkg, op.path);
    }
  }

  lemma StepBundleTexts(lib: SemverLib, pkg: string, ids: set<string>, v: View, op: Op)
    requires PackageOp(lib, pkg, ids, op) && forall n <- v.bundles :: Clean(lib, Row(n, v.bundles[n]))
    ensures var v' := ViewStep(lib, v, op).state; forall n <- v'.bundles :: Clean(lib, Row(n, v'.bundles[n]))
  {
  }

  lemma StepRangeTexts(lib: SemverLib, pkg: string, ids: set<string>, v: View, op: Op)
    requires PackageOp(lib, pkg, ids, op) && forall q <- v.nodes, r <- v.nodes[q].ranges :: lib.parsesRange(r.1)
    ensures var v' := ViewStep(lib, v, op).state; forall q <- v'.nodes, r <- v'.nodes[q].ranges :: lib.parsesRange(r.1)
  {
  }

  lemma StepTexts(lib: SemverLib, pkg: string, ids: set<string>, v: View, op: Op)
    requires PackageOp(lib, pkg, ids, op) && TextsOk(lib, v)
    ensures TextsOk(lib, ViewStep(lib, v, op).state)
  {
    StepBundleTexts(lib, pkg, ids, v, op);
    StepRangeTexts(lib, pkg, ids, v, op);
  }

  lemma {:induction false} RunKeeps(lib: SemverLib, pkg: string, ids: set<string>, v: View, ops: seq<Op>)
    requires Flat(v) && TextsOk(lib, v) && forall op <- ops :: PackageOp(lib, pkg, ids, op)
    ensures var v' := ViewRun(lib, v, ops).state; Frame(pkg, ids, v, v') && Flat(v') && TextsOk(lib, v')
    decreases |ops|
  {
    if ops != [] {
      var r := ViewStep(lib, v, ops[0]);
      assert ops[0] in ops;
      StepFrame(lib, pkg, ids, v, ops[0]);
      StepFlat(lib, pkg, ids, v, ops[0]);
      StepTexts(lib, pkg, ids, v, ops[0]);
      if r.ok {
        RunKeeps(lib, pkg, ids, r.state, ops[1..]);
        FrameTransitive(pkg, ids, v, r.state, ViewRun(lib, r.state, ops[1..]).state);
      }
    }
  }

  lemma FrameTransitive(pkg: string, ids: set<string>, u: View, v: View, w: View)
    requires Frame(pkg, ids, u, v) && Frame(pkg, ids, v, w)
    ensures Frame(pkg, ids, u, w)
  {
  }

  lemma {:induction false} InsertsArePackageOps(lib: FbcLib, pkg: string, ids: set<string>, decls: seq<BundleDecl>)
    requires (forall b <- decls :: b.name in ids) && lib.semver.Ok() && forall b <- decls :: BundleOk(lib, b)
    ensures forall op <- InsertOps(lib, decls) :: PackageOp(lib.semver, pkg, ids, op)
  {
    if decls != [] {
      assert BundleOk(lib, decls[0]);
      InsertsArePackageOps(lib, pkg, ids, decls[1..]);
    }
  }

  lemma {:induction false} MembersArePackageOps(lib: SemverLib, pkg: string, ids: set<string>, ch: string,
                                                entries: seq<ChannelEntry>)
    ensures forall op <- MemberOps([pkg, ch], entries) :: PackageOp(lib, pkg, ids, op)
  {
    if entries != [] {
      MembersArePackageOps(lib, pkg, ids, ch, entries[1..]);
    }
  }

  lemma {:induction false} SkipsArePackageOps(lib: SemverLib, pkg: string, ids: set<string>, ch: string,
                                              skips: seq<string>, to: string)
    requires lib.Ok() && forall s <- skips :: s in ids
    ensures forall op <- SkipOps([pkg, ch], skips, to) :: PackageOp(lib, pkg, ids, op)
  {
    if skips != [] {
      SkipsArePackageOps(lib, pkg, ids, ch, skips[1..], to);
    }
  }

  lemma {:induction false} EntriesArePackageOps(lib: SemverLib, pkg: string, ids: set<string>, ch: string,
                                                entries: seq<ChannelEntry>)
    requires lib.Ok() && forall r <- AllRefs(entries) :: r in ids
    ensures forall op <- SuccessorOps([pkg, ch], entries) :: PackageOp(lib, pkg, ids, op)
  {
    if entries != [] {
      SkipsArePackageOps(lib, pkg, ids, ch, entries[0].skips, entries[0].name);
      EntriesArePackageOps(lib, pkg, ids, ch, entries[1..]);
    }
  }

  lemma {:induction false} ChannelsArePackageOps(lib: SemverLib, pkg: string, ids: set<string>, channels: seq<Channel>)
    requires lib.Ok() && forall r <- ChannelsRefs(channels) :: r in ids
    ensures forall op <- ChannelsOps(pkg, channels) :: PackageOp(lib, pkg, ids, op)
  {
    if channels != [] {
      MembersArePackageOps(lib, pkg, ids, channels[0].name, channels[0].entries);
      EntriesArePackageOps(lib, pkg, ids, channels[0].name, channels[0].entries);
      ChannelsArePackageOps(lib, pkg, ids, channels[1..]);
    }
  }

  lemma {:induction false} DeprecationsArePackageOps(lib: SemverLib, pkg: string, ids: set<string>,
                                                     ds: seq<Deprecation>)
    ensures forall op <- DeprecationOps(pkg, ds) :: PackageOp(lib, pkg, ids, op)
  {
    if ds != [] {
      DeprecationsArePackageOps(lib, pkg, ids, ds[1..]);
    }
  }

  lemma CompilesToPackageOps(lib: FbcLib, p: Package)
    requires lib.semver.Ok() && Validates(lib, p)
    ensures forall op <- Compile(lib, p) :: PackageOp(lib.semver, p.name, Mentioned(p), op)
  {
    InsertsArePackageOps(lib, p.name, Mentioned(p), p.bundles);
    ChannelsArePackageOps(lib.semver, p.name, Mentioned(p), p.channels);
    DeprecationsArePackageOps(lib.semver, p.name, Mentioned(p), p.deprecations);
  }

  // ---------------------------------------------------------------- the import

  /** Normalize for one package, by name. */
  function ImportPackage(lib: FbcLib, v: View, p: Package): Outcome<View> {
    if Validates(lib, p) then ViewRun(lib.semver, v, Compile(lib, p)) else Outcome(false, v)
  }

  /** The Normalize loop: packages in order, skipped ones left out, failures carried past. */
  function ImportAll(lib: FbcLib, v: View, ps: seq<Package>, skip: set<string>): View
    decreases |ps|
  {
    if ps == [] then v
    else if ps[0].name in skip then ImportAll(lib, v, ps[1..], skip)
    else ImportAll(lib, ImportPackage(lib, v, ps[0]).state, ps[1..], skip)
  }

  lemma {:induction false} ImportAppend(lib: FbcLib, v: View, a: seq<Package>, b: seq<Package>, skip: set<string>)
    ensures ImportAll(lib, v, a + b, skip) == ImportAll(lib, ImportAll(lib, v, a, skip), b, skip)
    decreases |a|
  {
    if a == [] {
      assert a + b == b;
    } else {
      assert (a + b)[0] == a[0] && (a + b)[1..] == a[1..] + b;
      ImportAppend(lib, if a[0].name in skip then v else ImportPackage(lib, v, a[0]).state, a[1..], b, skip);
    }
  }

  lemma PackageKeeps(lib: FbcLib, v: View, p: Package)
    requires lib.semver.Ok() && Flat(v) && TextsOk(lib.semver, v)
    ensures var v' := ImportPackage(lib, v, p).state;
            Frame(p.name, Mentioned(p), v, v') && Flat(v') && TextsOk(lib.semver, v')
  {
    if Validates(lib, p) {
      CompilesToPackageOps(lib, p);
      RunKeeps(lib.semver, p.name, Mentioned(p), v, Compile(lib, p));
    }
  }

  /** Every import, whatever fails in it: packages hold nothing themselves, every stored text is
      empty or parses, graphs lie in the packages imported, and rows once written stay. */
  lemma {:induction false} ImportKeeps(lib: FbcLib, v: View, ps: seq<Package>, skip: set<string>)
    requires lib.semver.Ok() && Flat(v) && TextsOk(lib.semver, v)
    ensures var v' := ImportAll(lib, v, ps, skip);
            && Flat(v') && TextsOk(lib.semver, v')
            && (forall q <- v'.nodes :: q in v.nodes || exists p <- ps :: Under(p.name, q))
            && (forall q <- v.nodes ::
                  (forall p <- ps :: !Under(p.name, q)) ==> q in v'.nodes && v'.nodes[q] == v.nodes[q])
            && (forall n <- v.bundles ::
                  n in v'.bundles && v'.bundles[n] == v.bundles[n].(deprecation := v'.bundles[n].deprecation))
            && (forall n <- v'.bundles :: n in v.bundles || exists p <- ps :: p.name !in skip && n in Mentioned(p))
    decreases |ps|
  {
    if ps != [] {
      var next := if ps[0].name in skip then v else ImportPackage(lib, v, ps[0]).state;
      PackageKeeps(lib, v, ps[0]);
      ImportKeeps(lib, next, ps[1..], skip);
      assert ps[0] in ps && forall p <- ps[1..] :: p in ps;
      forall n <- ImportAll(lib, v, ps, skip).bundles | n !in v.bundles
        ensures exists p <- ps :: p.name !in skip && n in Mentioned(p)
      {
        if n !in next.bundles {
          var p :| p in ps[1..] && p.name !in skip && n in Mentioned(p);
        } else {
          assert ps[0].name !in skip && n in Mentioned(ps[0]);
        }
      }
    }
  }

  lemma FirstSlash(a: string, b: string, q: string)
    requires '/' !in a && '/' !in b && a + "/" <= q && b + "/" <= q
    ensures a == b
  {
    assert q == a + "/" + q[|a| + 1..] && q == b + "/" + q[|b| + 1..];
    SplitFirst(a, q[|a| + 1..], '/');
    SplitFirst(b, q[|b| + 1..], '/');
    assert "/" == ['/'];
    assert Split(q, '/')[0] == a && Split(q, '/')[0] == b;
  }

  lemma PackagesDisjoint(a: string, b: string, q: string)
    requires Under(a, q) && Under(b, q)
    ensures a == b
  {
    if b + "/" <= q {
      ExtensionHasSlash(b, q);
      FirstSlash(a, b, q);
    } else if a + "/" <= q {
      ExtensionHasSlash(a, q);
    }
  }

  predicate DistinctPackages(ps: seq<Package>) {
    forall i, j | 0 <= i < j < |ps| :: ps[i].name != ps[j].name
  }

  // ---------------------------------------------------------------- what an import means

  predicate AllStaged(ps: seq<Package>) {
    DistinctPackages(ps) && forall p <- ps :: Staged(p)
  }

  /** No package has a graph yet. */
  ghost predicate Fresh(v: View, ps: seq<Package>) {
    forall p <- ps, q <- v.nodes :: !Under(p.name, q)
  }

  /** Normalize for one package has the outcome the package denotes. */
  lemma PackageDenotes(lib: FbcLib, v: View, p: Package)
    requires Staged(p) && forall q <- v.nodes :: !Under(p.name, q)
    ensures ImportPackage(lib, v, p) == Outcome(Validates(lib, p) && NamesAccepted(p), Denote(lib, v, p))
  {
    if Validates(lib, p) {
      CompileRuns(lib, v, p);
    }
  }

  lemma StaysFresh(lib: FbcLib, v: View, ps: seq<Package>)
    requires ps != [] && AllStaged(ps) && Fresh(v, ps)
    ensures Fresh(Denote(lib, v, ps[0]), ps[1..]) && AllStaged(ps[1..])
  {
    var p, w := ps[0], Denote(lib, v, ps[0]);
    assert p in ps;
    DenotesNodes(lib, v, p);
    forall r <- ps[1..], q <- w.nodes
      ensures !Under(r.name, q)
    {
      if q !in v.nodes {
        PlacesUnder(lib, p, q, w.nodes[q]);
        if Under(r.name, q) {
          PackagesDisjoint(p.name, r.name, q);
        }
      }
    }
  }

  /** The deprecations an import carries out, in order. */
  function Executions(lib: FbcLib, ps: seq<Package>, skip: set<string>): seq<Deprecation> {
    if ps == [] then []
    else (if ps[0].name in skip then [] else Executed(lib, ps[0])) + Executions(lib, ps[1..], skip)
  }

  /** The row an import leaves for an id: the one entered by the first package that enters it, under the
      last message that package or a later one aims at it. */
  function FirstRow(lib: FbcLib, ps: seq<Package>, skip: set<string>, n: string): Option<BundleInfo> {
    if ps == [] then None
    else if ps[0].name in skip || n !in Entered(lib, ps[0]) then FirstRow(lib, ps[1..], skip, n)
    else Some(EnteredInfo(lib, ps[0],
         n).(deprecation := FinalMessage(None, Executions(lib, ps, skip), BundleTarget, n)))
  }

  lemma {:induction false} KeptRow(lib: FbcLib, v: View, ps: seq<Package>, skip: set<string>, n: string)
    requires AllStaged(ps) && Fresh(v, ps) && n in v.bundles
    ensures var w := ImportAll(lib, v, ps, skip);
            n in w.bundles && w.bundles[n] ==
              v.bundles[n].(deprecation := FinalMessage(v.bundles[n].deprecation, Executions(lib, ps, skip),
                BundleTarget, n))
    decreases |ps|
  {
    if ps != [] {
      var p, rest := ps[0], ps[1..];
      if p.name in skip {
        KeptRow(lib, v, rest, skip, n);
        assert [] + Executions(lib, rest, skip) == Executions(lib, rest, skip);
      } else {
        assert p in ps;
        PackageDenotes(lib, v, p);
        DenotesBundle(lib, v, p, n);
        StaysFresh(lib, v, ps);
        KeptRow(lib, Denote(lib, v, p), rest, skip, n);
        FinalMessageAppend(v.bundles[n].deprecation, Executed(lib, p), Executions(lib, rest, skip), BundleTarget, n);
      }
    }
  }

  lemma {:induction false} ImportedRow(lib: FbcLib, v: View, ps: seq<Package>, skip: set<string>, n: string)
    requires AllStaged(ps) && Fresh(v, ps) && n !in v.bundles
    ensures var w, row := ImportAll(lib, v, ps, skip), FirstRow(lib, ps, skip, n);
            w.props == v.props && (n in w.bundles <==> row.Some?) && (n in w.bundles ==> w.bundles[n] == row.value)
    decreases |ps|
  {
    if ps != [] {
      var p, rest := ps[0], ps[1..];
      if p.name in skip {
        ImportedRow(lib, v, rest, skip, n);
      } else {
        assert p in ps;
        PackageDenotes(lib, v, p);
        DenotesBundle(lib, v, p, n);
        StaysFresh(lib, v, ps);
        var next := Denote(lib, v, p);
        if n in Entered(lib, p) {
          KeptRow(lib, next, rest, skip, n);
          KeptProps(lib, next, rest, skip);
          FinalMessageAppend(None, Executed(lib, p), Executions(lib, rest, skip), BundleTarget, n);
        } else {
          ImportedRow(lib, next, rest, skip, n);
        }
      }
    }
  }

  lemma {:induction false} KeptProps(lib: FbcLib, v: View, ps: seq<Package>, skip: set<string>)
    requires AllStaged(ps) && Fresh(v, ps)
    ensures ImportAll(lib, v, ps, skip).props == v.props
    decreases |ps|
  {
    if ps != [] {
      if ps[0].name in skip {
        KeptProps(lib, v, ps[1..], skip);
      } else {
        assert ps[0] in ps;
        PackageDenotes(lib, v, ps[0]);
        DenotesBundle(lib, v, ps[0], "");
        StaysFresh(lib, v, ps);
        KeptProps(lib, Denote(lib, v, ps[0]), ps[1..], skip);
      }
    }
  }

  /** Some package that is not skipped places this graph. */
  ghost predicate Placed(lib: FbcLib, ps: seq<Package>, skip: set<string>, q: string, n: Node) {
    exists p <- ps :: p.name !in skip && Places(lib, p, q, n)
  }

  lemma {:induction false} ImportedNodes(lib: FbcLib, v: View, ps: seq<Package>, skip: set<string>)
    requires AllStaged(ps) && Fresh(v, ps)
    ensures var w := ImportAll(lib, v, ps, skip);
            && (forall q <- v.nodes :: q in w.nodes && w.nodes[q] == v.nodes[q])
            && (forall q <- w.nodes :: q in v.nodes || Placed(lib, ps, skip, q, w.nodes[q]))
            && (forall q, n | Placed(lib, ps, skip, q, n) :: q in w.nodes && w.nodes[q] == n)
    decreases |ps|
  {
    if ps != [] {
      var p, rest := ps[0], ps[1..];
      assert p in ps && forall r <- rest :: r in ps;
      forall q, n
        ensures Placed(lib, ps, skip, q, n) <==>
                (p.name !in skip && Places(lib, p, q, n)) || Placed(lib, rest, skip, q, n)
      {
        PlacedCons(lib, ps, skip, q, n);
      }
      if p.name in skip {
        ImportedNodes(lib, v, rest, skip);
      } else {
        PackageDenotes(lib, v, p);
        DenotesNodes(lib, v, p);
        StaysFresh(lib, v, ps);
        ImportedNodes(lib, Denote(lib, v, p), rest, skip);
      }
    }
  }

  lemma PlacedCons(lib: FbcLib, ps: seq<Package>, skip: set<string>, q: string, n: Node)
    requires ps != []
    ensures Placed(lib, ps, skip, q, n) <==>
            (ps[0].name !in skip && Places(lib, ps[0], q, n)) || Placed(lib, ps[1..], skip, q, n)
  {
    if p :| p in ps && p.name !in skip && Places(lib, p, q, n) {
      assert p == ps[0] || p in ps[1..];
    }
    if p :| p in ps[1..] && p.name !in skip && Places(lib, p, q, n) {
      assert p in ps;
    }
    assert ps[0] in ps;
  }

  /** Main result, the meaning of an import: into an emptied catalog, packages skipped, failing in
      validation or stopping midway, it leaves exactly the graphs that the packages place, each with the
      declared members, edges and ranges and the last message aimed at it; and for every id exactly the
      row of the first package that enters it. */
  lemma ImportMeans(lib: FbcLib, ps: seq<Package>, skip: set<string>)
    requires AllStaged(ps)
    ensures var w := ImportAll(lib, NO_CONTENT, ps, skip);
            && (forall q, n :: q in w.nodes && w.nodes[q] == n <==> Placed(lib, ps, skip, q, n))
            && (forall id, info ::
                  id in w.bundles && w.bundles[id] == info <==> FirstRow(lib, ps, skip, id) == Some(info))
            && w.props == map[]
  {
    ImportedNodes(lib, NO_CONTENT, ps, skip);
    forall id, info
      ensures var w := ImportAll(lib, NO_CONTENT, ps, skip);
              id in w.bundles && w.bundles[id] == info <==> FirstRow(lib, ps, skip, id) == Some(info)
    {
      ImportedRow(lib, NO_CONTENT, ps, skip, id);
    }
    KeptProps(lib, NO_CONTENT, ps, skip);
  }

  // ---------------------------------------------------------------- who enters a row, who completes

  /** Package j is the first, not skipped, that enters the id. */
  ghost predicate FirstEnters(lib: FbcLib, ps: seq<Package>, skip: set<string>, j: nat, n: string) {
    && j < |ps| && ps[j].name !in skip && n in Entered(lib, ps[j])
    && forall i | 0 <= i < j :: ps[i].name in skip || n !in Entered(lib, ps[i])
  }

  /** FirstRow says what it should: the row is what that package enters, phantom or not, under the last
      message aimed at the id from there on. */
  lemma {:induction false} FirstRowIs(lib: FbcLib, ps: seq<Package>, skip: set<string>, n: string)
    ensures FirstRow(lib, ps, skip, n).Some? <==> exists p <- ps :: p.name !in skip && n in Entered(lib, p)
    ensures forall j: nat | FirstEnters(lib, ps, skip, j, n) ::
              FirstRow(lib, ps, skip, n) == Some(EnteredInfo(lib, ps[j], n).(deprecation :=
                FinalMessage(None, Executions(lib, ps[j..], skip), BundleTarget, n)))
  {
    if ps != [] {
      FirstRowIs(lib, ps[1..], skip, n);
      assert forall p :: p in ps <==> p == ps[0] || p in ps[1..];
      forall j: nat | FirstEnters(lib, ps, skip, j, n)
        ensures FirstRow(lib, ps, skip, n) == Some(EnteredInfo(lib, ps[j], n).(deprecation :=
                  FinalMessage(None, Executions(lib, ps[j..], skip), BundleTarget, n)))
      {
        if j == 0 {
          assert ps[0..] == ps;
        } else {
          assert forall i | 0 <= i < j - 1 :: ps[1..][i] == ps[i + 1];
          assert FirstEnters(lib, ps[1..], skip, j - 1, n) && ps[1..][j - 1..] == ps[j..];
          assert ps[0].name in skip || n !in Entered(lib, ps[0]);
        }
      }
    }
  }

  lemma {:induction false} FirstExists(lib: FbcLib, ps: seq<Package>, skip: set<string>, n: string, k: nat)
    returns (j: nat)
    requires k < |ps| && ps[k].name !in skip && n in Entered(lib, ps[k])
    ensures j <= k && FirstEnters(lib, ps, skip, j, n)
    decreases k
  {
    if i :| 0 <= i < k && ps[i].name !in skip && n in Entered(lib, ps[i]) {
      j := FirstExists(lib, ps, skip, n, i);
    } else {
      j := k;
    }
  }

  ghost predicate Completed(lib: FbcLib, ps: seq<Package>, skip: set<string>, i: nat)
    requires i < |ps|
  {
    ps[i].name !in skip && ImportPackage(lib, ImportAll(lib, NO_CONTENT, ps[..i], skip), ps[i]).ok
  }

  lemma AfterFirst(ps: seq<Package>, i: nat)
    requires 0 < i <= |ps|
    ensures ps[..i][0] == ps[0] && ps[..i][1..] == ps[1..][..i - 1] && ps[i..] == ps[1..][i - 1..] && ps[0] in ps
  {
  }

  lemma {:induction false} FreshAt(lib: FbcLib, v: View, ps: seq<Package>, skip: set<string>, i: nat)
    requires AllStaged(ps) && Fresh(v, ps) && i <= |ps|
    ensures Fresh(ImportAll(lib, v, ps[..i], skip), ps[i..])
    decreases |ps|
  {
    if i > 0 {
      AfterFirst(ps, i);
      if ps[0].name in skip {
        FreshAt(lib, v, ps[1..], skip, i - 1);
      } else {
        PackageDenotes(lib, v, ps[0]);
        StaysFresh(lib, v, ps);
        FreshAt(lib, Denote(lib, v, ps[0]), ps[1..], skip, i - 1);
      }
    }
  }

  /** Whether a package is written whole does not depend on the other packages: it is exactly when it is
      not skipped, validates, and gives its graphs names that can be path segments. */
  lemma CompletedExactly(lib: FbcLib, ps: seq<Package>, skip: set<string>, i: nat)
    requires AllStaged(ps) && i < |ps|
    ensures Completed(lib, ps, skip, i) <==> ps[i].name !in skip && Validates(lib, ps[i]) && NamesAccepted(ps[i])
  {
    FreshAt(lib, NO_CONTENT, ps, skip, i);
    assert ps[i..][0] == ps[i] && ps[i] in ps[i..];
    PackageDenotes(lib, ImportAll(lib, NO_CONTENT, ps[..i], skip), ps[i]);
  }
}
