/** What a compiled package means: the catalog by name after its operations have run. */
module FbcMeaning {
  import opened Wrappers
  import opened Text
  import opened Content
  import opened Semver
  import opened Writer
  import opened Fbc

  const PHANTOM := BundleInfo("", "", "", "", None)

  // ---------------------------------------------------------------- what a channel declares

  function Refs(e: ChannelEntry): seq<string> {
    (if e.replaced != "" then [e.replaced] else []) + e.skips
  }

  function AllRefs(entries: seq<ChannelEntry>): seq<string> {
    if entries == [] then [] else Refs(entries[0]) + AllRefs(entries[1..])
  }

  function EntryNames(entries: seq<ChannelEntry>): set<string> {
    set e <- entries :: e.name
  }

  function EntryEdges(e: ChannelEntry): set<(string, string)> {
    set r | r in Refs(e) :: (r, e.name)
  }

  function EntryRanges(e: ChannelEntry): set<(string, string)> {
    if e.skipRange == "" then {} else {(e.name, e.skipRange)}
  }

  function ChannelEdges(entries: seq<ChannelEntry>): set<(string, string)> {
    if entries == [] then {} else EntryEdges(entries[0]) + ChannelEdges(entries[1..])
  }

  function ChannelRanges(entries: seq<ChannelEntry>): set<(string, string)> {
    if entries == [] then {} else EntryRanges(entries[0]) + ChannelRanges(entries[1..])
  }

  function ChannelNode(ch: Channel): Node {
    Node(None, EntryNames(ch.entries), ChannelEdges(ch.entries), ChannelRanges(ch.entries), map[])
  }

  /** The staging tables' primary keys: no channel and no entry of a channel appears twice. */
  predicate UniqueEntries(entries: seq<ChannelEntry>) {
    forall i, j | 0 <= i < j < |entries| :: entries[i].name != entries[j].name
  }

  predicate UniqueChannels(channels: seq<Channel>) {
    && (forall i, j | 0 <= i < j < |channels| :: channels[i].name != channels[j].name)
    && (forall ch <- channels :: UniqueEntries(ch.entries))
  }

  predicate UniqueDecls(decls: seq<BundleDecl>) {
    forall i, j | 0 <= i < j < |decls| :: decls[i].name != decls[j].name
  }

  function ChannelPath(pkg: string, ch: string): string {
    pkg + "/" + ch
  }

  // ---------------------------------------------------------------- the bundles that appear

  function InfoOf(lib: FbcLib, b: BundleDecl): BundleInfo {
    BundleInfo(b.pkg, b.version, b.release, ImageUri(lib, b.image), None)
  }

  /** INSERT OR IGNORE: the first row of an id stays. */
  function AddDecls(lib: FbcLib, bundles: map<string, BundleInfo>, decls: seq<BundleDecl>): map<string, BundleInfo>
    decreases |decls|
  {
    if decls == [] then bundles
    else AddDecls(lib, if decls[0].name in bundles
         then bundles else bundles[decls[0].name := InfoOf(lib, decls[0])], decls[1..])
  }

  function AddPhantoms(bundles: map<string, BundleInfo>, refs: seq<string>): map<string, BundleInfo>
    decreases |refs|
  {
    if refs == [] then bundles
    else AddPhantoms(if refs[0] in bundles then bundles else bundles[refs[0] := PHANTOM], refs[1..])
  }

  lemma {:induction false} AddPhantomsAppend(bundles: map<string, BundleInfo>, a: seq<string>, b: seq<string>)
    ensures AddPhantoms(bundles, a + b) == AddPhantoms(AddPhantoms(bundles, a), b)
    decreases |a|
  {
    if a == [] {
      assert a + b == b;
    } else {
      assert (a + b)[0] == a[0] && (a + b)[1..] == a[1..] + b;
      AddPhantomsAppend(if a[0] in bundles then bundles else bundles[a[0] := PHANTOM], a[1..], b);
    }
  }

  lemma {:induction false} AddPhantomsIs(bundles: map<string, BundleInfo>, refs: seq<string>)
    ensures var more := AddPhantoms(bundles, refs);
            && (forall n :: n in more <==> n in bundles || n in refs)
            && (forall n <- bundles :: n in more && more[n] == bundles[n])
            && (forall n <- more :: n in bundles || more[n] == PHANTOM)
    decreases |refs|
  {
    if refs != [] {
      AddPhantomsIs(if refs[0] in bundles then bundles else bundles[refs[0] := PHANTOM], refs[1..]);
      assert forall n :: n in refs <==> n == refs[0] || n in refs[1..];
    }
  }

  /** The package's own declaration of an id. */
  function DeclOf(decls: seq<BundleDecl>, n: string): Option<BundleDecl> {
    if decls == [] then None else if decls[0].name == n then Some(decls[0]) else DeclOf(decls[1..], n)
  }

  lemma {:induction false} DeclOfIs(decls: seq<BundleDecl>, n: string)
    ensures DeclOf(decls, n).Some? <==> exists b <- decls :: b.name == n
    ensures DeclOf(decls, n).Some? ==> DeclOf(decls, n).value in decls && DeclOf(decls, n).value.name == n
    ensures UniqueDecls(decls) ==> forall b <- decls | b.name == n :: DeclOf(decls, n) == Some(b)
  {
    if decls != [] {
      DeclOfIs(decls[1..], n);
      assert forall b :: b in decls <==> b == decls[0] || b in decls[1..];
    }
  }

  lemma {:induction false} AddDeclsAt(lib: FbcLib, bundles: map<string, BundleInfo>, decls: seq<BundleDecl>, n: string)
    ensures var more := AddDecls(lib, bundles, decls);
            && (n in more <==> n in bundles || DeclOf(decls, n).Some?)
            && (n in more ==> more[n] == if n in bundles then bundles[n] else InfoOf(lib, DeclOf(decls, n).value))
    decreases |decls|
  {
    if decls != [] {
      var next := if decls[0].name in bundles then bundles else bundles[decls[0].name := InfoOf(lib, decls[0])];
      AddDeclsAt(lib, next, decls[1..], n);
    }
  }

  // ---------------------------------------------------------------- running the parts

  lemma ViewRunCons(lib: SemverLib, v: View, op: Op, rest: seq<Op>)
    ensures var r := ViewStep(lib, v, op);
            ViewRun(lib, v, [op] + rest) == if r.ok then ViewRun(lib, r.state, rest) else r
  {
    assert ([op] + rest)[1..] == rest;
  }

  lemma ViewRunOne(lib: SemverLib, v: View, op: Op)
    ensures ViewRun(lib, v, [op]) == ViewStep(lib, v, op)
  {
    assert [op][1..] == [];
  }

  lemma {:induction false} InsertsRun(lib: FbcLib, v: View, decls: seq<BundleDecl>)
    ensures ViewRun(lib.semver, v, InsertOps(lib, decls)) ==
            Outcome(true, v.(bundles := AddDecls(lib, v.bundles, decls)))
    decreases |decls|
  {
    if decls != [] {
      var r := ViewStep(lib.semver, v, InsertOf(lib, decls[0]));
      ViewRunCons(lib.semver, v, InsertOf(lib, decls[0]), InsertOps(lib, decls[1..]));
      InsertsRun(lib, r.state, decls[1..]);
    }
  }

  lemma SetNodeSame(v: View, path: seq<string>)
    requires Names(v, path)
    ensures SetNode(v, path, v.nodes[Join(path, '/')]) == v
  {
  }

  lemma SetNodeTwice(v: View, path: seq<string>, a: Node, b: Node)
    ensures SetNode(SetNode(v, path, a), path, b) == SetNode(v, path, b)
  {
    var p := Join(path, '/');
    assert v.nodes[p := a][p := b] == v.nodes[p := b];
  }

  lemma {:induction false} MembersRun(lib: SemverLib, v: View, path: seq<string>, entries: seq<ChannelEntry>)
    requires Names(v, path) && UniqueEntries(entries)
    requires forall e <- entries :: e.name in v.bundles && e.name !in v.nodes[Join(path, '/')].members
    ensures var n := v.nodes[Join(path, '/')];
            ViewRun(lib, v, MemberOps(path, entries)) ==
            Outcome(true, SetNode(v, path, n.(members := n.members + EntryNames(entries))))
    decreases |entries|
  {
    var n := v.nodes[Join(path, '/')];
    if entries == [] {
      assert n.members + EntryNames(entries) == n.members;
      SetNodeSame(v, path);
    } else {
      var e, rest := entries[0], entries[1..];
      var n' := n.(members := n.members + {e.name});
      var v' := SetNode(v, path, n');
      ViewRunCons(lib, v, AddBundleToGraph(path, e.name), MemberOps(path, rest));
      MembersRun(lib, v', path, rest);
      assert EntryNames(entries) == {e.name} + EntryNames(rest);
      assert n'.members + EntryNames(rest) == n.members + EntryNames(entries);
      SetNodeTwice(v, path, n', n.(members := n.members + EntryNames(entries)));
    }
  }

  /** The catalog after a predecessor's edges and phantoms have been written. */
  function WithEdges(v: View, path: seq<string>, refs: seq<string>, edges: set<(string, string)>): View
    requires Names(v, path)
  {
    var n := v.nodes[Join(path, '/')];
    SetNode(v, path, n.(edges := n.edges + edges)).(bundles := AddPhantoms(v.bundles, refs))
  }

  lemma EdgeRun(lib: SemverLib, v: View, path: seq<string>, from: string, to: string)
    requires Names(v, path) && to in v.bundles
    ensures ViewRun(lib, v, EdgeOps(path, from, to)) == Outcome(true, WithEdges(v, path, [from], {(from, to)}))
  {
    var insert := InsertBundle(from, "", "", "", "");
    ViewRunCons(lib, v, insert, [AddEdge(path, from, to)]);
    var v' := ViewStep(lib, v, insert).state;
    ViewRunOne(lib, v', AddEdge(path, from, to));
    assert [from][1..] == [];
    assert v'.bundles == AddPhantoms(v.bundles, [from]);
  }

  lemma WithEdgesTwice(v: View, path: seq<string>, a: seq<string>, s: set<(string, string)>, b: seq<string>,
                       r: set<(string, string)>)
    requires Names(v, path)
    ensures Names(WithEdges(v, path, a, s), path)
    ensures WithEdges(WithEdges(v, path, a, s), path, b, r) == WithEdges(v, path, a + b, s + r)
  {
    var n := v.nodes[Join(path, '/')];
    AddPhantomsAppend(v.bundles, a, b);
    assert n.edges + s + r == n.edges + (s + r);
    SetNodeTwice(v, path, n.(edges := n.edges + s), n.(edges := n.edges + s + r));
  }

  lemma {:induction false} SkipsRun(lib: SemverLib, v: View, path: seq<string>, skips: seq<string>, to: string)
    requires Names(v, path) && to in v.bundles
    ensures ViewRun(lib, v, SkipOps(path, skips, to)) ==
            Outcome(true, WithEdges(v, path, skips, set s <- skips :: (s, to)))
    decreases |skips|
  {
    if skips == [] {
      assert v.nodes[Join(path, '/')].edges + (set s <- skips :: (s, to)) == v.nodes[Join(path, '/')].edges;
      SetNodeSame(v, path);
    } else {
      var s, rest := skips[0], skips[1..];
      EdgeRun(lib, v, path, s, to);
      var v' := WithEdges(v, path, [s], {(s, to)});
      AddPhantomsIs(v.bundles, [s]);
      ViewRunAppend(lib, v, EdgeOps(path, s, to), SkipOps(path, rest, to));
      SkipsRun(lib, v', path, rest, to);
      WithEdgesTwice(v, path, [s], {(s, to)}, rest, set x <- rest :: (x, to));
      assert [s] + rest == skips;
      assert {(s, to)} + (set x <- rest :: (x, to)) == set x <- skips :: (x, to);
    }
  }

  /** The catalog after one entry, or a run of entries, of a channel. */
  function WithEntries(v: View, path: seq<string>, refs: seq<string>, edges: set<(string, string)>,
                       ranges: set<(string, string)>): View
    requires Names(v, path)
  {
    var n := v.nodes[Join(path, '/')];
    SetNode(v, path,
      n.(edges := n.edges + edges, ranges := n.ranges + ranges)).(bundles := AddPhantoms(v.bundles, refs))
  }

  lemma WithEntriesTwice(v: View, path: seq<string>, a: seq<string>, s: set<(string, string)>, x: set<(string, string)>,
                         b: seq<string>, r: set<(string, string)>, y: set<(string, string)>)
    requires Names(v, path)
    ensures Names(WithEntries(v, path, a, s, x), path)
    ensures WithEntries(WithEntries(v, path, a, s, x), path, b, r, y) == WithEntries(v, path, a + b, s + r, x + y)
  {
    var n := v.nodes[Join(path, '/')];
    AddPhantomsAppend(v.bundles, a, b);
    assert n.edges + s + r == n.edges + (s + r);
    assert n.ranges + x + y == n.ranges + (x + y);
    SetNodeTwice(v, path, n.(edges := n.edges + s, ranges := n.ranges + x),
                 n.(edges := n.edges + s + r, ranges := n.ranges + x + y));
  }

  lemma WithEdgesIs(v: View, path: seq<string>, refs: seq<string>, edges: set<(string, string)>)
    requires Names(v, path)
    ensures WithEdges(v, path, refs, edges) == WithEntries(v, path, refs, edges, {})
  {
    var n := v.nodes[Join(path, '/')];
    assert n.ranges + {} == n.ranges;
  }

  lemma SkipRefsRun(lib: SemverLib, v: View, path: seq<string>, e: ChannelEntry)
    requires Names(v, path) && e.name in v.bundles && e.replaced == ""
    ensures ViewRun(lib, v, [] + SkipOps(path, e.skips, e.name)) ==
            Outcome(true, WithEdges(v, path, Refs(e), EntryEdges(e)))
  {
    SkipsRun(lib, v, path, e.skips, e.name);
    assert [] + SkipOps(path, e.skips, e.name) == SkipOps(path, e.skips, e.name) && Refs(e) == e.skips;
    assert EntryEdges(e) == set s <- e.skips :: (s, e.name);
  }

  lemma ReplacedEdges(e: ChannelEntry)
    requires e.replaced != ""
    ensures Refs(e) == [e.replaced] + e.skips
    ensures EntryEdges(e) == {(e.replaced, e.name)} + set s <- e.skips :: (s, e.name)
  {
  }

  lemma ReplacedRefsRun(lib: SemverLib, v: View, path: seq<string>, e: ChannelEntry)
    requires Names(v, path) && e.name in v.bundles && e.replaced != ""
    ensures ViewRun(lib, v, EdgeOps(path, e.replaced, e.name) + SkipOps(path, e.skips, e.name)) ==
            Outcome(true, WithEdges(v, path, Refs(e), EntryEdges(e)))
  {
    var edge := {(e.replaced, e.name)};
    EdgeRun(lib, v, path, e.replaced, e.name);
    AddPhantomsIs(v.bundles, [e.replaced]);
    ViewRunAppend(lib, v, EdgeOps(path, e.replaced, e.name), SkipOps(path, e.skips, e.name));
    SkipsRun(lib, WithEdges(v, path, [e.replaced], edge), path, e.skips, e.name);
    WithEdgesTwice(v, path, [e.replaced], edge, e.skips, set s <- e.skips :: (s, e.name));
    ReplacedEdges(e);
  }

  lemma RefsRun(lib: SemverLib, v: View, path: seq<string>, e: ChannelEntry)
    requires Names(v, path) && e.name in v.bundles
    ensures var first := if e.replaced != "" then EdgeOps(path, e.replaced, e.name) else [];
            ViewRun(lib, v, first + SkipOps(path, e.skips, e.name)) ==
            Outcome(true, WithEdges(v, path, Refs(e), EntryEdges(e)))
  {
    if e.replaced == "" {
      SkipRefsRun(lib, v, path, e);
    } else {
      ReplacedRefsRun(lib, v, path, e);
    }
  }

  lemma EntryRun(lib: SemverLib, v: View, path: seq<string>, e: ChannelEntry)
    requires Names(v, path) && e.name in v.bundles && !HasRange(v.nodes[Join(path, '/')].ranges, e.name)
    requires e.skipRange == "" || lib.parsesRange(e.skipRange)
    ensures ViewRun(lib, v, EntryOps(path, e)) ==
            Outcome(true, WithEntries(v, path, Refs(e), EntryEdges(e), EntryRanges(e)))
  {
    var refs := (if e.replaced != "" then EdgeOps(path, e.replaced, e.name) else []) + SkipOps(path, e.skips, e.name);
    var range := if e.skipRange != "" then [AddPredecessorRange(path, e.name, e.skipRange)] else [];
    var v' := WithEdges(v, path, Refs(e), EntryEdges(e));
    RefsRun(lib, v, path, e);
    ViewRunAppend(lib, v, refs, range);
    assert EntryOps(path, e) == refs + range;
    WithEdgesIs(v, path, Refs(e), EntryEdges(e));
    if e.skipRange != "" {
      AddPhantomsIs(v.bundles, Refs(e));
      ViewRunOne(lib, v', AddPredecessorRange(path, e.name, e.skipRange));
      RangeStep(lib, v, path, e);
    }
  }

  lemma RangeStep(lib: SemverLib, v: View, path: seq<string>, e: ChannelEntry)
    requires Names(v, path) && !HasRange(v.nodes[Join(path, '/')].ranges, e.name)
    requires e.skipRange != "" && lib.parsesRange(e.skipRange)
    requires e.name in AddPhantoms(v.bundles, Refs(e))
    ensures ViewStep(lib, WithEdges(v, path, Refs(e), EntryEdges(e)), AddPredecessorRange(path, e.name, e.skipRange)) ==
            Outcome(true, WithEntries(v, path, Refs(e), EntryEdges(e), EntryRanges(e)))
  {
    var n := v.nodes[Join(path, '/')];
    SetNodeTwice(v, path, n.(edges := n.edges + EntryEdges(e)),
                 n.(edges := n.edges + EntryEdges(e), ranges := n.ranges + EntryRanges(e)));
  }

  lemma {:induction false} EntriesRun(lib: SemverLib, v: View, path: seq<string>, entries: seq<ChannelEntry>)
    requires Names(v, path) && UniqueEntries(entries)
    requires forall e <- entries :: e.name in v.bundles && !HasRange(v.nodes[Join(path, '/')].ranges, e.name)
    requires forall e <- entries :: e.skipRange == "" || lib.parsesRange(e.skipRange)
    ensures ViewRun(lib, v, SuccessorOps(path, entries)) ==
            Outcome(true, WithEntries(v, path, AllRefs(entries), ChannelEdges(entries), ChannelRanges(entries)))
    decreases |entries|
  {
    var n := v.nodes[Join(path, '/')];
    if entries == [] {
      assert n.edges + {} == n.edges && n.ranges + {} == n.ranges;
      SetNodeSame(v, path);
    } else {
      var e, rest := entries[0], entries[1..];
      EntryRun(lib, v, path, e);
      var v' := WithEntries(v, path, Refs(e), EntryEdges(e), EntryRanges(e));
      ViewRunAppend(lib, v, EntryOps(path, e), SuccessorOps(path, rest));
      AddPhantomsIs(v.bundles, Refs(e));
      assert forall x <- rest :: !HasRange(n.ranges + EntryRanges(e), x.name);
      EntriesRun(lib, v', path, rest);
      WithEntriesTwice(v, path, Refs(e), EntryEdges(e), EntryRanges(e), AllRefs(rest), ChannelEdges(rest),
        ChannelRanges(rest));
    }
  }

  // ---------------------------------------------------------------- channels

  lemma ChannelPathText(pkg: string, ch: string)
    ensures Join([pkg], '/') == pkg && Join([pkg, ch], '/') == ChannelPath(pkg, ch)
    ensures [pkg, ch][..1] == [pkg]
    ensures AcceptedPath([pkg, ch]) <==> AcceptedSegment(pkg) && AcceptedSegment(ch)
    ensures AcceptedPath([pkg]) <==> AcceptedSegment(pkg)
  {
    assert [pkg, ch][1..] == [ch];
    assert [pkg, ch][0] == pkg && [pkg, ch][1] == ch && [pkg][0] == pkg;
  }

  function WithChannel(v: View, pkg: string, ch: Channel): View {
    v.(bundles := AddPhantoms(v.bundles, AllRefs(ch.entries)),
      nodes := v.nodes[ChannelPath(pkg, ch.name) := ChannelNode(ch)])
  }

  predicate EntriesReady(lib: SemverLib, v: View, ch: Channel) {
    && UniqueEntries(ch.entries)
    && (forall e <- ch.entries :: e.name in v.bundles && (e.skipRange == "" || lib.parsesRange(e.skipRange)))
  }

  /** An empty channel graph is filled with what the channel declares. */
  lemma ChannelContentRun(lib: SemverLib, v: View, pkg: string, ch: Channel)
    requires AcceptedSegment(pkg) && AcceptedSegment(ch.name) && EntriesReady(lib, v, ch)
    ensures var path := [pkg, ch.name];
            ViewRun(lib, SetNode(v, path, NEW_NODE), MemberOps(path, ch.entries) + SuccessorOps(path, ch.entries)) ==
            Outcome(true, WithChannel(v, pkg, ch))
  {
    var path := [pkg, ch.name];
    ChannelPathText(pkg, ch.name);
    var v1 := SetNode(v, path, NEW_NODE);
    MembersRun(lib, v1, path, ch.entries);
    var n := NEW_NODE.(members := EntryNames(ch.entries));
    assert {} + EntryNames(ch.entries) == EntryNames(ch.entries);
    SetNodeTwice(v, path, NEW_NODE, n);
    var v2 := SetNode(v, path, n);
    ViewRunAppend(lib, v1, MemberOps(path, ch.entries), SuccessorOps(path, ch.entries));
    EntriesRun(lib, v2, path, ch.entries);
    assert {} + ChannelEdges(ch.entries) == ChannelEdges(ch.entries);
    assert {} + ChannelRanges(ch.entries) == ChannelRanges(ch.entries);
    SetNodeTwice(v, path, n, ChannelNode(ch));
  }

  /** A channel is written, whole, exactly when its name can be a path segment; otherwise nothing is. */
  lemma ChannelRun(lib: SemverLib, v: View, pkg: string, ch: Channel)
    requires AcceptedSegment(pkg) && pkg in v.nodes && ChannelPath(pkg, ch.name) !in v.nodes
    requires EntriesReady(lib, v, ch)
    ensures ViewRun(lib, v, ChannelOps(pkg, ch)) ==
            if AcceptedSegment(ch.name) then Outcome(true, WithChannel(v, pkg, ch)) else Outcome(false, v)
  {
    var path := [pkg, ch.name];
    var content := MemberOps(path, ch.entries) + SuccessorOps(path, ch.entries);
    ChannelPathText(pkg, ch.name);
    assert ChannelOps(pkg, ch) == [CreateGraph(path)] + content;
    ViewRunCons(lib, v, CreateGraph(path), content);
    if AcceptedSegment(ch.name) {
      ChannelContentRun(lib, v, pkg, ch);
    }
  }

  /** The channels that are written: those before the first whose name cannot be a path segment. */
  function GoodChannels(channels: seq<Channel>): seq<Channel> {
    if channels == [] || !AcceptedSegment(channels[0].name) then [] else [channels[0]] + GoodChannels(channels[1..])
  }

  predicate ChannelNamesAccepted(channels: seq<Channel>) {
    forall ch <- channels :: AcceptedSegment(ch.name)
  }

  lemma {:induction false} GoodChannelsIs(channels: seq<Channel>)
    ensures GoodChannels(channels) <= channels && ChannelNamesAccepted(GoodChannels(channels))
    ensures ChannelNamesAccepted(channels) <==> GoodChannels(channels) == channels
    ensures UniqueChannels(channels) ==> UniqueChannels(GoodChannels(channels))
  {
    if channels != [] && AcceptedSegment(channels[0].name) {
      GoodChannelsIs(channels[1..]);
      assert channels == [channels[0]] + channels[1..];
    }
  }

  function WithChannels(v: View, pkg: string, channels: seq<Channel>): View
    decreases |channels|
  {
    if channels == [] then v else WithChannels(WithChannel(v, pkg, channels[0]), pkg, channels[1..])
  }

  lemma {:induction false} ChannelsRun(lib: SemverLib, v: View, pkg: string, channels: seq<Channel>)
    requires AcceptedSegment(pkg) && pkg in v.nodes && UniqueChannels(channels)
    requires forall ch <- channels :: ChannelPath(pkg, ch.name) !in v.nodes && EntriesReady(lib, v, ch)
    ensures ViewRun(lib, v, ChannelsOps(pkg, channels)) ==
            Outcome(ChannelNamesAccepted(channels), WithChannels(v, pkg, GoodChannels(channels)))
    decreases |channels|
  {
    if channels != [] {
      var ch, rest := channels[0], channels[1..];
      assert ch in channels;
      ChannelRun(lib, v, pkg, ch);
      ViewRunAppend(lib, v, ChannelOps(pkg, ch), ChannelsOps(pkg, rest));
      if AcceptedSegment(ch.name) {
        var v' := WithChannel(v, pkg, ch);
        AddPhantomsIs(v.bundles, AllRefs(ch.entries));
        forall x <- rest
          ensures ChannelPath(pkg, x.name) !in v'.nodes && EntriesReady(lib, v', x)
        {
          PathsDiffer(pkg, ch.name, x.name);
        }
        ChannelsRun(lib, v', pkg, rest);
        assert ([ch] + GoodChannels(rest))[1..] == GoodChannels(rest);
      }
    }
  }

  lemma PathsDiffer(pkg: string, a: string, b: string)
    requires a != b
    ensures ChannelPath(pkg, a) != ChannelPath(pkg, b)
  {
    assert ChannelPath(pkg, a)[|pkg| + 1..] == a && ChannelPath(pkg, b)[|pkg| + 1..] == b;
  }

  /** A graph that is none of the channels' stays as it is, there or not. */
  lemma {:induction false} WithChannelsKeep(v: View, pkg: string, channels: seq<Channel>, q: string)
    requires forall ch <- channels :: q != ChannelPath(pkg, ch.name)
    ensures var v' := WithChannels(v, pkg, channels);
            (q in v'.nodes <==> q in v.nodes) && (q in v.nodes ==> v'.nodes[q] == v.nodes[q])
    decreases |channels|
  {
    if channels != [] {
      assert channels[0] in channels;
      WithChannelsKeep(WithChannel(v, pkg, channels[0]), pkg, channels[1..], q);
    }
  }

  lemma {:induction false} WithChannelsNew(v: View, pkg: string, channels: seq<Channel>, ch: Channel)
    requires UniqueChannels(channels) && ch in channels
    ensures var v', q := WithChannels(v, pkg, channels), ChannelPath(pkg, ch.name);
            q in v'.nodes && v'.nodes[q] == ChannelNode(ch)
    decreases |channels|
  {
    var v', rest := WithChannel(v, pkg, channels[0]), channels[1..];
    if ch in rest {
      WithChannelsNew(v', pkg, rest, ch);
    } else {
      forall x <- rest ensures ChannelPath(pkg, ch.name) != ChannelPath(pkg, x.name) {
        PathsDiffer(pkg, ch.name, x.name);
      }
      WithChannelsKeep(v', pkg, rest, ChannelPath(pkg, ch.name));
    }
  }

  /** What the channels leave in the graph forest. */
  lemma WithChannelsNodes(v: View, pkg: string, channels: seq<Channel>)
    requires UniqueChannels(channels)
    ensures var v' := WithChannels(v, pkg, channels);
            && (forall ch <- channels ::
                  ChannelPath(pkg, ch.name) in v'.nodes && v'.nodes[ChannelPath(pkg, ch.name)] == ChannelNode(ch))
            && (forall q :: q in v'.nodes ==> q in v.nodes || exists ch <- channels :: q == ChannelPath(pkg, ch.name))
            && (forall q <- v.nodes ::
                  q in v'.nodes &&
                    ((forall ch <- channels :: q != ChannelPath(pkg, ch.name)) ==> v'.nodes[q] == v.nodes[q]))
  {
    var v' := WithChannels(v, pkg, channels);
    forall ch <- channels
      ensures ChannelPath(pkg, ch.name) in v'.nodes && v'.nodes[ChannelPath(pkg, ch.name)] == ChannelNode(ch)
    {
      WithChannelsNew(v, pkg, channels, ch);
    }
    forall q | forall ch <- channels :: q != ChannelPath(pkg, ch.name)
      ensures (q in v'.nodes <==> q in v.nodes) && (q in v.nodes ==> v'.nodes[q] == v.nodes[q])
    {
      WithChannelsKeep(v, pkg, channels, q);
    }
  }

  function ChannelsRefs(channels: seq<Channel>): seq<string> {
    if channels == [] then [] else AllRefs(channels[0].entries) + ChannelsRefs(channels[1..])
  }

  lemma {:induction false} WithChannelsBundles(v: View, pkg: string, channels: seq<Channel>)
    ensures WithChannels(v, pkg, channels).bundles == AddPhantoms(v.bundles, ChannelsRefs(channels))
    ensures WithChannels(v, pkg, channels).props == v.props
    decreases |channels|
  {
    if channels != [] {
      WithChannelsBundles(WithChannel(v, pkg, channels[0]), pkg, channels[1..]);
      AddPhantomsAppend(v.bundles, AllRefs(channels[0].entries), ChannelsRefs(channels[1..]));
    }
  }

  // ---------------------------------------------------------------- deprecations

  predicate DeprecationOk(d: Deprecation) {
    d.message != "" && (d.target.ChannelTarget? ==> AcceptedSegment(d.name))
  }

  predicate DeprecationsOk(ds: seq<Deprecation>) {
    forall d <- ds :: DeprecationOk(d)
  }

  /** The deprecations that are carried out: those before the first that fails. */
  function GoodDeprecations(ds: seq<Deprecation>): seq<Deprecation> {
    if ds == [] || !DeprecationOk(ds[0]) then [] else [ds[0]] + GoodDeprecations(ds[1..])
  }

  /** d is aimed at the package, or at the channel or bundle of that name. */
  predicate Aims(d: Deprecation, target: Target, name: string) {
    d.target == target && (target == PackageTarget || d.name == name)
  }

  /** The message stored after ds: each one aimed there replaces the one before. */
  function FinalMessage(message: Option<string>, ds: seq<Deprecation>, target: Target, name: string): Option<string>
    decreases |ds|
  {
    if ds == [] then message
    else FinalMessage(if Aims(ds[0], target, name) then Some(ds[0].message) else message, ds[1..], target, name)
  }

  ghost predicate LastAim(ds: seq<Deprecation>, target: Target, name: string, k: nat) {
    && k < |ds| && Aims(ds[k], target, name)
    && forall j | k < j < |ds| :: !Aims(ds[j], target, name)
  }

  /** The message stored is the last one aimed there, and where none is, the one that was there. */
  lemma {:induction false} LastMessageStays(message: Option<string>, ds: seq<Deprecation>, target: Target, name: string)
    ensures (forall d <- ds :: !Aims(d, target, name)) ==> FinalMessage(message, ds, target, name) == message
    ensures forall k: nat | LastAim(ds, target, name, k) ::
            FinalMessage(message, ds, target, name) == Some(ds[k].message)
    decreases |ds|
  {
    if ds != [] {
      var rest := ds[1..];
      var next := if Aims(ds[0], target, name) then Some(ds[0].message) else message;
      LastMessageStays(next, rest, target, name);
      forall k: nat | LastAim(ds, target, name, k)
        ensures FinalMessage(message, ds, target, name) == Some(ds[k].message)
      {
        if k > 0 {
          assert forall j | k - 1 < j < |rest| :: rest[j] == ds[j + 1];
          assert LastAim(rest, target, name, k - 1);
        } else {
          assert forall d <- rest :: !Aims(d, target, name);
        }
      }
    }
  }

  lemma {:induction false} FinalMessageAppend(message: Option<string>, a: seq<Deprecation>, b: seq<Deprecation>,
                                              target: Target,
                                              name: string)
    ensures FinalMessage(message, a + b, target, name) ==
            FinalMessage(FinalMessage(message, a, target, name), b, target, name)
    decreases |a|
  {
    if a == [] {
      assert a + b == b;
    } else {
      assert (a + b)[0] == a[0] && (a + b)[1..] == a[1..] + b;
      FinalMessageAppend(if Aims(a[0], target, name) then Some(a[0].message) else message, a[1..], b, target, name);
    }
  }

  function SetNodeMessage(v: View, q: string, message: string): View {
    if q in v.nodes then v.(nodes := v.nodes[q := v.nodes[q].(deprecation := Some(message))]) else v
  }

  function SetMessage(v: View, pkg: string, d: Deprecation): View {
    match d.target
    case PackageTarget => SetNodeMessage(v, pkg, d.message)
    case ChannelTarget => SetNodeMessage(v, ChannelPath(pkg, d.name), d.message)
    case BundleTarget =>
      if d.name !in v.bundles then v
      else v.(bundles := v.bundles[d.name := v.bundles[d.name].(deprecation := Some(d.message))])
    case OtherTarget => v
  }

  function SetMessages(v: View, pkg: string, ds: seq<Deprecation>): View
    decreases |ds|
  {
    if ds == [] then v else SetMessages(SetMessage(v, pkg, ds[0]), pkg, ds[1..])
  }

  lemma DeprecationRun(lib: SemverLib, v: View, pkg: string, d: Deprecation)
    requires AcceptedSegment(pkg) && d.message != ""
    ensures ViewRun(lib, v, DeprecationOp(pkg, d)) ==
            if DeprecationOk(d) then Outcome(true, SetMessage(v, pkg, d)) else Outcome(false, v)
  {
    ChannelPathText(pkg, d.name);
    match d.target
    case PackageTarget => ViewRunOne(lib, v, SetGraphDeprecation([pkg], d.message));
    case ChannelTarget => ViewRunOne(lib, v, SetGraphDeprecation([pkg, d.name], d.message));
    case BundleTarget => ViewRunOne(lib, v, SetBundleDeprecation(d.name, d.message));
    case OtherTarget =>
  }

  lemma {:induction false} DeprecationsRun(lib: SemverLib, v: View, pkg: string, ds: seq<Deprecation>)
    requires AcceptedSegment(pkg) && forall d <- ds :: d.message != ""
    ensures ViewRun(lib, v, DeprecationOps(pkg, ds)) ==
            Outcome(DeprecationsOk(ds), SetMessages(v, pkg, GoodDeprecations(ds)))
    decreases |ds|
  {
    if ds != [] {
      var d, rest := ds[0], ds[1..];
      ViewRunAppend(lib, v, DeprecationOp(pkg, d), DeprecationOps(pkg, rest));
      DeprecationRun(lib, v, pkg, d);
      if DeprecationOk(d) {
        DeprecationsRun(lib, SetMessage(v, pkg, d), pkg, rest);
        assert ([d] + GoodDeprecations(rest))[1..] == GoodDeprecations(rest);
      }
    }
  }

  /** Messages reach the package's graphs and bundle rows only, and add no row. */
  lemma {:induction false} MessagesFrame(v: View, pkg: string, ds: seq<Deprecation>)
    ensures var w := SetMessages(v, pkg, ds);
            && w.nodes.Keys == v.nodes.Keys && w.bundles.Keys == v.bundles.Keys && w.props == v.props
            && (forall q <- v.nodes | !InPackage(pkg, q) :: w.nodes[q] == v.nodes[q])
    decreases |ds|
  {
    if ds != [] {
      MessagesFrame(SetMessage(v, pkg, ds[0]), pkg, ds[1..]);
    }
  }

  lemma {:induction false} PackageMessage(v: View, pkg: string, ds: seq<Deprecation>)
    requires pkg in v.nodes
    ensures var w := SetMessages(v, pkg, ds);
            pkg in w.nodes && w.nodes[pkg] ==
              v.nodes[pkg].(deprecation := FinalMessage(v.nodes[pkg].deprecation, ds, PackageTarget, pkg))
    decreases |ds|
  {
    if ds != [] {
      PackagePathDiffers(pkg, ds[0].name);
      PackageMessage(SetMessage(v, pkg, ds[0]), pkg, ds[1..]);
    }
  }

  lemma {:induction false} ChannelMessage(v: View, pkg: string, ds: seq<Deprecation>, ch: string)
    requires ChannelPath(pkg, ch) in v.nodes
    ensures var q, w := ChannelPath(pkg, ch), SetMessages(v, pkg, ds);
            q in w.nodes && w.nodes[q] ==
              v.nodes[q].(deprecation := FinalMessage(v.nodes[q].deprecation, ds, ChannelTarget, ch))
    decreases |ds|
  {
    if ds != [] {
      PackagePathDiffers(pkg, ch);
      if ds[0].name != ch {
        PathsDiffer(pkg, ds[0].name, ch);
      }
      ChannelMessage(SetMessage(v, pkg, ds[0]), pkg, ds[1..], ch);
    }
  }

  lemma {:induction false} BundleMessage(v: View, pkg: string, ds: seq<Deprecation>, n: string)
    requires n in v.bundles
    ensures var w := SetMessages(v, pkg, ds);
            n in w.bundles && w.bundles[n] ==
              v.bundles[n].(deprecation := FinalMessage(v.bundles[n].deprecation, ds, BundleTarget, n))
    decreases |ds|
  {
    if ds != [] {
      BundleMessage(SetMessage(v, pkg, ds[0]), pkg, ds[1..], n);
    }
  }

  // ---------------------------------------------------------------- the package

  /** The graphs of a package: its own and everything below it. */
  predicate InPackage(pkg: string, q: string) {
    q == pkg || pkg + "/" <= q
  }

  predicate Under(pkg: string, q: string) {
    AcceptedSegment(pkg) && InPackage(pkg, q)
  }

  lemma PackagePathDiffers(pkg: string, ch: string)
    ensures ChannelPath(pkg, ch) != pkg && InPackage(pkg, ChannelPath(pkg, ch))
  {
    assert |ChannelPath(pkg, ch)| > |pkg|;
  }

  /** What the staging tables guarantee of a package: unique bundles, channels and entries, non-empty
      deprecation messages. */
  predicate Staged(p: Package) {
    UniqueDecls(p.bundles) && UniqueChannels(p.channels) && forall d <- p.deprecations :: d.message != ""
  }

  /** Every name the package gives a graph can be a path segment. */
  predicate NamesAccepted(p: Package) {
    AcceptedSegment(p.name) && ChannelNamesAccepted(p.channels) && DeprecationsOk(p.deprecations)
  }

  /** The package gets as far as its graph: it validates and has a name for one. */
  predicate Enters(lib: FbcLib, p: Package) {
    Validates(lib, p) && AcceptedSegment(p.name)
  }

  function Executed(lib: FbcLib, p: Package): seq<Deprecation> {
    if Enters(lib, p) && ChannelNamesAccepted(p.channels) then GoodDeprecations(p.deprecations) else []
  }

  /** The catalog just before the channels are written. */
  function WithDecls(lib: FbcLib, v: View, p: Package): View {
    v.(nodes := v.nodes[p.name := NEW_NODE], bundles := AddDecls(lib, v.bundles, p.bundles))
  }

  /** The catalog after the package: its declarations, the channels before the first bad name, and, if
      there is none, the deprecations before the first bad one. */
  function Denote(lib: FbcLib, v: View, p: Package): View {
    if !Enters(lib, p) then v
    else SetMessages(WithChannels(WithDecls(lib, v, p), p.name, GoodChannels(p.channels)), p.name, Executed(lib, p))
  }

  lemma DeclsRun(lib: FbcLib, v: View, p: Package, rest: seq<Op>)
    requires forall q <- v.nodes :: !Under(p.name, q)
    ensures ViewRun(lib.semver, v, [CreateGraph([p.name])] + (InsertOps(lib, p.bundles) + rest)) ==
            if AcceptedSegment(p.name) then ViewRun(lib.semver, WithDecls(lib, v, p), rest) else Outcome(false, v)
  {
    ChannelPathText(p.name, "");
    var v1 := SetNode(v, [p.name], NEW_NODE);
    ViewRunCons(lib.semver, v, CreateGraph([p.name]), InsertOps(lib, p.bundles) + rest);
    if AcceptedSegment(p.name) {
      assert p.name !in v.nodes;
      ViewRunAppend(lib.semver, v1, InsertOps(lib, p.bundles), rest);
      InsertsRun(lib, v1, p.bundles);
    }
  }

  lemma ChannelsReady(lib: FbcLib, v: View, p: Package)
    requires Staged(p) && Enters(lib, p) && forall q <- v.nodes :: !Under(p.name, q)
    ensures var v2 := WithDecls(lib, v, p);
            forall ch <- p.channels :: ChannelPath(p.name, ch.name) !in v2.nodes && EntriesReady(lib.semver, v2, ch)
  {
    var v2 := WithDecls(lib, v, p);
    forall ch <- p.channels
      ensures ChannelPath(p.name, ch.name) !in v2.nodes && EntriesReady(lib.semver, v2, ch)
    {
      PackagePathDiffers(p.name, ch.name);
      forall e <- ch.entries
        ensures e.name in v2.bundles && (e.skipRange == "" || lib.semver.parsesRange(e.skipRange))
      {
        assert EntryOk(lib, p, e);
        DeclOfIs(p.bundles, e.name);
        AddDeclsAt(lib, v.bundles, p.bundles, e.name);
      }
    }
  }

  /** From the written bundles on: the channels, then the deprecations. */
  lemma ChannelsThenDeprecations(lib: FbcLib, v: View, p: Package)
    requires Staged(p) && Enters(lib, p) && forall q <- v.nodes :: !Under(p.name, q)
    ensures ViewRun(lib.semver, WithDecls(lib, v, p), ChannelsOps(p.name, p.channels) +
            DeprecationOps(p.name, p.deprecations))
            == Outcome(NamesAccepted(p), Denote(lib, v, p))
  {
    var v2 := WithDecls(lib, v, p);
    var v3 := WithChannels(v2, p.name, GoodChannels(p.channels));
    ChannelsReady(lib, v, p);
    ChannelsRun(lib.semver, v2, p.name, p.channels);
    ViewRunAppend(lib.semver, v2, ChannelsOps(p.name, p.channels), DeprecationOps(p.name, p.deprecations));
    if ChannelNamesAccepted(p.channels) {
      DeprecationsRun(lib.semver, v3, p.name, p.deprecations);
    }
  }

  lemma CompileParts(lib: FbcLib, p: Package)
    ensures Compile(lib, p) ==
            [CreateGraph([p.name])] + (InsertOps(lib, p.bundles)
            + (ChannelsOps(p.name, p.channels) + DeprecationOps(p.name, p.deprecations)))
  {
  }

  /** Main result: on a catalog without graphs of this package, a validated package is written whole
      exactly when its names can be path segments, and whether it is or not, the catalog afterwards is
      the one the package denotes. */
  lemma CompileRuns(lib: FbcLib, v: View, p: Package)
    requires Staged(p) && Validates(lib, p) && forall q <- v.nodes :: !Under(p.name, q)
    ensures ViewRun(lib.semver, v, Compile(lib, p)) == Outcome(NamesAccepted(p), Denote(lib, v, p))
  {
    CompileParts(lib, p);
    DeclsRun(lib, v, p, ChannelsOps(p.name, p.channels) + DeprecationOps(p.name, p.deprecations));
    if AcceptedSegment(p.name) {
      ChannelsThenDeprecations(lib, v, p);
    }
  }

  // ---------------------------------------------------------------- what a package denotes

  /** A written channel as stored: what it declares, under the last message aimed at it. */
  function StoredChannel(lib: FbcLib, p: Package, ch: Channel): Node {
    ChannelNode(ch).(deprecation := FinalMessage(None, Executed(lib, p), ChannelTarget, ch.name))
  }

  function StoredPackage(lib: FbcLib, p: Package): Node {
    NEW_NODE.(deprecation := FinalMessage(None, Executed(lib, p), PackageTarget, p.name))
  }

  /** The graphs a package places: its own, which holds nothing, and those of its good channels. */
  ghost predicate Places(lib: FbcLib, p: Package, q: string, n: Node) {
    && Enters(lib, p)
    && ((q == p.name && n == StoredPackage(lib, p)) || PlacesChannel(lib, p, q, n))
  }

  ghost predicate PlacesChannel(lib: FbcLib, p: Package, q: string, n: Node) {
    exists ch <- GoodChannels(p.channels) :: q == ChannelPath(p.name, ch.name) && n == StoredChannel(lib, p, ch)
  }

  lemma PlacesUnder(lib: FbcLib, p: Package, q: string, n: Node)
    requires Places(lib, p, q, n)
    ensures Under(p.name, q)
  {
    if ch :| ch in GoodChannels(p.channels) && q == ChannelPath(p.name, ch.name) && n == StoredChannel(lib, p, ch) {
      PackagePathDiffers(p.name, ch.name);
    }
  }

  lemma DenotesChannel(lib: FbcLib, v: View, p: Package, ch: Channel)
    requires Enters(lib, p) && Staged(p) && ch in GoodChannels(p.channels)
    ensures var q, w := ChannelPath(p.name, ch.name), Denote(lib, v, p);
            q in w.nodes && w.nodes[q] == StoredChannel(lib, p, ch)
  {
    GoodChannelsIs(p.channels);
    WithChannelsNodes(WithDecls(lib, v, p), p.name, GoodChannels(p.channels));
    ChannelMessage(WithChannels(WithDecls(lib, v, p), p.name, GoodChannels(p.channels)), p.name, Executed(lib, p),
      ch.name);
  }

  lemma DenotesPackage(lib: FbcLib, v: View, p: Package)
    requires Enters(lib, p) && Staged(p)
    ensures var w := Denote(lib, v, p); p.name in w.nodes && w.nodes[p.name] == StoredPackage(lib, p)
  {
    var v3 := WithChannels(WithDecls(lib, v, p), p.name, GoodChannels(p.channels));
    GoodChannelsIs(p.channels);
    WithChannelsNodes(WithDecls(lib, v, p), p.name, GoodChannels(p.channels));
    forall ch <- GoodChannels(p.channels) ensures ChannelPath(p.name, ch.name) != p.name {
      PackagePathDiffers(p.name, ch.name);
    }
    PackageMessage(v3, p.name, Executed(lib, p));
  }

  /** A graph outside the package stays. */
  lemma DenotesKept(lib: FbcLib, v: View, p: Package, q: string)
    requires !InPackage(p.name, q)
    ensures var w := Denote(lib, v, p);
            (q in w.nodes <==> q in v.nodes) && (q in v.nodes ==> w.nodes[q] == v.nodes[q])
  {
    if Enters(lib, p) {
      var v2, good := WithDecls(lib, v, p), GoodChannels(p.channels);
      forall ch <- good ensures q != ChannelPath(p.name, ch.name) {
        PackagePathDiffers(p.name, ch.name);
      }
      WithChannelsKeep(v2, p.name, good, q);
      MessagesFrame(WithChannels(v2, p.name, good), p.name, Executed(lib, p));
    }
  }

  /** A graph of the package is one it places. */
  lemma DenotesOnly(lib: FbcLib, v: View, p: Package, q: string)
    requires Staged(p) && Enters(lib, p) && q !in v.nodes && q in Denote(lib, v, p).nodes
    ensures Places(lib, p, q, Denote(lib, v, p).nodes[q])
  {
    var v2, good := WithDecls(lib, v, p), GoodChannels(p.channels);
    MessagesFrame(WithChannels(v2, p.name, good), p.name, Executed(lib, p));
    if q == p.name {
      DenotesPackage(lib, v, p);
    } else if ch :| ch in good && q == ChannelPath(p.name, ch.name) {
      DenotesChannel(lib, v, p, ch);
    } else {
      WithChannelsKeep(v2, p.name, good, q);
    }
  }

  /** What it places is there. */
  lemma DenotesPlaced(lib: FbcLib, v: View, p: Package, q: string, n: Node)
    requires Staged(p) && Places(lib, p, q, n)
    ensures q in Denote(lib, v, p).nodes && Denote(lib, v, p).nodes[q] == n
  {
    if q == p.name && n == StoredPackage(lib, p) {
      DenotesPackage(lib, v, p);
    } else {
      var ch :| ch in GoodChannels(p.channels) && q == ChannelPath(p.name, ch.name) && n == StoredChannel(lib, p, ch);
      DenotesChannel(lib, v, p, ch);
    }
  }

  /** The graph forest after a package: what was there, and exactly the graphs the package places. */
  lemma DenotesNodes(lib: FbcLib, v: View, p: Package)
    requires Staged(p) && forall q <- v.nodes :: !Under(p.name, q)
    ensures var w := Denote(lib, v, p);
            && (forall q <- v.nodes :: q in w.nodes && w.nodes[q] == v.nodes[q])
            && (forall q <- w.nodes :: q in v.nodes || Places(lib, p, q, w.nodes[q]))
            && (forall q, n | Places(lib, p, q, n) :: q in w.nodes && w.nodes[q] == n)
  {
    if Enters(lib, p) {
      var w := Denote(lib, v, p);
      forall q <- v.nodes ensures q in w.nodes && w.nodes[q] == v.nodes[q] {
        DenotesKept(lib, v, p, q);
      }
      forall q <- w.nodes ensures q in v.nodes || Places(lib, p, q, w.nodes[q]) {
        if q !in v.nodes {
          DenotesOnly(lib, v, p, q);
        }
      }
      forall q, n | Places(lib, p, q, n) ensures q in w.nodes && w.nodes[q] == n {
        DenotesPlaced(lib, v, p, q, n);
      }
    }
  }

  /** The ids a package enters: its bundles, and what the entries of its good channels refer to. */
  function Entered(lib: FbcLib, p: Package): set<string> {
    if Enters(lib, p) then (set b <- p.bundles :: b.name) + (set r <- ChannelsRefs(GoodChannels(p.channels))) else {}
  }

  /** The row it enters for an id: the one it declares, or a phantom. */
  function EnteredInfo(lib: FbcLib, p: Package, n: string): BundleInfo {
    match DeclOf(p.bundles, n)
    case Some(b) => InfoOf(lib, b)
    case None => PHANTOM
  }

  /** The bundle rows after a package: rows that were there stay, and exactly the ids it enters are
      new; on both, the last message it aims at the id replaces the one before. */
  lemma DenotesBundle(lib: FbcLib, v: View, p: Package, n: string)
    ensures var w, ds := Denote(lib, v, p), Executed(lib, p);
            && w.props == v.props
            && (n in w.bundles <==> n in v.bundles || n in Entered(lib, p))
            && (n in v.bundles ==>
                  w.bundles[n] ==
                    v.bundles[n].(deprecation := FinalMessage(v.bundles[n].deprecation, ds, BundleTarget, n)))
            && (n !in v.bundles && n in w.bundles ==>
                  w.bundles[n] == EnteredInfo(lib, p, n).(deprecation := FinalMessage(None, ds, BundleTarget, n)))
  {
    if Enters(lib, p) {
      var v2, good := WithDecls(lib, v, p), GoodChannels(p.channels);
      var v3 := WithChannels(v2, p.name, good);
      WithChannelsBundles(v2, p.name, good);
      AddDeclsAt(lib, v.bundles, p.bundles, n);
      DeclOfIs(p.bundles, n);
      AddPhantomsIs(v2.bundles, ChannelsRefs(good));
      MessagesFrame(v3, p.name, Executed(lib, p));
      if n in v3.bundles {
        BundleMessage(v3, p.name, Executed(lib, p), n);
      }
    }
  }
}
