/** Every writer operation keeps the tables valid, leaves every other catalog's rows alone,
    and does to the catalog by name exactly what its name-level reading says, errors included. */
module WriterRefinement {
  import opened Wrappers
  import opened Text
  import opened Content
  import opened Semver
  import opened Writer

  /** Only catalog c may differ. */
  ghost predicate OthersSame(t: Tables, u: Tables, c: string) {
    forall d | d != c :: SameRows(t, u, d)
  }

  lemma NodeAt(t: Tables, c: string, p: string)
    requires UniquePaths(t)
    ensures p in ViewOf(t, c).nodes <==> GraphId(t, c, p).Some?
    ensures GraphId(t, c, p).Some? ==>
              var g := GraphId(t, c, p).value;
              Owns(t, c, g) && t.graphs[g].path == p && ViewOf(t, c).nodes[p] == NodeOf(t, g)
  {
    NodesShown(t, c);
    if p in NodesOf(t, c) {
      var g :| IsGraph(t, c, p, g);
    } else {
      forall g ensures !IsGraph(t, c, p, g) {
        assert IsGraph(t, c, p, g) ==> Owns(t, c, g);
      }
    }
    assert GraphId(t, c, p).Some? ==> Owns(t, c, GraphId(t, c, p).value);
  }

  lemma ResolveNames(t: Tables, c: string, path: seq<string>)
    requires UniquePaths(t)
    ensures Names(ViewOf(t, c), path) <==> Resolve(t, c, path).Some?
    ensures Resolve(t, c, path).Some? ==>
              var g := Resolve(t, c, path).value;
              Owns(t, c, g) && t.graphs[g].path == Join(path, '/') &&
              ViewOf(t, c).nodes[Join(path, '/')] == NodeOf(t, g)
  {
    NodeAt(t, c, Join(path, '/'));
  }

  lemma BundleNames(t: Tables, c: string, id: string)
    requires UniqueIds(t)
    ensures id in ViewOf(t, c).bundles <==> BundleId(t, c, id).Some?
    ensures BundleId(t, c, id).Some? ==> ViewOf(t, c).bundles[id] == t.bundles[BundleId(t, c, id).value].info
  {
    BundlesShown(t, c);
    assert BundleId(t, c, id).Some? ==> OwnsBundle(t, c, BundleId(t, c, id).value);
  }

  // ---------------------------------------------------------------- rows that stay

  /** u still has every row of t under its id, with the same place in the schema. */
  ghost predicate Keeps(t: Tables, u: Tables) {
    && (forall g <- t.graphs :: g in u.graphs && t.graphs[g].catalog == u.graphs[g].catalog
                                && t.graphs[g].path == u.graphs[g].path)
    && (forall b <- t.bundles :: b in u.bundles && t.bundles[b].catalog == u.bundles[b].catalog
                                 && t.bundles[b].id == u.bundles[b].id)
  }

  ghost predicate SameLinks(t: Tables, u: Tables) {
    && t.members == u.members && t.edges == u.edges && t.ranges == u.ranges
    && t.bundleProps == u.bundleProps && t.graphProps == u.graphProps
  }

  lemma KeptLinks(t: Tables, u: Tables)
    requires LinksStay(t) && Keeps(t, u) && SameLinks(t, u)
    ensures LinksStay(u)
  {
    forall p <- u.bundleProps
      ensures exists b :: IsBundle(u, p.catalog, p.bundle, b)
    {
      var b :| IsBundle(t, p.catalog, p.bundle, b);
      assert IsBundle(u, p.catalog, p.bundle, b);
    }
  }

  lemma KeptNode(t: Tables, u: Tables, g: nat)
    requires LinksStay(t) && Keeps(t, u) && SameLinks(t, u) && g in t.graphs
    ensures NodeOf(u, g) == NodeOf(t, g).(deprecation := u.graphs[g].deprecation)
  {
    assert MemberNames(t, g) == MemberNames(u, g);
    assert EdgeNames(t, g) == EdgeNames(u, g);
    assert RangeNames(t, g) == RangeNames(u, g);
  }

  // ---------------------------------------------------------------- new rows

  lemma FreshGraph(t: Tables)
    requires Shaped(t)
    ensures t.lastGraph + 1 !in t.graphs
  {
    assert forall g <- t.graphs :: GraphShape(t, g);
  }

  lemma FreshBundle(t: Tables)
    requires Shaped(t)
    ensures t.lastBundle + 1 !in t.bundles
  {
    assert forall b <- t.bundles :: BundleShape(t, b);
  }

  lemma AddGraphShape(t: Tables, row: GraphRow)
    requires Shaped(t) && GraphShape(WithGraph(t, row), t.lastGraph + 1)
    ensures Shaped(WithGraph(t, row))
  {
    var u := WithGraph(t, row);
    FreshGraph(t);
    forall g <- t.graphs
      ensures GraphShape(u, g)
    {
      assert GraphShape(t, g);
    }
    assert forall b <- t.bundles :: BundleShape(t, b) && BundleShape(u, b);
  }

  lemma AddGraphUnique(t: Tables, row: GraphRow)
    requires UniquePaths(t) && GraphId(t, row.catalog, row.path).None?
    ensures UniquePaths(WithGraph(t, row))
  {
    forall g <- t.graphs | t.graphs[g].catalog == row.catalog
      ensures t.graphs[g].path != row.path
    {
      assert !IsGraph(t, row.catalog, row.path, g);
    }
  }

  lemma AddGraphRow(t: Tables, row: GraphRow)
    requires Valid(t) && GraphShape(WithGraph(t, row), t.lastGraph + 1)
    requires GraphId(t, row.catalog, row.path).None?
    ensures Valid(WithGraph(t, row))
  {
    AddGraphShape(t, row);
    AddGraphUnique(t, row);
    FreshGraph(t);
    KeptLinks(t, WithGraph(t, row));
  }

  lemma NewNodeShown(t: Tables, u: Tables, c: string, nodes: map<string, Node>, n: nat)
    requires LinksStay(t) && Keeps(t, u) && SameLinks(t, u) && ShowsNodes(t, c, nodes)
    requires forall g <- t.graphs :: t.graphs[g] == u.graphs[g]
    requires u.graphs.Keys == t.graphs.Keys + {n} && n !in t.graphs && Owns(u, c, n)
    requires u.graphs[n].path !in nodes
    ensures ShowsNodes(u, c, nodes[u.graphs[n].path := NodeOf(u, n)])
  {
    var path, node := u.graphs[n].path, NodeOf(u, n);
    var nodes' := nodes[path := node];
    forall g | Owns(u, c, g)
      ensures u.graphs[g].path in nodes' && nodes'[u.graphs[g].path] == NodeOf(u, g)
    {
      if g != n {
        assert Owns(t, c, g);
        KeptNode(t, u, g);
      }
    }
    forall p <- nodes'
      ensures exists g :: IsGraph(u, c, p, g)
    {
      if p == path {
        assert IsGraph(u, c, p, n);
      } else {
        var g :| IsGraph(t, c, p, g);
        assert IsGraph(u, c, p, g);
      }
    }
  }

  lemma AddGraphOthers(t: Tables, row: GraphRow, d: string)
    requires Shaped(t) && LinksStay(t) && d != row.catalog
    ensures SameRows(t, WithGraph(t, row), d)
  {
    FreshGraph(t);
  }

  lemma AddBundleShape(t: Tables, row: BundleRow)
    requires Shaped(t) && row.info.deprecation == None
    ensures Shaped(WithBundle(t, row))
  {
    var u := WithBundle(t, row);
    FreshBundle(t);
    assert forall g <- t.graphs :: GraphShape(t, g) && GraphShape(u, g);
    assert forall b <- t.bundles :: BundleShape(t, b) && BundleShape(u, b);
  }

  lemma AddBundleUnique(t: Tables, row: BundleRow)
    requires UniqueIds(t) && BundleId(t, row.catalog, row.id).None?
    ensures UniqueIds(WithBundle(t, row))
  {
    forall b <- t.bundles | t.bundles[b].catalog == row.catalog
      ensures t.bundles[b].id != row.id
    {
      assert !IsBundle(t, row.catalog, row.id, b);
    }
  }

  lemma AddBundleRow(t: Tables, row: BundleRow)
    requires Valid(t) && row.info.deprecation == None && BundleId(t, row.catalog, row.id).None?
    ensures Valid(WithBundle(t, row))
  {
    AddBundleShape(t, row);
    AddBundleUnique(t, row);
    FreshBundle(t);
    KeptLinks(t, WithBundle(t, row));
  }

  lemma NewBundleShown(t: Tables, u: Tables, c: string, bundles: map<string, BundleInfo>, n: nat)
    requires ShowsBundles(t, c, bundles)
    requires forall b <- t.bundles :: b in u.bundles && t.bundles[b] == u.bundles[b]
    requires u.bundles.Keys == t.bundles.Keys + {n} && n !in t.bundles && OwnsBundle(u, c, n)
    requires u.bundles[n].id !in bundles
    ensures ShowsBundles(u, c, bundles[u.bundles[n].id := u.bundles[n].info])
  {
    var id := u.bundles[n].id;
    var bundles' := bundles[id := u.bundles[n].info];
    forall b | OwnsBundle(u, c, b)
      ensures u.bundles[b].id in bundles' && bundles'[u.bundles[b].id] == u.bundles[b].info
    {
      if b != n {
        assert OwnsBundle(t, c, b);
      }
    }
    forall i <- bundles'
      ensures exists b :: IsBundle(u, c, i, b)
    {
      if i == id {
        assert IsBundle(u, c, i, n);
      } else {
        var b :| IsBundle(t, c, i, b);
        assert IsBundle(u, c, i, b);
      }
    }
  }

  lemma KeptNodesShown(t: Tables, u: Tables, c: string, nodes: map<string, Node>)
    requires LinksStay(t) && Keeps(t, u) && SameLinks(t, u) && t.graphs == u.graphs && ShowsNodes(t, c, nodes)
    ensures ShowsNodes(u, c, nodes)
  {
    forall g | Owns(u, c, g)
      ensures u.graphs[g].path in nodes && nodes[u.graphs[g].path] == NodeOf(u, g)
    {
      assert Owns(t, c, g);
      KeptNode(t, u, g);
    }
    forall p <- nodes
      ensures exists g :: IsGraph(u, c, p, g)
    {
      var g :| IsGraph(t, c, p, g);
      assert IsGraph(u, c, p, g);
    }
  }

  lemma AddBundleOthers(t: Tables, row: BundleRow, d: string)
    requires Shaped(t) && LinksStay(t) && d != row.catalog
    ensures SameRows(t, WithBundle(t, row), d)
  {
    FreshBundle(t);
  }

  /** The component maps of the view, one at a time. */
  lemma KeptNodesOf(t: Tables, u: Tables, c: string)
    requires LinksStay(t) && UniquePaths(t) && Keeps(t, u) && SameLinks(t, u) && t.graphs == u.graphs
    ensures NodesOf(u, c) == NodesOf(t, c)
  {
    NodesShown(t, c);
    KeptNodesShown(t, u, c, NodesOf(t, c));
    NodesShown(u, c);
    OneNodes(u, c, NodesOf(t, c), NodesOf(u, c));
  }

  lemma SameBundlesOf(t: Tables, u: Tables, c: string)
    requires UniqueIds(t) && t.bundles == u.bundles
    ensures BundlesOf(u, c) == BundlesOf(t, c)
  {
    BundlesShown(t, c);
    SameBundlesShown(t, u, c, BundlesOf(t, c));
    BundlesShown(u, c);
    OneBundles(u, c, BundlesOf(t, c), BundlesOf(u, c));
  }

  lemma NewBundlesOf(t: Tables, u: Tables, c: string, n: nat)
    requires UniqueIds(t) && UniqueIds(u)
    requires forall b <- t.bundles :: b in u.bundles && t.bundles[b] == u.bundles[b]
    requires u.bundles.Keys == t.bundles.Keys + {n} && n !in t.bundles && OwnsBundle(u, c, n)
    requires BundleId(t, c, u.bundles[n].id).None?
    ensures BundlesOf(u, c) == BundlesOf(t, c)[u.bundles[n].id := u.bundles[n].info]
  {
    BundleNames(t, c, u.bundles[n].id);
    BundlesShown(t, c);
    NewBundleShown(t, u, c, BundlesOf(t, c), n);
    BundlesShown(u, c);
    OneBundles(u, c, BundlesOf(t, c)[u.bundles[n].id := u.bundles[n].info], BundlesOf(u, c));
  }

  lemma NewNodesOf(t: Tables, u: Tables, c: string, n: nat)
    requires LinksStay(t) && UniquePaths(t) && UniquePaths(u) && Keeps(t, u) && SameLinks(t, u)
    requires forall g <- t.graphs :: t.graphs[g] == u.graphs[g]
    requires u.graphs.Keys == t.graphs.Keys + {n} && n !in t.graphs && Owns(u, c, n)
    requires GraphId(t, c, u.graphs[n].path).None?
    ensures NodesOf(u, c) == NodesOf(t, c)[u.graphs[n].path := NodeOf(u, n)]
  {
    NodesShown(t, c);
    NewNodeShown(t, u, c, NodesOf(t, c), n);
    NodesShown(u, c);
    OneNodes(u, c, NodesOf(t, c)[u.graphs[n].path := NodeOf(u, n)], NodesOf(u, c));
  }

  // ---------------------------------------------------------------- one graph's links

  /** Only what graph g holds may differ. */
  ghost predicate OnlyNode(t: Tables, u: Tables, g: nat) {
    && t.bundles == u.bundles && t.bundleProps == u.bundleProps && t.graphs.Keys == u.graphs.Keys
    && (forall h <- t.graphs :: u.graphs[h] == t.graphs[h].(deprecation := u.graphs[h].deprecation))
    && (forall h <- t.graphs :: h != g ==> NodeOf(u, h) == NodeOf(t, h))
  }

  lemma NodeShown(t: Tables, u: Tables, c: string, nodes: map<string, Node>, g: nat)
    requires OnlyNode(t, u, g) && ShowsNodes(t, c, nodes) && UniquePaths(t) && Owns(t, c, g)
    ensures ShowsNodes(u, c, nodes[t.graphs[g].path := NodeOf(u, g)])
  {
    var path := t.graphs[g].path;
    var nodes' := nodes[path := NodeOf(u, g)];
    forall h | Owns(u, c, h)
      ensures u.graphs[h].path in nodes' && nodes'[u.graphs[h].path] == NodeOf(u, h)
    {
      assert Owns(t, c, h);
    }
    forall p <- nodes'
      ensures exists h :: IsGraph(u, c, p, h)
    {
      if p == path {
        assert IsGraph(u, c, p, g);
      } else {
        var h :| IsGraph(t, c, p, h);
        assert IsGraph(u, c, p, h);
      }
    }
  }

  lemma SameBundlesShown(t: Tables, u: Tables, c: string, bundles: map<string, BundleInfo>)
    requires t.bundles == u.bundles && ShowsBundles(t, c, bundles)
    ensures ShowsBundles(u, c, bundles)
  {
    forall id <- bundles
      ensures exists b :: IsBundle(u, c, id, b)
    {
      var b :| IsBundle(t, c, id, b);
      assert IsBundle(u, c, id, b);
    }
  }

  /** From the change to one graph's node to the change to the whole view. */
  lemma NodeView(t: Tables, u: Tables, c: string, g: nat)
    requires UniquePaths(t) && UniqueIds(t) && UniquePaths(u) && UniqueIds(u) && OnlyNode(t, u, g) && Owns(t, c, g)
    ensures ViewOf(u, c) == ViewOf(t, c).(nodes := ViewOf(t, c).nodes[t.graphs[g].path := NodeOf(u, g)])
  {
    var v := ViewOf(t, c);
    NodesShown(t, c);
    BundlesShown(t, c);
    NodeShown(t, u, c, v.nodes, g);
    SameBundlesShown(t, u, c, v.bundles);
    ViewIs(u, c, v.(nodes := v.nodes[t.graphs[g].path := NodeOf(u, g)]));
  }

  lemma WithMemberNode(t: Tables, m: Slot)
    requires Linked(t, m.graph, m.bundle)
    ensures OnlyNode(t, WithMember(t, m), m.graph)
    ensures var n := NodeOf(t, m.graph);
            NodeOf(WithMember(t, m), m.graph) == n.(members := n.members + {t.bundles[m.bundle].id})
  {
    var u := WithMember(t, m);
    forall h <- t.graphs
      ensures MemberNames(u, h) == MemberNames(t, h) + if h == m.graph then {t.bundles[m.bundle].id} else {}
    {
      if h == m.graph {
        assert m in u.members;
      }
    }
  }

  lemma WithEdgeNode(t: Tables, e: EdgeRow)
    requires Linked(t, e.graph, e.from) && Linked(t, e.graph, e.to)
    ensures OnlyNode(t, WithEdge(t, e), e.graph)
    ensures var n := NodeOf(t, e.graph);
            NodeOf(WithEdge(t, e), e.graph) == n.(edges := n.edges + {(t.bundles[e.from].id, t.bundles[e.to].id)})
  {
    var u := WithEdge(t, e);
    forall h <- t.graphs
      ensures EdgeNames(u, h) == EdgeNames(t, h) + if h == e.graph
              then {(t.bundles[e.from].id, t.bundles[e.to].id)} else {}
    {
      if h == e.graph {
        assert e in u.edges;
      }
    }
  }

  lemma WithRangeNode(t: Tables, k: Slot, range: string)
    requires Linked(t, k.graph, k.bundle) && k !in t.ranges
    ensures OnlyNode(t, WithRange(t, k, range), k.graph)
    ensures var n := NodeOf(t, k.graph);
            NodeOf(WithRange(t, k, range), k.graph) == n.(ranges := n.ranges + {(t.bundles[k.bundle].id, range)})
  {
    var u := WithRange(t, k, range);
    forall h <- t.graphs
      ensures RangeNames(u, h) == RangeNames(t, h) + if h == k.graph then {(t.bundles[k.bundle].id, range)} else {}
    {
      if h == k.graph {
        assert k in u.ranges;
      }
    }
  }

  lemma GraphPropHere(t: Tables, p: GraphProp, json: string)
    ensures GraphPropsOf(WithGraphProp(t, p, json), p.graph) == GraphPropsOf(t, p.graph)[p.key := json]
  {
    assert p in WithGraphProp(t, p, json).graphProps;
  }

  lemma GraphPropElsewhere(t: Tables, p: GraphProp, json: string, h: nat)
    requires h != p.graph
    ensures GraphPropsOf(WithGraphProp(t, p, json), h) == GraphPropsOf(t, h)
  {
  }

  lemma WithGraphPropNode(t: Tables, p: GraphProp, json: string)
    requires p.graph in t.graphs
    ensures OnlyNode(t, WithGraphProp(t, p, json), p.graph)
    ensures var n := NodeOf(t, p.graph);
            NodeOf(WithGraphProp(t, p, json), p.graph) == n.(props := n.props[p.key := json])
  {
    GraphPropHere(t, p, json);
    forall h <- t.graphs | h != p.graph
      ensures GraphPropsOf(WithGraphProp(t, p, json), h) == GraphPropsOf(t, h)
    {
      GraphPropElsewhere(t, p, json, h);
    }
  }

  lemma WithGraphMessageNode(t: Tables, g: nat, message: string)
    requires g in t.graphs
    ensures OnlyNode(t, WithGraphMessage(t, g, message), g)
    ensures NodeOf(WithGraphMessage(t, g, message), g) == NodeOf(t, g).(deprecation := Some(message))
  {
    var u := WithGraphMessage(t, g, message);
    forall h <- t.graphs
      ensures MemberNames(u, h) == MemberNames(t, h) && EdgeNames(u, h) == EdgeNames(t, h)
      ensures RangeNames(u, h) == RangeNames(t, h) && GraphPropsOf(u, h) == GraphPropsOf(t, h)
    {}
  }

  // ---------------------------------------------------------------- validity

  /** Same graph and bundle rows: only the links need checking. */
  lemma SameRowsValid(t: Tables, u: Tables)
    requires Shaped(t) && UniquePaths(t) && UniqueIds(t)
    requires t.graphs == u.graphs && t.bundles == u.bundles
    requires t.lastGraph == u.lastGraph && t.lastBundle == u.lastBundle
    ensures Shaped(u) && UniquePaths(u) && UniqueIds(u)
  {
    assert forall g <- t.graphs :: GraphShape(t, g) && GraphShape(u, g);
    assert forall b <- t.bundles :: BundleShape(t, b) && BundleShape(u, b);
  }

  lemma PropsStay(t: Tables, u: Tables)
    requires LinksStay(t) && Keeps(t, u) && u.bundleProps.Keys <= t.bundleProps.Keys
    ensures forall p <- u.bundleProps :: exists b :: IsBundle(u, p.catalog, p.bundle, b)
  {
    forall p <- u.bundleProps
      ensures exists b :: IsBundle(u, p.catalog, p.bundle, b)
    {
      var b :| IsBundle(t, p.catalog, p.bundle, b);
      assert IsBundle(u, p.catalog, p.bundle, b);
    }
  }

  lemma WithMemberLinks(t: Tables, m: Slot)
    requires LinksStay(t) && Linked(t, m.graph, m.bundle)
    ensures LinksStay(WithMember(t, m))
  {
    PropsStay(t, WithMember(t, m));
  }

  lemma WithMemberValid(t: Tables, m: Slot)
    requires Valid(t) && Linked(t, m.graph, m.bundle)
    ensures Valid(WithMember(t, m))
  {
    SameRowsValid(t, WithMember(t, m));
    WithMemberLinks(t, m);
  }

  lemma WithEdgeLinks(t: Tables, e: EdgeRow)
    requires LinksStay(t) && Linked(t, e.graph, e.from) && Linked(t, e.graph, e.to)
    ensures LinksStay(WithEdge(t, e))
  {
    PropsStay(t, WithEdge(t, e));
  }

  lemma WithEdgeValid(t: Tables, e: EdgeRow)
    requires Valid(t) && Linked(t, e.graph, e.from) && Linked(t, e.graph, e.to)
    ensures Valid(WithEdge(t, e))
  {
    SameRowsValid(t, WithEdge(t, e));
    WithEdgeLinks(t, e);
  }

  lemma WithRangeLinks(t: Tables, k: Slot, range: string)
    requires LinksStay(t) && Linked(t, k.graph, k.bundle)
    ensures LinksStay(WithRange(t, k, range))
  {
    PropsStay(t, WithRange(t, k, range));
  }

  lemma WithRangeValid(t: Tables, k: Slot, range: string)
    requires Valid(t) && Linked(t, k.graph, k.bundle)
    ensures Valid(WithRange(t, k, range))
  {
    SameRowsValid(t, WithRange(t, k, range));
    WithRangeLinks(t, k, range);
  }

  lemma WithGraphPropValid(t: Tables, p: GraphProp, json: string)
    requires Valid(t) && p.graph in t.graphs
    ensures Valid(WithGraphProp(t, p, json))
  {
    SameRowsValid(t, WithGraphProp(t, p, json));
    PropsStay(t, WithGraphProp(t, p, json));
  }

  lemma WithBundlePropValid(t: Tables, p: BundleProp, json: string, b: nat)
    requires Valid(t) && IsBundle(t, p.catalog, p.bundle, b)
    ensures Valid(WithBundleProp(t, p, json))
  {
    var u := WithBundleProp(t, p, json);
    SameRowsValid(t, u);
    forall q <- u.bundleProps
      ensures exists d :: IsBundle(u, q.catalog, q.bundle, d)
    {
      if q == p {
        assert IsBundle(u, q.catalog, q.bundle, b);
      } else {
        var d :| IsBundle(t, q.catalog, q.bundle, d);
        assert IsBundle(u, q.catalog, q.bundle, d);
      }
    }
  }

  lemma WithGraphMessageShape(t: Tables, g: nat, message: string)
    requires Shaped(t) && g in t.graphs && message != ""
    ensures Shaped(WithGraphMessage(t, g, message))
  {
    var u := WithGraphMessage(t, g, message);
    forall h <- t.graphs
      ensures GraphShape(u, h)
    {
      assert GraphShape(t, h);
    }
    assert forall b <- t.bundles :: BundleShape(t, b) && BundleShape(u, b);
  }

  lemma WithGraphMessageUnique(t: Tables, g: nat, message: string)
    requires UniquePaths(t) && UniqueIds(t) && g in t.graphs
    ensures UniquePaths(WithGraphMessage(t, g, message)) && UniqueIds(WithGraphMessage(t, g, message))
  {
  }

  lemma WithGraphMessageLinks(t: Tables, g: nat, message: string)
    requires LinksStay(t) && g in t.graphs
    ensures LinksStay(WithGraphMessage(t, g, message))
  {
    KeptLinks(t, WithGraphMessage(t, g, message));
  }

  lemma WithGraphMessageValid(t: Tables, g: nat, message: string)
    requires Valid(t) && g in t.graphs && message != ""
    ensures Valid(WithGraphMessage(t, g, message))
  {
    WithGraphMessageShape(t, g, message);
    WithGraphMessageUnique(t, g, message);
    WithGraphMessageLinks(t, g, message);
  }

  lemma WithBundleMessageShape(t: Tables, b: nat, message: string)
    requires Shaped(t) && b in t.bundles && message != ""
    ensures Shaped(WithBundleMessage(t, b, message))
  {
    var u := WithBundleMessage(t, b, message);
    assert forall h <- t.graphs :: GraphShape(t, h) && GraphShape(u, h);
    assert forall d <- t.bundles :: BundleShape(t, d) && BundleShape(u, d);
  }

  lemma WithBundleMessageValid(t: Tables, b: nat, message: string)
    requires Valid(t) && b in t.bundles && message != ""
    ensures Valid(WithBundleMessage(t, b, message))
  {
    var u := WithBundleMessage(t, b, message);
    WithBundleMessageShape(t, b, message);
    assert UniquePaths(u) && UniqueIds(u);
    KeptLinks(t, u);
  }

  lemma BundleMessageShown(t: Tables, b: nat, message: string, c: string, bundles: map<string, BundleInfo>)
    requires UniqueIds(t) && ShowsBundles(t, c, bundles) && OwnsBundle(t, c, b)
    ensures ShowsBundles(WithBundleMessage(t, b, message), c,
                         bundles[t.bundles[b].id := t.bundles[b].info.(deprecation := Some(message))])
  {
    var u := WithBundleMessage(t, b, message);
    var id := t.bundles[b].id;
    var bundles' := bundles[id := t.bundles[b].info.(deprecation := Some(message))];
    forall d | OwnsBundle(u, c, d)
      ensures u.bundles[d].id in bundles' && bundles'[u.bundles[d].id] == u.bundles[d].info
    {
      assert OwnsBundle(t, c, d);
    }
    forall i <- bundles'
      ensures exists d :: IsBundle(u, c, i, d)
    {
      if i == id {
        assert IsBundle(u, c, i, b);
      } else {
        var d :| IsBundle(t, c, i, d);
        assert IsBundle(u, c, i, d);
      }
    }
  }

  // ---------------------------------------------------------------- other catalogs

  lemma WithMemberOthers(t: Tables, c: string, m: Slot, d: string)
    requires Owns(t, c, m.graph) && c != d
    ensures SameRows(t, WithMember(t, m), d)
  {
  }

  lemma WithEdgeOthers(t: Tables, c: string, e: EdgeRow, d: string)
    requires Owns(t, c, e.graph) && c != d
    ensures SameRows(t, WithEdge(t, e), d)
  {
  }

  lemma WithRangeOthers(t: Tables, c: string, k: Slot, range: string, d: string)
    requires Owns(t, c, k.graph) && c != d
    ensures SameRows(t, WithRange(t, k, range), d)
  {
  }

  lemma WithBundlePropOthers(t: Tables, p: BundleProp, json: string, d: string)
    requires p.catalog != d
    ensures SameRows(t, WithBundleProp(t, p, json), d)
  {
  }

  lemma WithGraphPropOthers(t: Tables, c: string, p: GraphProp, json: string, d: string)
    requires Owns(t, c, p.graph) && c != d
    ensures SameRows(t, WithGraphProp(t, p, json), d)
  {
  }

  lemma WithGraphMessageOthers(t: Tables, c: string, g: nat, message: string, d: string)
    requires Owns(t, c, g) && c != d
    ensures SameRows(t, WithGraphMessage(t, g, message), d)
  {
  }

  lemma WithBundleMessageOthers(t: Tables, c: string, b: nat, message: string, d: string)
    requires OwnsBundle(t, c, b) && c != d
    ensures SameRows(t, WithBundleMessage(t, b, message), d)
  {
  }

  // ---------------------------------------------------------------- the operations, one by one

  /** The tables and the catalog by name take this step together. */
  ghost predicate Refines(lib: SemverLib, t: Tables, c: string, op: Op) {
    var r := Step(lib, t, c, op);
    Valid(r.state) && ViewStep(lib, ViewOf(t, c), op) == Outcome(r.ok, ViewOf(r.state, c))
  }

  lemma RefinesBy(lib: SemverLib, t: Tables, c: string, op: Op, ok: bool, u: Tables)
    requires Step(lib, t, c, op) == Outcome(ok, u) && Valid(u) &&
             ViewStep(lib, ViewOf(t, c), op) == Outcome(ok, ViewOf(u, c))
    ensures Refines(lib, t, c, op)
  {
  }

  lemma NewBundleNodes(t: Tables, row: BundleRow)
    requires Shaped(t) && LinksStay(t) && UniquePaths(t)
    ensures NodesOf(WithBundle(t, row), row.catalog) == NodesOf(t, row.catalog)
  {
    FreshBundle(t);
    KeptNodesOf(t, WithBundle(t, row), row.catalog);
  }

  lemma NewBundleView(t: Tables, row: BundleRow)
    requires Valid(t) && row.info.deprecation == None && BundleId(t, row.catalog, row.id).None?
    ensures var u, v := WithBundle(t, row), ViewOf(t, row.catalog);
            ViewOf(u, row.catalog) == v.(bundles := v.bundles[row.id := row.info])
  {
    NewBundleNodes(t, row);
    AddBundleUnique(t, row);
    FreshBundle(t);
    NewBundlesOf(t, WithBundle(t, row), row.catalog, t.lastBundle + 1);
  }

  lemma InsertBundleRefines(lib: SemverLib, t: Tables, c: string, op: Op)
    requires Valid(t) && op.InsertBundle?
    ensures Refines(lib, t, c, op)
  {
    BundleNames(t, c, op.id);
    if BundleId(t, c, op.id).None? {
      var row := BundleRow(c, op.id, BundleInfo(op.pkg, op.version, op.release, op.uri, None));
      AddBundleRow(t, row);
      NewBundleView(t, row);
    }
  }

  ghost function NewGraph(t: Tables, c: string, path: seq<string>): GraphRow
    requires path != []
  {
    GraphRow(c, path[|path| - 1], Join(path, '/'), Resolve(t, c, path[..|path| - 1]), None)
  }

  lemma NewGraphShape(t: Tables, c: string, path: seq<string>)
    requires Shaped(t) && UniquePaths(t) && path != [] && AcceptedPath(path)
    requires |path| > 1 ==> Resolve(t, c, path[..|path| - 1]).Some?
    ensures t.lastGraph + 1 in WithGraph(t, NewGraph(t, c, path)).graphs
    ensures GraphShape(WithGraph(t, NewGraph(t, c, path)), t.lastGraph + 1)
  {
    FreshGraph(t);
    var init := path[..|path| - 1];
    if |path| > 1 {
      JoinLast(path, '/');
      ResolveNames(t, c, init);
      assert GraphShape(t, Resolve(t, c, init).value);
    } else {
      assert init == [];
    }
  }

  lemma CreateGraphStep(lib: SemverLib, t: Tables, c: string, path: seq<string>)
    ensures Step(lib, t, c, Op.CreateGraph(path))
            == if path == [] || !AcceptedPath(path) || Resolve(t, c, path).Some? ||
              (|path| > 1 && Resolve(t, c, path[..|path| - 1]).None?)
               then Outcome(false, t)
               else Outcome(true, WithGraph(t, NewGraph(t, c, path)))
  {
  }

  lemma CreateGraphView(lib: SemverLib, v: View, path: seq<string>)
    ensures ViewStep(lib, v, Op.CreateGraph(path))
            == if path == [] || !AcceptedPath(path) || Names(v, path) || (|path| > 1 && !Names(v, path[..|path| - 1]))
              then Outcome(false, v)
               else Outcome(true, SetNode(v, path, NEW_NODE))
  {
  }

  lemma CreateGraphRefines(lib: SemverLib, t: Tables, c: string, op: Op)
    requires Valid(t) && op.CreateGraph?
    ensures Refines(lib, t, c, op)
  {
    var path := op.path;
    CreateGraphStep(lib, t, c, path);
    CreateGraphView(lib, ViewOf(t, c), path);
    if path == [] || !AcceptedPath(path) {
      RefinesBy(lib, t, c, op, false, t);
    } else {
      var init := path[..|path| - 1];
      ResolveNames(t, c, path);
      ResolveNames(t, c, init);
      if Resolve(t, c, path).Some? || (|path| > 1 && Resolve(t, c, init).None?) {
        RefinesBy(lib, t, c, op, false, t);
      } else {
        CreateGraphNew(t, c, path);
        RefinesBy(lib, t, c, op, true, WithGraph(t, NewGraph(t, c, path)));
      }
    }
  }

  lemma CreateGraphNew(t: Tables, c: string, path: seq<string>)
    requires Valid(t) && path != [] && AcceptedPath(path)
    requires Resolve(t, c, path).None?
    requires |path| > 1 ==> Resolve(t, c, path[..|path| - 1]).Some?
    ensures var u := WithGraph(t, NewGraph(t, c, path));
            Valid(u) && ViewOf(u, c) == SetNode(ViewOf(t, c), path, NEW_NODE)
  {
    NewGraphShape(t, c, path);
    AddGraphRow(t, NewGraph(t, c, path));
    NewGraphView(t, NewGraph(t, c, path));
  }

  lemma WithGraphKeeps(t: Tables, row: GraphRow)
    requires t.lastGraph + 1 !in t.graphs
    ensures var u := WithGraph(t, row);
            && Keeps(t, u) && SameLinks(t, u) && (forall g <- t.graphs :: t.graphs[g] == u.graphs[g])
            && u.graphs.Keys == t.graphs.Keys + {t.lastGraph + 1} && Owns(u, row.catalog, t.lastGraph + 1)
  {
  }

  lemma NewGraphNodes(t: Tables, row: GraphRow)
    requires Shaped(t) && LinksStay(t) && UniquePaths(t) && row.deprecation == None
    requires GraphId(t, row.catalog, row.path).None?
    ensures NodesOf(WithGraph(t, row), row.catalog) == NodesOf(t, row.catalog)[row.path := NEW_NODE]
  {
    var u := WithGraph(t, row);
    FreshGraph(t);
    WithGraphKeeps(t, row);
    AddGraphUnique(t, row);
    EmptyNode(t, u, t.lastGraph + 1);
    NewNodesOf(t, u, row.catalog, t.lastGraph + 1);
  }

  lemma NewGraphBundles(t: Tables, row: GraphRow)
    requires UniqueIds(t)
    ensures BundlesOf(WithGraph(t, row), row.catalog) == BundlesOf(t, row.catalog)
    ensures BundlePropsOf(WithGraph(t, row), row.catalog) == BundlePropsOf(t, row.catalog)
  {
    SameBundlesOf(t, WithGraph(t, row), row.catalog);
  }

  lemma NewGraphView(t: Tables, row: GraphRow)
    requires Shaped(t) && LinksStay(t) && UniquePaths(t) && UniqueIds(t) && row.deprecation == None
    requires GraphId(t, row.catalog, row.path).None?
    ensures var u, v := WithGraph(t, row), ViewOf(t, row.catalog);
            ViewOf(u, row.catalog) == v.(nodes := v.nodes[row.path := NEW_NODE])
  {
    NewGraphNodes(t, row);
    NewGraphBundles(t, row);
  }

  lemma EmptyNode(t: Tables, u: Tables, n: nat)
    requires LinksStay(t) && SameLinks(t, u) && n !in t.graphs && n in u.graphs && u.graphs[n].deprecation == None
    ensures NodeOf(u, n) == NEW_NODE
  {
    assert MemberNames(u, n) == {};
    assert EdgeNames(u, n) == {};
    assert RangeNames(u, n) == {};
    assert GraphPropsOf(u, n) == map[];
  }

  lemma AddBundleToGraphStep(lib: SemverLib, t: Tables, c: string, path: seq<string>, id: string)
    ensures Step(lib, t, c, Op.AddBundleToGraph(path, id))
            == var g, b := Resolve(t, c, path), BundleId(t, c, id);
               if g.None? then Outcome(false, t)
               else if b.None? then Outcome(true, t)
               else if Slot(g.value, b.value) in t.members then Outcome(false, t)
               else Outcome(true, WithMember(t, Slot(g.value, b.value)))
  {
  }

  lemma NewMember(t: Tables, c: string, m: Slot)
    requires Valid(t) && Owns(t, c, m.graph) && OwnsBundle(t, c, m.bundle)
    ensures var u, v, n := WithMember(t, m), ViewOf(t, c), NodeOf(t, m.graph);
            Valid(u) && ViewOf(u, c) == v.(nodes := v.nodes[t.graphs[m.graph].path :=
              n.(members := n.members + {t.bundles[m.bundle].id})])
  {
    WithMemberValid(t, m);
    WithMemberNode(t, m);
    NodeView(t, WithMember(t, m), c, m.graph);
  }

  lemma AddBundleToGraphRefines(lib: SemverLib, t: Tables, c: string, op: Op)
    requires Valid(t) && op.AddBundleToGraph?
    ensures Refines(lib, t, c, op)
  {
    ResolveNames(t, c, op.path);
    BundleNames(t, c, op.id);
    AddBundleToGraphStep(lib, t, c, op.path, op.id);
    var g, b := Resolve(t, c, op.path), BundleId(t, c, op.id);
    if g.None? || b.None? {
      RefinesBy(lib, t, c, op, g.Some?, t);
    } else {
      var m := Slot(g.value, b.value);
      MemberStored(t, c, m);
      if m in t.members {
        RefinesBy(lib, t, c, op, false, t);
      } else {
        NewMember(t, c, m);
        RefinesBy(lib, t, c, op, true, WithMember(t, m));
      }
    }
  }

  lemma MemberStored(t: Tables, c: string, m: Slot)
    requires UniqueIds(t) && LinksStay(t) && Owns(t, c, m.graph) && OwnsBundle(t, c, m.bundle)
    ensures m in t.members <==> t.bundles[m.bundle].id in MemberNames(t, m.graph)
  {
  }

  lemma AddEdgeStep(lib: SemverLib, t: Tables, c: string, path: seq<string>, from: string, to: string)
    ensures Step(lib, t, c, Op.AddEdge(path, from, to))
            == var g, f, n := Resolve(t, c, path), BundleId(t, c, from), BundleId(t, c, to);
               if g.None? then Outcome(false, t)
               else if f.None? || n.None? then Outcome(true, t)
               else Outcome(true, WithEdge(t, EdgeRow(g.value, f.value, n.value)))
  {
  }

  lemma NewEdge(t: Tables, c: string, e: EdgeRow)
    requires Valid(t) && Owns(t, c, e.graph) && OwnsBundle(t, c, e.from) && OwnsBundle(t, c, e.to)
    ensures var u, v, n := WithEdge(t, e), ViewOf(t, c), NodeOf(t, e.graph);
            Valid(u) && ViewOf(u, c) == v.(nodes := v.nodes[t.graphs[e.graph].path :=
              n.(edges := n.edges + {(t.bundles[e.from].id, t.bundles[e.to].id)})])
  {
    WithEdgeValid(t, e);
    WithEdgeNode(t, e);
    NodeView(t, WithEdge(t, e), c, e.graph);
  }

  lemma AddEdgeRefines(lib: SemverLib, t: Tables, c: string, op: Op)
    requires Valid(t) && op.AddEdge?
    ensures Refines(lib, t, c, op)
  {
    ResolveNames(t, c, op.path);
    BundleNames(t, c, op.from);
    BundleNames(t, c, op.to);
    AddEdgeStep(lib, t, c, op.path, op.from, op.to);
    var g, f, n := Resolve(t, c, op.path), BundleId(t, c, op.from), BundleId(t, c, op.to);
    if g.None? || f.None? || n.None? {
      RefinesBy(lib, t, c, op, g.Some?, t);
    } else {
      var e := EdgeRow(g.value, f.value, n.value);
      NewEdge(t, c, e);
      RefinesBy(lib, t, c, op, true, WithEdge(t, e));
    }
  }

  lemma AddPredecessorRangeStep(lib: SemverLib, t: Tables, c: string, path: seq<string>, id: string, range: string)
    ensures Step(lib, t, c, Op.AddPredecessorRange(path, id, range))
            == var g, b := Resolve(t, c, path), BundleId(t, c, id);
               if g.None? || b.None? || !lib.parsesRange(range) || Slot(g.value, b.value) in t.ranges
                 then Outcome(false, t)
               else Outcome(true, WithRange(t, Slot(g.value, b.value), range))
  {
  }

  lemma AddPredecessorRangeView(lib: SemverLib, v: View, path: seq<string>, id: string, range: string)
    ensures ViewStep(lib, v, Op.AddPredecessorRange(path, id, range))
            == if !Names(v, path) || id !in v.bundles || !lib.parsesRange(range) then Outcome(false, v)
               else var p := Join(path, '/');
                 if HasRange(v.nodes[p].ranges, id) then Outcome(false, v)
                 else Outcome(true, v.(nodes := v.nodes[p := v.nodes[p].(ranges := v.nodes[p].ranges + {(id, range)})]))
  {
  }

  lemma AddPredecessorRangeRefines(lib: SemverLib, t: Tables, c: string, op: Op)
    requires Valid(t) && op.AddPredecessorRange?
    ensures Refines(lib, t, c, op)
  {
    ResolveNames(t, c, op.path);
    BundleNames(t, c, op.id);
    AddPredecessorRangeStep(lib, t, c, op.path, op.id, op.range);
    AddPredecessorRangeView(lib, ViewOf(t, c), op.path, op.id, op.range);
    var g, b := Resolve(t, c, op.path), BundleId(t, c, op.id);
    if g.None? || b.None? || !lib.parsesRange(op.range) {
      RefinesBy(lib, t, c, op, false, t);
    } else {
      var k := Slot(g.value, b.value);
      RangeStored(t, c, k);
      if k in t.ranges {
        RefinesBy(lib, t, c, op, false, t);
      } else {
        NewRange(t, c, k, op.range);
        RefinesBy(lib, t, c, op, true, WithRange(t, k, op.range));
      }
    }
  }

  lemma NewRange(t: Tables, c: string, k: Slot, range: string)
    requires Valid(t) && Owns(t, c, k.graph) && OwnsBundle(t, c, k.bundle) && k !in t.ranges
    ensures var u, v, n := WithRange(t, k, range), ViewOf(t, c), NodeOf(t, k.graph);
            Valid(u) && ViewOf(u, c) == v.(nodes := v.nodes[t.graphs[k.graph].path :=
              n.(ranges := n.ranges + {(t.bundles[k.bundle].id, range)})])
  {
    WithRangeValid(t, k, range);
    WithRangeNode(t, k, range);
    NodeView(t, WithRange(t, k, range), c, k.graph);
  }

  lemma RangeStored(t: Tables, c: string, k: Slot)
    requires UniqueIds(t) && LinksStay(t) && Owns(t, c, k.graph) && OwnsBundle(t, c, k.bundle)
    ensures k in t.ranges <==> HasRange(RangeNames(t, k.graph), t.bundles[k.bundle].id)
  {
    if k in t.ranges {
      assert (t.bundles[k.bundle].id, t.ranges[k]) in RangeNames(t, k.graph);
    }
  }

  lemma SetBundlePropertyStep(lib: SemverLib, t: Tables, c: string, id: string, key: string, json: Option<string>)
    ensures Step(lib, t, c, Op.SetBundleProperty(id, key, json))
            == if BundleId(t, c, id).None? || json.None? || json.value == "" then Outcome(false, t)
               else Outcome(true, WithBundleProp(t, BundleProp(c, id, key), json.value))
  {
  }

  lemma NewBundleProp(t: Tables, p: BundleProp, json: string, b: nat)
    requires Valid(t) && IsBundle(t, p.catalog, p.bundle, b)
    ensures var u, v := WithBundleProp(t, p, json), ViewOf(t, p.catalog);
            Valid(u) && ViewOf(u, p.catalog) == v.(props := v.props[(p.bundle, p.key) := json])
  {
    WithBundlePropValid(t, p, json, b);
    WithBundlePropView(t, p, json);
  }

  lemma SetBundlePropertyView(lib: SemverLib, v: View, id: string, key: string, json: Option<string>)
    ensures ViewStep(lib, v, Op.SetBundleProperty(id, key, json))
            == if id !in v.bundles || json.None? || json.value == "" then Outcome(false, v)
               else Outcome(true, v.(props := v.props[(id, key) := json.value]))
  {
  }

  lemma SetBundlePropertyRefines(lib: SemverLib, t: Tables, c: string, op: Op)
    requires Valid(t) && op.SetBundleProperty?
    ensures Refines(lib, t, c, op)
  {
    BundleNames(t, c, op.id);
    SetBundlePropertyStep(lib, t, c, op.id, op.key, op.json);
    SetBundlePropertyView(lib, ViewOf(t, c), op.id, op.key, op.json);
    var b := BundleId(t, c, op.id);
    if b.None? || op.json.None? || op.json.value == "" {
      RefinesBy(lib, t, c, op, false, t);
    } else {
      var p := BundleProp(c, op.id, op.key);
      NewBundleProp(t, p, op.json.value, b.value);
      RefinesBy(lib, t, c, op, true, WithBundleProp(t, p, op.json.value));
    }
  }

  lemma WithBundlePropView(t: Tables, p: BundleProp, json: string)
    requires UniquePaths(t) && UniqueIds(t)
    ensures var u, v := WithBundleProp(t, p, json), ViewOf(t, p.catalog);
            ViewOf(u, p.catalog) == v.(props := v.props[(p.bundle, p.key) := json])
  {
    var u, c := WithBundleProp(t, p, json), p.catalog;
    SameBundlesOf(t, u, c);
    NodesShown(t, c);
    SameNodesShown(t, u, c, NodesOf(t, c));
    NodesShown(u, c);
    OneNodes(u, c, NodesOf(t, c), NodesOf(u, c));
    WithBundlePropProps(t, p, json);
  }

  lemma WithBundlePropProps(t: Tables, p: BundleProp, json: string)
    ensures BundlePropsOf(WithBundleProp(t, p, json), p.catalog) ==
            BundlePropsOf(t, p.catalog)[(p.bundle, p.key) := json]
  {
    var u := WithBundleProp(t, p, json);
    assert p in u.bundleProps;
  }

  lemma SameNodesShown(t: Tables, u: Tables, c: string, nodes: map<string, Node>)
    requires ShowsNodes(t, c, nodes)
    requires t.graphs == u.graphs && t.bundles == u.bundles && t.members == u.members && t.edges == u.edges
    requires t.ranges == u.ranges && t.graphProps == u.graphProps
    ensures ShowsNodes(u, c, nodes)
  {
    forall g <- t.graphs
      ensures NodeOf(t, g) == NodeOf(u, g)
    {}
    forall path <- nodes
      ensures exists g :: IsGraph(u, c, path, g)
    {
      var g :| IsGraph(t, c, path, g);
      assert IsGraph(u, c, path, g);
    }
  }

  lemma SetGraphPropertyStep(lib: SemverLib, t: Tables, c: string, path: seq<string>, key: string, json: Option<string>)
    ensures Step(lib, t, c, Op.SetGraphProperty(path, key, json))
            == var g := Resolve(t, c, path);
               if g.None? || json.None? || json.value == "" then Outcome(false, t)
               else Outcome(true, WithGraphProp(t, GraphProp(g.value, key), json.value))
  {
  }

  lemma SetGraphPropertyView(lib: SemverLib, v: View, path: seq<string>, key: string, json: Option<string>)
    ensures ViewStep(lib, v, Op.SetGraphProperty(path, key, json))
            == if !Names(v, path) || json.None? || json.value == "" then Outcome(false, v)
               else var p := Join(path, '/');
                 Outcome(true, v.(nodes := v.nodes[p := v.nodes[p].(props := v.nodes[p].props[key := json.value])]))
  {
  }

  lemma SetGraphPropertyRefines(lib: SemverLib, t: Tables, c: string, op: Op)
    requires Valid(t) && op.SetGraphProperty?
    ensures Refines(lib, t, c, op)
  {
    var path, key, json := op.path, op.key, op.json;
    ResolveNames(t, c, path);
    SetGraphPropertyStep(lib, t, c, path, key, json);
    SetGraphPropertyView(lib, ViewOf(t, c), path, key, json);
    var g := Resolve(t, c, path);
    if g.None? || json.None? || json.value == "" {
      RefinesBy(lib, t, c, op, false, t);
    } else {
      NewGraphProp(t, c, GraphProp(g.value, key), json.value);
      RefinesBy(lib, t, c, op, true, WithGraphProp(t, GraphProp(g.value, key), json.value));
    }
  }

  lemma NewGraphProp(t: Tables, c: string, p: GraphProp, json: string)
    requires Valid(t) && Owns(t, c, p.graph)
    ensures var u, v, n := WithGraphProp(t, p, json), ViewOf(t, c), NodeOf(t, p.graph);
            && Valid(u)
            && ViewOf(u, c) == v.(nodes := v.nodes[t.graphs[p.graph].path := n.(props := n.props[p.key := json])])
  {
    WithGraphPropValid(t, p, json);
    WithGraphPropNode(t, p, json);
    NodeView(t, WithGraphProp(t, p, json), c, p.graph);
  }

  lemma SetGraphDeprecationStep(lib: SemverLib, t: Tables, c: string, path: seq<string>, message: string)
    ensures Step(lib, t, c, Op.SetGraphDeprecation(path, message))
            == var g := Resolve(t, c, path);
               if g.None? then Outcome(AcceptedPath(path), t)
               else if message == "" then Outcome(false, t)
               else Outcome(true, WithGraphMessage(t, g.value, message))
  {
  }

  lemma NewGraphMessage(t: Tables, c: string, g: nat, message: string)
    requires Valid(t) && Owns(t, c, g) && message != ""
    ensures var u, v := WithGraphMessage(t, g, message), ViewOf(t, c);
            Valid(u) &&
              ViewOf(u, c) == v.(nodes := v.nodes[t.graphs[g].path := NodeOf(t, g).(deprecation := Some(message))])
  {
    WithGraphMessageValid(t, g, message);
    WithGraphMessageNode(t, g, message);
    NodeView(t, WithGraphMessage(t, g, message), c, g);
  }

  lemma SetGraphDeprecationView(lib: SemverLib, v: View, path: seq<string>, message: string)
    ensures ViewStep(lib, v, Op.SetGraphDeprecation(path, message))
            == if !Names(v, path) then Outcome(AcceptedPath(path), v)
               else if message == "" then Outcome(false, v)
               else var p := Join(path, '/');
                    Outcome(true, v.(nodes := v.nodes[p := v.nodes[p].(deprecation := Some(message))]))
  {
  }

  lemma SetGraphDeprecationRefines(lib: SemverLib, t: Tables, c: string, op: Op)
    requires Valid(t) && op.SetGraphDeprecation?
    ensures Refines(lib, t, c, op)
  {
    ResolveNames(t, c, op.path);
    SetGraphDeprecationStep(lib, t, c, op.path, op.message);
    SetGraphDeprecationView(lib, ViewOf(t, c), op.path, op.message);
    var g := Resolve(t, c, op.path);
    if g.None? {
      RefinesBy(lib, t, c, op, AcceptedPath(op.path), t);
    } else if op.message == "" {
      RefinesBy(lib, t, c, op, false, t);
    } else {
      NewGraphMessage(t, c, g.value, op.message);
      RefinesBy(lib, t, c, op, true, WithGraphMessage(t, g.value, op.message));
    }
  }

  lemma SetBundleDeprecationRefines(lib: SemverLib, t: Tables, c: string, op: Op)
    requires Valid(t) && op.SetBundleDeprecation?
    ensures Refines(lib, t, c, op)
  {
    BundleNames(t, c, op.id);
    var b := BundleId(t, c, op.id);
    if b.Some? && op.message != "" {
      WithBundleMessageValid(t, b.value, op.message);
      WithBundleMessageView(t, c, b.value, op.message);
    }
  }

  lemma WithBundleMessageView(t: Tables, c: string, b: nat, message: string)
    requires LinksStay(t) && UniquePaths(t) && UniqueIds(t) && OwnsBundle(t, c, b)
    requires UniqueIds(WithBundleMessage(t, b, message))
    ensures var u, v := WithBundleMessage(t, b, message), ViewOf(t, c);
            ViewOf(u, c) ==
            v.(bundles := v.bundles[t.bundles[b].id := t.bundles[b].info.(deprecation := Some(message))])
  {
    var u := WithBundleMessage(t, b, message);
    KeptNodesOf(t, u, c);
    BundlesShown(t, c);
    BundleMessageShown(t, b, message, c, BundlesOf(t, c));
    BundlesShown(u, c);
    OneBundles(u, c, BundlesOf(t, c)[t.bundles[b].id := t.bundles[b].info.(deprecation := Some(message))],
      BundlesOf(u, c));
  }

  /** Main result: the tables, with their surrogate ids and foreign keys, refine the catalog by
      name. Each operation fails on the tables exactly when it fails by name, and afterwards the
      tables are valid and show exactly the catalog the name-level operation yields. */
  lemma StepRefines(lib: SemverLib, t: Tables, c: string, op: Op)
    requires Valid(t)
    ensures Refines(lib, t, c, op)
  {
    match op
    case InsertBundle(_, _, _, _, _) => InsertBundleRefines(lib, t, c, op);
    case CreateGraph(_) => CreateGraphRefines(lib, t, c, op);
    case AddBundleToGraph(_, _) => AddBundleToGraphRefines(lib, t, c, op);
    case AddEdge(_, _, _) => AddEdgeRefines(lib, t, c, op);
    case AddPredecessorRange(_, _, _) => AddPredecessorRangeRefines(lib, t, c, op);
    case SetBundleProperty(_, _, _) => SetBundlePropertyRefines(lib, t, c, op);
    case SetGraphProperty(_, _, _) => SetGraphPropertyRefines(lib, t, c, op);
    case SetGraphDeprecation(_, _) => SetGraphDeprecationRefines(lib, t, c, op);
    case SetBundleDeprecation(_, _) => SetBundleDeprecationRefines(lib, t, c, op);
  }

  lemma SameRowsReflexive(t: Tables, d: string)
    ensures SameRows(t, t, d)
  {
  }

  lemma SameRowsTransitive(t: Tables, u: Tables, w: Tables, d: string)
    requires SameRows(t, u, d) && SameRows(u, w, d)
    ensures SameRows(t, w, d)
  {
  }

  lemma InsertBundleIsolates(lib: SemverLib, t: Tables, c: string, op: Op, d: string)
    requires Valid(t) && c != d && op.InsertBundle?
    ensures SameRows(t, Step(lib, t, c, op).state, d)
  {
    var u := Step(lib, t, c, op).state;
    if u == t {
      SameRowsReflexive(t, d);
    } else {
      AddBundleOthers(t, BundleRow(c, op.id, BundleInfo(op.pkg, op.version, op.release, op.uri, None)), d);
    }
  }

  lemma CreateGraphIsolates(lib: SemverLib, t: Tables, c: string, op: Op, d: string)
    requires Valid(t) && c != d && op.CreateGraph?
    ensures SameRows(t, Step(lib, t, c, op).state, d)
  {
    var u := Step(lib, t, c, op).state;
    if u == t {
      SameRowsReflexive(t, d);
    } else {
      AddGraphOthers(t, NewGraph(t, c, op.path), d);
    }
  }

  lemma AddBundleToGraphIsolates(lib: SemverLib, t: Tables, c: string, op: Op, d: string)
    requires Valid(t) && c != d && op.AddBundleToGraph?
    ensures SameRows(t, Step(lib, t, c, op).state, d)
  {
    var u := Step(lib, t, c, op).state;
    if u == t {
      SameRowsReflexive(t, d);
    } else {
      ResolveNames(t, c, op.path);
      var g := Resolve(t, c, op.path).value;
      WithMemberOthers(t, c, Slot(g, BundleId(t, c, op.id).value), d);
    }
  }

  lemma AddEdgeIsolates(lib: SemverLib, t: Tables, c: string, op: Op, d: string)
    requires Valid(t) && c != d && op.AddEdge?
    ensures SameRows(t, Step(lib, t, c, op).state, d)
  {
    var u := Step(lib, t, c, op).state;
    if u == t {
      SameRowsReflexive(t, d);
    } else {
      ResolveNames(t, c, op.path);
      var g := Resolve(t, c, op.path).value;
      WithEdgeOthers(t, c, EdgeRow(g, BundleId(t, c, op.from).value, BundleId(t, c, op.to).value), d);
    }
  }

  lemma AddPredecessorRangeIsolates(lib: SemverLib, t: Tables, c: string, op: Op, d: string)
    requires Valid(t) && c != d && op.AddPredecessorRange?
    ensures SameRows(t, Step(lib, t, c, op).state, d)
  {
    var u := Step(lib, t, c, op).state;
    if u == t {
      SameRowsReflexive(t, d);
    } else {
      ResolveNames(t, c, op.path);
      var g := Resolve(t, c, op.path).value;
      WithRangeOthers(t, c, Slot(g, BundleId(t, c, op.id).value), op.range, d);
    }
  }

  lemma SetBundlePropertyIsolates(lib: SemverLib, t: Tables, c: string, op: Op, d: string)
    requires Valid(t) && c != d && op.SetBundleProperty?
    ensures SameRows(t, Step(lib, t, c, op).state, d)
  {
    var u := Step(lib, t, c, op).state;
    if u == t {
      SameRowsReflexive(t, d);
    } else {
      WithBundlePropOthers(t, BundleProp(c, op.id, op.key), op.json.value, d);
    }
  }

  lemma SetGraphPropertyIsolates(lib: SemverLib, t: Tables, c: string, op: Op, d: string)
    requires Valid(t) && c != d && op.SetGraphProperty?
    ensures SameRows(t, Step(lib, t, c, op).state, d)
  {
    var u := Step(lib, t, c, op).state;
    if u == t {
      SameRowsReflexive(t, d);
    } else {
      ResolveNames(t, c, op.path);
      var g := Resolve(t, c, op.path).value;
      WithGraphPropOthers(t, c, GraphProp(g, op.key), op.json.value, d);
    }
  }

  lemma SetGraphDeprecationIsolates(lib: SemverLib, t: Tables, c: string, op: Op, d: string)
    requires Valid(t) && c != d && op.SetGraphDeprecation?
    ensures SameRows(t, Step(lib, t, c, op).state, d)
  {
    var u := Step(lib, t, c, op).state;
    if u == t {
      SameRowsReflexive(t, d);
    } else {
      ResolveNames(t, c, op.path);
      var g := Resolve(t, c, op.path).value;
      WithGraphMessageOthers(t, c, g, op.message, d);
    }
  }

  lemma SetBundleDeprecationIsolates(lib: SemverLib, t: Tables, c: string, op: Op, d: string)
    requires Valid(t) && c != d && op.SetBundleDeprecation?
    ensures SameRows(t, Step(lib, t, c, op).state, d)
  {
    var u := Step(lib, t, c, op).state;
    if u == t {
      SameRowsReflexive(t, d);
    } else {
      WithBundleMessageOthers(t, c, BundleId(t, c, op.id).value, op.message, d);
    }
  }

  /** Writing to one catalog leaves every row of every other catalog as it was. */
  lemma StepIsolates(lib: SemverLib, t: Tables, c: string, op: Op, d: string)
    requires Valid(t) && c != d
    ensures SameRows(t, Step(lib, t, c, op).state, d)
  {
    match op
    case InsertBundle(_, _, _, _, _) => InsertBundleIsolates(lib, t, c, op, d);
    case CreateGraph(_) => CreateGraphIsolates(lib, t, c, op, d);
    case AddBundleToGraph(_, _) => AddBundleToGraphIsolates(lib, t, c, op, d);
    case AddEdge(_, _, _) => AddEdgeIsolates(lib, t, c, op, d);
    case AddPredecessorRange(_, _, _) => AddPredecessorRangeIsolates(lib, t, c, op, d);
    case SetBundleProperty(_, _, _) => SetBundlePropertyIsolates(lib, t, c, op, d);
    case SetGraphProperty(_, _, _) => SetGraphPropertyIsolates(lib, t, c, op, d);
    case SetGraphDeprecation(_, _) => SetGraphDeprecationIsolates(lib, t, c, op, d);
    case SetBundleDeprecation(_, _) => SetBundleDeprecationIsolates(lib, t, c, op, d);
  }
}
