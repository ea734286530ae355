/** Deleting a catalog's content. ON DELETE CASCADE follows parent ids and link ids, not
    catalog names; that it stops at the catalog's edge is a theorem about valid tables. */
module Cascade {
  import opened Wrappers
  import opened Content
  import opened WriterRefinement

  /** Every child of a dead graph is dead. */
  ghost predicate CascadeClosed(t: Tables, dead: set<nat>) {
    forall g <- t.graphs | t.graphs[g].parent.Some? && t.graphs[g].parent.value in dead :: g in dead
  }

  /** The rows a delete of `seed` takes with it: the least closed set around it. */
  ghost predicate IsCascade(t: Tables, seed: set<nat>, dead: set<nat>) {
    && seed <= dead
    && CascadeClosed(t, dead)
    && (forall s: set<nat> | seed <= s && CascadeClosed(t, s) :: dead <= s)
  }

  function GraphsOf(t: Tables, c: string): set<nat> {
    set g | g in t.graphs && t.graphs[g].catalog == c
  }

  function BundleRowsOf(t: Tables, c: string): set<nat> {
    set b | b in t.bundles && t.bundles[b].catalog == c
  }

  function RemoveGraphs(t: Tables, dead: set<nat>): Tables {
    t.(graphs := t.graphs - dead,
       members := (set m | m in t.members && m.graph !in dead),
       edges := (set e | e in t.edges && e.graph !in dead),
       ranges := (map k | k in t.ranges && k.graph !in dead :: t.ranges[k]),
       graphProps := (map p | p in t.graphProps && p.graph !in dead :: t.graphProps[p]))
  }

  predicate RefersTo(t: Tables, p: BundleProp, dead: set<nat>) {
    exists b <- dead :: b in t.bundles && t.bundles[b].catalog == p.catalog && t.bundles[b].id == p.bundle
  }

  function RemoveBundles(t: Tables, dead: set<nat>): Tables {
    t.(bundles := t.bundles - dead,
       members := (set m | m in t.members && m.bundle !in dead),
       edges := (set e | e in t.edges && e.from !in dead && e.to !in dead),
       ranges := (map k | k in t.ranges && k.bundle !in dead :: t.ranges[k]),
       bundleProps := (map p | p in t.bundleProps && !RefersTo(t, p, dead) :: t.bundleProps[p]))
  }

  /** Both statements of deleteAll, the first with its cascade. */
  function DeleteContent(t: Tables, c: string): Tables {
    var u := RemoveGraphs(t, GraphsOf(t, c));
    RemoveBundles(u, BundleRowsOf(u, c))
  }

  ghost predicate NoRows(t: Tables, c: string) {
    && (forall g :: !Owns(t, c, g))
    && (forall b :: !OwnsBundle(t, c, b))
    && (forall p <- t.bundleProps :: p.catalog != c)
  }

  /** In valid tables the cascade from a catalog's graphs ends at that catalog's graphs. */
  lemma CascadeStays(t: Tables, c: string, dead: set<nat>)
    requires Shaped(t) && IsCascade(t, GraphsOf(t, c), dead)
    ensures dead == GraphsOf(t, c)
  {
    assert CascadeClosed(t, GraphsOf(t, c)) by {
      assert forall g <- t.graphs :: GraphShape(t, g);
    }
  }

  lemma RemoveGraphsShaped(t: Tables, c: string)
    requires Shaped(t)
    ensures Shaped(RemoveGraphs(t, GraphsOf(t, c)))
  {
    var u := RemoveGraphs(t, GraphsOf(t, c));
    forall g <- u.graphs
      ensures GraphShape(u, g)
    {
      assert GraphShape(t, g);
    }
    assert forall b <- t.bundles :: BundleShape(t, b) && BundleShape(u, b);
  }

  lemma RemoveGraphsLinks(t: Tables, c: string)
    requires LinksStay(t)
    ensures LinksStay(RemoveGraphs(t, GraphsOf(t, c)))
  {
    var u := RemoveGraphs(t, GraphsOf(t, c));
    forall p <- u.bundleProps
      ensures exists b :: IsBundle(u, p.catalog, p.bundle, b)
    {
      var b :| IsBundle(t, p.catalog, p.bundle, b);
      assert IsBundle(u, p.catalog, p.bundle, b);
    }
  }

  lemma RemoveGraphsSame(t: Tables, c: string, d: string)
    requires c != d
    ensures SameRows(t, RemoveGraphs(t, GraphsOf(t, c)), d)
  {
  }

  lemma RemoveBundlesShaped(t: Tables, dead: set<nat>)
    requires Shaped(t)
    ensures Shaped(RemoveBundles(t, dead))
  {
    var u := RemoveBundles(t, dead);
    assert forall g <- t.graphs :: GraphShape(t, g) && GraphShape(u, g);
    assert forall b <- u.bundles :: BundleShape(t, b) && BundleShape(u, b);
  }

  lemma RemoveBundlesLinks(t: Tables, dead: set<nat>)
    requires LinksStay(t)
    ensures LinksStay(RemoveBundles(t, dead))
  {
    var u := RemoveBundles(t, dead);
    forall p <- u.bundleProps
      ensures exists b :: IsBundle(u, p.catalog, p.bundle, b)
    {
      var b :| IsBundle(t, p.catalog, p.bundle, b);
      assert b !in dead;
      assert IsBundle(u, p.catalog, p.bundle, b);
    }
  }

  lemma RemoveBundlesSame(t: Tables, c: string, d: string)
    requires c != d && LinksStay(t)
    ensures SameRows(t, RemoveBundles(t, BundleRowsOf(t, c)), d)
  {
    var dead := BundleRowsOf(t, c);
    forall p: BundleProp | p.catalog == d
      ensures !RefersTo(t, p, dead)
    {}
  }

  lemma DeleteContentValid(t: Tables, c: string)
    requires Valid(t)
    ensures Valid(DeleteContent(t, c))
  {
    var u := RemoveGraphs(t, GraphsOf(t, c));
    RemoveGraphsShaped(t, c);
    RemoveGraphsLinks(t, c);
    RemoveBundlesShaped(u, BundleRowsOf(u, c));
    RemoveBundlesLinks(u, BundleRowsOf(u, c));
  }

  lemma DeleteContentEmpties(t: Tables, c: string)
    requires LinksStay(t)
    ensures NoRows(DeleteContent(t, c), c)
  {
    var u := RemoveGraphs(t, GraphsOf(t, c));
    RemoveGraphsLinks(t, c);
    forall p <- DeleteContent(t, c).bundleProps
      ensures p.catalog != c
    {
      var b :| IsBundle(u, p.catalog, p.bundle, b);
      assert b !in BundleRowsOf(u, c);
    }
  }

  /** Main result: deleting a catalog's content removes exactly that catalog's rows. The tables
      stay valid, no row or link of the catalog is left, every other catalog keeps every row with
      its ids, and the id counters stay where they were, so no id is handed out twice. */
  lemma DeleteContentExact(t: Tables, c: string)
    requires Valid(t)
    ensures var u := DeleteContent(t, c);
            && Valid(u) && NoRows(u, c)
            && OthersSame(t, u, c)
            && u.lastGraph == t.lastGraph && u.lastBundle == t.lastBundle
  {
    var u := RemoveGraphs(t, GraphsOf(t, c));
    DeleteContentValid(t, c);
    DeleteContentEmpties(t, c);
    RemoveGraphsLinks(t, c);
    forall d | d != c
      ensures SameRows(t, DeleteContent(t, c), d)
    {
      RemoveGraphsSame(t, c, d);
      RemoveBundlesSame(u, c, d);
      SameRowsTransitive(t, u, DeleteContent(t, c), d);
    }
  }

  lemma NoRowsView(t: Tables, c: string)
    requires UniquePaths(t) && UniqueIds(t) && NoRows(t, c)
    ensures ViewOf(t, c) == NO_CONTENT
  {
    ViewIs(t, c, NO_CONTENT);
  }
}
