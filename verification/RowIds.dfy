/** Ids of graph and bundle rows are never handed out twice while the content tables live. */
module RowIds {
  import opened Wrappers
  import opened Content
  import opened Semver
  import opened Writer
  import opened WriterRefinement
  import opened Cascade
  import opened Issuing
  import opened Stores
  import opened ContentSchema
  import opened StoreRuns

  /** The same graph, deprecation message aside. */
  predicate SameGraph(a: GraphRow, b: GraphRow) {
    a.catalog == b.catalog && a.name == b.name && a.path == b.path && a.parent == b.parent
  }

  predicate SameBundle(a: BundleRow, b: BundleRow) {
    a.catalog == b.catalog && a.id == b.id && a.info.(deprecation := None) == b.info.(deprecation := None)
  }

  /** Every row of u was in t, as the same graph or bundle, or has an id beyond all that t had handed
      out. */
  ghost predicate Grows(t: Tables, u: Tables) {
    && t.lastGraph <= u.lastGraph && t.lastBundle <= u.lastBundle
    && (forall g <- u.graphs :: (g in t.graphs && SameGraph(t.graphs[g], u.graphs[g])) || g > t.lastGraph)
    && (forall b <- u.bundles :: (b in t.bundles && SameBundle(t.bundles[b], u.bundles[b])) || b > t.lastBundle)
  }

  lemma GrowsTransitive(t: Tables, u: Tables, w: Tables)
    requires Grows(t, u) && Grows(u, w)
    ensures Grows(t, w)
  {
  }

  lemma SameRowsGrow(t: Tables, u: Tables)
    requires t.graphs == u.graphs && t.bundles == u.bundles && t.lastGraph == u.lastGraph &&
             t.lastBundle == u.lastBundle
    ensures Grows(t, u)
  {
  }

  lemma MessageGrows(t: Tables, id: nat, message: string)
    ensures id in t.graphs ==> Grows(t, WithGraphMessage(t, id, message))
    ensures id in t.bundles ==> Grows(t, WithBundleMessage(t, id, message))
  {
  }

  lemma GraphStepGrows(lib: SemverLib, t: Tables, c: string, op: Op)
    requires op.CreateGraph? || op.SetGraphDeprecation?
    ensures Grows(t, Step(lib, t, c, op).state)
  {
    SameRowsGrow(t, t);
    if op.SetGraphDeprecation? {
      var g := Resolve(t, c, op.path);
      if g.Some? {
        MessageGrows(t, g.value, op.message);
      }
    }
  }

  lemma BundleStepGrows(lib: SemverLib, t: Tables, c: string, op: Op)
    requires op.InsertBundle? || op.SetBundleDeprecation?
    ensures Grows(t, Step(lib, t, c, op).state)
  {
    SameRowsGrow(t, t);
    if op.SetBundleDeprecation? {
      var b := BundleId(t, c, op.id);
      if b.Some? {
        MessageGrows(t, b.value, op.message);
      }
    }
  }

  lemma StepGrows(lib: SemverLib, t: Tables, c: string, op: Op)
    ensures Grows(t, Step(lib, t, c, op).state)
  {
    if op.CreateGraph? || op.SetGraphDeprecation? {
      GraphStepGrows(lib, t, c, op);
    } else if op.InsertBundle? || op.SetBundleDeprecation? {
      BundleStepGrows(lib, t, c, op);
    } else {
      SameRowsGrow(t, Step(lib, t, c, op).state);
    }
  }

  lemma {:induction false} ApplyAllGrows(lib: SemverLib, t: Tables, c: string, ops: seq<Op>)
    ensures Grows(t, ApplyAll(lib, t, c, ops))
    decreases |ops|
  {
    if ops != [] {
      var u := Step(lib, t, c, ops[0]).state;
      StepGrows(lib, t, c, ops[0]);
      ApplyAllGrows(lib, u, c, ops[1..]);
      GrowsTransitive(t, u, ApplyAll(lib, u, c, ops[1..]));
    }
  }

  lemma DeleteGrows(t: Tables, c: string)
    ensures Grows(t, DeleteContent(t, c))
  {
  }

  ghost predicate Rebuilds(s: System, e: Event) {
    e.OpenEvent? && Check(s.db, e.version).Stale?
  }

  lemma NextGrows(lib: SemverLib, s: System, e: Event, u: System)
    requires Next(lib, s, e, u) && !Rebuilds(s, e)
    ensures Grows(s.db.content, u.db.content)
  {
    match e
    case SetEvent(name, cfg, refused) =>
      if !SetFails(s.db, name, cfg, refused) && cfg.content.Some? {
        var t := DeleteContent(s.db.content, name);
        DeleteGrows(s.db.content, name);
        ApplyAllGrows(lib, t, name, cfg.content.value.importer.ops);
        GrowsTransitive(s.db.content, t, u.db.content);
      }
    case DeleteEvent(name, ok) => DeleteGrows(s.db.content, name);
    case OpenEvent(_) =>
  }

  lemma {:induction false} RunGrows(lib: SemverLib, states: seq<System>, events: seq<Event>, i: nat, j: nat)
    requires IsRun(lib, states, events) && i <= j < |states|
    requires forall k | i <= k < j :: !Rebuilds(states[k], events[k])
    ensures Grows(states[i].db.content, states[j].db.content)
    decreases j
  {
    if i < j {
      RunGrows(lib, states, events, i, j - 1);
      assert !Rebuilds(states[j - 1], events[j - 1]);
      NextGrows(lib, states[j - 1], events[j - 1], states[j]);
      GrowsTransitive(states[i].db.content, states[j - 1].db.content, states[j].db.content);
    }
  }

  /** Main result: between two states of a run without a rebuild between them, a row id stands for the
      same graph or bundle, whatever was deleted and written in between. */
  lemma IdsKeepTheirMeaning(lib: SemverLib, states: seq<System>, events: seq<Event>, i: nat, j: nat, id: nat)
    requires IsRun(lib, states, events) && i <= j < |states|
    requires forall k | i <= k < j :: !Rebuilds(states[k], events[k])
    ensures var t, u := states[i].db.content, states[j].db.content;
            && (id in t.graphs && id in u.graphs ==> SameGraph(t.graphs[id], u.graphs[id]))
            && (id in t.bundles && id in u.bundles ==> SameBundle(t.bundles[id], u.bundles[id]))
  {
    RunInvariant(lib, states, events, i);
    RunGrows(lib, states, events, i, j);
    var t := states[i].db.content;
    if id in t.graphs {
      assert GraphShape(t, id);
    }
    if id in t.bundles {
      assert BundleShape(t, id);
    }
  }
}
