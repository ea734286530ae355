/** Runs of a store: every sequence of Set, Delete and complete OpenStore steps, failed
    transactions included, and what holds in every state of every run. */
module StoreRuns {
  import opened Wrappers
  import opened Content
  import opened Semver
  import opened WriterRefinement
  import opened Cascade
  import opened Issuing
  import opened Stores
  import opened ContentSchema

  datatype Event =
    | SetEvent(name: string, cfg: SetConfig, refused: set<Statement>)
    | DeleteEvent(name: string, ok: bool)
    | OpenEvent(version: int)

  /** `imported` is history: per catalog, the last committed import, forgotten when the catalog is
      deleted or the content tables are rebuilt. `version` is the one the running binary wants. */
  datatype System = System(db: Db, version: int, imported: map<string, ContentConfig>)

  const FRESH := Db(map[], map[], {}, {}, {}, [], EMPTY)

  ghost predicate Next(lib: SemverLib, s: System, e: Event, u: System) {
    match e
    case SetEvent(name, cfg, refused) =>
      if SetFails(s.db, name, cfg, refused) then u == s
      else
        && SetTo(lib, s.db, name, cfg, u.db)
        && u.version == s.version
        && u.imported == if cfg.content.Some? then s.imported[name := cfg.content.value] else s.imported
    case DeleteEvent(name, ok) =>
      if !ok then u == s
      else
        && DeletedTo(s.db, name, u.db)
        && u.version == s.version
        && u.imported == s.imported - {name}
    case OpenEvent(version) =>
      && u.version == version
      && !Check(s.db, version).Broken?
      && u.db == Opened(s.db, version)
      && u.imported == if Check(s.db, version).Stale? then map[] else s.imported
  }

  ghost predicate IsRun(lib: SemverLib, states: seq<System>, events: seq<Event>) {
    && |states| == |events| + 1
    && (exists v :: states[0] == System(Rebuilt(FRESH, v), v, map[]))
    && forall i | 0 <= i < |events| :: Next(lib, states[i], events[i], states[i + 1])
  }

  // ---------------------------------------------------------------- the invariant

  /** Rows belong to catalogs that exist. */
  ghost predicate Homed(db: Db) {
    && (forall c | c !in db.entries :: NoRows(db.content, c))
    && (forall l <- db.labels :: l.catalog in db.entries)
  }

  ghost predicate NamedByLabel(db: Db) {
    forall c <- db.entries :: Find(db.labels, Label(c, RESERVED)) == Some(c)
  }

  /** The catalog's digest and content are those of its last committed import, and both are empty
      when there is none. */
  ghost predicate Vouches(lib: SemverLib, s: System, c: string)
    requires c in s.db.entries
  {
    var digest, view := s.db.entries[c].digest, ViewOf(s.db.content, c);
    if c in s.imported
      then digest == s.imported[c].digest && view == ViewAll(lib, NO_CONTENT, s.imported[c].importer.ops)
    else digest == "" && view == NO_CONTENT
  }

  ghost predicate Inv(lib: SemverLib, s: System) {
    && Check(s.db, s.version).Current?
    && s.db.versions == [s.version]
    && Content.Valid(s.db.content)
    && Homed(s.db)
    && NamedByLabel(s.db)
    && s.imported.Keys <= s.db.entries.Keys
    && forall c <- s.db.entries :: Vouches(lib, s, c)
  }

  // ---------------------------------------------------------------- isolation

  /** Everything stored about catalog d. */
  ghost predicate SameCatalog(s: Db, u: Db, d: string) {
    && Find(s.entries, d) == Find(u.entries, d)
    && (forall key :: Find(s.labels, Label(d, key)) == Find(u.labels, Label(d, key)))
    && SameRows(s.content, u.content, d)
  }

  lemma NoRowsSame(t: Tables, u: Tables, c: string)
    requires NoRows(t, c) && SameRows(t, u, c)
    ensures NoRows(u, c)
  {
    forall g ensures !Owns(u, c, g) {
      assert !Owns(t, c, g);
    }
    forall b ensures !OwnsBundle(u, c, b) {
      assert !OwnsBundle(t, c, b);
    }
    forall p <- u.bundleProps ensures p.catalog != c {
      assert p.catalog == c ==> (p in t.bundleProps <==> p in u.bundleProps);
    }
  }

  lemma ContentAfterIsolates(lib: SemverLib, t: Tables, name: string, cfg: SetConfig, d: string)
    requires Content.Valid(t) && d != name
    ensures Content.Valid(ContentAfter(lib, t, name, cfg))
    ensures SameRows(t, ContentAfter(lib, t, name, cfg), d)
  {
    if cfg.content.None? {
      SameRowsReflexive(t, d);
    } else {
      var u, ops := DeleteContent(t, name), cfg.content.value.importer.ops;
      DeleteContentExact(t, name);
      ApplyAllRefines(lib, u, name, ops);
      ApplyAllIsolates(lib, u, name, ops, d);
      SameRowsTransitive(t, u, ApplyAll(lib, u, name, ops), d);
    }
  }

  /** The new content of the catalog itself, by name, is the import and nothing else. */
  lemma ContentAfterView(lib: SemverLib, t: Tables, name: string, cfg: SetConfig)
    requires Content.Valid(t)
    ensures Content.Valid(ContentAfter(lib, t, name, cfg))
    ensures cfg.content.Some? ==>
              ViewOf(ContentAfter(lib, t, name, cfg), name) == ViewAll(lib, NO_CONTENT, cfg.content.value.importer.ops)
  {
    if cfg.content.Some? {
      DeleteContentExact(t, name);
      NoRowsView(DeleteContent(t, name), name);
      ApplyAllRefines(lib, DeleteContent(t, name), name, cfg.content.value.importer.ops);
    }
  }

  /** Main result: a committed Set of one catalog leaves everything stored about every other
      catalog as it was, ids included. */
  lemma SetIsolates(lib: SemverLib, db: Db, name: string, cfg: SetConfig, u: Db, d: string)
    requires Content.Valid(db.content) && SetTo(lib, db, name, cfg, u) && d != name
    ensures SameCatalog(db, u, d)
  {
    ContentAfterIsolates(lib, db.content, name, cfg, d);
    forall key ensures Find(db.labels, Label(d, key)) == Find(u.labels, Label(d, key)) {
      assert Find(u.labels, Label(d, key)) == LabelAfter(db.labels, name, cfg, Label(d, key));
    }
  }

  /** Main result: Delete removes everything stored about the catalog and nothing else. */
  lemma DeleteExact(db: Db, name: string, u: Db, d: string)
    requires Content.Valid(db.content) && Homed(db) && DeletedTo(db, name, u)
    ensures Content.Valid(u.content)
    ensures d != name ==> SameCatalog(db, u, d)
    ensures name !in u.entries && NoRows(u.content, name) && forall key :: Find(u.labels, Label(name, key)) == None
  {
    DeleteContentExact(db.content, name);
    SameRowsReflexive(db.content, d);
    forall key ensures Find(u.labels, Label(name, key)) == None {
      assert name !in db.entries ==> Label(name, key) !in db.labels;
      assert Find(u.labels, Label(name, key)) == if name in db.entries then None else Find(db.labels, Label(name, key));
    }
    if d != name {
      forall key ensures Find(db.labels, Label(d, key)) == Find(u.labels, Label(d, key)) {
        assert Find(u.labels, Label(d, key)) == Find(db.labels, Label(d, key));
      }
    }
  }

  // ---------------------------------------------------------------- every step keeps the invariant

  lemma SetKeepsHomed(lib: SemverLib, db: Db, name: string, cfg: SetConfig, u: Db)
    requires Content.Valid(db.content) && Homed(db) && SetTo(lib, db, name, cfg, u)
    ensures Homed(u)
  {
    forall c | c !in u.entries ensures NoRows(u.content, c) {
      ContentAfterIsolates(lib, db.content, name, cfg, c);
      NoRowsSame(db.content, u.content, c);
    }
    forall l <- u.labels ensures l.catalog in u.entries {
      assert Find(u.labels, l) == LabelAfter(db.labels, name, cfg, l);
    }
  }

  lemma SetKeepsLabel(lib: SemverLib, db: Db, name: string, cfg: SetConfig, u: Db)
    requires NamedByLabel(db) && SetTo(lib, db, name, cfg, u)
    ensures NamedByLabel(u)
  {
    forall c <- u.entries ensures Find(u.labels, Label(c, RESERVED)) == Some(c) {
      assert Find(u.labels, Label(c, RESERVED)) == LabelAfter(db.labels, name, cfg, Label(c, RESERVED));
    }
  }

  lemma SetVouches(lib: SemverLib, s: System, name: string, cfg: SetConfig, u: System, c: string)
    requires Inv(lib, s) && SetTo(lib, s.db, name, cfg, u.db) && c in u.db.entries
    requires u.imported == if cfg.content.Some? then s.imported[name := cfg.content.value] else s.imported
    ensures Vouches(lib, u, c)
  {
    ContentAfterView(lib, s.db.content, name, cfg);
    if c != name {
      ContentAfterIsolates(lib, s.db.content, name, cfg, c);
      SameView(s.db.content, u.db.content, c);
      assert Vouches(lib, s, c);
    } else if name in s.db.entries {
      assert Vouches(lib, s, name);
    } else if cfg.content.None? {
      NoRowsView(s.db.content, name);
    }
  }

  lemma SetKeeps(lib: SemverLib, s: System, e: Event, u: System)
    requires Inv(lib, s) && e.SetEvent? && Next(lib, s, e, u)
    ensures Inv(lib, u)
  {
    if !SetFails(s.db, e.name, e.cfg, e.refused) {
      SetKeepsHomed(lib, s.db, e.name, e.cfg, u.db);
      SetKeepsLabel(lib, s.db, e.name, e.cfg, u.db);
      ContentAfterView(lib, s.db.content, e.name, e.cfg);
      forall c <- u.db.entries ensures Vouches(lib, u, c) {
        SetVouches(lib, s, e.name, e.cfg, u, c);
      }
    }
  }

  lemma DeleteVouches(lib: SemverLib, s: System, name: string, u: System, c: string)
    requires Inv(lib, s) && DeletedTo(s.db, name, u.db) && u.imported == s.imported - {name} && c in u.db.entries
    ensures Vouches(lib, u, c)
  {
    DeleteExact(s.db, name, u.db, c);
    SameView(s.db.content, u.db.content, c);
    assert Vouches(lib, s, c);
  }

  lemma DeleteKeepsHomed(db: Db, name: string, u: Db)
    requires Content.Valid(db.content) && Homed(db) && DeletedTo(db, name, u)
    ensures Homed(u)
  {
    forall c | c !in u.entries ensures NoRows(u.content, c) {
      DeleteExact(db, name, u, c);
      if c != name {
        NoRowsSame(db.content, u.content, c);
      }
    }
    forall l <- u.labels ensures l.catalog in u.entries {
      DeleteExact(db, name, u, name);
      assert l.catalog != name ==> Find(u.labels, l) == Find(db.labels, l);
      assert l.catalog == name ==> Find(u.labels, Label(name, l.key)) == None;
    }
  }

  lemma DeleteKeepsLabel(db: Db, name: string, u: Db)
    requires NamedByLabel(db) && DeletedTo(db, name, u)
    ensures NamedByLabel(u)
  {
    forall c <- u.entries ensures Find(u.labels, Label(c, RESERVED)) == Some(c) {
      assert Find(u.labels, Label(c, RESERVED)) == Find(db.labels, Label(c, RESERVED));
    }
  }

  lemma DeleteKeeps(lib: SemverLib, s: System, e: Event, u: System)
    requires Inv(lib, s) && e.DeleteEvent? && Next(lib, s, e, u)
    ensures Inv(lib, u)
  {
    if e.ok {
      DeleteKeepsHomed(s.db, e.name, u.db);
      DeleteKeepsLabel(s.db, e.name, u.db);
      DeleteExact(s.db, e.name, u.db, e.name);
      forall c <- u.db.entries ensures Vouches(lib, u, c) {
        DeleteVouches(lib, s, e.name, u, c);
      }
    }
  }

  lemma EmptyView(c: string)
    ensures NoRows(EMPTY, c) && ViewOf(EMPTY, c) == NO_CONTENT
  {
    EmptyValid();
    NoRowsView(EMPTY, c);
  }

  lemma RebuildKeeps(lib: SemverLib, s: System, u: System)
    requires Inv(lib, s) && u == System(Rebuilt(s.db, u.version), u.version, map[])
    ensures Inv(lib, u)
  {
    EmptyValid();
    forall c ensures NoRows(u.db.content, c) {
      EmptyView(c);
    }
    forall c <- u.db.entries ensures Vouches(lib, u, c) {
      EmptyView(c);
    }
    forall c <- u.db.entries ensures Find(u.db.labels, Label(c, RESERVED)) == Some(c) {
      assert c in s.db.entries;
    }
  }

  lemma OpenKeeps(lib: SemverLib, s: System, e: Event, u: System)
    requires Inv(lib, s) && e.OpenEvent? && Next(lib, s, e, u)
    ensures Inv(lib, u)
  {
    EmptyValid();
    if Check(s.db, e.version).Stale? {
      RebuildKeeps(lib, s, u);
    } else {
      forall c <- u.db.entries ensures Vouches(lib, u, c) {
        assert Vouches(lib, s, c);
      }
    }
  }

  lemma NextKeeps(lib: SemverLib, s: System, e: Event, u: System)
    requires Inv(lib, s) && Next(lib, s, e, u)
    ensures Inv(lib, u)
  {
    match e
    case SetEvent(_, _, _) => SetKeeps(lib, s, e, u);
    case DeleteEvent(_, _) => DeleteKeeps(lib, s, e, u);
    case OpenEvent(_) => OpenKeeps(lib, s, e, u);
  }

  lemma FirstOpen(lib: SemverLib, v: int)
    ensures Inv(lib, System(Rebuilt(FRESH, v), v, map[]))
  {
    EmptyValid();
    forall c ensures NoRows(EMPTY, c) {
      EmptyView(c);
    }
  }

  // ---------------------------------------------------------------- runs

  /** Main result: in every state of every run the content tables are sound, every row belongs to a
      catalog that exists, every catalog carries its own name as the reserved label, and digest and
      content are those of the last committed import, across failed transactions and rebuilds. */
  lemma {:induction false} RunInvariant(lib: SemverLib, states: seq<System>, events: seq<Event>, i: nat)
    requires IsRun(lib, states, events) && i < |states|
    ensures Inv(lib, states[i])
    decreases i
  {
    if i == 0 {
      var v :| states[0] == System(Rebuilt(FRESH, v), v, map[]);
      FirstOpen(lib, v);
    } else {
      RunInvariant(lib, states, events, i - 1);
      NextKeeps(lib, states[i - 1], events[i - 1], states[i]);
    }
  }

  /** event committed this content for c. */
  ghost predicate Imports(db: Db, e: Event, c: string, content: ContentConfig) {
    e.SetEvent? && e.name == c && e.cfg.content == Some(content) && !SetFails(db, e.name, e.cfg, e.refused)
  }

  /** What is recorded as imported was committed by some event of the run. */
  lemma {:induction false} ImportedHappened(lib: SemverLib, states: seq<System>, events: seq<Event>, i: nat,
                                            c: string) returns (j: nat)
    requires IsRun(lib, states, events) && i < |states| && c in states[i].imported
    ensures j < i && Imports(states[j].db, events[j], c, states[i].imported[c])
    ensures forall k | j < k <= i :: c in states[k].imported && states[k].imported[c] == states[i].imported[c]
    decreases i
  {
    assert i > 0;
    var e := events[i - 1];
    assert Next(lib, states[i - 1], e, states[i]);
    if e.SetEvent? && Imports(states[i - 1].db, e, c, states[i].imported[c]) {
      j := i - 1;
    } else {
      assert c in states[i - 1].imported && states[i - 1].imported[c] == states[i].imported[c];
      j := ImportedHappened(lib, states, events, i - 1, c);
    }
  }

  /** Main result: a non-empty digest means the catalog holds exactly what one committed import of
      the run wrote under that digest. */
  lemma DigestMeansContent(lib: SemverLib, states: seq<System>, events: seq<Event>, i: nat, c: string) returns (j: nat)
    requires IsRun(lib, states, events) && i < |states|
    requires c in states[i].db.entries && states[i].db.entries[c].digest != ""
    ensures j < i && events[j].SetEvent? && events[j].name == c && events[j].cfg.content.Some?
    ensures !SetFails(states[j].db, c, events[j].cfg, events[j].refused)
    ensures states[i].db.entries[c].digest == events[j].cfg.content.value.digest
    ensures ViewOf(states[i].db.content, c) == ViewAll(lib, NO_CONTENT, events[j].cfg.content.value.importer.ops)
  {
    RunInvariant(lib, states, events, i);
    assert Vouches(lib, states[i], c);
    j := ImportedHappened(lib, states, events, i, c);
  }

  /** The step neither names d nor rebuilds. */
  ghost predicate Spares(s: System, e: Event, d: string) {
    match e
    case SetEvent(name, _, _) => name != d
    case DeleteEvent(name, _) => name != d
    case OpenEvent(version) => !Check(s.db, version).Stale?
  }

  lemma NextSpares(lib: SemverLib, s: System, e: Event, u: System, d: string)
    requires Inv(lib, s) && Next(lib, s, e, u) && Spares(s, e, d)
    ensures SameCatalog(s.db, u.db, d)
  {
    SameRowsReflexive(s.db.content, d);
    match e
    case SetEvent(name, cfg, refused) =>
      if !SetFails(s.db, name, cfg, refused) {
        SetIsolates(lib, s.db, name, cfg, u.db, d);
      }
    case DeleteEvent(name, ok) =>
      if ok {
        DeleteExact(s.db, name, u.db, d);
      }
    case OpenEvent(_) =>
  }

  lemma SameCatalogTransitive(s: Db, u: Db, w: Db, d: string)
    requires SameCatalog(s, u, d) && SameCatalog(u, w, d)
    ensures SameCatalog(s, w, d)
  {
    SameRowsTransitive(s.content, u.content, w.content, d);
    forall key ensures Find(s.labels, Label(d, key)) == Find(w.labels, Label(d, key)) {
      assert Find(s.labels, Label(d, key)) == Find(u.labels, Label(d, key));
    }
  }

  /** Main result: over any stretch of a run that neither sets nor deletes d nor rebuilds the
      content tables, nothing stored about d changes. */
  lemma {:induction false} RunIsolates(lib: SemverLib, states: seq<System>, events: seq<Event>, i: nat, j: nat,
                                       d: string)
    requires IsRun(lib, states, events) && i <= j < |states|
    requires forall k | i <= k < j :: Spares(states[k], events[k], d)
    ensures SameCatalog(states[i].db, states[j].db, d)
    decreases j
  {
    if i == j {
      SameRowsReflexive(states[i].db.content, d);
    } else {
      RunIsolates(lib, states, events, i, j - 1, d);
      RunInvariant(lib, states, events, j - 1);
      assert Spares(states[j - 1], events[j - 1], d);
      NextSpares(lib, states[j - 1], events[j - 1], states[j], d);
      SameCatalogTransitive(states[i].db, states[j - 1].db, states[j].db, d);
    }
  }
}
