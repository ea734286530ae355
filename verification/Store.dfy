/** The store: catalog metadata, labels and content in one database, and the transactions that
    set and delete a catalog. */
module Stores {
  import opened Wrappers
  import opened Content
  import opened Semver
  import opened Writer
  import opened WriterRefinement
  import opened Cascade
  import opened ContentWriters
  import opened Issuing

  /** The label every catalog carries with its own name. */
  const RESERVED := "olm.operatorframework.io/metadata.name"

  datatype Entry = Entry(uri: string, digest: string, priority: int)
  datatype Label = Label(catalog: string, key: string)

  /** The content tables, in the order the schema creates them. */
  datatype Table =
    | VersionTable | GraphTable | BundleTable | MemberTable
    | SuccessorTable | RangeTable | BundlePropTable | GraphPropTable

  /** The indexes of the content tables, in the order the schema creates them. */
  datatype Index =
    | GraphParent | SuccessorLookup | RangeLookup | MemberBundle | SuccessorFrom | SuccessorTo | RangeBundle

  /** `present` are the known content tables that exist, `unknown` the names of other tables that
      match content_%; `versions` are the rows of the version table. */
  datatype Db = Db(
    entries: map<string, Entry>,
    labels: map<Label, string>,
    present: set<Table>,
    indexes: set<Index>,
    unknown: set<string>,
    versions: seq<int>,
    content: Tables)

  /** An importer as the writer sees it: the operations it issues, in order, and how it ends. A
      failed operation does not stop an importer that goes on after it. */
  datatype ImportResult = Clean | Partial | Fatal
  datatype Importer = Importer(ops: seq<Op>, result: ImportResult)

  datatype ContentConfig = ContentConfig(importer: Importer, digest: string)
  datatype SetConfig = SetConfig(
    uri: Option<string>,
    priority: Option<int>,
    labels: Option<map<string, string>>,
    content: Option<ContentConfig>)

  /** The statements of a transaction that the engine can refuse. */
  datatype Statement =
    | Begin | LookUp | WriteEntry | ClearContent | WriteDigest | WriteLabels | WriteReserved | ReadBack | Commit

  datatype Catalog = Catalog(name: string, entry: Entry, labels: map<string, string>)
  datatype SetResult = Returned(cat: Catalog, partial: bool) | Refused

  // ---------------------------------------------------------------- what Set promises

  predicate ReservedConflict(name: string, labels: map<string, string>) {
    RESERVED in labels && labels[RESERVED] != name
  }

  /** Set gives up exactly here: a statement it issues is refused, a new catalog has no URI, the
      importer ends in an error that is not partial, or the reserved label is claimed for
      another name. */
  predicate SetFails(db: Db, name: string, cfg: SetConfig, refused: set<Statement>) {
    || Begin in refused || LookUp in refused || WriteReserved in refused || ReadBack in refused || Commit in refused
    || (name !in db.entries && cfg.uri.None?)
    || (WriteEntry in refused && (name !in db.entries || cfg.uri.Some? || cfg.priority.Some?))
    || (cfg.content.Some? &&
       (ClearContent in refused || WriteDigest in refused || cfg.content.value.importer.result.Fatal?))
    || (cfg.labels.Some? && (WriteLabels in refused || ReservedConflict(name, cfg.labels.value)))
  }

  function OrElse<T>(o: Option<T>, x: T): T {
    if o.Some? then o.value else x
  }

  function EntryAfter(db: Db, name: string, cfg: SetConfig): Entry {
    var was := if name in db.entries then db.entries[name] else Entry("", "", 0);
    Entry(OrElse(cfg.uri, was.uri),
          if cfg.content.Some? then cfg.content.value.digest else was.digest,
          OrElse(cfg.priority, was.priority))
  }

  function Find<K, V>(m: map<K, V>, k: K): Option<V> {
    if k in m then Some(m[k]) else None
  }

  function LabelAfter(rows: map<Label, string>, name: string, cfg: SetConfig, l: Label): Option<string> {
    if l.catalog != name then Find(rows, l)
    else if l.key == RESERVED then Some(name)
    else if cfg.labels.Some? then Find(cfg.labels.value, l.key)
    else Find(rows, l)
  }

  ghost function ContentAfter(lib: SemverLib, t: Tables, name: string, cfg: SetConfig): Tables {
    if cfg.content.None? then t
    else ApplyAll(lib, DeleteContent(t, name), name, cfg.content.value.importer.ops)
  }

  /** u is db after a committed Set. */
  ghost predicate SetTo(lib: SemverLib, db: Db, name: string, cfg: SetConfig, u: Db) {
    && u.entries == db.entries[name := EntryAfter(db, name, cfg)]
    && (forall l :: Find(u.labels, l) == LabelAfter(db.labels, name, cfg, l))
    && u.content == ContentAfter(lib, db.content, name, cfg)
    && u.present == db.present && u.indexes == db.indexes && u.unknown == db.unknown && u.versions == db.versions
  }

  function LabelsOf(db: Db, name: string): map<string, string> {
    map l | l in db.labels && l.catalog == name :: l.key := db.labels[l]
  }

  function Snapshot(db: Db, name: string): Catalog
    requires name in db.entries
  {
    Catalog(name, db.entries[name], LabelsOf(db, name))
  }

  /** u is db after a committed Delete. Content goes by the cascade from the metadata row. */
  ghost predicate DeletedTo(db: Db, name: string, u: Db) {
    && u.entries == db.entries - {name}
    && (forall l :: Find(u.labels, l) == if l.catalog == name && name in db.entries then None else Find(db.labels, l))
    && u.content == (if name in db.entries then DeleteContent(db.content, name) else db.content)
    && u.present == db.present && u.indexes == db.indexes && u.unknown == db.unknown && u.versions == db.versions
  }

  // ---------------------------------------------------------------- the transactions

  /** The insert of a new catalog, or the updates of an existing one. */
  method WriteMetadata(entries: map<string, Entry>, name: string, cfg: SetConfig, fails: bool)
    returns (r: Option<map<string, Entry>>)
    ensures r.None? <==>
            (name !in entries && (cfg.uri.None? || fails)) || (fails && (cfg.uri.Some? || cfg.priority.Some?))
    ensures r.Some? ==>
            r.value == entries[name := var was := if name in entries then entries[name] else Entry("", "", 0);
                                                   was.(uri := OrElse(cfg.uri, was.uri),
                                                     priority := OrElse(cfg.priority, was.priority))]
  {
    if name !in entries {
      if cfg.uri.None? || fails {
        return None;
      }
      var priority := if cfg.priority.Some? then cfg.priority.value else 0;
      return Some(entries[name := Entry(cfg.uri.value, "", priority)]);
    }
    var now := entries;
    if cfg.uri.Some? {
      if fails {
        return None;
      }
      now := now[name := now[name].(uri := cfg.uri.value)];
    }
    if cfg.priority.Some? {
      if fails {
        return None;
      }
      now := now[name := now[name].(priority := cfg.priority.value)];
    }
    r := Some(now);
  }

  /** deleteAll followed by the import, in the transaction's tables. */
  method ReplaceContent(lib: SemverLib, t: Tables, name: string, ops: seq<Op>) returns (u: Tables)
    requires Content.Valid(t)
    ensures Content.Valid(u) && u == ApplyAll(lib, DeleteContent(t, name), name, ops)
  {
    var w := new ContentWriter(lib, t, name);
    w.DeleteAll();
    IssueAll(w, ops);
    u := w.tables;
  }

  /** The label statements of Set. */
  method ReplaceLabels(rows: map<Label, string>, name: string, given: map<string, string>)
    returns (labels: map<Label, string>)
    ensures forall l :: Find(labels, l) == if l.catalog != name then Find(rows, l)
                                           else if l.key == RESERVED then None
                                           else Find(given, l.key)
  {
    labels := map l | l in rows && l.catalog != name :: rows[l];
    var todo := given.Keys;
    while todo != {}
      invariant todo <= given.Keys
      invariant forall l :: Find(labels, l) == if l.catalog != name then Find(rows, l)
                                               else if l.key == RESERVED || l.key in todo then None
                                               else Find(given, l.key)
      decreases todo
    {
      var k :| k in todo;
      if k != RESERVED {
        labels := labels[Label(name, k) := given[k]];
      }
      todo := todo - {k};
    }
  }

  /** The content part of Set: replace the rows, import, and be ready to store the digest. */
  method WriteContent(lib: SemverLib, t: Tables, name: string, cfg: SetConfig, refused: set<Statement>)
    returns (r: Option<Tables>)
    requires Content.Valid(t)
    ensures r.None? <==>
            cfg.content.Some? &&
              (ClearContent in refused || WriteDigest in refused || cfg.content.value.importer.result.Fatal?)
    ensures r.Some? ==> Content.Valid(r.value) && r.value == ContentAfter(lib, t, name, cfg)
  {
    if cfg.content.None? {
      return Some(t);
    }
    if ClearContent in refused {
      return None;
    }
    var written := ReplaceContent(lib, t, name, cfg.content.value.importer.ops);
    if cfg.content.value.importer.result.Fatal? || WriteDigest in refused {
      return None;
    }
    r := Some(written);
  }

  /** The label part of Set, with the reserved label written last. */
  method WriteLabelRows(rows: map<Label, string>, name: string, cfg: SetConfig, refused: set<Statement>)
    returns (r: Option<map<Label, string>>)
    ensures r.None? <==> WriteReserved in refused
                         || (cfg.labels.Some? && (WriteLabels in refused || ReservedConflict(name, cfg.labels.value)))
    ensures r.Some? ==> forall l :: Find(r.value, l) == LabelAfter(rows, name, cfg, l)
  {
    var labels := rows;
    if cfg.labels.Some? {
      if ReservedConflict(name, cfg.labels.value) || WriteLabels in refused {
        return None;
      }
      labels := ReplaceLabels(rows, name, cfg.labels.value);
    }
    if WriteReserved in refused {
      return None;
    }
    r := Some(labels[Label(name, RESERVED) := name]);
  }

  class Store {
    const lib: SemverLib
    var db: Db

    /** What an opened store rests on: its content tables are sound. */
    ghost predicate Valid()
      reads this
    {
      Content.Valid(db.content)
    }

    constructor (lib: SemverLib, db: Db)
      requires Content.Valid(db.content)
      ensures Valid() && this.db == db && this.lib == lib
    {
      this.lib, this.db := lib, db;
    }

    /** The transaction works on tx; only the last line makes it the database. */
    method Set(name: string, cfg: SetConfig, refused: set<Statement>) returns (r: SetResult)
      requires Valid()
      modifies this`db
      ensures Valid()
      ensures r.Refused? <==> SetFails(old(db), name, cfg, refused)
      ensures r.Refused? ==> db == old(db)
      ensures r.Returned? ==> SetTo(lib, old(db), name, cfg, db) && r.cat == Snapshot(db, name)
      ensures r.Returned? ==> (r.partial <==> cfg.content.Some? && cfg.content.value.importer.result.Partial?)
    {
      if Begin in refused || LookUp in refused {
        return Refused;
      }
      var tx := db;
      var entries := WriteMetadata(tx.entries, name, cfg, WriteEntry in refused);
      if entries.None? {
        return Refused;
      }
      tx := tx.(entries := entries.value);
      var content := WriteContent(lib, tx.content, name, cfg, refused);
      if content.None? {
        return Refused;
      }
      var labels := WriteLabelRows(tx.labels, name, cfg, refused);
      if labels.None? {
        return Refused;
      }
      if ReadBack in refused || Commit in refused {
        return Refused;
      }
      var digest := if cfg.content.Some? then cfg.content.value.digest else tx.entries[name].digest;
      tx := tx.(content := content.value, labels := labels.value,
                entries := tx.entries[name := tx.entries[name].(digest := digest)]);
      var cat := Snapshot(tx, name);
      db := tx;
      r := Returned(cat, cfg.content.Some? && cfg.content.value.importer.result.Partial?);
    }

    method Delete(name: string, refused: set<Statement>) returns (ok: bool)
      requires Valid()
      modifies this`db
      ensures Valid()
      ensures ok <==> Begin !in refused && WriteEntry !in refused && Commit !in refused
      ensures if ok then DeletedTo(old(db), name, db) else db == old(db)
    {
      if Begin in refused || WriteEntry in refused || Commit in refused {
        return false;
      }
      ok := true;
      if name in db.entries {
        var w := new ContentWriter(lib, db.content, name);
        w.DeleteAll();
        db := db.(entries := db.entries - {name},
                  labels := (map l | l in db.labels && l.catalog != name :: db.labels[l]),
                  content := w.tables);
      } else {
        assert db.entries - {name} == db.entries;
      }
    }

    method Get(name: string) returns (r: Option<Catalog>)
      ensures r.Some? <==> name in db.entries
      ensures r.Some? ==> r.value == Snapshot(db, name)
    {
      r := if name in db.entries then Some(Snapshot(db, name)) else None;
    }
  }
}
