/** Opening a store: the check of the content schema version, and the rebuild of the content
    tables, whose statements are not one transaction. */
module ContentSchema {
  import opened Wrappers
  import opened Content
  import opened Semver
  import opened Seqs
  import opened Stores

  const CONTENT_SCHEMA_VERSION := 6

  const CREATE_ORDER: seq<Table> :=
    [VersionTable, GraphTable, BundleTable, MemberTable, SuccessorTable, RangeTable, BundlePropTable, GraphPropTable]

  const DROP_ORDER: seq<Table> :=
    [BundlePropTable, GraphPropTable, RangeTable, SuccessorTable, MemberTable, GraphTable, BundleTable, VersionTable]

  const ALL_TABLES: set<Table> :=
    {VersionTable, GraphTable, BundleTable, MemberTable, SuccessorTable, RangeTable, BundlePropTable, GraphPropTable}

  const INDEX_ORDER: seq<Index> :=
    [GraphParent, SuccessorLookup, RangeLookup, MemberBundle, SuccessorFrom, SuccessorTo, RangeBundle]

  const ALL_INDEXES: set<Index> :=
    {GraphParent, SuccessorLookup, RangeLookup, MemberBundle, SuccessorFrom, SuccessorTo, RangeBundle}

  function Indexed(i: Index): Table {
    match i
    case GraphParent => GraphTable
    case SuccessorLookup => SuccessorTable
    case RangeLookup => RangeTable
    case MemberBundle => MemberTable
    case SuccessorFrom => SuccessorTable
    case SuccessorTo => SuccessorTable
    case RangeBundle => RangeTable
  }

  datatype Verdict = Current | Stale | Broken

  /** checkContentSchemaVersion. A version table without a row is an error. */
  function Check(db: Db, version: int): Verdict {
    if VersionTable !in db.present then Stale
    else if db.versions == [] then Broken
    else if db.versions[0] == version then Current
    else Stale
  }

  // ---------------------------------------------------------------- the rebuild, statement by statement

  /** Dropping a table drops its rows, its indexes and, for the numbered tables, its id counter. */
  function Emptied(t: Tables, table: Table): Tables {
    match table
    case VersionTable => t
    case GraphTable => t.(graphs := map[], lastGraph := 0)
    case BundleTable => t.(bundles := map[], lastBundle := 0)
    case MemberTable => t.(members := {})
    case SuccessorTable => t.(edges := {})
    case RangeTable => t.(ranges := map[])
    case BundlePropTable => t.(bundleProps := map[])
    case GraphPropTable => t.(graphProps := map[])
  }

  function DropTable(db: Db, table: Table): Db {
    db.(present := db.present - {table},
        indexes := (set i | i in db.indexes && Indexed(i) != table),
        versions := if table == VersionTable then [] else db.versions,
        content := Emptied(db.content, table))
  }

  function CreateTable(db: Db, table: Table): Db {
    db.(present := db.present + {table})
  }

  function CreateIndex(db: Db, i: Index): Db {
    db.(indexes := db.indexes + {i})
  }

  function StoreVersion(db: Db, version: int): Db {
    db.(versions := db.versions + [version])
  }

  function ClearDigests(db: Db): Db {
    db.(entries := map c | c in db.entries :: db.entries[c].(digest := ""))
  }

  /** Eight drops, eight tables, seven indexes, the version row, the digests. */
  const STATEMENTS := 25

  /** The database once the first n of the twenty-five statements have been carried out. */
  function Rebuilding(db: Db, version: int, n: nat): Db
    requires n <= STATEMENTS
  {
    if n == 0 then db
    else
      var was := Rebuilding(db, version, n - 1);
      if n <= 8 then DropTable(was, DROP_ORDER[n - 1])
      else if n <= 16 then CreateTable(was, CREATE_ORDER[n - 9])
      else if n <= 23 then CreateIndex(was, INDEX_ORDER[n - 17])
      else if n == 24 then StoreVersion(was, version)
      else ClearDigests(was)
  }

  /** A database with all content tables, empty, and no digest left. */
  function Rebuilt(db: Db, version: int): Db {
    ClearDigests(Db(db.entries, db.labels, ALL_TABLES, ALL_INDEXES, db.unknown, [version], EMPTY))
  }

  /** OpenStore until it returns or, after `budget` statements of the rebuild, the process dies or
      the engine refuses the next one. `left` is the database it leaves behind. */
  method OpenStore(lib: SemverLib, db: Db, budget: nat) returns (r: Option<Store>, left: Db)
    requires Check(db, CONTENT_SCHEMA_VERSION).Current? ==> Content.Valid(db.content)
    ensures var verdict := Check(db, CONTENT_SCHEMA_VERSION);
            && (r.Some? <==> verdict.Current? || (verdict.Stale? && db.unknown == {} && budget >= STATEMENTS))
            && left == if verdict.Stale? && db.unknown == {}
                       then Rebuilding(db, CONTENT_SCHEMA_VERSION, if budget < STATEMENTS then budget else STATEMENTS)
                            else db
    ensures r.Some? ==> fresh(r.value) && r.value.Valid() && r.value.db == left && r.value.lib == lib
  {
    left := db;
    if VersionTable in db.present && db.versions == [] {
      return None, left;
    }
    if VersionTable !in db.present || db.versions[0] != CONTENT_SCHEMA_VERSION {
      if db.unknown != {} {
        return None, left;
      }
      var done;
      done, left := Rebuild(db, CONTENT_SCHEMA_VERSION, budget);
      if !done {
        return None, left;
      }
      RebuildComplete(db, CONTENT_SCHEMA_VERSION);
      EmptyValid();
    }
    var store := new Store(lib, left);
    r := Some(store);
  }

  /** The statements of the rebuild, one by one, as far as the budget goes. */
  method Rebuild(db: Db, version: int, budget: nat) returns (done: bool, left: Db)
    ensures done <==> budget >= STATEMENTS
    ensures left == Rebuilding(db, version, if budget < STATEMENTS then budget else STATEMENTS)
  {
    left, done := db, false;
    for i := 0 to |DROP_ORDER|
      invariant i <= budget && left == Rebuilding(db, version, i)
    {
      if budget == i {
        return;
      }
      left := DropTable(left, DROP_ORDER[i]);
    }
    for i := 0 to |CREATE_ORDER|
      invariant 8 + i <= budget && left == Rebuilding(db, version, 8 + i)
    {
      if budget == 8 + i {
        return;
      }
      left := CreateTable(left, CREATE_ORDER[i]);
    }
    for i := 0 to |INDEX_ORDER|
      invariant 16 + i <= budget && left == Rebuilding(db, version, 16 + i)
    {
      if budget == 16 + i {
        return;
      }
      left := CreateIndex(left, INDEX_ORDER[i]);
    }
    if budget == 23 {
      return;
    }
    left := StoreVersion(left, version);
    if budget == 24 {
      return;
    }
    left, done := ClearDigests(left), true;
  }

  lemma EmptyValid()
    ensures Content.Valid(EMPTY)
  {
  }

  // ---------------------------------------------------------------- where the rebuild can stop

  /** While tables are dropped nothing else changes, and the version table goes last. */
  lemma {:induction false} Dropping(db: Db, version: int, n: nat)
    requires n <= 7
    ensures var d := Rebuilding(db, version, n);
            && d.entries == db.entries && d.labels == db.labels && d.unknown == db.unknown && d.versions == db.versions
            && (VersionTable in d.present <==> VersionTable in db.present)
            && (forall k | 0 <= k < n :: DROP_ORDER[k] !in d.present)
            && (forall i <- d.indexes :: forall k | 0 <= k < n :: Indexed(i) != DROP_ORDER[k])
  {
    if n > 0 {
      Dropping(db, version, n - 1);
      assert DROP_ORDER[n - 1] != VersionTable;
    }
  }

  /** A table that was dropped stays empty. */
  lemma {:induction false} DroppedRows(db: Db, version: int, n: nat)
    requires n <= 7
    ensures var t := Rebuilding(db, version, n).content;
            && (n >= 1 ==> t.bundleProps == map[]) && (n >= 2 ==> t.graphProps == map[]) &&
                  (n >= 3 ==> t.ranges == map[])
            && (n >= 4 ==> t.edges == {}) && (n >= 5 ==> t.members == {})
            && (n >= 6 ==> t.graphs == map[] && t.lastGraph == 0) &&
                  (n >= 7 ==> t.bundles == map[] && t.lastBundle == 0)
  {
    if n > 0 {
      DroppedRows(db, version, n - 1);
    }
  }

  /** Eight drops leave no content table behind and no row. */
  lemma Dropped(db: Db, version: int)
    ensures Rebuilding(db, version, 8) == Db(db.entries, db.labels, {}, {}, db.unknown, [], EMPTY)
  {
    Dropping(db, version, 7);
    DroppedRows(db, version, 7);
    var d7 := Rebuilding(db, version, 7);
    assert d7.content == EMPTY;
    forall i: Index ensures i !in d7.indexes {
      assert Indexed(i) == DROP_ORDER[match i case GraphParent => 5 case MemberBundle => 4
                                              case RangeLookup => 2 case RangeBundle => 2 case _ => 3];
    }
    forall t ensures t !in DropTable(d7, VersionTable).present {
      if t != VersionTable {
        var k := match t
          case BundlePropTable => 0
          case GraphPropTable => 1
          case RangeTable => 2
          case SuccessorTable => 3
          case MemberTable => 4
          case GraphTable => 5
          case _ => 6;
        assert DROP_ORDER[k] == t;
      }
    }
  }

  lemma ElemsNext<T>(s: seq<T>, i: nat)
    requires i < |s|
    ensures Elems(s[..i + 1]) == Elems(s[..i]) + {s[i]}
  {
    assert s[..i + 1] == s[..i] + [s[i]];
  }

  /** Then the tables come back empty, the version table first and without a row. */
  lemma {:induction false} Creating(db: Db, version: int, n: nat)
    requires 8 <= n <= 16
    ensures Rebuilding(db, version, n) ==
            Db(db.entries, db.labels, Elems(CREATE_ORDER[..n - 8]), {}, db.unknown, [], EMPTY)
  {
    if n == 8 {
      Dropped(db, version);
      assert Elems(CREATE_ORDER[..0]) == {};
    } else {
      Creating(db, version, n - 1);
      ElemsNext(CREATE_ORDER, n - 9);
    }
  }

  /** And then their indexes. */
  lemma {:induction false} Indexing(db: Db, version: int, n: nat)
    requires 16 <= n <= 23
    ensures Rebuilding(db, version, n) ==
            Db(db.entries, db.labels, ALL_TABLES, Elems(INDEX_ORDER[..n - 16]), db.unknown, [], EMPTY)
  {
    if n == 16 {
      Creating(db, version, 16);
      assert CREATE_ORDER[..8] == CREATE_ORDER && Elems(CREATE_ORDER) == ALL_TABLES;
      assert Elems(INDEX_ORDER[..0]) == {};
    } else {
      Indexing(db, version, n - 1);
      ElemsNext(INDEX_ORDER, n - 17);
    }
  }

  lemma RebuildComplete(db: Db, version: int)
    ensures Rebuilding(db, version, 24) ==
            Db(db.entries, db.labels, ALL_TABLES, ALL_INDEXES, db.unknown, [version], EMPTY)
    ensures Rebuilding(db, version, STATEMENTS) == Rebuilt(db, version)
  {
    Indexing(db, version, 23);
    assert INDEX_ORDER[..7] == INDEX_ORDER && Elems(INDEX_ORDER) == ALL_INDEXES;
  }

  /** What the next OpenStore makes of a database, when it is left alone. */
  function Opened(db: Db, version: int): Db {
    if Check(db, version).Stale? then Rebuilt(db, version) else db
  }

  /** Main result: where the rebuild may stop without harm. After at most eight statements the
      next open starts over and ends as if nothing had happened. From then until the version row is
      stored, every later open fails and changes nothing. After the version row but before the
      digests are cleared, the next open takes the empty tables for current. */
  lemma StoppingPoints(db: Db, version: int, n: nat)
    requires Check(db, version).Stale? && n <= STATEMENTS
    ensures var d := Rebuilding(db, version, n);
            if n <= 8 then Check(d, version).Stale? && Opened(d, version) == Rebuilt(db, version)
            else if n <= 23 then forall v :: Check(d, v).Broken?
            else if n == 24 then Check(d, version).Current? && d.entries == db.entries && d.content == EMPTY
            else Check(d, version).Current? && d == Rebuilt(db, version)
  {
    if n <= 7 {
      Dropping(db, version, n);
    } else if n <= 16 {
      Creating(db, version, n);
      if n > 8 {
        assert CREATE_ORDER[..n - 8][0] == VersionTable;
      }
    } else if n <= 23 {
      Indexing(db, version, n);
    } else {
      RebuildComplete(db, version);
    }
  }

  ghost predicate StaleDigest(db: Db) {
    exists c <- db.entries :: db.entries[c].digest != ""
  }

  /** A stopped rebuild leads to a store whose digests vouch for content that is gone exactly when
      it stopped between storing the version and clearing a digest. */
  lemma StaleDigestExactly(db: Db, version: int, n: nat)
    requires Check(db, version).Stale? && n <= STATEMENTS
    ensures var d := Rebuilding(db, version, n);
            !Check(d, version).Broken? ==>
              Opened(d, version).content == EMPTY && (StaleDigest(Opened(d, version)) <==> n == 24 && StaleDigest(db))
  {
    StoppingPoints(db, version, n);
  }

  /** A store of an earlier schema with one imported catalog. */
  function EarlierStore(): Db {
    Db(map["c" := Entry("uri", "digest", 0)], map[], ALL_TABLES, ALL_INDEXES, {}, [CONTENT_SCHEMA_VERSION - 1], EMPTY)
  }

  /** If its rebuild stops once all tables are there, no later open succeeds, of whatever version. */
  lemma NeverOpensHappens(version: int)
    ensures Check(EarlierStore(), CONTENT_SCHEMA_VERSION).Stale? && EarlierStore().unknown == {}
    ensures Check(Rebuilding(EarlierStore(), CONTENT_SCHEMA_VERSION, 16), version).Broken?
  {
    StoppingPoints(EarlierStore(), CONTENT_SCHEMA_VERSION, 16);
  }

  /** If its rebuild stops just before the digests are cleared, the next open finds a current schema,
      no content, and the old digest. */
  lemma StaleDigestHappens()
    ensures var db, version := EarlierStore(), CONTENT_SCHEMA_VERSION;
            && Check(db, version).Stale? && db.unknown == {}
            && Check(Rebuilding(db, version, 24), version).Current?
            && StaleDigest(Opened(Rebuilding(db, version, 24), version))
            && Opened(Rebuilding(db, version, 24), version).content == EMPTY
  {
    var db := EarlierStore();
    assert "c" in db.entries && db.entries["c"].digest == "digest";
    assert StaleDigest(db);
    StoppingPoints(db, CONTENT_SCHEMA_VERSION, 24);
    StaleDigestExactly(db, CONTENT_SCHEMA_VERSION, 24);
  }
}
