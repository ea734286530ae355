/** Catalog queries: the bundles a graph lists and the successors it offers, as the store
    answers them from the tables. */
module Query {
  import opened Wrappers
  import opened Ordering
  import opened Seqs
  import opened Content
  import opened Semver
  import opened Graphs

  /** One item of a result sequence. After Panic nothing more is yielded. */
  datatype Yield =
    | Bundle(id: string, info: BundleInfo)
    | VersionError(id: string)
    | RangeError(range: string)
    | Panic(id: string)

  /** A content_bundles row as selected, and the same with a version range. */
  datatype Row = Row(id: string, info: BundleInfo)
  datatype RangeRow = RangeRow(row: Row, range: string)

  function ParseBundleRow(lib: SemverLib, row: Row): Yield {
    if row.info.version != "" && !lib.parsesVersion(row.info.version) then VersionError(row.id)
    else if !lib.parsesRelease(row.info.release) then Panic(row.id)
    else Bundle(row.id, row.info)
  }

  function ParseRows(lib: SemverLib, rows: seq<Row>): seq<Yield> {
    seq(|rows|, i requires 0 <= i < |rows| => ParseBundleRow(lib, rows[i]))
  }

  /** What a consumer sees of `out` when the program panics at the first Panic. */
  function UpToPanic(out: seq<Yield>): seq<Yield> {
    if out == [] then []
    else if out[0].Panic? then [out[0]]
    else [out[0]] + UpToPanic(out[1..])
  }

  lemma {:induction false} UpToPanicAppend(a: seq<Yield>, b: seq<Yield>)
    requires forall y <- a :: !y.Panic?
    ensures UpToPanic(a + b) == a + UpToPanic(b)
  {
    if a == [] {
      assert a + b == b;
    } else {
      UpToPanicAppend(a[1..], b);
      assert (a + b)[1..] == a[1..] + b;
    }
  }

  lemma NoPanic(out: seq<Yield>)
    requires forall y <- out :: !y.Panic?
    ensures UpToPanic(out) == out
  {
    UpToPanicAppend(out, []);
    assert out + [] == out;
  }

  /** The range half of Successors: rows whose id was already yielded are dropped, rows whose
      range does not parse are reported, and a matching row marks its id as seen. */
  function RangePart(lib: SemverLib, rows: seq<RangeRow>, seen: set<string>, version: string): seq<Yield> {
    if rows == [] then []
    else
      var r := rows[0];
      if r.row.id in seen then RangePart(lib, rows[1..], seen, version)
      else if !lib.parsesRange(r.range) then [RangeError(r.range)] + RangePart(lib, rows[1..], seen, version)
      else if !lib.inRange(r.range, version) then RangePart(lib, rows[1..], seen, version)
      else [ParseBundleRow(lib, r.row)] + RangePart(lib, rows[1..], seen + {r.row.id}, version)
  }

  method StreamBundleRows(lib: SemverLib, rows: seq<Row>) returns (out: seq<Yield>)
    ensures out == UpToPanic(ParseRows(lib, rows))
  {
    out := [];
    ghost var all := ParseRows(lib, rows);
    for i := 0 to |rows|
      invariant out == all[..i]
      invariant forall y <- out :: !y.Panic?
    {
      var y := ParseBundleRow(lib, rows[i]);
      PanicEnds(out, y, all[i + 1..]);
      assert all == out + ([y] + all[i + 1..]);
      out := out + [y];
      if y.Panic? {
        return;
      }
    }
    NoPanic(out);
    assert out == all;
  }

  method QuerySuccessorsStreaming(lib: SemverLib, explicit: seq<Row>, ranged: seq<RangeRow>, version: string)
    returns (out: seq<Yield>)
    ensures out == UpToPanic(ParseRows(lib, explicit) + RangePart(lib, ranged, set r <- explicit :: r.id, version))
  {
    out := [];
    var seen: set<string> := {};
    ghost var first := ParseRows(lib, explicit);
    ghost var total := first + RangePart(lib, ranged, set r <- explicit :: r.id, version);
    for i := 0 to |explicit|
      invariant out == first[..i]
      invariant seen == set r <- explicit[..i] :: r.id
      invariant forall y <- out :: !y.Panic?
    {
      seen := seen + {explicit[i].id};
      assert explicit[..i + 1] == explicit[..i] + [explicit[i]];
      var y := ParseBundleRow(lib, explicit[i]);
      PanicEnds(out, y, total[i + 1..]);
      assert total == out + ([y] + total[i + 1..]);
      out := out + [y];
      if y.Panic? {
        return;
      }
    }
    assert explicit[..|explicit|] == explicit && out == first;
    for i := 0 to |ranged|
      invariant total == out + RangePart(lib, ranged[i..], seen, version)
      invariant forall y <- out :: !y.Panic?
    {
      var r := ranged[i];
      assert ranged[i..][1..] == ranged[i + 1..];
      if r.row.id !in seen {
        if !lib.parsesRange(r.range) {
          out := out + [RangeError(r.range)];
        } else if lib.inRange(r.range, version) {
          var y := ParseBundleRow(lib, r.row);
          seen := seen + {r.row.id};
          PanicEnds(out, y, RangePart(lib, ranged[i + 1..], seen, version));
          out := out + [y];
          if y.Panic? {
            return;
          }
        }
      }
    }
    NoPanic(out);
    assert ranged[|ranged|..] == [] && total == out + [] == out;
  }

  lemma PanicEnds(out: seq<Yield>, y: Yield, rest: seq<Yield>)
    requires forall x <- out :: !x.Panic?
    ensures out + ([y] + rest) == out + [y] + rest
    ensures y.Panic? ==> UpToPanic(out + ([y] + rest)) == out + [y]
  {
    UpToPanicAppend(out, [y] + rest);
  }

  // ---------------------------------------------------------------- exactly once

  /** out yields each wanted bundle once, yields nothing else, and no two share an id. */
  ghost predicate YieldsExactly(out: seq<Yield>, want: set<Row>) {
    && (forall y <- out :: y.Bundle? && Row(y.id, y.info) in want)
    && (forall i, j | 0 <= i < j < |out| :: out[i].Bundle? && out[j].Bundle? ==> out[i].id != out[j].id)
    && (forall r <- want :: Bundle(r.id, r.info) in out)
  }

  predicate Clean(lib: SemverLib, row: Row) {
    (row.info.version == "" || lib.parsesVersion(row.info.version)) && lib.parsesRelease(row.info.release)
  }

  predicate Coherent(rows: set<Row>) {
    forall r, s | r in rows && s in rows && r.id == s.id :: r == s
  }

  lemma ParseRowsExact(lib: SemverLib, rows: seq<Row>)
    requires forall r <- rows :: Clean(lib, r)
    requires forall i, j | 0 <= i < j < |rows| :: rows[i].id != rows[j].id
    ensures YieldsExactly(ParseRows(lib, rows), Elems(rows))
    ensures UpToPanic(ParseRows(lib, rows)) == ParseRows(lib, rows)
  {
    var out := ParseRows(lib, rows);
    forall i | 0 <= i < |rows|
      ensures out[i] == Bundle(rows[i].id, rows[i].info)
    {
      assert Clean(lib, rows[i]);
    }
    NoPanic(out);
  }

  ghost function Matching(lib: SemverLib, rows: seq<RangeRow>, seen: set<string>, version: string): set<Row> {
    set r | r in rows && lib.inRange(r.range, version) && r.row.id !in seen :: r.row
  }

  /** A row that does not match, or was seen, adds nothing. */
  lemma MatchingSkips(lib: SemverLib, r: RangeRow, rest: seq<RangeRow>, seen: set<string>, version: string)
    requires r.row.id in seen || !lib.inRange(r.range, version)
    ensures Matching(lib, [r] + rest, seen, version) == Matching(lib, rest, seen, version)
  {
  }

  /** A row that matches accounts for every later row of its id. */
  lemma MatchingTakes(lib: SemverLib, r: RangeRow, rest: seq<RangeRow>, seen: set<string>, version: string)
    requires r.row.id !in seen && lib.inRange(r.range, version)
    requires forall y <- rest | y.row.id == r.row.id :: y.row == r.row
    ensures Matching(lib, [r] + rest, seen, version) == Matching(lib, rest, seen + {r.row.id}, version) + {r.row}
  {
    assert r in [r] + rest;
  }

  lemma YieldsOneMore(out: seq<Yield>, want: set<Row>, row: Row)
    requires YieldsExactly(out, want) && forall x <- want :: x.id != row.id
    ensures YieldsExactly([Bundle(row.id, row.info)] + out, want + {row})
  {
    forall i | 0 <= i < |out| ensures out[i].Bundle? && out[i].id != row.id {
      assert out[i] in out;
    }
  }

  lemma CoherentTail(r: RangeRow, rest: seq<RangeRow>)
    requires Coherent(set x <- [r] + rest :: x.row)
    ensures Coherent(set x <- rest :: x.row) && forall y <- rest | y.row.id == r.row.id :: y.row == r.row
  {
    var all := set x <- [r] + rest :: x.row;
    assert r in [r] + rest && r.row in all;
    forall y <- rest ensures y.row in all {
      assert y in [r] + rest;
    }
  }

  lemma {:induction false} RangePartExact(lib: SemverLib, rows: seq<RangeRow>, seen: set<string>, version: string)
    requires forall r <- rows :: lib.parsesRange(r.range) && Clean(lib, r.row)
    requires Coherent(set r <- rows :: r.row)
    ensures YieldsExactly(RangePart(lib, rows, seen, version), Matching(lib, rows, seen, version))
  {
    if rows != [] {
      var r, rest := rows[0], rows[1..];
      assert rows == [r] + rest;
      CoherentTail(r, rest);
      if r.row.id in seen || !lib.inRange(r.range, version) {
        RangePartExact(lib, rest, seen, version);
        MatchingSkips(lib, r, rest, seen, version);
      } else {
        RangePartExact(lib, rest, seen + {r.row.id}, version);
        MatchingTakes(lib, r, rest, seen, version);
        YieldsOneMore(RangePart(lib, rest, seen + {r.row.id}, version),
          Matching(lib, rest, seen + {r.row.id}, version), r.row);
      }
    }
  }

  // ---------------------------------------------------------------- what the queries select

  function RowOf(t: Tables, b: nat): Row
    requires b in t.bundles
  {
    Row(t.bundles[b].id, t.bundles[b].info)
  }

  /** content_graph_bundles joined with content_bundles; rows without a version are phantoms. */
  function ListedBundles(t: Tables, scope: set<nat>): set<nat> {
    set m | m in t.members && m.graph in scope && m.bundle in t.bundles && t.bundles[m.bundle].info.version != "" ::
      m.bundle
  }

  /** content_successors joined with content_bundles on the target. */
  function ExplicitBundles(t: Tables, scope: set<nat>, from: Option<nat>): set<nat> {
    set e | e in t.edges && e.graph in scope && from == Some(e.from) && e.to in t.bundles :: e.to
  }

  function RangeSlots(t: Tables, scope: set<nat>): set<Slot> {
    set k | k in t.ranges && k.graph in scope && k.bundle in t.bundles
  }

  function MatchedBundles(lib: SemverLib, t: Tables, scope: set<nat>, version: string): set<nat> {
    set k | k in RangeSlots(t, scope) && lib.inRange(t.ranges[k], version) :: k.bundle
  }

  function RowsAt(t: Tables, bundles: set<nat>): set<Row> {
    set b | b in bundles && b in t.bundles :: RowOf(t, b)
  }

  function RangeRowsAt(t: Tables, slots: set<Slot>): set<RangeRow> {
    set k | k in slots && k in t.ranges && k.bundle in t.bundles :: RangeRow(RowOf(t, k.bundle), t.ranges[k])
  }

  function ListedRows(t: Tables, scope: set<nat>): set<Row> {
    RowsAt(t, ListedBundles(t, scope))
  }

  function SuccessorRows(lib: SemverLib, t: Tables, scope: set<nat>, from: Option<nat>, version: string): set<Row> {
    RowsAt(t, ExplicitBundles(t, scope, from)) +
    RowsAt(t, MatchedBundles(lib, t, scope, version))
  }

  /** Every version, release and range text the catalog stores is empty or parses. */
  ghost predicate TextsParse(lib: SemverLib, t: Tables, c: string) {
    && (forall b <- t.bundles | t.bundles[b].catalog == c :: Clean(lib, RowOf(t, b)))
    && (forall k <- t.ranges | Owns(t, c, k.graph) :: lib.parsesRange(t.ranges[k]))
  }

  ghost predicate InCatalog(t: Tables, c: string, scope: set<nat>) {
    forall g <- scope :: Owns(t, c, g)
  }

  /** (SELECT id FROM content_bundles WHERE bundle_id = ?): some row with that id, of any catalog. */
  ghost predicate ScalarBundle(t: Tables, id: string, from: Option<nat>) {
    match from
    case None => forall b <- t.bundles :: t.bundles[b].id != id
    case Some(b) => b in t.bundles && t.bundles[b].id == id
  }

  lemma CatalogRowsCoherent(t: Tables, c: string, bundles: set<nat>)
    requires UniqueIds(t) && forall b <- bundles :: OwnsBundle(t, c, b)
    ensures Coherent(RowsAt(t, bundles))
    ensures forall b, d | b in bundles && d in bundles && b in t.bundles && d in t.bundles &&
            t.bundles[b].id == t.bundles[d].id :: b == d
  {
  }

  lemma ScopeBundles(t: Tables, c: string, scope: set<nat>)
    requires LinksStay(t) && InCatalog(t, c, scope)
    ensures forall b <- ListedBundles(t, scope) :: OwnsBundle(t, c, b)
    ensures forall from: Option<nat>, b :: b in ExplicitBundles(t, scope, from) ==> OwnsBundle(t, c, b)
    ensures forall k <- RangeSlots(t, scope) :: OwnsBundle(t, c, k.bundle)
  {
  }

  // ---------------------------------------------------------------- the queries

  method SelectRows(t: Tables, bundles: set<nat>, ghost c: string) returns (rows: seq<Row>)
    requires UniqueIds(t) && forall b <- bundles :: OwnsBundle(t, c, b)
    ensures Elems(rows) == RowsAt(t, bundles)
    ensures forall i, j | 0 <= i < j < |rows| :: rows[i].id != rows[j].id
  {
    var ids := Enumerate(bundles);
    rows := seq(|ids|, i requires 0 <= i < |ids| => assert ids[i] in bundles; RowOf(t, ids[i]));
    CatalogRowsCoherent(t, c, bundles);
    assert forall i | 0 <= i < |ids| :: ids[i] in bundles && rows[i] == RowOf(t, ids[i]);
    forall r <- RowsAt(t, bundles)
      ensures r in rows
    {
      var b :| b in bundles && r == RowOf(t, b);
      var i :| 0 <= i < |ids| && ids[i] == b;
      assert rows[i] == r;
    }
  }

  method SelectRanged(t: Tables, slots: set<Slot>) returns (rows: seq<RangeRow>)
    requires forall k <- slots :: k in t.ranges && k.bundle in t.bundles
    ensures Elems(rows) == RangeRowsAt(t, slots)
  {
    var keys := Enumerate(slots);
    assert forall i | 0 <= i < |keys| :: keys[i] in slots;
    rows := seq(|keys|, i requires 0 <= i < |keys| => RangeRow(RowOf(t, keys[i].bundle), t.ranges[keys[i]]));
    forall k <- slots
      ensures RangeRow(RowOf(t, k.bundle), t.ranges[k]) in rows
    {
      var i :| 0 <= i < |keys| && keys[i] == k;
      assert rows[i] == RangeRow(RowOf(t, k.bundle), t.ranges[k]);
    }
  }

  method SelectScalarBundle(t: Tables, id: string) returns (from: Option<nat>)
    ensures ScalarBundle(t, id, from)
  {
    var rows := set b | b in t.bundles && t.bundles[b].id == id;
    if rows == {} {
      assert forall b <- t.bundles :: t.bundles[b].id == id ==> b in rows;
      from := None;
    } else {
      var b :| b in rows;
      from := Some(b);
    }
  }

  function IdOf(row: Row): string {
    row.id
  }

  /** out streams the rows in the order of their ids, up to a panic. */
  ghost predicate StreamsInOrder(lib: SemverLib, out: seq<Yield>, rows: set<Row>) {
    exists ordered: seq<Row> ::
      Elems(ordered) == rows && AscendingBy(ordered, IdOf) && out == UpToPanic(ParseRows(lib, ordered))
  }

  /** The ids yielded ascend strictly. */
  ghost predicate IdsAscend(out: seq<Yield>) {
    forall i, j | 0 <= i < j < |out| :: out[i].Bundle? && out[j].Bundle? ==> CompareStrings(out[i].id, out[j].id) < 0
  }

  /** ListBundles over a set of graphs: one graph for a plain graph, all descendants for a
      composite one. */
  method QueryBundles(lib: SemverLib, t: Tables, scope: set<nat>, ghost c: string) returns (out: seq<Yield>)
    requires Valid(t) && InCatalog(t, c, scope)
    ensures StreamsInOrder(lib, out, ListedRows(t, scope))
    ensures TextsParse(lib, t, c) ==> YieldsExactly(out, ListedRows(t, scope)) && IdsAscend(out)
  {
    ScopeBundles(t, c, scope);
    var rows := SelectRows(t, ListedBundles(t, scope), c);
    var ordered := OrderBy(rows, IdOf);
    StrictlyAscending(rows, ordered, IdOf);
    assert Elems(ordered) == Elems(rows);
    out := StreamBundleRows(lib, ordered);
    if TextsParse(lib, t, c) {
      CleanRows(lib, t, c, ListedBundles(t, scope));
      OrderedRowsExact(lib, ordered);
    }
  }

  lemma AscendingIdsDiffer(ordered: seq<Row>)
    requires AscendingBy(ordered, IdOf)
    ensures forall i, j | 0 <= i < j < |ordered| :: ordered[i].id != ordered[j].id
  {
    forall i, j | 0 <= i < j < |ordered| ensures ordered[i].id != ordered[j].id {
      CompareStringsZero(IdOf(ordered[i]), IdOf(ordered[j]));
    }
  }

  lemma ParsedAscend(lib: SemverLib, ordered: seq<Row>)
    requires AscendingBy(ordered, IdOf)
    ensures IdsAscend(ParseRows(lib, ordered))
  {
    forall i, j | 0 <= i < j < |ordered|
      ensures CompareStrings(IdOf(ordered[i]), IdOf(ordered[j])) < 0
    {
    }
  }

  lemma OrderedRowsExact(lib: SemverLib, ordered: seq<Row>)
    requires AscendingBy(ordered, IdOf) && forall r <- ordered :: Clean(lib, r)
    ensures var out := UpToPanic(ParseRows(lib, ordered)); YieldsExactly(out, Elems(ordered)) && IdsAscend(out)
  {
    AscendingIdsDiffer(ordered);
    ParsedAscend(lib, ordered);
    ParseRowsExact(lib, ordered);
  }

  lemma CleanRows(lib: SemverLib, t: Tables, c: string, bundles: set<nat>)
    requires TextsParse(lib, t, c) && forall b <- bundles :: OwnsBundle(t, c, b)
    ensures forall r <- RowsAt(t, bundles) :: Clean(lib, r)
  {
  }

  /** out is the answer for some row the scalar subquery may pick. */
  ghost predicate YieldsSuccessors(lib: SemverLib, t: Tables, scope: set<nat>, fromID: string, version: string,
                                   out: seq<Yield>) {
    exists from :: ScalarBundle(t, fromID, from) && YieldsExactly(out, SuccessorRows(lib, t, scope, from, version))
  }

  lemma SomePick(lib: SemverLib, t: Tables, scope: set<nat>, from: string, version: string, out: seq<Yield>)
    returns (pick: Option<nat>)
    requires YieldsSuccessors(lib, t, scope, from, version, out)
    ensures ScalarBundle(t, from, pick) && YieldsExactly(out, SuccessorRows(lib, t, scope, pick, version))
  {
    pick :| ScalarBundle(t, from, pick) && YieldsExactly(out, SuccessorRows(lib, t, scope, pick, version));
  }

  /** Successors over a set of graphs. */
  method QuerySuccessors(lib: SemverLib, t: Tables, scope: set<nat>, fromID: string, version: string, ghost c: string)
    returns (out: seq<Yield>)
    requires Valid(t) && InCatalog(t, c, scope)
    ensures TextsParse(lib, t, c) ==> YieldsSuccessors(lib, t, scope, fromID, version, out)
  {
    var pick := SelectScalarBundle(t, fromID);
    ScopeBundles(t, c, scope);
    var explicit := SelectRows(t, ExplicitBundles(t, scope, pick), c);
    var ranged := SelectRanged(t, RangeSlots(t, scope));
    out := QuerySuccessorsStreaming(lib, explicit, ranged, version);
    if TextsParse(lib, t, c) {
      SuccessorsExact(lib, t, scope, pick, version, c, explicit, ranged);
    }
  }

  lemma SuccessorsExact(lib: SemverLib, t: Tables, scope: set<nat>, from: Option<nat>, version: string, c: string,
                        explicit: seq<Row>, ranged: seq<RangeRow>)
    requires Valid(t) && InCatalog(t, c, scope) && TextsParse(lib, t, c)
    requires Elems(explicit) == RowsAt(t, ExplicitBundles(t, scope, from))
    requires forall i, j | 0 <= i < j < |explicit| :: explicit[i].id != explicit[j].id
    requires Elems(ranged) == RangeRowsAt(t, RangeSlots(t, scope))
    ensures YieldsExactly(UpToPanic(ParseRows(lib, explicit) +
            RangePart(lib, ranged, set r <- explicit :: r.id, version)),
                          SuccessorRows(lib, t, scope, from, version))
  {
    ScopeBundles(t, c, scope);
    var seen := set r <- explicit :: r.id;
    CleanRows(lib, t, c, ExplicitBundles(t, scope, from));
    ParseRowsExact(lib, explicit);
    var slots := RangeSlots(t, scope);
    RangedRowsCoherent(t, c, slots, ranged);
    forall r <- ranged
      ensures lib.parsesRange(r.range) && Clean(lib, r.row)
    {
      assert r in RangeRowsAt(t, slots);
    }
    RangePartExact(lib, ranged, seen, version);
    MatchingRows(lib, t, scope, from, version, c, explicit, ranged);
    var a, b := ParseRows(lib, explicit), RangePart(lib, ranged, seen, version);
    NoPanic(a + b);
    YieldsBoth(a, Elems(explicit), b, Matching(lib, ranged, seen, version));
  }

  lemma RangedRowsCoherent(t: Tables, c: string, slots: set<Slot>, ranged: seq<RangeRow>)
    requires UniqueIds(t) && forall k <- slots :: OwnsBundle(t, c, k.bundle) && k in t.ranges
    requires Elems(ranged) == RangeRowsAt(t, slots)
    ensures Coherent(set r <- ranged :: r.row)
  {
    var bundles := set k <- slots :: k.bundle;
    CatalogRowsCoherent(t, c, bundles);
    forall r <- ranged
      ensures r.row in RowsAt(t, bundles)
    {
      assert r in RangeRowsAt(t, slots);
    }
  }

  lemma YieldsBoth(a: seq<Yield>, wantA: set<Row>, b: seq<Yield>, wantB: set<Row>)
    requires YieldsExactly(a, wantA) && YieldsExactly(b, wantB)
    requires forall r, s | r in wantA && s in wantB :: r.id != s.id
    ensures YieldsExactly(a + b, wantA + wantB)
  {
  }

  /** The rows the range half adds are the matching ones the explicit half has not yielded. */
  lemma MatchingRows(lib: SemverLib, t: Tables, scope: set<nat>, from: Option<nat>, version: string, c: string,
                     explicit: seq<Row>, ranged: seq<RangeRow>)
    requires UniqueIds(t) && LinksStay(t) && InCatalog(t, c, scope)
    requires Elems(explicit) == RowsAt(t, ExplicitBundles(t, scope, from))
    requires Elems(ranged) == RangeRowsAt(t, RangeSlots(t, scope))
    ensures var more := Matching(lib, ranged, set r <- explicit :: r.id, version);
            Elems(explicit) + more == SuccessorRows(lib, t, scope, from, version)
  {
    var seen := set r <- explicit :: r.id;
    var more := Matching(lib, ranged, seen, version);
    var matched := RowsAt(t, MatchedBundles(lib, t, scope, version));
    forall r <- more
      ensures r in matched
    {
      var y :| y in ranged && lib.inRange(y.range, version) && y.row == r;
      assert y in RangeRowsAt(t, RangeSlots(t, scope));
    }
    forall r <- matched
      ensures r in Elems(explicit) + more
    {
      var k :| k in RangeSlots(t, scope) && lib.inRange(t.ranges[k], version) && r == RowOf(t, k.bundle);
      assert RangeRow(r, t.ranges[k]) in Elems(ranged);
      if r.id in seen {
        SeenIsExplicit(t, scope, from, c, explicit, k.bundle);
      }
    }
  }

  lemma SeenIsExplicit(t: Tables, scope: set<nat>, from: Option<nat>, c: string, explicit: seq<Row>, b: nat)
    requires UniqueIds(t) && LinksStay(t) && InCatalog(t, c, scope) && OwnsBundle(t, c, b)
    requires Elems(explicit) == RowsAt(t, ExplicitBundles(t, scope, from))
    requires exists x <- explicit :: x.id == t.bundles[b].id
    ensures RowOf(t, b) in explicit
  {
    ScopeBundles(t, c, scope);
    var x :| x in explicit && x.id == t.bundles[b].id;
    assert x in Elems(explicit);
  }
}
