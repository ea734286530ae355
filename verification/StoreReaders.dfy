/** Listing catalogs, and the reader that shows only the catalogs a label selector matches. */
module StoreReaders {
  import opened Wrappers
  import opened Ordering
  import opened Stores

  /** List returns every catalog once, by ascending name, as its own snapshot. */
  ghost predicate Lists(db: Db, cats: seq<Catalog>) {
    && (forall name :: name in db.entries <==> exists cat <- cats :: cat.name == name)
    && (forall cat <- cats :: cat.name in db.entries && cat == Snapshot(db, cat.name))
    && (forall i, j | 0 <= i < j < |cats| :: CompareStrings(cats[i].name, cats[j].name) < 0)
  }

  method List(db: Db) returns (cats: seq<Catalog>)
    ensures Lists(db, cats)
  {
    var names := SortedNames(db.entries.Keys);
    cats := [];
    for i := 0 to |names|
      invariant |cats| == i && forall j | 0 <= j < i :: cats[j].name == names[j]
      invariant forall cat <- cats :: cat.name in db.entries && cat == Snapshot(db, cat.name)
    {
      assert names[i] in names;
      cats := cats + [Snapshot(db, names[i])];
    }
    forall name | name in db.entries ensures exists cat <- cats :: cat.name == name {
      var j :| 0 <= j < |names| && names[j] == name;
      assert cats[j].name == name;
    }
  }

  // ---------------------------------------------------------------- selectors

  type Requirement = map<string, string> -> bool

  /** A label selector: requirements that must all hold, or the selector that matches nothing. */
  datatype Selector = Requirements(reqs: seq<Requirement>) | Nothing

  predicate Matches(s: Selector, labels: map<string, string>) {
    match s
    case Requirements(reqs) => forall i | 0 <= i < |reqs| :: reqs[i](labels)
    case Nothing => false
  }

  /** Selector.Add, and Requirements, whose second result andSelector drops. */
  function Add(s: Selector, reqs: seq<Requirement>): Selector {
    match s
    case Requirements(own) => Requirements(own + reqs)
    case Nothing => Nothing
  }

  function RequirementsOf(s: Selector): seq<Requirement> {
    match s
    case Requirements(reqs) => reqs
    case Nothing => []
  }

  function AndSelector(a: Selector, b: Selector): Selector {
    Add(a, RequirementsOf(b))
  }

  /** andSelector means "and" for some labels exactly when the second selector is one with
      requirements, or the first one already refuses those labels. */
  lemma AndSelectorExactly(a: Selector, b: Selector, labels: map<string, string>)
    ensures (Matches(AndSelector(a, b), labels) <==> Matches(a, labels) && Matches(b, labels))
            <==> (b.Nothing? ==> !Matches(a, labels))
  {
    match a
    case Nothing =>
    case Requirements(own) =>
      var more := RequirementsOf(b);
      var all := own + more;
      assert forall i | 0 <= i < |own| :: all[i] == own[i];
      assert forall i | 0 <= i < |more| :: all[|own| + i] == more[i];
  }

  /** Narrowing to nothing a reader that shows everything goes on showing everything. */
  lemma NarrowingToNothing(labels: map<string, string>)
    ensures Matches(AndSelector(Requirements([]), Nothing), labels) && !Matches(Nothing, labels)
  {
  }

  /** Select(s1).Select(s2)...: the selector of the last reader. */
  function Narrowed(selectors: seq<Selector>): Selector
    requires selectors != []
  {
    if |selectors| == 1 then selectors[0]
    else AndSelector(Narrowed(selectors[..|selectors| - 1]), selectors[|selectors| - 1])
  }

  /** A chain of Select calls with real requirements shows what every selector of the chain
      matches. */
  lemma {:induction false} NarrowedMatches(selectors: seq<Selector>, labels: map<string, string>)
    requires selectors != [] && forall i | 0 < i < |selectors| :: selectors[i].Requirements?
    ensures Matches(Narrowed(selectors), labels) <==> forall i | 0 <= i < |selectors| :: Matches(selectors[i], labels)
    decreases |selectors|
  {
    var n := |selectors| - 1;
    if n > 0 {
      var init := selectors[..n];
      NarrowedMatches(init, labels);
      AndSelectorExactly(Narrowed(init), selectors[n], labels);
    }
  }

  lemma FilteredNames(db: Db, all: seq<Catalog>, selector: Selector, cats: seq<Catalog>, name: string)
    requires Lists(db, all) && forall cat :: cat in cats <==> cat in all && Matches(selector, cat.labels)
    ensures (exists cat <- cats :: cat.name == name) <==> name in db.entries && Matches(selector, LabelsOf(db, name))
  {
    if name in db.entries {
      var cat :| cat in all && cat.name == name;
      assert cat == Snapshot(db, name);
    }
  }

  /** cats are the catalogs among those seen that the selector matches, in their order. */
  ghost predicate Kept(seen: seq<Catalog>, selector: Selector, cats: seq<Catalog>) {
    && (forall cat :: cat in cats <==> cat in seen && Matches(selector, cat.labels))
    && (forall j, k | 0 <= j < k < |cats| :: CompareStrings(cats[j].name, cats[k].name) < 0)
  }

  lemma KeptNext(seen: seq<Catalog>, selector: Selector, cats: seq<Catalog>, cat: Catalog)
    requires Kept(seen, selector, cats) && forall i | 0 <= i < |seen| :: CompareStrings(seen[i].name, cat.name) < 0
    ensures Kept(seen + [cat], selector, if Matches(selector, cat.labels) then cats + [cat] else cats)
  {
    forall j | 0 <= j < |cats| ensures CompareStrings(cats[j].name, cat.name) < 0 {
      assert cats[j] in cats;
    }
  }

  /** selectedStore.List: the listed catalogs the selector matches, in their order. */
  method ListSelected(db: Db, selector: Selector) returns (cats: seq<Catalog>)
    ensures forall name ::
            (exists cat <- cats :: cat.name == name) <==> name in db.entries && Matches(selector, LabelsOf(db, name))
    ensures forall cat <- cats :: cat.name in db.entries && cat == Snapshot(db, cat.name)
    ensures forall i, j | 0 <= i < j < |cats| :: CompareStrings(cats[i].name, cats[j].name) < 0
  {
    var all := List(db);
    cats := [];
    for i := 0 to |all|
      invariant Kept(all[..i], selector, cats)
    {
      assert all[..i + 1] == all[..i] + [all[i]];
      KeptNext(all[..i], selector, cats, all[i]);
      if Matches(selector, all[i].labels) {
        cats := cats + [all[i]];
      }
    }
    assert all[..|all|] == all;
    forall name ensures (exists cat <- cats :: cat.name == name) <==>
      name in db.entries && Matches(selector, LabelsOf(db, name)) {
      FilteredNames(db, all, selector, cats, name);
    }
  }

  method GetSelected(db: Db, selector: Selector, name: string) returns (r: Option<Catalog>)
    ensures r.Some? <==> name in db.entries && Matches(selector, LabelsOf(db, name))
    ensures r.Some? ==> r.value == Snapshot(db, name)
  {
    if name !in db.entries {
      return None;
    }
    var cat := Snapshot(db, name);
    r := if Matches(selector, cat.labels) then Some(cat) else None;
  }
}
