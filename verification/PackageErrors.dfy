/** Per-package errors: merging the maps of the import phases and reporting them in order. */
module PackageErrors {
  import opened Ordering

  /** Error texts recorded per package. */
  type Errors = map<string, seq<string>>

  datatype PackageError = PackageError(pkg: string, errs: seq<string>)

  predicate Present(ms: seq<Errors>, pkg: string) {
    exists m <- ms :: pkg in m
  }

  function ErrorsIn(m: Errors, pkg: string): multiset<string> {
    if pkg in m then multiset(m[pkg]) else multiset{}
  }

  /** Every error recorded under a package, as often as it was recorded. */
  function ErrorsFor(ms: seq<Errors>, pkg: string): multiset<string> {
    if ms == [] then multiset{}
    else ErrorsFor(ms[..|ms| - 1], pkg) + ErrorsIn(ms[|ms| - 1], pkg)
  }

  /** errs reports the recorded errors: nothing when there are none, otherwise one PackageError for
      each package with errors, packages ascending, each error as often as it was recorded, texts
      sorted. */
  ghost predicate Reports(ms: seq<Errors>, errs: seq<PackageError>) {
    && (errs == [] <==> forall pkg :: !Present(ms, pkg))
    && (forall pkg :: Present(ms, pkg) <==> exists e <- errs :: e.pkg == pkg)
    && (forall e <- errs :: multiset(e.errs) == ErrorsFor(ms, e.pkg) && SortedBy(e.errs, CompareStrings))
    && (forall i, j | 0 <= i < j < |errs| :: CompareStrings(errs[i].pkg, errs[j].pkg) < 0)
  }

  /** What a package has once the packages outside todo are merged. */
  function Added(into: Errors, m: Errors, todo: set<string>, pkg: string): multiset<string> {
    if pkg in todo then ErrorsIn(into, pkg) else ErrorsIn(into, pkg) + ErrorsIn(m, pkg)
  }

  ghost predicate AddedUpTo(into: Errors, m: Errors, merged: Errors, todo: set<string>) {
    && todo <= m.Keys
    && merged.Keys == into.Keys + (m.Keys - todo)
    && forall pkg :: ErrorsIn(merged, pkg) == Added(into, m, todo, pkg)
  }

  function Appended(merged: Errors, k: string, errs: seq<string>): (next: Errors)
    ensures next.Keys == merged.Keys + {k}
  {
    merged[k := (if k in merged then merged[k] else []) + errs]
  }

  lemma AppendedErrors(merged: Errors, k: string, errs: seq<string>, pkg: string)
    ensures ErrorsIn(Appended(merged, k, errs), pkg)
            == ErrorsIn(merged, pkg) + if pkg == k then multiset(errs) else multiset{}
  {
  }

  lemma AddedAt(into: Errors, m: Errors, merged: Errors, todo: set<string>, k: string, pkg: string)
    requires k in todo && todo <= m.Keys && ErrorsIn(merged, pkg) == Added(into, m, todo, pkg)
    ensures ErrorsIn(Appended(merged, k, m[k]), pkg) == Added(into, m, todo - {k}, pkg)
  {
    AppendedErrors(merged, k, m[k], pkg);
  }

  lemma AddedNext(into: Errors, m: Errors, merged: Errors, todo: set<string>, k: string)
    requires AddedUpTo(into, m, merged, todo) && k in todo
    ensures AddedUpTo(into, m, Appended(merged, k, m[k]), todo - {k})
  {
    forall pkg ensures ErrorsIn(Appended(merged, k, m[k]), pkg) == Added(into, m, todo - {k}, pkg) {
      AddedAt(into, m, merged, todo, k, pkg);
    }
  }

  lemma AddedAll(into: Errors, m: Errors, merged: Errors)
    requires AddedUpTo(into, m, merged, {})
    ensures merged.Keys == into.Keys + m.Keys
    ensures forall pkg :: ErrorsIn(merged, pkg) == ErrorsIn(into, pkg) + ErrorsIn(m, pkg)
  {
    forall pkg ensures ErrorsIn(merged, pkg) == ErrorsIn(into, pkg) + ErrorsIn(m, pkg) {
      assert ErrorsIn(merged, pkg) == Added(into, m, {}, pkg);
    }
  }

  method AddAll(into: Errors, m: Errors) returns (merged: Errors)
    ensures merged.Keys == into.Keys + m.Keys
    ensures forall pkg :: ErrorsIn(merged, pkg) == ErrorsIn(into, pkg) + ErrorsIn(m, pkg)
  {
    merged := into;
    var todo := m.Keys;
    assert AddedUpTo(into, m, merged, todo) by {
      forall pkg ensures ErrorsIn(merged, pkg) == Added(into, m, todo, pkg) {
      }
    }
    while todo != {}
      invariant AddedUpTo(into, m, merged, todo)
      decreases todo
    {
      var k :| k in todo;
      AddedNext(into, m, merged, todo, k);
      merged, todo := Appended(merged, k, m[k]), todo - {k};
    }
    AddedAll(into, m, merged);
  }

  method MergeMapSlices(ms: seq<Errors>) returns (merged: Errors)
    ensures forall pkg :: pkg in merged <==> Present(ms, pkg)
    ensures forall pkg :: ErrorsIn(merged, pkg) == ErrorsFor(ms, pkg)
  {
    merged := map[];
    for i := 0 to |ms|
      invariant forall pkg :: pkg in merged <==> Present(ms[..i], pkg)
      invariant forall pkg :: ErrorsIn(merged, pkg) == ErrorsFor(ms[..i], pkg)
    {
      merged := AddAll(merged, ms[i]);
      assert ms[..i + 1] == ms[..i] + [ms[i]];
      forall pkg ensures ErrorsFor(ms[..i + 1], pkg) == ErrorsFor(ms[..i], pkg) + ErrorsIn(ms[i], pkg) {
        assert ms[..i + 1][..i] == ms[..i];
      }
    }
    assert ms[..|ms|] == ms;
  }

  method SortEach(merged: Errors, keys: seq<string>) returns (errs: seq<PackageError>)
    requires forall k <- keys :: k in merged
    ensures |errs| == |keys| && forall i | 0 <= i < |keys| :: errs[i].pkg == keys[i]
    ensures forall e <- errs :: multiset(e.errs) == ErrorsIn(merged, e.pkg) && SortedBy(e.errs, CompareStrings)
  {
    StringsComparator();
    errs := [];
    for i := 0 to |keys|
      invariant |errs| == i && forall j | 0 <= j < i :: errs[j].pkg == keys[j]
      invariant forall e <- errs :: multiset(e.errs) == ErrorsIn(merged, e.pkg) && SortedBy(e.errs, CompareStrings)
    {
      assert keys[i] in keys;
      var sorted := SortFunc(merged[keys[i]], CompareStrings);
      errs := errs + [PackageError(keys[i], sorted)];
    }
  }

  lemma ReportedPackages(merged: Errors, keys: seq<string>, errs: seq<PackageError>, pkg: string)
    requires forall k :: k in keys <==> k in merged
    requires |errs| == |keys| && forall i | 0 <= i < |keys| :: errs[i].pkg == keys[i]
    ensures pkg in merged <==> exists e <- errs :: e.pkg == pkg
  {
    if pkg in merged {
      var i :| 0 <= i < |keys| && keys[i] == pkg;
      assert errs[i] in errs;
    }
    if e :| e in errs && e.pkg == pkg {
      var i :| 0 <= i < |errs| && errs[i] == e;
      assert keys[i] in keys;
    }
  }

  /** mergePackageErrors; the empty list is the nil error. */
  method MergePackageErrors(ms: seq<Errors>) returns (errs: seq<PackageError>)
    ensures Reports(ms, errs)
  {
    var merged := MergeMapSlices(ms);
    var keys := SortedNames(merged.Keys);
    errs := SortEach(merged, keys);
    forall pkg ensures Present(ms, pkg) <==> exists e <- errs :: e.pkg == pkg {
      ReportedPackages(merged, keys, errs, pkg);
    }
    if errs != [] {
      assert errs[0] in errs;
      assert Present(ms, errs[0].pkg);
    }
  }
}
