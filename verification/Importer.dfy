/** The FBC importer: skip the packages that failed to ingest, normalize the rest one by one,
    finalize those that succeeded, and report every recorded error under its package. */
module Importer {
  import opened Wrappers
  import opened Seqs
  import opened Content
  import opened Writer
  import opened WriterRefinement
  import opened Semver
  import opened ContentWriters
  import opened Issuing
  import opened Fbc
  import opened FbcMeaning
  import opened FbcImport
  import opened FbcAnswers
  import opened Staging
  import opened PackageErrors

  function PackagesOf(raw: Raw): seq<Package> {
    seq(|raw.packages|, i requires 0 <= i < |raw.packages| => ReadPackage(raw, raw.packages[i]))
  }

  // ---------------------------------------------------------------- normalize

  /** Package i was tried and failed. */
  ghost predicate FailedAt(lib: FbcLib, ps: seq<Package>, skip: set<string>, i: nat)
    requires i < |ps|
  {
    ps[i].name !in skip && !ImportPackage(lib, ImportAll(lib, NO_CONTENT, ps[..i], skip), ps[i]).ok
  }

  /** The tables show the packages handled so far, and no other catalog has moved. */
  ghost predicate Progress(lib: FbcLib, t0: Tables, t: Tables, c: string, ps: seq<Package>, skip: set<string>, i: nat)
    requires i <= |ps|
  {
    Content.Valid(t) && ViewOf(t, c) == ImportAll(lib, NO_CONTENT, ps[..i], skip) && OthersSame(t0, t, c)
  }

  lemma ProgressSkip(lib: FbcLib, t0: Tables, t: Tables, c: string, ps: seq<Package>, skip: set<string>, i: nat)
    requires i < |ps| && Progress(lib, t0, t, c, ps, skip, i) && ps[i].name in skip
    ensures Progress(lib, t0, t, c, ps, skip, i + 1)
  {
    assert ps[..i + 1] == ps[..i] + [ps[i]];
    ImportAppend(lib, NO_CONTENT, ps[..i], [ps[i]], skip);
    assert [ps[i]][1..] == [];
  }

  lemma ProgressStep(lib: FbcLib, t0: Tables, t: Tables, u: Tables, ok: bool, c: string, ps: seq<Package>,
                     skip: set<string>, i: nat)
    requires i < |ps| && Progress(lib, t0, t, c, ps, skip, i) && ps[i].name !in skip
    requires !Validates(lib, ps[i]) ==> !ok && u == t
    requires Validates(lib, ps[i]) ==> Outcome(ok, u) == RunOps(lib.semver, t, c, Compile(lib, ps[i]))
    ensures Progress(lib, t0, u, c, ps, skip, i + 1)
    ensures ok <==> !FailedAt(lib, ps, skip, i)
  {
    assert ps[..i + 1] == ps[..i] + [ps[i]];
    ImportAppend(lib, NO_CONTENT, ps[..i], [ps[i]], skip);
    assert [ps[i]][1..] == [];
    if Validates(lib, ps[i]) {
      RunRefines(lib.semver, t, c, Compile(lib, ps[i]));
      forall d | d != c ensures SameRows(t0, u, d) {
        RunIsolates(lib.semver, t, c, Compile(lib, ps[i]), d);
        SameRowsTransitive(t0, t, u, d);
      }
    }
  }

  method NormalizeNext(lib: FbcLib, ghost t0: Tables, ps: seq<Package>, skip: set<string>, w: ContentWriter, i: nat)
    returns (failed: bool)
    requires w.Valid() && w.lib == lib.semver && i < |ps| && Progress(lib, t0, w.tables, w.catalogName, ps, skip, i)
    modifies w`tables
    ensures w.Valid() && Progress(lib, t0, w.tables, w.catalogName, ps, skip, i + 1)
    ensures failed <==> FailedAt(lib, ps, skip, i)
  {
    if ps[i].name in skip {
      ProgressSkip(lib, t0, w.tables, w.catalogName, ps, skip, i);
      return false;
    }
    ghost var t := w.tables;
    var ok := Normalize(lib, w, ps[i]);
    ProgressStep(lib, t0, t, w.tables, ok, w.catalogName, ps, skip, i);
    failed := !ok;
  }

  ghost function Failures(lib: FbcLib, ps: seq<Package>, skip: set<string>): set<nat> {
    set j: nat | j < |ps| && FailedAt(lib, ps, skip, j)
  }

  /** The errors recorded for the first i packages: one for each that failed. */
  ghost predicate Recorded(ps: seq<Package>, failures: set<nat>, describe: string -> string, errors: Errors, i: nat)
    requires i <= |ps|
  {
    && (forall j | 0 <= j < i :: j in failures ==> ps[j].name in errors)
    && (forall name <- errors ::
          errors[name] == [describe(name)] && exists j :: 0 <= j < i && j in failures && ps[j].name == name)
  }

  lemma ProgressStart(lib: FbcLib, t: Tables, c: string, ps: seq<Package>, skip: set<string>)
    requires Content.Valid(t) && ViewOf(t, c) == NO_CONTENT
    ensures Progress(lib, t, t, c, ps, skip, 0)
  {
    assert ps[..0] == [];
    forall d | d != c ensures SameRows(t, t, d) {
      SameRowsReflexive(t, d);
    }
  }

  lemma RecordedNext(ps: seq<Package>, failures: set<nat>, describe: string -> string, errors: Errors, i: nat)
    requires i < |ps| && Recorded(ps, failures, describe, errors, i)
    ensures i in failures ==> Recorded(ps, failures, describe, errors[ps[i].name := [describe(ps[i].name)]], i + 1)
    ensures i !in failures ==> Recorded(ps, failures, describe, errors, i + 1)
  {
  }

  /** Normalize: every staged package not skipped goes through the handler; an error is recorded
      under the package and the loop goes on. */
  method NormalizePackages(lib: FbcLib, ps: seq<Package>, skip: set<string>, w: ContentWriter,
                           describe: string -> string)
    returns (errors: Errors)
    requires w.Valid() && w.lib == lib.semver && ViewOf(w.tables, w.catalogName) == NO_CONTENT
    modifies w`tables
    ensures w.Valid()
    ensures Progress(lib, old(w.tables), w.tables, w.catalogName, ps, skip, |ps|)
    ensures Recorded(ps, Failures(lib, ps, skip), describe, errors, |ps|)
  {
    errors := map[];
    ProgressStart(lib, w.tables, w.catalogName, ps, skip);
    var i: nat := 0;
    while i < |ps|
      invariant i <= |ps| && w.Valid()
      invariant Progress(lib, old(w.tables), w.tables, w.catalogName, ps, skip, i)
      invariant Recorded(ps, Failures(lib, ps, skip), describe, errors, i)
    {
      var failed := NormalizeNext(lib, old(w.tables), ps, skip, w, i);
      RecordedNext(ps, Failures(lib, ps, skip), describe, errors, i);
      if failed {
        errors := errors[ps[i].name := [describe(ps[i].name)]];
      }
      i := i + 1;
    }
  }

  // ---------------------------------------------------------------- import

  /** What an extension does with a package: the properties it sets, and its error if it fails. */
  datatype PropertyWrite =
    | BundleWrite(bundle: string, key: string, json: Option<string>)
    | GraphWrite(path: seq<string>, key: string, json: Option<string>)
  datatype Finished = Finished(writes: seq<PropertyWrite>, error: Option<string>)
  type Extension = string -> Finished

  /** The property writer puts graph paths below the package. */
  function PropertyOps(pkg: string, writes: seq<PropertyWrite>): (ops: seq<Op>)
    ensures forall op <- ops :: PropertyOp(op)
  {
    if writes == [] then []
    else
      [match writes[0]
       case BundleWrite(bundle, key, json) => SetBundleProperty(bundle, key, json)
       case GraphWrite(path, key, json) => SetGraphProperty([pkg] + path, key, json)]
      + PropertyOps(pkg, writes[1..])
  }

  /** Everything finalize issues: the extension's writes for the packages not skipped, in order. */
  function FinalOps(ps: seq<Package>, skip: set<string>, ext: Extension): (ops: seq<Op>)
    ensures forall op <- ops :: PropertyOp(op)
  {
    if ps == [] then []
    else (if ps[0].name in skip then [] else PropertyOps(ps[0].name, ext(ps[0].name).writes)) +
         FinalOps(ps[1..], skip, ext)
  }

  /** The errors of finalize: for exactly the packages seen, not skipped, for which the extension fails. */
  ghost predicate FinalErrors(ps: seq<Package>, skip: set<string>, ext: Extension, errors: Errors) {
    && (forall name :: name in errors <==> name !in skip && (exists p <- ps :: p.name == name) && ext(name).error.Some?)
    && (forall name <- errors :: errors[name] == [ext(name).error.value])
  }

  lemma FinalErrorsNext(ps: seq<Package>, p: Package, skip: set<string>, ext: Extension, errors: Errors)
    requires FinalErrors(ps, skip, ext, errors)
    ensures var err := ext(p.name).error;
            FinalErrors(ps + [p], skip, ext, if p.name !in skip && err.Some?
              then errors[p.name := [err.value]] else errors)
  {
    assert p in ps + [p];
    assert forall x :: x in ps + [p] <==> x in ps || x == p;
  }

  /** finalize: the extension sees every package not skipped, sets properties, and may fail. */
  method Finalize(ps: seq<Package>, skip: set<string>, ext: Extension, w: ContentWriter) returns (errors: Errors)
    requires w.Valid()
    modifies w`tables
    ensures w.Valid() && w.tables == ApplyAll(w.lib, old(w.tables), w.catalogName, FinalOps(ps, skip, ext))
    ensures FinalErrors(ps, skip, ext, errors)
  {
    errors := map[];
    ghost var all := ApplyAll(w.lib, w.tables, w.catalogName, FinalOps(ps, skip, ext));
    assert ps[0..] == ps;
    for i := 0 to |ps|
      invariant w.Valid() && all == ApplyAll(w.lib, w.tables, w.catalogName, FinalOps(ps[i..], skip, ext))
      invariant FinalErrors(ps[..i], skip, ext, errors)
    {
      assert ps[i..][0] == ps[i] && ps[i..][1..] == ps[i + 1..] && ps[..i + 1] == ps[..i] + [ps[i]];
      FinalErrorsNext(ps[..i], ps[i], skip, ext, errors);
      if ps[i].name !in skip {
        var r := ext(ps[i].name);
        ghost var ops := PropertyOps(ps[i].name, r.writes);
        ApplyAllAppend(w.lib, w.tables, w.catalogName, ops, FinalOps(ps[i + 1..], skip, ext));
        IssueAll(w, PropertyOps(ps[i].name, r.writes));
        if r.error.Some? {
          errors := errors[ps[i].name := [r.error.value]];
        }
      } else {
        assert [] + FinalOps(ps[i + 1..], skip, ext) == FinalOps(ps[i + 1..], skip, ext);
      }
    }
    assert ps[|ps|..] == [] && ps[..|ps|] == ps;
  }

  lemma {:induction false} PropertiesAside(lib: SemverLib, v: View, ops: seq<Op>)
    requires forall op <- ops :: PropertyOp(op)
    ensures SameButProps(v, ViewAll(lib, v, ops))
    decreases |ops|
  {
    if ops != [] {
      assert ops[0] in ops;
      PropertyStep(lib, v, ops[0]);
      PropertiesAside(lib, ViewStep(lib, v, ops[0]).state, ops[1..]);
      SameButPropsTransitive(v, ViewStep(lib, v, ops[0]).state, ViewAll(lib, v, ops));
    }
  }

  /** The state after normalize and finalize is the one the end-to-end results are about. */
  lemma FinishedIsImported(lib: FbcLib, t0: Tables, t: Tables, c: string, ps: seq<Package>, skip: set<string>,
                           ops: seq<Op>)
    requires Progress(lib, t0, t, c, ps, skip, |ps|) && forall op <- ops :: PropertyOp(op)
    ensures var u := ApplyAll(lib.semver, t, c, ops);
            && Content.Valid(u) && OthersSame(t0, u, c)
            && SameButProps(ImportAll(lib, NO_CONTENT, ps, skip), ViewOf(u, c))
            && (lib.semver.Ok() && AllStaged(ps) ==> Imported(lib, u, c, ps, skip))
  {
    assert ps[..|ps|] == ps;
    ApplyAllRefines(lib.semver, t, c, ops);
    PropertiesAside(lib.semver, ViewOf(t, c), ops);
    forall d | d != c ensures SameRows(t0, ApplyAll(lib.semver, t, c, ops), d) {
      ApplyAllIsolates(lib.semver, t, c, ops, d);
      SameRowsTransitive(t0, t, ApplyAll(lib.semver, t, c, ops), d);
    }
  }

  /** Import, once ingest has staged the blobs and recorded its per-package errors: the catalog holds what
      the packages mean, other catalogs have not moved, and every recorded error is reported. */
  method Import(lib: FbcLib, ps: seq<Package>, ingestErrors: Errors, ext: Option<Extension>, w: ContentWriter,
                describe: string -> string)
    returns (errs: seq<PackageError>, ghost normalizeErrors: Errors, ghost finalizeErrors: Errors)
    requires w.Valid() && w.lib == lib.semver && ViewOf(w.tables, w.catalogName) == NO_CONTENT
    modifies w`tables
    ensures w.Valid() && OthersSame(old(w.tables), w.tables, w.catalogName)
    ensures SameButProps(ImportAll(lib, NO_CONTENT, ps, ingestErrors.Keys), ViewOf(w.tables, w.catalogName))
    ensures lib.semver.Ok() && AllStaged(ps) ==> Imported(lib, w.tables, w.catalogName, ps, ingestErrors.Keys)
    ensures Recorded(ps, Failures(lib, ps, ingestErrors.Keys), describe, normalizeErrors, |ps|)
    ensures ext.None? ==> finalizeErrors == map[]
    ensures ext.Some? ==> FinalErrors(ps, ingestErrors.Keys + normalizeErrors.Keys, ext.value, finalizeErrors)
    ensures Reports([ingestErrors, normalizeErrors, finalizeErrors], errs)
  {
    var skip := ingestErrors.Keys;
    ghost var t0 := w.tables;
    var failed := NormalizePackages(lib, ps, skip, w, describe);
    normalizeErrors := failed;
    ghost var t := w.tables;
    var late: Errors := map[];
    if ext.Some? {
      FinishedIsImported(lib, t0, t, w.catalogName, ps, skip, FinalOps(ps, skip + failed.Keys, ext.value));
      late := Finalize(ps, skip + failed.Keys, ext.value, w);
    } else {
      FinishedIsImported(lib, t0, t, w.catalogName, ps, skip, []);
    }
    finalizeErrors := late;
    errs := MergePackageErrors([ingestErrors, failed, late]);
  }

  /** A package that fails validation writes nothing. */
  lemma InvalidWritesNothing(lib: FbcLib, ps: seq<Package>, skip: set<string>, i: nat)
    requires i < |ps| && !Validates(lib, ps[i])
    ensures ImportAll(lib, NO_CONTENT, ps[..i + 1], skip) == ImportAll(lib, NO_CONTENT, ps[..i], skip)
  {
    assert ps[..i + 1] == ps[..i] + [ps[i]];
    ImportAppend(lib, NO_CONTENT, ps[..i], [ps[i]], skip);
    assert [ps[i]][1..] == [];
  }

  /** An error is recorded for exactly the packages that were tried and failed. */
  lemma RecordedExactly(lib: FbcLib, ps: seq<Package>, skip: set<string>, describe: string -> string, errors: Errors,
                        i: nat)
    requires AllStaged(ps) && i < |ps| && Recorded(ps, Failures(lib, ps, skip), describe, errors, |ps|)
    ensures ps[i].name in errors <==> FailedAt(lib, ps, skip, i)
  {
    if ps[i].name in errors {
      var j :| 0 <= j < |ps| && j in Failures(lib, ps, skip) && ps[j].name == ps[i].name;
      assert i == j;
    }
  }

  /** Main result: every staged package is exactly one of three: skipped because ingest recorded an
      error for it, failed in normalize with an error recorded, or written whole; and a package that
      fails validation writes nothing. */
  lemma PackagesPartition(lib: FbcLib, ps: seq<Package>, ingestErrors: Errors, describe: string -> string,
                          errors: Errors, i: nat)
    requires AllStaged(ps) && i < |ps| && Recorded(ps, Failures(lib, ps, ingestErrors.Keys), describe, errors, |ps|)
    ensures var name := ps[i].name;
            var skipped, failed, written := name in ingestErrors, name in errors,
              Completed(lib, ps, ingestErrors.Keys, i);
            && ((skipped && !failed && !written) || (!skipped && failed && !written) ||
                  (!skipped && !failed && written))
            && (failed <==> !skipped && !(Validates(lib, ps[i]) && NamesAccepted(ps[i])))
    ensures !Validates(lib, ps[i]) ==>
              ImportAll(lib, NO_CONTENT, ps[..i + 1], ingestErrors.Keys) ==
                ImportAll(lib, NO_CONTENT, ps[..i], ingestErrors.Keys)
  {
    CompletedExactly(lib, ps, ingestErrors.Keys, i);
    RecordedExactly(lib, ps, ingestErrors.Keys, describe, errors, i);
    if !Validates(lib, ps[i]) {
      InvalidWritesNothing(lib, ps, ingestErrors.Keys, i);
    }
  }

  /** Packages read from keyed staging tables are distinct and well keyed. */
  lemma StagedPackages(raw: Raw)
    requires Keyed(raw)
    ensures AllStaged(PackagesOf(raw))
  {
    forall p <- PackagesOf(raw) ensures Staged(p) {
      ReadIsStaged(raw, p.name);
    }
  }

  /** So whatever blobs an ingest stages, in whatever order, the import results apply to it. */
  lemma StagedBlobs(metas: seq<Meta>)
    requires InsertAll(NOTHING, metas).ok
    ensures AllStaged(PackagesOf(InsertAll(NOTHING, metas).state))
  {
    StagingKeepsChannels(NOTHING, metas);
    StagedPackages(InsertAll(NOTHING, metas).state);
  }
}
