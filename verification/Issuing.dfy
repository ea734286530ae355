/** Lists of writer operations that are all issued, whatever becomes of each: what an importer does to
    the transaction it is given. */
module Issuing {
  import opened Wrappers
  import opened Content
  import opened Semver
  import opened Writer
  import opened WriterRefinement
  import opened ContentWriters

  ghost function ApplyAll(lib: SemverLib, t: Tables, c: string, ops: seq<Op>): Tables
    decreases |ops|
  {
    if ops == [] then t else ApplyAll(lib, Step(lib, t, c, ops[0]).state, c, ops[1..])
  }

  function ViewAll(lib: SemverLib, v: View, ops: seq<Op>): View
    decreases |ops|
  {
    if ops == [] then v else ViewAll(lib, ViewStep(lib, v, ops[0]).state, ops[1..])
  }

  lemma {:induction false} ApplyAllRefines(lib: SemverLib, t: Tables, c: string, ops: seq<Op>)
    requires Content.Valid(t)
    ensures var u := ApplyAll(lib, t, c, ops);
            Content.Valid(u) && ViewOf(u, c) == ViewAll(lib, ViewOf(t, c), ops)
    decreases |ops|
  {
    if ops != [] {
      StepRefines(lib, t, c, ops[0]);
      ApplyAllRefines(lib, Step(lib, t, c, ops[0]).state, c, ops[1..]);
    }
  }

  lemma {:induction false} ApplyAllIsolates(lib: SemverLib, t: Tables, c: string, ops: seq<Op>, d: string)
    requires Content.Valid(t) && c != d
    ensures SameRows(t, ApplyAll(lib, t, c, ops), d)
    decreases |ops|
  {
    if ops == [] {
      SameRowsReflexive(t, d);
    } else {
      var u := Step(lib, t, c, ops[0]).state;
      StepRefines(lib, t, c, ops[0]);
      StepIsolates(lib, t, c, ops[0], d);
      ApplyAllIsolates(lib, u, c, ops[1..], d);
      SameRowsTransitive(t, u, ApplyAll(lib, u, c, ops[1..]), d);
    }
  }

  lemma {:induction false} ViewAllAppend(lib: SemverLib, v: View, a: seq<Op>, b: seq<Op>)
    ensures ViewAll(lib, v, a + b) == ViewAll(lib, ViewAll(lib, v, a), b)
    decreases |a|
  {
    if a == [] {
      assert a + b == b;
    } else {
      assert (a + b)[0] == a[0] && (a + b)[1..] == a[1..] + b;
      ViewAllAppend(lib, ViewStep(lib, v, a[0]).state, a[1..], b);
    }
  }

  lemma {:induction false} ApplyAllAppend(lib: SemverLib, t: Tables, c: string, a: seq<Op>, b: seq<Op>)
    ensures ApplyAll(lib, t, c, a + b) == ApplyAll(lib, ApplyAll(lib, t, c, a), c, b)
    decreases |a|
  {
    if a == [] {
      assert a + b == b;
    } else {
      assert (a + b)[0] == a[0] && (a + b)[1..] == a[1..] + b;
      ApplyAllAppend(lib, Step(lib, t, c, a[0]).state, c, a[1..], b);
    }
  }

  /** One operation of an importer on the writer it was given. */
  method Issue(w: ContentWriter, op: Op) returns (ok: bool)
    requires w.Valid()
    modifies w`tables
    ensures w.Valid() && Outcome(ok, w.tables) == Step(w.lib, old(w.tables), w.catalogName, op)
  {
    match op
    case InsertBundle(id, pkg, version, release, uri) => ok := w.InsertBundle(id, pkg, version, release, uri);
    case CreateGraph(path) => ok := w.CreateGraph(path);
    case AddBundleToGraph(path, id) => ok := w.AddBundleToGraph(path, id);
    case AddEdge(path, from, to) => ok := w.AddEdge(path, from, to);
    case AddPredecessorRange(path, id, range) => ok := w.AddPredecessorRange(path, id, range);
    case SetBundleProperty(id, key, json) => ok := w.SetBundleProperty(id, key, json);
    case SetGraphProperty(path, key, json) => ok := w.SetGraphProperty(path, key, json);
    case SetGraphDeprecation(path, message) => ok := w.SetGraphDeprecation(path, message);
    case SetBundleDeprecation(id, message) => ok := w.SetBundleDeprecation(id, message);
  }

  /** The writer after a whole list of operations. */
  method IssueAll(w: ContentWriter, ops: seq<Op>)
    requires w.Valid()
    modifies w`tables
    ensures w.Valid() && w.tables == ApplyAll(w.lib, old(w.tables), w.catalogName, ops)
  {
    for i := 0 to |ops|
      invariant w.Valid() &&
                ApplyAll(w.lib, w.tables, w.catalogName, ops[i..]) == ApplyAll(w.lib, old(w.tables), w.catalogName, ops)
    {
      assert ops[i..][0] == ops[i] && ops[i..][1..] == ops[i + 1..];
      var _ := Issue(w, ops[i]);
    }
  }
}
