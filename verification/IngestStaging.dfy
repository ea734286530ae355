/** What the pipeline stages: the blobs a run commits go into the staging tables, and whether a run succeeds
    depends on the blobs, not on how its goroutines interleave. */
module IngestStaging {
  import opened Wrappers
  import opened Seqs
  import F = Fbc
  import M = FbcMeaning
  import opened S = Staging
  import P = Ingest
  import R = IngestRuns

  // ---------------------------------------------------------------- which blobs the tables take

  /** A blob whose own rows do not violate a key or a check. */
  predicate SelfFits(m: Meta) {
    match m
    case PackageMeta(_) => true
    case ChannelMeta(_, ch) => M.UniqueEntries(ch.entries)
    case BundleMeta(_) => true
    case DeprecationMeta(_, ds) => forall d <- ds :: d.message != ""
  }

  /** Two blobs that claim the same key. */
  predicate Clash(m: Meta, n: Meta) {
    match (m, n)
    case (PackageMeta(a), PackageMeta(b)) => a == b
    case (ChannelMeta(p, c), ChannelMeta(q, d)) => p == q && c.name == d.name
    case (BundleMeta(a), BundleMeta(b)) => a.pkg == b.pkg && a.name == b.name
    case _ => false
  }

  predicate Fits(metas: seq<Meta>) {
    && (forall m <- metas :: SelfFits(m))
    && forall i, j | 0 <= i < j < |metas| :: !Clash(metas[i], metas[j])
  }

  /** The tables do not hold the key of the blob yet. */
  predicate Free(raw: Raw, m: Meta) {
    match m
    case PackageMeta(name) => name !in raw.packages
    case ChannelMeta(pkg, ch) => RawChannel(pkg, ch.name) !in raw.channels
    case BundleMeta(b) => forall r <- raw.bundles :: !(r.pkg == b.pkg && r.name == b.name)
    case DeprecationMeta(_, _) => true
  }

  lemma {:induction false} EntriesOk(raw: Raw, pkg: string, ch: string, entries: seq<F.ChannelEntry>)
    ensures InsertEntries(raw, pkg, ch, entries).ok <==>
            M.UniqueEntries(entries) && forall e <- entries :: !EntryTaken(raw.entries, pkg, ch, e.name)
    decreases |entries|
  {
    if entries != [] {
      var e, rest := entries[0], entries[1..];
      var more := raw.entries + [StageEntry(pkg, ch, e)];
      EntriesOk(raw.(entries := more), pkg, ch, rest);
      RestTaken(raw.entries, pkg, ch, e, rest);
      UniqueNext(e, rest);
      assert entries == [e] + rest;
    }
  }

  lemma TakenNext(entries: seq<RawEntry>, pkg: string, ch: string, e: F.ChannelEntry, n: string)
    ensures EntryTaken(entries + [StageEntry(pkg, ch, e)], pkg, ch, n) <==>
            EntryTaken(entries, pkg, ch, n) || n == e.name
  {
    var r := StageEntry(pkg, ch, e);
    assert forall x :: x in entries + [r] <==> x in entries || x == r;
  }

  lemma RestTaken(entries: seq<RawEntry>, pkg: string, ch: string, e: F.ChannelEntry, rest: seq<F.ChannelEntry>)
    ensures (forall x <- rest :: !EntryTaken(entries + [StageEntry(pkg, ch, e)], pkg, ch, x.name)) <==>
            forall x <- rest :: !EntryTaken(entries, pkg, ch, x.name) && x.name != e.name
  {
    forall x <- rest {
      TakenNext(entries, pkg, ch, e, x.name);
    }
  }

  lemma UniqueNext(e: F.ChannelEntry, rest: seq<F.ChannelEntry>)
    ensures M.UniqueEntries([e] + rest) <==> M.UniqueEntries(rest) && forall x <- rest :: x.name != e.name
  {
    var all := [e] + rest;
    if M.UniqueEntries(all) {
      forall i, j | 0 <= i < j < |rest| ensures rest[i].name != rest[j].name {
        assert all[i + 1] == rest[i] && all[j + 1] == rest[j];
      }
      forall x <- rest ensures x.name != e.name {
        var i :| 0 <= i < |rest| && rest[i] == x;
        assert all[0] == e && all[i + 1] == x;
      }
    }
  }

  lemma {:induction false} DeprecationsInsert(raw: Raw, pkg: string, ds: seq<F.Deprecation>)
    ensures InsertDeprecations(raw, pkg, ds).ok <==> forall d <- ds :: d.message != ""
    decreases |ds|
  {
    if ds != [] {
      DeprecationsInsert(raw.(deprecations := raw.deprecations + [RawDeprecation(pkg, ds[0])]), pkg, ds[1..]);
    }
  }

  /** One blob goes in exactly when it fits by itself and its key is free. */
  lemma InsertOk(raw: Raw, m: Meta)
    requires Keyed(raw)
    ensures Insert(raw, m).ok <==> SelfFits(m) && Free(raw, m)
  {
    match m
    case PackageMeta(_) =>
    case ChannelMeta(pkg, ch) =>
      EntriesOk(raw.(channels := raw.channels + [RawChannel(pkg, ch.name)]), pkg, ch.name, ch.entries);
    case BundleMeta(_) =>
    case DeprecationMeta(pkg, ds) => DeprecationsInsert(raw, pkg, ds);
  }

  /** And then exactly its key is taken besides. */
  lemma FreeAfter(raw: Raw, m: Meta, n: Meta)
    requires Keyed(raw) && Insert(raw, m).ok
    ensures Free(Insert(raw, m).state, n) <==> Free(raw, n) && !Clash(m, n)
  {
    match m
    case PackageMeta(name) =>
    case ChannelMeta(pkg, ch) =>
      InsertEntriesIs(raw.(channels := raw.channels + [RawChannel(pkg, ch.name)]), pkg, ch.name, ch.entries, "", "");
    case BundleMeta(b) =>
      assert forall r :: r in raw.bundles + [b] <==> r in raw.bundles || r == b;
    case DeprecationMeta(pkg, ds) => InsertDeprecationsKeyed(raw, pkg, ds);
  }

  lemma FitsCons(m: Meta, rest: seq<Meta>)
    ensures Fits([m] + rest) <==> SelfFits(m) && Fits(rest) && forall n <- rest :: !Clash(m, n)
  {
    var all := [m] + rest;
    assert forall n :: n in all <==> n == m || n in rest;
    if Fits(all) {
      forall i, j | 0 <= i < j < |rest| ensures !Clash(rest[i], rest[j]) {
        assert all[i + 1] == rest[i] && all[j + 1] == rest[j];
      }
      forall n <- rest ensures !Clash(m, n) {
        var i :| 0 <= i < |rest| && rest[i] == n;
        assert all[0] == m && all[i + 1] == n;
      }
    }
  }

  lemma {:induction false} InsertAllOk(raw: Raw, metas: seq<Meta>)
    requires Keyed(raw)
    ensures InsertAll(raw, metas).ok <==> Fits(metas) && forall m <- metas :: Free(raw, m)
    decreases |metas|
  {
    if metas != [] {
      var m, rest := metas[0], metas[1..];
      InsertOk(raw, m);
      FitsCons(m, rest);
      assert metas == [m] + rest;
      if Insert(raw, m).ok {
        InsertKeyed(raw, m);
        InsertAllOk(Insert(raw, m).state, rest);
        forall n <- rest ensures Free(Insert(raw, m).state, n) <==> Free(raw, n) && !Clash(m, n) {
          FreeAfter(raw, m, n);
        }
      }
    }
  }

  /** Main result: empty staging tables take a list of blobs exactly when every blob fits by itself and no
      two claim one key. */
  lemma StagedExactly(metas: seq<Meta>)
    ensures InsertAll(NOTHING, metas).ok <==> Fits(metas)
  {
    InsertAllOk(NOTHING, metas);
    assert forall m <- metas :: Free(NOTHING, m);
  }

  // ---------------------------------------------------------------- any order of the blobs

  lemma {:induction false} TwoOf<T>(s: seq<T>, x: T) returns (i: nat, j: nat)
    requires multiset(s)[x] >= 2
    ensures i < j < |s| && s[i] == x && s[j] == x
  {
    SplitLast(s);
    var n := |s| - 1;
    if s[n] == x {
      assert x in multiset(s[..n]);
      i :| i < n && s[i] == x;
      j := n;
    } else {
      i, j := TwoOf(s[..n], x);
    }
  }

  lemma Repeated<T>(s: seq<T>, i: nat, j: nat)
    requires i < j < |s| && s[i] == s[j]
    ensures multiset(s)[s[i]] >= 2
  {
    assert s == s[..j] + s[j..];
    assert s[i] in s[..j] && s[j] in s[j..];
  }

  lemma ClashSymmetric(m: Meta, n: Meta)
    ensures Clash(m, n) <==> Clash(n, m)
  {
  }

  /** Whether blobs fit does not depend on their order. */
  lemma FitsPermuted(a: seq<Meta>, b: seq<Meta>)
    requires multiset(a) == multiset(b) && Fits(a)
    ensures Fits(b)
  {
    forall m <- b ensures SelfFits(m) {
      assert m in multiset(b);
    }
    forall i, j | 0 <= i < j < |b| ensures !Clash(b[i], b[j]) {
      if b[i] == b[j] {
        Repeated(b, i, j);
        var k, l := TwoOf(a, b[i]);
      } else {
        assert b[i] in multiset(b) && b[j] in multiset(b);
        var k, l :| 0 <= k < |a| && 0 <= l < |a| && a[k] == b[i] && a[l] == b[j];
        ClashSymmetric(a[k], a[l]);
      }
    }
  }

  lemma NoFitPermuted(a: seq<Meta>, b: seq<Meta>)
    requires multiset(a) == multiset(b) && !Fits(a)
    ensures !Fits(b)
  {
    if Fits(b) {
      FitsPermuted(b, a);
    }
  }

  lemma FitsFront(front: seq<Meta>, rest: seq<Meta>)
    ensures Fits(front + rest) ==> Fits(front)
  {
    var all := front + rest;
    assert forall i | 0 <= i < |front| :: all[i] == front[i];
    assert forall m <- front :: m in all;
  }

  // ---------------------------------------------------------------- the blobs of a run

  /** The blobs that rows stand for. */
  function Metas(blobs: int -> Meta, rows: seq<P.Sent>): seq<Meta> {
    seq(|rows|, i requires 0 <= i < |rows| => blobs(rows[i].row))
  }

  /** The staging tables after these rows. */
  function Staged(blobs: int -> Meta, rows: seq<P.Sent>): Outcome<Raw> {
    InsertAll(NOTHING, Metas(blobs, rows))
  }

  /** Once done is committed, a batch that is not refused goes into the tables. */
  ghost predicate Sound(refuses: P.Refusal, blobs: int -> Meta) {
    forall done, batch | Staged(blobs, done).ok && !refuses(done, batch) :: Staged(blobs, done + batch).ok
  }

  /** And the database refuses nothing else: no batch is lost to the engine. */
  ghost predicate Reliable(refuses: P.Refusal, blobs: int -> Meta) {
    forall done, batch | Staged(blobs, done).ok :: refuses(done, batch) <==> !Staged(blobs, done + batch).ok
  }

  /** Such a database is that of the staging tables. */
  lemma TablesAreReliable(blobs: int -> Meta)
    ensures Reliable((done, batch) => !Staged(blobs, done + batch).ok, blobs)
    ensures Sound((done, batch) => !Staged(blobs, done + batch).ok, blobs)
  {
  }

  lemma {:induction false} BatchesStaged(refuses: P.Refusal, blobs: int -> Meta, done: seq<P.Sent>, rows: seq<P.Sent>)
    requires Sound(refuses, blobs) && P.Batches(refuses, done, rows) && Staged(blobs, done).ok
    ensures Staged(blobs, done + rows).ok
    decreases |rows|
  {
    if |rows| < P.BATCH_SIZE {
      if rows == [] {
        assert done + rows == done;
      }
    } else {
      var first, rest := rows[..P.BATCH_SIZE], rows[P.BATCH_SIZE..];
      BatchesStaged(refuses, blobs, done + first, rest);
      assert done + first + rest == done + rows;
    }
  }

  /** Main result: in every state of every run, whatever has failed, the committed rows are blobs that the
      staging tables have taken, one after the other. */
  lemma CommittedAreStaged(setup: P.Setup, blobs: int -> Meta, states: seq<P.State>, steps: seq<P.Step>, i: nat)
    requires R.IsRun(setup, states, steps) && i < |states| && Sound(setup.refuses, blobs)
    ensures Staged(blobs, states[i].committed).ok
  {
    R.RunInvariant(setup, states, steps, i);
    var rows := states[i].committed;
    assert Metas(blobs, []) == [] && [] + rows == rows;
    BatchesStaged(setup.refuses, blobs, [], rows);
  }

  /** All rows of all producers, one producer after the other. */
  function AllRows(inputs: seq<seq<P.Item>>): seq<P.Sent> {
    if inputs == [] then []
    else AllRows(inputs[..|inputs| - 1]) + P.RowsOf(|inputs| - 1, inputs[|inputs| - 1])
  }

  /** The rows of the first n producers, as they were sent. */
  function Before(rows: seq<P.Sent>, n: nat): seq<P.Sent> {
    if rows == [] then []
    else
      var last := rows[|rows| - 1];
      Before(rows[..|rows| - 1], n) + if last.producer < n then [last] else []
  }

  lemma {:induction false} BeforeFirst(rows: seq<P.Sent>)
    ensures Before(rows, 0) == []
  {
    if rows != [] {
      BeforeFirst(rows[..|rows| - 1]);
    }
  }

  lemma {:induction false} BeforeAll(rows: seq<P.Sent>, n: nat)
    requires forall r <- rows :: r.producer < n
    ensures Before(rows, n) == rows
  {
    if rows != [] {
      SplitLast(rows);
      BeforeAll(rows[..|rows| - 1], n);
    }
  }

  /** The row that is next goes to the earlier producers, to the n-th one, or to neither. */
  lemma NextRow<T>(all: seq<T>, before: seq<T>, own: seq<T>, toAll: seq<T>, toBefore: seq<T>, toOwn: seq<T>)
    requires multiset(all) == multiset(before + own)
    requires (toBefore == toAll && toOwn == []) || (toBefore == [] && toOwn == toAll)
    ensures multiset(all + toAll) == multiset((before + toBefore) + (own + toOwn))
  {
    SumAssociates(multiset(before), multiset(own), multiset(toAll));
  }

  lemma {:induction false} BeforeNext(rows: seq<P.Sent>, n: nat)
    ensures multiset(Before(rows, n + 1)) == multiset(Before(rows, n) + P.From(rows, n))
  {
    if rows != [] {
      var init, last := rows[..|rows| - 1], rows[|rows| - 1];
      BeforeNext(init, n);
      NextRow(Before(init, n + 1), Before(init, n), P.From(init, n),
              if last.producer < n + 1 then [last] else [],
              if last.producer < n then [last] else [],
              if last.producer == n then [last] else []);
    }
  }

  lemma SameAppended<T>(a: seq<T>, b: seq<T>, more: seq<T>)
    requires multiset(a) == multiset(b)
    ensures multiset(a + more) == multiset(b + more)
  {
  }

  /** When producers 0 to n - 1 sent all their rows, the rows of the first n producers are those. */
  lemma {:induction false} BeforeInputs(inputs: seq<seq<P.Item>>, rows: seq<P.Sent>)
    requires forall p | 0 <= p < |inputs| :: P.From(rows, p) == P.RowsOf(p, inputs[p])
    ensures multiset(Before(rows, |inputs|)) == multiset(AllRows(inputs))
  {
    if inputs == [] {
      BeforeFirst(rows);
    } else {
      var n := |inputs| - 1;
      BeforeInputs(inputs[..n], rows);
      BeforeNext(rows, n);
      SameAppended(Before(rows, n), AllRows(inputs[..n]), P.RowsOf(n, inputs[n]));
    }
  }

  /** When every walk has come to its end, what was sent are the rows of all producers, in some order. */
  lemma AllSent(setup: P.Setup, s: P.State)
    requires P.Inv(setup, s) && s.closed && s.failed == {}
    ensures multiset(s.sent) == multiset(AllRows(setup.inputs))
  {
    forall p | 0 <= p < |setup.inputs| ensures P.From(s.sent, p) == P.RowsOf(p, setup.inputs[p]) {
      assert !P.Running(setup, s, p);
      assert setup.inputs[p][..s.pos[p]] == setup.inputs[p];
    }
    BeforeInputs(setup.inputs, s.sent);
    BeforeAll(s.sent, |setup.inputs|);
  }

  lemma MetasAppend(blobs: int -> Meta, a: seq<P.Sent>, b: seq<P.Sent>)
    ensures Metas(blobs, a + b) == Metas(blobs, a) + Metas(blobs, b)
  {
  }

  lemma {:induction false} MetasPermuted(blobs: int -> Meta, a: seq<P.Sent>, b: seq<P.Sent>)
    requires multiset(a) == multiset(b)
    ensures multiset(Metas(blobs, a)) == multiset(Metas(blobs, b))
    decreases |a|
  {
    if a == [] {
      assert |multiset(b)| == 0;
    } else {
      var n := |a| - 1;
      var k := LastIn(a, b);
      var front, back := b[..k], b[k + 1..];
      SplitLast(a);
      MetasPermuted(blobs, a[..n], front + back);
      MetasAppend(blobs, a[..n], [a[n]]);
      MetasAppend(blobs, front, back);
      MetasAppend(blobs, front, [b[k]]);
      MetasAppend(blobs, front + [b[k]], back);
      assert Metas(blobs, [a[n]]) == Metas(blobs, [b[k]]);
    }
  }

  /** The blobs that all producers meet. */
  function AllMetas(setup: P.Setup, blobs: int -> Meta): seq<Meta> {
    Metas(blobs, AllRows(setup.inputs))
  }

  /** Main result: when no walk failed and the context is live, the pipeline succeeds exactly when the blobs
      fit the tables. So of all interleavings either every one succeeds or none. */
  lemma SucceedsExactly(setup: P.Setup, blobs: int -> Meta, states: seq<P.State>, steps: seq<P.Step>, i: nat)
    requires R.IsRun(setup, states, steps) && i < |states|
    requires Reliable(setup.refuses, blobs)
    requires R.Returned(states[i]) && states[i].failed == {} && !states[i].cancelled
    ensures R.Succeeded(states[i]) <==> Fits(AllMetas(setup, blobs))
  {
    var s := states[i];
    R.RunInvariant(setup, states, steps, i);
    assert Sound(setup.refuses, blobs);
    CommittedAreStaged(setup, blobs, states, steps, i);
    AllSent(setup, s);
    MetasPermuted(blobs, s.sent, AllRows(setup.inputs));
    StagedExactly(Metas(blobs, s.sent));
    if R.Succeeded(s) {
      R.SuccessIsComplete(setup, s);
      FitsPermuted(Metas(blobs, s.sent), AllMetas(setup, blobs));
    } else {
      RefusedUnfit(setup, blobs, s);
      NoFitPermuted(Metas(blobs, s.sent), AllMetas(setup, blobs));
    }
  }

  /** The writer has failed only over blobs that do not fit. */
  lemma RefusedUnfit(setup: P.Setup, blobs: int -> Meta, s: P.State)
    requires P.Inv(setup, s) && s.writer.Failed? && !s.cancelled
    requires Reliable(setup.refuses, blobs) && Staged(blobs, s.committed).ok
    ensures !Fits(Metas(blobs, s.sent))
  {
    var front := s.committed + s.batch;
    assert !Staged(blobs, front).ok;
    StagedExactly(Metas(blobs, front));
    MetasAppend(blobs, front, s.channel);
    FitsFront(Metas(blobs, front), Metas(blobs, s.channel));
  }

  /** And then the staging tables are those of exactly the blobs that were met, so the results about imports
      of staged blobs apply to every one of them. */
  lemma SuccessStagesAll(setup: P.Setup, blobs: int -> Meta, states: seq<P.State>, steps: seq<P.Step>, i: nat)
    requires R.IsRun(setup, states, steps) && i < |states|
    requires Sound(setup.refuses, blobs) && R.Succeeded(states[i])
    ensures var metas := Metas(blobs, states[i].committed);
            InsertAll(NOTHING, metas).ok && multiset(metas) == multiset(AllMetas(setup, blobs))
  {
    var s := states[i];
    R.RunInvariant(setup, states, steps, i);
    CommittedAreStaged(setup, blobs, states, steps, i);
    R.SuccessIsComplete(setup, s);
    AllSent(setup, s);
    MetasPermuted(blobs, s.committed, AllRows(setup.inputs));
  }

  /** So one blob the tables cannot take, such as a channel that lists a bundle twice, keeps every run over
      the catalog from succeeding, whatever its other packages are. */
  lemma OneBlobFailsAll(setup: P.Setup, blobs: int -> Meta, states: seq<P.State>, steps: seq<P.Step>, i: nat, m: Meta)
    requires R.IsRun(setup, states, steps) && i < |states| && Sound(setup.refuses, blobs)
    requires m in AllMetas(setup, blobs) && !SelfFits(m)
    ensures !R.Succeeded(states[i])
  {
    if R.Succeeded(states[i]) {
      SuccessStagesAll(setup, blobs, states, steps, i);
      var metas := Metas(blobs, states[i].committed);
      StagedExactly(metas);
      SameElements(AllMetas(setup, blobs), metas, m);
    }
  }

  lemma SameElements<T>(a: seq<T>, b: seq<T>, x: T)
    requires multiset(a) == multiset(b) && x in a
    ensures x in b
  {
    assert x in multiset(a);
  }
}
