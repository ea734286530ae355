/** The ingest pipeline: producers that walk the catalog send rows over a bounded channel to one
    writer, which commits them in batches. One step is one move of one goroutine. */
module Ingest {
  import opened Seqs

  const CAPACITY := 256
  const BATCH_SIZE := 500

  /** What a producer meets next: a row to insert, a parse error recorded under a package, nothing
      to insert, or a parse error that belongs to no package and ends the walk. */
  datatype Item = Insert(row: int) | Fault(pkg: string) | Nothing | Unowned

  /** A row as the channel carries it: who sent it, and what. */
  datatype Sent = Sent(producer: nat, row: int)

  /** What the database refuses: a batch, given the rows committed before it. */
  type Refusal = (seq<Sent>, seq<Sent>) -> bool

  /** The walk of each producer, and the batches the database refuses to commit. */
  datatype Setup = Setup(inputs: seq<seq<Item>>, refuses: Refusal)

  datatype WriterState = Receiving | Failed | Done

  /** `failed` are the producers that returned an error, `pos` how far each has come, `faults` the
      packages under which an error was recorded. `sent` is history. */
  datatype State = State(
    pos: seq<nat>,
    failed: set<nat>,
    faults: multiset<string>,
    channel: seq<Sent>,
    closed: bool,
    cancelled: bool,
    batch: seq<Sent>,
    committed: seq<Sent>,
    writer: WriterState,
    sent: seq<Sent>)

  datatype Step =
    | Send(p: nat) | Record(p: nat) | Pass(p: nat) | Stop(p: nat) | SendCancelled(p: nat) | Close
    | Receive | Flush | FlushFails | Finish
    | Cancel | Abandon(p: nat)

  function Start(setup: Setup): State {
    State(seq(|setup.inputs|, _ => 0), {}, multiset{}, [], false, false, [], [], Receiving, [])
  }

  predicate Shaped(setup: Setup, s: State) {
    && |s.pos| == |setup.inputs|
    && (forall p | 0 <= p < |s.pos| :: s.pos[p] <= |setup.inputs[p]|)
    && (forall p <- s.failed :: p < |s.pos|)
  }

  /** Producer p has an item in hand. */
  predicate Running(setup: Setup, s: State, p: nat)
    requires Shaped(setup, s)
  {
    p < |s.pos| && p !in s.failed && s.pos[p] < |setup.inputs[p]|
  }

  function InHand(setup: Setup, s: State, p: nat): Item
    requires Shaped(setup, s) && Running(setup, s, p)
  {
    setup.inputs[p][s.pos[p]]
  }

  /** The writer must flush: the batch is full, or no row will follow. */
  predicate MustFlush(s: State) {
    s.writer.Receiving? && s.batch != [] && (|s.batch| >= BATCH_SIZE || (s.closed && s.channel == []))
  }

  predicate AllStopped(setup: Setup, s: State)
    requires Shaped(setup, s)
  {
    forall p | 0 <= p < |s.pos| :: !Running(setup, s, p)
  }

  predicate Enabled(setup: Setup, s: State, step: Step)
    requires Shaped(setup, s)
  {
    match step
    case Send(p) => Running(setup, s, p) && InHand(setup, s, p).Insert? && |s.channel| < CAPACITY
    case Record(p) => Running(setup, s, p) && InHand(setup, s, p).Fault?
    case Pass(p) => Running(setup, s, p) && InHand(setup, s, p).Nothing?
    case Stop(p) => Running(setup, s, p) && InHand(setup, s, p).Unowned?
    case SendCancelled(p) => Running(setup, s, p) && InHand(setup, s, p).Insert? && s.cancelled
    case Close => !s.closed && AllStopped(setup, s)
    case Receive => s.writer.Receiving? && |s.batch| < BATCH_SIZE && s.channel != []
    case Flush => MustFlush(s) && !setup.refuses(s.committed, s.batch)
    case FlushFails => MustFlush(s) && (setup.refuses(s.committed, s.batch) || s.cancelled)
    case Finish => s.writer.Receiving? && s.batch == [] && s.closed && s.channel == []
    case Cancel => !s.cancelled
    case Abandon(p) => Running(setup, s, p) && (s.failed != {} || s.cancelled)
  }

  function Advance(s: State, p: nat): State
    requires p < |s.pos|
  {
    s.(pos := s.pos[p := s.pos[p] + 1])
  }

  function After(setup: Setup, s: State, step: Step): State
    requires Shaped(setup, s) && Enabled(setup, s, step)
  {
    match step
    case Send(p) =>
      var row := Sent(p, InHand(setup, s, p).row);
      Advance(s, p).(channel := s.channel + [row], sent := s.sent + [row])
    case Record(p) => Advance(s, p).(faults := s.faults + multiset{InHand(setup, s, p).pkg})
    case Pass(p) => Advance(s, p)
    case Stop(p) => s.(failed := s.failed + {p})
    case SendCancelled(p) => s.(failed := s.failed + {p})
    case Close => s.(closed := true)
    case Receive => s.(channel := s.channel[1..], batch := s.batch + [s.channel[0]])
    case Flush => s.(committed := s.committed + s.batch, batch := [])
    case FlushFails => s.(writer := Failed)
    case Finish => s.(writer := Done)
    case Cancel => s.(cancelled := true)
    case Abandon(p) => s.(failed := s.failed + {p})
  }

  // ---------------------------------------------------------------- what every step keeps

  /** The rows producer p sent while it passed these items. */
  function RowsOf(p: nat, items: seq<Item>): seq<Sent> {
    if items == [] then []
    else
      var last := items[|items| - 1];
      RowsOf(p, items[..|items| - 1]) + if last.Insert? then [Sent(p, last.row)] else []
  }

  function FaultsOf(items: seq<Item>): multiset<string> {
    if items == [] then multiset{}
    else
      var last := items[|items| - 1];
      FaultsOf(items[..|items| - 1]) + FaultFor(last)
  }

  function AllFaults(inputs: seq<seq<Item>>, pos: seq<nat>): multiset<string>
    requires |pos| == |inputs| && forall p | 0 <= p < |pos| :: pos[p] <= |inputs[p]|
  {
    if inputs == [] then multiset{}
    else
      var n := |inputs| - 1;
      AllFaults(inputs[..n], pos[..n]) + FaultsOf(inputs[n][..pos[n]])
  }

  /** The rows of producer p, in order. */
  function From(rows: seq<Sent>, p: nat): seq<Sent> {
    if rows == [] then []
    else
      var last := rows[|rows| - 1];
      From(rows[..|rows| - 1], p) + if last.producer == p then [last] else []
  }

  ghost predicate InOrder(setup: Setup, s: State)
    requires Shaped(setup, s)
  {
    forall p | 0 <= p < |s.pos| :: From(s.sent, p) == RowsOf(p, setup.inputs[p][..s.pos[p]])
  }

  /** No producer went past an error that belongs to no package. */
  ghost predicate NonePassed(setup: Setup, s: State)
    requires Shaped(setup, s)
  {
    forall p | 0 <= p < |s.pos| :: forall k | 0 <= k < s.pos[p] :: !setup.inputs[p][k].Unowned?
  }

  /** After done, rows was built from batches none of which the database refused in its turn: whole ones,
      and possibly a last one that is shorter. */
  ghost predicate Batches(refuses: Refusal, done: seq<Sent>, rows: seq<Sent>)
    decreases |rows|
  {
    if |rows| < BATCH_SIZE then rows == [] || !refuses(done, rows)
    else !refuses(done, rows[..BATCH_SIZE]) && Batches(refuses, done + rows[..BATCH_SIZE], rows[BATCH_SIZE..])
  }

  ghost predicate KnownProducers(s: State) {
    forall r <- s.sent :: r.producer < |s.pos|
  }

  ghost predicate Inv(setup: Setup, s: State) {
    && Shaped(setup, s)
    && s.sent == s.committed + s.batch + s.channel
    && InOrder(setup, s) && NonePassed(setup, s) && KnownProducers(s)
    && s.faults == AllFaults(setup.inputs, s.pos)
    && |s.channel| <= CAPACITY
    && |s.batch| <= BATCH_SIZE
    && Batches(setup.refuses, [], s.committed)
    && (|s.committed| % BATCH_SIZE != 0 ==> s.closed && s.channel == [] && s.batch == [] && !s.writer.Failed?)
    && (s.closed ==> AllStopped(setup, s))
    && (s.writer.Done? ==> s.closed && s.channel == [] && s.batch == [])
    && (s.writer.Failed? ==> s.batch != [] && (setup.refuses(s.committed, s.batch) || s.cancelled)
                             && (|s.batch| == BATCH_SIZE || (s.closed && s.channel == [])))
  }

  lemma NextItem(items: seq<Item>, k: nat)
    requires k < |items|
    ensures items[..k + 1][..k] == items[..k] && items[..k + 1][k] == items[k]
  {
  }

  /** What passing an item adds to the faults: its package, or nothing. */
  function FaultFor(item: Item): multiset<string> {
    if item.Fault? then multiset{item.pkg} else multiset{}
  }

  lemma FaultsNext(items: seq<Item>, k: nat)
    requires k < |items|
    ensures FaultsOf(items[..k + 1]) == FaultsOf(items[..k]) + FaultFor(items[k])
  {
    NextItem(items, k);
  }

  lemma AllFaultsLast(inputs: seq<seq<Item>>, pos: seq<nat>)
    requires |pos| == |inputs| > 0 && forall q | 0 <= q < |pos| :: pos[q] <= |inputs[q]|
    ensures var n := |inputs| - 1;
            AllFaults(inputs, pos) == AllFaults(inputs[..n], pos[..n]) + FaultsOf(inputs[n][..pos[n]])
  {
  }

  lemma AdvanceLastFaults(inputs: seq<seq<Item>>, pos: seq<nat>, p: nat)
    requires |pos| == |inputs| == p + 1 && forall q | 0 <= q < |pos| :: pos[q] <= |inputs[q]|
    requires pos[p] < |inputs[p]|
    ensures AllFaults(inputs, pos[p := pos[p] + 1]) == AllFaults(inputs, pos) + FaultFor(inputs[p][pos[p]])
  {
    AllFaultsLast(inputs, pos[p := pos[p] + 1]);
    assert pos[p := pos[p] + 1][..p] == pos[..p];
    FaultsNext(inputs[p], pos[p]);
    SumAssociates(AllFaults(inputs[..p], pos[..p]), FaultsOf(inputs[p][..pos[p]]), FaultFor(inputs[p][pos[p]]));
  }

  lemma {:induction false} AdvanceFaults(inputs: seq<seq<Item>>, pos: seq<nat>, p: nat)
    requires |pos| == |inputs| && forall q | 0 <= q < |pos| :: pos[q] <= |inputs[q]|
    requires p < |pos| && pos[p] < |inputs[p]|
    ensures AllFaults(inputs, pos[p := pos[p] + 1]) == AllFaults(inputs, pos) + FaultFor(inputs[p][pos[p]])
  {
    var n := |inputs| - 1;
    if p == n {
      AdvanceLastFaults(inputs, pos, p);
    } else {
      var init, front := inputs[..n], pos[..n];
      AdvanceFaults(init, front, p);
      AllFaultsLast(inputs, pos[p := pos[p] + 1]);
      assert pos[p := pos[p] + 1][..n] == front[p := front[p] + 1];
      SumAssociates(AllFaults(init, front), FaultsOf(inputs[n][..pos[n]]), FaultFor(inputs[p][pos[p]]));
    }
  }

  lemma FromAppend(rows: seq<Sent>, row: Sent, p: nat)
    ensures From(rows + [row], p) == From(rows, p) + if row.producer == p then [row] else []
  {
    assert (rows + [row])[..|rows|] == rows;
  }

  /** What passing an item adds to sent: its row, or nothing. */
  function SentFor(p: nat, item: Item): seq<Sent> {
    if item.Insert? then [Sent(p, item.row)] else []
  }

  lemma PassesFor(sent: seq<Sent>, items: seq<Item>, k: nat, p: nat, q: nat)
    requires k < |items|
    ensures From(sent + SentFor(p, items[k]), q) == From(sent, q) + if q == p then SentFor(p, items[k]) else []
    ensures RowsOf(p, items[..k + 1]) == RowsOf(p, items[..k]) + SentFor(p, items[k])
  {
    NextItem(items, k);
    if items[k].Insert? {
      FromAppend(sent, Sent(p, items[k].row), q);
    } else {
      assert sent + [] == sent;
    }
  }

  /** Any move past an item keeps the rows of every producer in order, when it sends the row of that
      item or nothing. */
  lemma PassesItem(setup: Setup, s: State, p: nat, u: State)
    requires Shaped(setup, s) && InOrder(setup, s) && Running(setup, s, p)
    requires u.pos == s.pos[p := s.pos[p] + 1] && u.failed == s.failed
    requires u.sent == s.sent + SentFor(p, InHand(setup, s, p))
    ensures Shaped(setup, u) && InOrder(setup, u)
  {
    forall q | 0 <= q < |u.pos| ensures From(u.sent, q) == RowsOf(q, setup.inputs[q][..u.pos[q]]) {
      PassesFor(s.sent, setup.inputs[p], s.pos[p], p, q);
    }
  }

  lemma PassesOwned(setup: Setup, s: State, p: nat)
    requires Shaped(setup, s) && NonePassed(setup, s) && Running(setup, s, p) && !InHand(setup, s, p).Unowned?
    ensures Shaped(setup, Advance(s, p)) && NonePassed(setup, Advance(s, p))
  {
  }

  /** And it keeps the faults in step, when it records the package of that item or nothing. */
  lemma PassesFault(setup: Setup, s: State, p: nat)
    requires Shaped(setup, s) && Running(setup, s, p) && s.faults == AllFaults(setup.inputs, s.pos)
    ensures Shaped(setup, Advance(s, p))
    ensures AllFaults(setup.inputs, Advance(s, p).pos) == s.faults + FaultFor(InHand(setup, s, p))
  {
    AdvanceFaults(setup.inputs, s.pos, p);
  }

  lemma {:induction false} BatchesAppend(refuses: Refusal, done: seq<Sent>, rows: seq<Sent>, batch: seq<Sent>)
    requires Batches(refuses, done, rows) && |rows| % BATCH_SIZE == 0
    requires 0 < |batch| <= BATCH_SIZE && !refuses(done + rows, batch)
    ensures Batches(refuses, done, rows + batch)
    decreases |rows|
  {
    if rows == [] {
      assert [] + batch == batch && done + [] == done;
      if |batch| == BATCH_SIZE {
        assert batch[..BATCH_SIZE] == batch && batch[BATCH_SIZE..] == [];
      }
    } else {
      var first, rest := rows[..BATCH_SIZE], rows[BATCH_SIZE..];
      assert rows == first + rest;
      assert (rows + batch)[..BATCH_SIZE] == first && (rows + batch)[BATCH_SIZE..] == rest + batch;
      assert done + rows == done + first + rest;
      BatchesAppend(refuses, done + first, rest, batch);
    }
  }

  lemma StayStopped(setup: Setup, s: State, u: State)
    requires Shaped(setup, s) && Shaped(setup, u) && u.pos == s.pos && s.failed <= u.failed
    ensures AllStopped(setup, s) ==> AllStopped(setup, u)
    ensures InOrder(setup, s) && u.sent == s.sent ==> InOrder(setup, u)
    ensures NonePassed(setup, s) ==> NonePassed(setup, u)
  {
    assert forall p :: Running(setup, u, p) ==> Running(setup, s, p);
  }

  lemma SendKeeps(setup: Setup, s: State, p: nat)
    requires Inv(setup, s) && Enabled(setup, s, Send(p))
    ensures Inv(setup, After(setup, s, Send(p)))
  {
    var u := After(setup, s, Send(p));
    PassesItem(setup, s, p, u);
    PassesFault(setup, s, p);
    PassesOwned(setup, s, p);
  }

  lemma RecordKeeps(setup: Setup, s: State, p: nat)
    requires Inv(setup, s) && Enabled(setup, s, Record(p))
    ensures Inv(setup, After(setup, s, Record(p)))
  {
    var u := After(setup, s, Record(p));
    assert s.sent + [] == s.sent;
    PassesItem(setup, s, p, u);
    PassesFault(setup, s, p);
    PassesOwned(setup, s, p);
  }

  lemma PassKeeps(setup: Setup, s: State, p: nat)
    requires Inv(setup, s) && Enabled(setup, s, Pass(p))
    ensures Inv(setup, After(setup, s, Pass(p)))
  {
    var u := After(setup, s, Pass(p));
    assert s.sent + [] == s.sent;
    PassesItem(setup, s, p, u);
    PassesFault(setup, s, p);
    PassesOwned(setup, s, p);
  }

  lemma FlushKeeps(setup: Setup, s: State)
    requires Inv(setup, s) && Enabled(setup, s, Flush)
    ensures Inv(setup, After(setup, s, Flush))
  {
    var u := After(setup, s, Flush);
    FlushCommits(setup.refuses, s.committed, s.batch);
    assert u.sent == u.committed + u.batch + u.channel;
    StayStopped(setup, s, u);
  }

  lemma FlushCommits(refuses: Refusal, committed: seq<Sent>, batch: seq<Sent>)
    requires Batches(refuses, [], committed) && |committed| % BATCH_SIZE == 0
    requires 0 < |batch| <= BATCH_SIZE && !refuses(committed, batch)
    ensures Batches(refuses, [], committed + batch)
    ensures |batch| == BATCH_SIZE ==> |committed + batch| % BATCH_SIZE == 0
  {
    assert [] + committed == committed;
    BatchesAppend(refuses, [], committed, batch);
    OneMoreBatch(|committed|);
  }

  lemma OneMoreBatch(n: nat)
    requires n % BATCH_SIZE == 0
    ensures (n + BATCH_SIZE) % BATCH_SIZE == 0
  {
  }

  lemma ReceiveKeeps(setup: Setup, s: State)
    requires Inv(setup, s) && Enabled(setup, s, Receive)
    ensures Inv(setup, After(setup, s, Receive))
  {
    assert s.channel == [s.channel[0]] + s.channel[1..];
    StayStopped(setup, s, After(setup, s, Receive));
  }

  /** The moves that pass no row on and commit nothing. */
  lemma OtherKeeps(setup: Setup, s: State, step: Step)
    requires Inv(setup, s) && Enabled(setup, s, step)
    requires !step.Send? && !step.Record? && !step.Pass? && !step.Receive? && !step.Flush?
    ensures Inv(setup, After(setup, s, step))
  {
    StayStopped(setup, s, After(setup, s, step));
  }

  lemma StepKeeps(setup: Setup, s: State, step: Step)
    requires Inv(setup, s) && Enabled(setup, s, step)
    ensures Inv(setup, After(setup, s, step))
  {
    match step
    case Send(p) => SendKeeps(setup, s, p);
    case Record(p) => RecordKeeps(setup, s, p);
    case Pass(p) => PassKeeps(setup, s, p);
    case Receive => ReceiveKeeps(setup, s);
    case Flush => FlushKeeps(setup, s);
    case _ => OtherKeeps(setup, s, step);
  }

  lemma {:induction false} NoFaultsYet(inputs: seq<seq<Item>>)
    ensures AllFaults(inputs, seq(|inputs|, _ => 0)) == multiset{}
  {
    if inputs != [] {
      var n := |inputs| - 1;
      assert seq(|inputs|, _ => 0)[..n] == seq(n, _ => 0);
      NoFaultsYet(inputs[..n]);
    }
  }

  lemma StartInv(setup: Setup)
    ensures Inv(setup, Start(setup))
  {
    NoFaultsYet(setup.inputs);
  }
}
