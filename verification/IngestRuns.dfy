/** Runs of the ingest pipeline: what it has committed when it returns, when it cannot move, and
    that it does not run forever. */
module IngestRuns {
  import opened Ingest

  ghost predicate IsRun(setup: Setup, states: seq<State>, steps: seq<Step>) {
    && |states| == |steps| + 1
    && states[0] == Start(setup)
    && forall i | 0 <= i < |steps| ::
         Shaped(setup, states[i]) && Enabled(setup, states[i], steps[i]) &&
           states[i + 1] == After(setup, states[i], steps[i])
  }

  /** Main result: in every state of every interleaving, the rows sent so far are the committed ones,
      the current batch and the channel, in that order. */
  lemma {:induction false} RunInvariant(setup: Setup, states: seq<State>, steps: seq<Step>, i: nat)
    requires IsRun(setup, states, steps) && i < |states|
    ensures Inv(setup, states[i])
    decreases i
  {
    if i == 0 {
      StartInv(setup);
    } else {
      RunInvariant(setup, states, steps, i - 1);
      StepKeeps(setup, states[i - 1], steps[i - 1]);
    }
  }

  // ---------------------------------------------------------------- what Ingest returns

  /** The walk has returned, the channel is closed and the writer has answered. */
  predicate Returned(s: State) {
    s.closed && !s.writer.Receiving?
  }

  /** Ingest returns no error. */
  predicate Succeeded(s: State) {
    Returned(s) && s.failed == {} && s.writer.Done?
  }

  function Lengths(inputs: seq<seq<Item>>): seq<nat> {
    seq(|inputs|, p requires 0 <= p < |inputs| => |inputs[p]|)
  }

  /** Main result: on success every row of every producer is committed, once, in that producer's
      order, every fault is recorded under its package, and there was no other error. */
  lemma SuccessIsComplete(setup: Setup, s: State)
    requires Inv(setup, s) && Succeeded(s)
    ensures s.committed == s.sent
    ensures forall p | 0 <= p < |setup.inputs| :: From(s.committed, p) == RowsOf(p, setup.inputs[p])
    ensures s.faults == AllFaults(setup.inputs, Lengths(setup.inputs))
    ensures forall p | 0 <= p < |setup.inputs| :: forall k | 0 <= k < |setup.inputs[p]| :: !setup.inputs[p][k].Unowned?
  {
    assert s.sent == s.committed;
    forall p | 0 <= p < |s.pos|
      ensures s.pos[p] == |setup.inputs[p]|
      ensures From(s.committed, p) == RowsOf(p, setup.inputs[p])
    {
      assert !Running(setup, s, p);
      assert setup.inputs[p][..s.pos[p]] == setup.inputs[p];
    }
    assert s.pos == Lengths(setup.inputs);
  }

  /** Main result: when the writer has failed, what is committed is a run of whole accepted batches
      at the front of what was sent, and the batch after them is the one that failed. */
  lemma FailureKeepsWholeBatches(setup: Setup, s: State)
    requires Inv(setup, s) && s.writer.Failed?
    ensures s.committed < s.sent && |s.committed| % BATCH_SIZE == 0 && Batches(setup.refuses, [], s.committed)
    ensures exists n | |s.committed| < n <= |s.committed| + BATCH_SIZE && n <= |s.sent| ::
              setup.refuses(s.committed, s.sent[|s.committed|..n]) || s.cancelled
  {
    var n := |s.committed| + |s.batch|;
    assert s.sent[|s.committed|..n] == s.batch;
  }

  // ---------------------------------------------------------------- when nothing moves

  /** Steps the pipeline takes by itself. Cancelling, and giving up a walk early, are not its own. */
  predicate Own(step: Step) {
    !step.Cancel? && !step.Abandon?
  }

  ghost predicate CanMove(setup: Setup, s: State)
    requires Shaped(setup, s)
  {
    exists step :: Own(step) && Enabled(setup, s, step)
  }

  /** Every producer that is left waits to send, and nobody will receive. */
  ghost predicate Blocked(setup: Setup, s: State)
    requires Shaped(setup, s)
  {
    && s.writer.Failed? && !s.cancelled && |s.channel| == CAPACITY
    && !AllStopped(setup, s)
    && forall p | Running(setup, s, p) :: InHand(setup, s, p).Insert?
  }

  lemma ProducerMoves(setup: Setup, s: State, p: nat)
    requires Shaped(setup, s) && Running(setup, s, p)
    requires !InHand(setup, s, p).Insert? || |s.channel| < CAPACITY || s.cancelled
    ensures CanMove(setup, s)
  {
    match InHand(setup, s, p)
    case Insert(_) =>
      assert if s.cancelled then Enabled(setup, s, SendCancelled(p)) else Enabled(setup, s, Send(p));
    case Fault(_) => assert Enabled(setup, s, Record(p));
    case Nothing => assert Enabled(setup, s, Pass(p));
    case Unowned => assert Enabled(setup, s, Stop(p));
  }

  lemma WalkMoves(setup: Setup, s: State)
    requires Inv(setup, s) && !s.closed && !Blocked(setup, s)
    requires s.writer.Failed? || s.channel == []
    ensures CanMove(setup, s)
  {
    if AllStopped(setup, s) {
      assert Enabled(setup, s, Close);
    } else {
      var p :| 0 <= p < |s.pos| && Running(setup, s, p)
               && (!InHand(setup, s, p).Insert? || |s.channel| < CAPACITY || s.cancelled);
      ProducerMoves(setup, s, p);
    }
  }

  lemma WriterMoves(setup: Setup, s: State)
    requires Inv(setup, s) && s.writer.Receiving? && (s.channel != [] || s.closed)
    ensures CanMove(setup, s)
  {
    if MustFlush(s) {
      assert if setup.refuses(s.committed, s.batch) then Enabled(setup, s, FlushFails) else Enabled(setup, s, Flush);
    } else if s.channel != [] {
      assert Enabled(setup, s, Receive);
    } else {
      assert Enabled(setup, s, Finish);
    }
  }

  /** Main result: before it returns, the pipeline cannot move exactly when the writer has failed,
      the context is live, the channel is full, and each of the producers left has a row to send. */
  lemma StuckExactly(setup: Setup, s: State)
    requires Inv(setup, s) && !Returned(s)
    ensures !CanMove(setup, s) <==> Blocked(setup, s)
  {
    if Blocked(setup, s) {
      forall step | Own(step) ensures !Enabled(setup, s, step) {
      }
    } else if s.writer.Receiving? && (s.channel != [] || s.closed) {
      WriterMoves(setup, s);
    } else {
      WalkMoves(setup, s);
    }
  }

  /** Cancelling the context frees the producers. */
  lemma CancelFrees(setup: Setup, s: State)
    requires Inv(setup, s) && Blocked(setup, s)
    ensures Enabled(setup, s, Cancel) && CanMove(setup, After(setup, s, Cancel))
  {
    var p :| 0 <= p < |s.pos| && Running(setup, s, p);
    ProducerMoves(setup, After(setup, s, Cancel), p);
  }

  // ---------------------------------------------------------------- runs end

  /** Work left in the first n producers. */
  function WorkOf(setup: Setup, pos: seq<nat>, failed: set<nat>, n: nat): nat
    requires n <= |pos| == |setup.inputs| && forall p | 0 <= p < |pos| :: pos[p] <= |setup.inputs[p]|
  {
    if n == 0 then 0
    else WorkOf(setup, pos, failed, n - 1) + 4 * (|setup.inputs[n - 1]| - pos[n - 1]) + if n - 1 in failed then 0 else 1
  }

  function Work(setup: Setup, s: State): nat
    requires Shaped(setup, s)
  {
    WorkOf(setup, s.pos, s.failed, |s.pos|) + 3 * |s.channel| + 2 * |s.batch|
    + (if s.closed then 0 else 1) + (if s.writer.Receiving? then 1 else 0) + (if s.cancelled then 0 else 1)
  }

  lemma {:induction false} AdvanceWork(setup: Setup, pos: seq<nat>, failed: set<nat>, p: nat, n: nat)
    requires p < |pos| && n <= |pos| == |setup.inputs|
    requires forall q | 0 <= q < |pos| :: pos[q] <= |setup.inputs[q]|
    requires pos[p] < |setup.inputs[p]|
    ensures WorkOf(setup, pos[p := pos[p] + 1], failed, n) == WorkOf(setup, pos, failed, n) - if p < n then 4 else 0
  {
    if n > 0 {
      AdvanceWork(setup, pos, failed, p, n - 1);
    }
  }

  lemma {:induction false} FailWork(setup: Setup, pos: seq<nat>, failed: set<nat>, p: nat, n: nat)
    requires p < |pos| && n <= |pos| == |setup.inputs| && p !in failed
    requires forall q | 0 <= q < |pos| :: pos[q] <= |setup.inputs[q]|
    ensures WorkOf(setup, pos, failed + {p}, n) == WorkOf(setup, pos, failed, n) - if p < n then 1 else 0
  {
    if n > 0 {
      FailWork(setup, pos, failed, p, n - 1);
    }
  }

  lemma ProducerWorks(setup: Setup, s: State, step: Step)
    requires Shaped(setup, s) && Enabled(setup, s, step)
    requires step.Send? || step.Record? || step.Pass? || step.Stop? || step.SendCancelled? || step.Abandon?
    ensures Shaped(setup, After(setup, s, step)) && Work(setup, After(setup, s, step)) < Work(setup, s)
  {
    if step.Send? || step.Record? || step.Pass? {
      AdvanceWork(setup, s.pos, s.failed, step.p, |s.pos|);
    } else {
      FailWork(setup, s.pos, s.failed, step.p, |s.pos|);
    }
  }

  lemma StepWorks(setup: Setup, s: State, step: Step)
    requires Shaped(setup, s) && Enabled(setup, s, step)
    ensures Shaped(setup, After(setup, s, step)) && Work(setup, After(setup, s, step)) < Work(setup, s)
  {
    if step.Send? || step.Record? || step.Pass? || step.Stop? || step.SendCancelled? || step.Abandon? {
      ProducerWorks(setup, s, step);
    }
  }

  /** Main result: no interleaving takes more steps than there was work at the start. */
  lemma {:induction false} RunsEnd(setup: Setup, states: seq<State>, steps: seq<Step>, i: nat)
    requires IsRun(setup, states, steps) && i < |states|
    ensures Shaped(setup, states[i]) && i + Work(setup, states[i]) <= Work(setup, Start(setup))
    decreases i
  {
    if i > 0 {
      RunsEnd(setup, states, steps, i - 1);
      RunInvariant(setup, states, steps, i - 1);
      StepWorks(setup, states[i - 1], steps[i - 1]);
    }
  }

  // ---------------------------------------------------------------- the blocked state is reached

  ghost predicate Reached(setup: Setup, s: State, n: nat)
    decreases n
  {
    if n == 0 then s == Start(setup)
    else exists was, step :: LeadsTo(setup, was, step, s) && Reached(setup, was, n - 1)
  }

  ghost predicate LeadsTo(setup: Setup, s: State, step: Step, u: State) {
    Shaped(setup, s) && Enabled(setup, s, step) && u == After(setup, s, step)
  }

  function Numbered(k: nat): seq<Sent> {
    seq(k, i requires 0 <= i < k => Sent(0, i))
  }

  /** One producer with 757 rows, and a database that refuses every batch. */
  function Example(): Setup {
    Setup([seq(757, i => Insert(i))], (_, _) => true)
  }

  /** k rows were sent and the first r of them received. */
  function Fed(k: nat, r: nat, writer: WriterState): State
    requires r <= k
  {
    State([k], {}, multiset{}, Numbered(k)[r..], false, false, Numbered(r), [], writer, Numbered(k))
  }

  lemma OneMore(setup: Setup, s: State, step: Step, u: State, n: nat)
    requires Reached(setup, s, n) && LeadsTo(setup, s, step, u)
    ensures Reached(setup, u, n + 1)
  {
  }

  lemma SendOne(k: nat, r: nat, writer: WriterState)
    requires r <= k < 757 && k - r < CAPACITY
    ensures LeadsTo(Example(), Fed(k, r, writer), Send(0), Fed(k + 1, r, writer))
  {
    assert Numbered(k + 1) == Numbered(k) + [Sent(0, k)];
    assert [k][0 := k + 1] == [k + 1];
    assert Numbered(k + 1)[r..] == Numbered(k)[r..] + [Sent(0, k)];
  }

  lemma ReceiveOne(r: nat)
    requires r < BATCH_SIZE
    ensures LeadsTo(Example(), Fed(r + 1, r, Receiving), Receive, Fed(r + 1, r + 1, Receiving))
  {
    assert Numbered(r + 1) == Numbered(r) + [Sent(0, r)];
    assert Numbered(r + 1)[r..] == [Sent(0, r)];
  }

  lemma RowSent(k: nat, r: nat, writer: WriterState, n: nat)
    requires r <= k < 757 && k - r < CAPACITY && Reached(Example(), Fed(k, r, writer), n)
    ensures Reached(Example(), Fed(k + 1, r, writer), n + 1)
  {
    SendOne(k, r, writer);
    OneMore(Example(), Fed(k, r, writer), Send(0), Fed(k + 1, r, writer), n);
  }

  lemma RowReceived(r: nat, n: nat)
    requires r < BATCH_SIZE && Reached(Example(), Fed(r + 1, r, Receiving), n)
    ensures Reached(Example(), Fed(r + 1, r + 1, Receiving), n + 1)
  {
    ReceiveOne(r);
    OneMore(Example(), Fed(r + 1, r, Receiving), Receive, Fed(r + 1, r + 1, Receiving), n);
  }

  lemma {:induction false} FirstBatch(k: nat)
    requires k <= BATCH_SIZE
    ensures Reached(Example(), Fed(k, k, Receiving), 2 * k)
  {
    if k == 0 {
      assert Fed(0, 0, Receiving) == Start(Example());
    } else {
      FirstBatch(k - 1);
      RowSent(k - 1, k - 1, Receiving, 2 * (k - 1));
      RowReceived(k - 1, 2 * k - 1);
    }
  }

  lemma {:induction false} FillChannel(j: nat)
    requires j <= CAPACITY
    ensures Reached(Example(), Fed(BATCH_SIZE + j, BATCH_SIZE, Failed), 2 * BATCH_SIZE + 1 + j)
  {
    if j == 0 {
      FirstBatch(BATCH_SIZE);
      assert LeadsTo(Example(), Fed(BATCH_SIZE, BATCH_SIZE, Receiving), FlushFails,
        Fed(BATCH_SIZE, BATCH_SIZE, Failed));
      OneMore(Example(), Fed(BATCH_SIZE, BATCH_SIZE, Receiving), FlushFails, Fed(BATCH_SIZE, BATCH_SIZE, Failed),
        2 * BATCH_SIZE);
    } else {
      FillChannel(j - 1);
      RowSent(BATCH_SIZE + j - 1, BATCH_SIZE, Failed, 2 * BATCH_SIZE + j);
    }
  }

  /** A run does reach a blocked state: the first batch is refused, 256 more rows fill the channel,
      and the next one waits. */
  lemma BlockedIsReached()
    ensures exists s, n :: Reached(Example(), s, n) && Shaped(Example(), s) && Blocked(Example(), s)
  {
    FillChannel(CAPACITY);
    var s := Fed(BATCH_SIZE + CAPACITY, BATCH_SIZE, Failed);
    assert Shaped(Example(), s) && Running(Example(), s, 0);
    assert Reached(Example(), s, 2 * BATCH_SIZE + 1 + CAPACITY);
  }

  // ---------------------------------------------------------------- the writer by itself

  /** batchWriter on the rows of a closed channel. It commits whole batches until one is refused, and
      the rest at the end. */
  method BatchWriter(rows: seq<Sent>, refuses: Refusal) returns (ok: bool, committed: seq<Sent>)
    ensures committed <= rows && Batches(refuses, [], committed)
    ensures ok ==> committed == rows
    ensures !ok ==> |committed| % BATCH_SIZE == 0 && |committed| < |rows|
    ensures !ok ==>
            refuses(committed,
              rows[|committed|..if |committed| + BATCH_SIZE < |rows| then |committed| + BATCH_SIZE else |rows|])
  {
    var batch: seq<Sent> := [];
    committed := [];
    for i := 0 to |rows|
      invariant rows[..i] == committed + batch
      invariant |batch| < BATCH_SIZE && |committed| % BATCH_SIZE == 0
      invariant Batches(refuses, [], committed)
    {
      batch := batch + [rows[i]];
      assert rows[..i + 1] == committed + batch;
      if |batch| >= BATCH_SIZE {
        assert batch == rows[|committed|..i + 1];
        if refuses(committed, batch) {
          return false, committed;
        }
        assert [] + committed == committed;
        BatchesAppend(refuses, [], committed, batch);
        OneMoreBatch(|committed|);
        committed, batch := committed + batch, [];
      }
    }
    assert rows[..|rows|] == rows;
    if batch != [] {
      assert batch == rows[|committed|..|rows|];
      if refuses(committed, batch) {
        return false, committed;
      }
      assert [] + committed == committed;
      BatchesAppend(refuses, [], committed, batch);
      committed := committed + batch;
    }
    ok := true;
  }
}
