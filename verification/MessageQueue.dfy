/** A cross-core message queue: one core sends work items to another and gets them back when
    they are done. The steps of the two cores interleave; the two rings are sequences of
    bounded length, which the ring's own module shows them to be. */
module MessageQueues {
  import SpscQueues

  const QUEUE_LENGTH: nat := 128
  const BATCH_SIZE: nat := 16

  /** Where the sending core is: in `move_pending` after pushing `k` items, or in
      `process_completions`, popping a batch or `k` items into completing it. */
  datatype Sender = SIdle | Moving(k: nat) | PoppingDone | Completing(k: nat)

  /** Where the receiving core is: in `process_incoming`, popping a batch or processing it, or
      in `flush_response_batch` after pushing `k` items, called from `process_incoming` or not:
      an item may be done as soon as `process()` returns. */
  datatype Receiver = RIdle | PoppingNew | Processing | Flushing(k: nat, processing: bool)

  /** Work items are known by the order of their submission. `log` is the order in which
      `process()` was called and `done` that of the calls of `complete()`. */
  datatype Queue = Queue(
    pendingFifo: seq<nat>,
    pending: seq<nat>,
    batch: seq<nat>,
    processing: multiset<nat>,
    completedFifo: seq<nat>,
    completed: seq<nat>,
    doneBatch: seq<nat>,
    done: seq<nat>,
    sender: Sender,
    receiver: Receiver,
    sent: int,
    compl: int,
    currentQueueLength: int,
    submitted: nat,
    log: seq<nat>)

  const EMPTY := Queue([], [], [], multiset{}, [], [], [], [], SIdle, RIdle, 0, 0, 0, 0, [])

  datatype Action =
    | Submit
    | FlushRequests
    | PushPending
    | EndMove
    | StartCompletions
    | PopDone
    | EndPopDone
    | Complete
    | EndCompletions
    | StartIncoming
    | PopNew
    | EndPopNew
    | Process
    | EndIncoming
    | Respond(item: nat, stopped: bool)
    | FlushResponses
    | PushCompleted
    | EndFlush

  predicate HasRoom(ring: seq<nat>) {
    |ring| < QUEUE_LENGTH - 1
  }

  ghost predicate Enabled(q: Queue, a: Action) {
    match a
    case Submit => q.sender == SIdle
    case FlushRequests => q.sender == SIdle && q.pendingFifo != []
    case PushPending => q.sender.Moving? && q.sender.k < |q.pendingFifo| && HasRoom(q.pending)
    case EndMove =>
      && q.sender.Moving? && q.sender.k <= |q.pendingFifo|
      && (q.sender.k == |q.pendingFifo| || !HasRoom(q.pending))
    case StartCompletions => q.sender == SIdle && q.completed != []
    case PopDone => q.sender == PoppingDone && q.completed != []
    case EndPopDone => q.sender == PoppingDone && q.doneBatch != []
    case Complete => q.sender.Completing? && q.doneBatch != []
    case EndCompletions => q.sender.Completing? && q.doneBatch == []
    case StartIncoming => q.receiver == RIdle && q.pending != []
    case PopNew => q.receiver == PoppingNew && q.pending != []
    case EndPopNew => q.receiver == PoppingNew && q.batch != []
    case Process => q.receiver == Processing && q.batch != []
    case EndIncoming => q.receiver == Processing && q.batch == []
    case Respond(item, _) => (q.receiver == RIdle || q.receiver == Processing) && item in q.processing
    case FlushResponses => q.receiver == RIdle && q.completedFifo != []
    case PushCompleted => q.receiver.Flushing? && q.receiver.k < |q.completedFifo| && HasRoom(q.completed)
    case EndFlush =>
      && q.receiver.Flushing? && q.receiver.k <= |q.completedFifo|
      && (q.receiver.k == |q.completedFifo| || !HasRoom(q.completed))
  }

  /** The pushed items leave `pendingFifo` and are counted. */
  ghost function MoveEnded(q: Queue): Queue
    requires q.sender.Moving? && q.sender.k <= |q.pendingFifo|
  {
    var nr := q.sender.k;
    if nr == 0 then q.(sender := SIdle)
    else q.(pendingFifo := q.pendingFifo[nr..], currentQueueLength := q.currentQueueLength + nr, sent := q.sent + nr,
            sender := SIdle)
  }

  /** The pushed items leave `completedFifo`. */
  ghost function FlushEnded(q: Queue): Queue
    requires q.receiver.Flushing? && q.receiver.k <= |q.completedFifo|
  {
    q.(completedFifo := q.completedFifo[q.receiver.k..], receiver := if q.receiver.processing then Processing else RIdle)
  }

  ghost function Apply(q: Queue, a: Action): Queue
    requires Enabled(q, a)
  {
    match a
    case Submit =>
      var fifo := q.pendingFifo + [q.submitted];
      q.(pendingFifo := fifo, submitted := q.submitted + 1, sender := if |fifo| >= BATCH_SIZE then Moving(0) else SIdle)
    case FlushRequests => q.(sender := Moving(0))
    case PushPending =>
      q.(pending := q.pending + [q.pendingFifo[q.sender.k]], sender := Moving(q.sender.k + 1))
    case EndMove => MoveEnded(q)
    case StartCompletions => q.(sender := PoppingDone)
    case PopDone => q.(completed := q.completed[1..], doneBatch := q.doneBatch + [q.completed[0]])
    case EndPopDone => q.(sender := Completing(0))
    case Complete =>
      q.(doneBatch := q.doneBatch[1..], done := q.done + [q.doneBatch[0]], sender := Completing(q.sender.k + 1))
    case EndCompletions =>
      var nr := q.sender.k;
      q.(currentQueueLength := q.currentQueueLength - nr, compl := q.compl + nr, sender := SIdle)
    case StartIncoming => q.(receiver := PoppingNew)
    case PopNew => q.(pending := q.pending[1..], batch := q.batch + [q.pending[0]])
    case EndPopNew => q.(receiver := Processing)
    case Process =>
      q.(batch := q.batch[1..], log := q.log + [q.batch[0]], processing := q.processing + multiset{q.batch[0]})
    case EndIncoming => q.(receiver := RIdle)
    case Respond(item, stopped) =>
      var fifo := q.completedFifo + [item];
      q.(processing := q.processing - multiset{item}, completedFifo := fifo,
         receiver := if |fifo| >= BATCH_SIZE || stopped then Flushing(0, q.receiver == Processing) else q.receiver)
    case FlushResponses => q.(receiver := Flushing(0, false))
    case PushCompleted =>
      q.(completed := q.completed + [q.completedFifo[q.receiver.k]], receiver := q.receiver.(k := q.receiver.k + 1))
    case EndFlush => FlushEnded(q)
  }

  // ----- the stages an item can be in

  /** Items at the front of `pendingFifo` that are already in the ring. */
  ghost function Moved(q: Queue): nat {
    if q.sender.Moving? then q.sender.k else 0
  }

  ghost function Flushed(q: Queue): nat {
    if q.receiver.Flushing? then q.receiver.k else 0
  }

  /** Items completed but not yet counted. */
  ghost function Uncounted(q: Queue): nat {
    if q.sender.Completing? then q.sender.k else 0
  }

  ghost function Waiting(q: Queue): seq<nat>
    requires Moved(q) <= |q.pendingFifo|
  {
    q.batch + q.pending + q.pendingFifo[Moved(q)..]
  }

  ghost function Back(q: Queue): multiset<nat>
    requires Flushed(q) <= |q.completedFifo|
  {
    multiset(q.completedFifo[Flushed(q)..]) + multiset(q.completed) + multiset(q.doneBatch) + multiset(q.done)
  }

  ghost function Numbers(n: nat): seq<nat> {
    seq(n, i => i)
  }

  /** What was processed, then what waits to be, is what was submitted, in order. */
  ghost predicate InOrder(q: Queue) {
    && Moved(q) <= |q.pendingFifo| && |q.pending| < QUEUE_LENGTH
    && q.log + Waiting(q) == Numbers(q.submitted)
    && (q.batch != [] ==> q.receiver == PoppingNew || q.receiver == Processing || (q.receiver.Flushing? && q.receiver.processing))
  }

  /** What was processed is in process, on its way back or done. */
  ghost predicate Returned(q: Queue) {
    && Flushed(q) <= |q.completedFifo| && |q.completed| < QUEUE_LENGTH
    && multiset(q.log) == q.processing + Back(q)
    && (q.doneBatch != [] ==> q.sender == PoppingDone || q.sender.Completing?)
  }

  ghost predicate Counted(q: Queue) {
    && q.sent == q.submitted - |q.pendingFifo|
    && q.compl + Uncounted(q) == |q.done|
    && q.currentQueueLength == q.sent - q.compl
    && 0 <= q.compl && |q.done| <= q.sent
  }

  ghost predicate Inv(q: Queue) {
    InOrder(q) && Returned(q) && Counted(q)
  }

  lemma SubmitKeepsOrder(q: Queue)
    requires Inv(q) && Enabled(q, Submit)
    ensures InOrder(Apply(q, Submit))
  {
    var r := Apply(q, Submit);
    assert Numbers(r.submitted) == Numbers(q.submitted) + [q.submitted];
    assert q.pendingFifo[0..] == q.pendingFifo && r.pendingFifo[0..] == r.pendingFifo;
    assert r.log + Waiting(r) == (q.log + Waiting(q)) + [q.submitted];
  }

  lemma MoveKeepsOrder(q: Queue, a: Action)
    requires a == PushPending || a == EndMove || a == FlushRequests
    requires Inv(q) && Enabled(q, a)
    ensures InOrder(Apply(q, a))
  {
    var r := Apply(q, a);
    if a == PushPending {
      var k := q.sender.k;
      assert q.pendingFifo[k..] == [q.pendingFifo[k]] + q.pendingFifo[k + 1..];
      assert Waiting(r) == Waiting(q);
    } else if a == EndMove {
      assert r.pendingFifo[0..] == r.pendingFifo;
    }
  }

  lemma ReceiveKeepsOrder(q: Queue, a: Action)
    requires a == PopNew || a == Process
    requires Inv(q) && Enabled(q, a)
    ensures InOrder(Apply(q, a))
  {
    var r := Apply(q, a);
    if a == PopNew {
      Shift(q.batch, q.pending, q.pendingFifo[Moved(q)..]);
    } else {
      ShiftOut(q.log, q.batch, q.pending, q.pendingFifo[Moved(q)..]);
    }
  }

  /** The first of `b` goes to the end of `a`. */
  lemma Shift<T>(a: seq<T>, b: seq<T>, c: seq<T>)
    requires b != []
    ensures (a + [b[0]]) + b[1..] + c == a + b + c
  {
    assert b == [b[0]] + b[1..];
  }

  lemma ShiftOut<T>(a: seq<T>, b: seq<T>, c: seq<T>, d: seq<T>)
    requires b != []
    ensures (a + [b[0]]) + (b[1..] + c + d) == a + (b + c + d)
  {
    assert b == [b[0]] + b[1..];
  }

  lemma StepKeepsOrder(q: Queue, a: Action)
    requires Inv(q) && Enabled(q, a)
    ensures InOrder(Apply(q, a))
  {
    if a == Submit {
      SubmitKeepsOrder(q);
    } else if a == PushPending || a == EndMove || a == FlushRequests {
      MoveKeepsOrder(q, a);
    } else if a == PopNew || a == Process {
      ReceiveKeepsOrder(q, a);
    } else {
      assert Waiting(Apply(q, a)) == Waiting(q);
    }
  }

  lemma Split(l: seq<nat>)
    requires l != []
    ensures multiset(l) == multiset{l[0]} + multiset(l[1..])
  {
    assert l == [l[0]] + l[1..];
  }

  lemma MoveOne(p: multiset<nat>, b: multiset<nat>, item: nat)
    requires item in p
    ensures (p - multiset{item}) + (b + multiset{item}) == p + b
  {
  }

  lemma ProcessKeepsReturned(q: Queue, a: Action)
    requires a == Process || a.Respond?
    requires Inv(q) && Enabled(q, a)
    ensures Returned(Apply(q, a))
  {
    var r := Apply(q, a);
    if a.Respond? {
      assert q.completedFifo[0..] == q.completedFifo && r.completedFifo[0..] == r.completedFifo;
      assert multiset(r.completedFifo) == multiset(q.completedFifo) + multiset{a.item};
      assert Back(r) == Back(q) + multiset{a.item};
      MoveOne(q.processing, Back(q), a.item);
    } else {
      assert Back(r) == Back(q);
    }
  }

  lemma FlushKeepsReturned(q: Queue, a: Action)
    requires a == FlushResponses || a == PushCompleted || a == EndFlush
    requires Inv(q) && Enabled(q, a)
    ensures Returned(Apply(q, a))
  {
    var r := Apply(q, a);
    if a == PushCompleted {
      var k := q.receiver.k;
      Split(q.completedFifo[k..]);
      assert q.completedFifo[k..][1..] == q.completedFifo[k + 1..];
    } else {
      assert q.completedFifo[Flushed(q)..] == r.completedFifo[Flushed(r)..];
    }
    assert Back(r) == Back(q);
  }

  lemma SenderKeepsReturned(q: Queue, a: Action)
    requires a == PopDone || a == Complete
    requires Inv(q) && Enabled(q, a)
    ensures Returned(Apply(q, a))
  {
    if a == PopDone {
      Split(q.completed);
    } else {
      Split(q.doneBatch);
    }
    assert Back(Apply(q, a)) == Back(q);
  }

  lemma StepKeepsReturned(q: Queue, a: Action)
    requires Inv(q) && Enabled(q, a)
    ensures Returned(Apply(q, a))
  {
    if a == PopDone || a == Complete {
      SenderKeepsReturned(q, a);
    } else if a == Process || a.Respond? {
      ProcessKeepsReturned(q, a);
    } else if a == FlushResponses || a == PushCompleted || a == EndFlush {
      FlushKeepsReturned(q, a);
    } else {
      assert Back(Apply(q, a)) == Back(q);
    }
  }

  lemma StepKeepsCounts(q: Queue, a: Action)
    requires Inv(q) && Enabled(q, a)
    ensures Counted(Apply(q, a))
  {
    if a == Complete {
      DoneBounded(q);
    }
  }

  /** What is completed or about to be was processed, so it was submitted. */
  lemma DoneBounded(q: Queue)
    requires InOrder(q) && Returned(q)
    ensures |q.doneBatch| + |q.done| <= |q.log| <= q.submitted - |q.pendingFifo| + Moved(q)
  {
    assert |multiset(q.log)| == |q.log| && |multiset(q.done)| == |q.done| && |multiset(q.doneBatch)| == |q.doneBatch|;
    assert |Back(q)| >= |q.doneBatch| + |q.done|;
    assert |q.log + Waiting(q)| == q.submitted;
  }

  ghost predicate StepAt(run: seq<Queue>, acts: seq<Action>, i: nat)
    requires i < |acts| && |run| == |acts| + 1
  {
    Enabled(run[i], acts[i]) && run[i + 1] == Apply(run[i], acts[i])
  }

  ghost predicate IsRun(run: seq<Queue>, acts: seq<Action>) {
    |run| == |acts| + 1 && run[0] == EMPTY && forall i :: 0 <= i < |acts| ==> StepAt(run, acts, i)
  }

  lemma {:induction false} EveryState(run: seq<Queue>, acts: seq<Action>, i: nat)
    requires IsRun(run, acts) && i < |run|
    ensures Inv(run[i])
  {
    if i > 0 {
      EveryState(run, acts, i - 1);
      assert StepAt(run, acts, i - 1);
      StepKeepsOrder(run[i - 1], acts[i - 1]);
      StepKeepsReturned(run[i - 1], acts[i - 1]);
      StepKeepsCounts(run[i - 1], acts[i - 1]);
    }
  }

  // ----- what the invariant means

  /** How often `item` occurs over all stages. */
  ghost function Occurrences(q: Queue, item: nat): nat
    requires Moved(q) <= |q.pendingFifo| && Flushed(q) <= |q.completedFifo|
  {
    multiset(q.pendingFifo[Moved(q)..])[item] + multiset(q.pending)[item] + multiset(q.batch)[item] + q.processing[item]
    + multiset(q.completedFifo[Flushed(q)..])[item] + multiset(q.completed)[item] + multiset(q.doneBatch)[item]
    + multiset(q.done)[item]
  }

  lemma {:induction false} NumbersOnce(n: nat, item: nat)
    ensures multiset(Numbers(n))[item] == if item < n then 1 else 0
  {
    if n > 0 {
      NumbersOnce(n - 1, item);
      assert Numbers(n) == Numbers(n - 1) + [n - 1];
    } else {
      assert Numbers(0) == [];
    }
  }

  lemma OnceInState(q: Queue, item: nat)
    requires Inv(q)
    ensures Occurrences(q, item) == if item < q.submitted then 1 else 0
  {
    NumbersOnce(q.submitted, item);
    assert multiset(q.log + Waiting(q)) == multiset(q.log) + multiset(Waiting(q));
    assert multiset(Waiting(q)) == multiset(q.batch) + multiset(q.pending) + multiset(q.pendingFifo[Moved(q)..]);
  }

  /** Each submitted item, and nothing else, is in exactly one stage, once. */
  lemma ExactlyOneStage(run: seq<Queue>, acts: seq<Action>, i: nat, item: nat)
    requires IsRun(run, acts) && i < |run|
    ensures Inv(run[i]) && Occurrences(run[i], item) == if item < run[i].submitted then 1 else 0
  {
    EveryState(run, acts, i);
    OnceInState(run[i], item);
  }

  /** `process()` is called in the order of submission. */
  lemma ProcessedInOrder(run: seq<Queue>, acts: seq<Action>, i: nat)
    requires IsRun(run, acts) && i < |run|
    ensures |run[i].log| <= run[i].submitted && run[i].log == Numbers(|run[i].log|)
  {
    EveryState(run, acts, i);
    OrderInState(run[i]);
  }

  lemma OrderInState(q: Queue)
    requires InOrder(q)
    ensures |q.log| <= q.submitted && q.log == Numbers(|q.log|)
  {
    assert |q.log + Waiting(q)| == q.submitted;
    forall k | 0 <= k < |q.log|
      ensures q.log[k] == k
    {
      assert (q.log + Waiting(q))[k] == Numbers(q.submitted)[k];
    }
  }

  /** No item is completed twice, and none before it was processed. */
  lemma CompletedOnce(run: seq<Queue>, acts: seq<Action>, i: nat, j: nat, k: nat)
    requires IsRun(run, acts) && i < |run| && j < k < |run[i].done|
    ensures run[i].done[j] != run[i].done[k] && run[i].done[j] in run[i].log
  {
    EveryState(run, acts, i);
    var q := run[i];
    var x := q.done[j];
    ExactlyOneStage(run, acts, i, x);
    assert q.done == q.done[..k] + [q.done[k]] + q.done[k + 1..];
    assert x in q.done[..k];
    assert multiset(q.log)[x] >= multiset(q.done)[x] >= 1;
  }

  /** The sender's queue length is the difference of its counters and never goes below zero,
      also in the step that lowers it. */
  lemma QueueLengthOk(run: seq<Queue>, acts: seq<Action>, i: nat)
    requires IsRun(run, acts) && i < |run|
    ensures run[i].currentQueueLength == run[i].sent - run[i].compl >= Uncounted(run[i])
    ensures 0 <= run[i].compl <= run[i].sent <= run[i].submitted
  {
    EveryState(run, acts, i);
  }

  /** When everything has drained, exactly the submitted items are completed. */
  lemma DrainedMeansDone(run: seq<Queue>, acts: seq<Action>, i: nat)
    requires IsRun(run, acts) && i < |run|
    requires run[i].currentQueueLength == 0 && run[i].pendingFifo == [] && run[i].sender == SIdle
    ensures multiset(run[i].done) == multiset(Numbers(run[i].submitted))
  {
    EveryState(run, acts, i);
    Drained(run[i]);
  }

  lemma Drained(q: Queue)
    requires Inv(q) && q.currentQueueLength == 0 && q.pendingFifo == [] && q.sender == SIdle
    ensures multiset(q.done) == multiset(Numbers(q.submitted))
  {
    assert |q.log| + |Waiting(q)| == |Numbers(q.submitted)| == q.submitted;
    AllReturned(q.log, q.processing + multiset(q.completedFifo[Flushed(q)..]) + multiset(q.completed) + multiset(q.doneBatch),
                q.done);
    assert q.log + Waiting(q) == q.log;
  }

  /** At least as many that came back as were sent, all of which were: those are all. */
  lemma AllReturned(log: seq<nat>, rest: multiset<nat>, done: seq<nat>)
    requires multiset(log) == rest + multiset(done) && |log| <= |done|
    ensures multiset(done) == multiset(log) && |log| == |done|
  {
    assert |multiset(log)| == |log| && |multiset(done)| == |done|;
    NothingElse(multiset(log), rest, multiset(done));
  }

  lemma NothingElse(all: multiset<nat>, rest: multiset<nat>, part: multiset<nat>)
    requires all == rest + part && |all| <= |part|
    ensures all == part && |rest| == 0
  {
    assert |rest| == 0;
    assert rest == multiset{};
  }

  // ----- the functions of the two cores, each as a run of its own steps

  /** The sender's steps from the start of `move_pending` to its end. */
  ghost function MoveSteps(q: Queue): Queue
    requires q.sender.Moving? && q.sender.k <= |q.pendingFifo|
    decreases if q.sender.Moving? then |q.pendingFifo| - q.sender.k else 0
  {
    if Enabled(q, PushPending) then MoveSteps(Apply(q, PushPending)) else Apply(q, EndMove)
  }

  /** The receiver's steps from the start of `flush_response_batch` to its end. */
  ghost function FlushSteps(q: Queue): Queue
    requires q.receiver.Flushing? && q.receiver.k <= |q.completedFifo|
    decreases if q.receiver.Flushing? then |q.completedFifo| - q.receiver.k else 0
  {
    if Enabled(q, PushCompleted) then FlushSteps(Apply(q, PushCompleted)) else Apply(q, EndFlush)
  }

  /** The sender's steps in `process_completions`: it pops what there is, then completes it. */
  ghost function CompletionSteps(q: Queue): Queue
    requires (q.sender == PoppingDone && q.doneBatch + q.completed != []) || q.sender.Completing?
    decreases q.sender == PoppingDone, |q.completed|, |q.doneBatch|
  {
    if Enabled(q, PopDone) then CompletionSteps(Apply(q, PopDone))
    else if Enabled(q, EndPopDone) then CompletionSteps(Apply(q, EndPopDone))
    else if Enabled(q, Complete) then CompletionSteps(Apply(q, Complete))
    else Apply(q, EndCompletions)
  }

  /** The receiver's steps in `process_incoming`: it pops what there is, then processes it. */
  ghost function IncomingSteps(q: Queue): Queue
    requires (q.receiver == PoppingNew && q.batch + q.pending != []) || q.receiver == Processing
    decreases q.receiver == PoppingNew, |q.pending|, |q.batch|
  {
    if Enabled(q, PopNew) then IncomingSteps(Apply(q, PopNew))
    else if Enabled(q, EndPopNew) then IncomingSteps(Apply(q, EndPopNew))
    else if Enabled(q, Process) then IncomingSteps(Apply(q, Process))
    else Apply(q, EndIncoming)
  }

  lemma {:induction false} MoveStepsTo(q: Queue, n: nat)
    requires q.sender.Moving? && q.sender.k <= n <= |q.pendingFifo|
    requires |q.pending| + (n - q.sender.k) <= QUEUE_LENGTH - 1
    requires n == |q.pendingFifo| || |q.pending| + (n - q.sender.k) == QUEUE_LENGTH - 1
    ensures MoveSteps(q) == Apply(q.(pending := q.pending + q.pendingFifo[q.sender.k..n], sender := Moving(n)), EndMove)
    decreases n - q.sender.k
  {
    var k := q.sender.k;
    if k < n {
      MoveStepsTo(Apply(q, PushPending), n);
      OneMore(q.pending, q.pendingFifo, k, n);
    } else {
      assert q.pending + q.pendingFifo[k..n] == q.pending;
    }
  }

  lemma {:induction false} FlushStepsTo(q: Queue, n: nat)
    requires q.receiver.Flushing? && q.receiver.k <= n <= |q.completedFifo|
    requires |q.completed| + (n - q.receiver.k) <= QUEUE_LENGTH - 1
    requires n == |q.completedFifo| || |q.completed| + (n - q.receiver.k) == QUEUE_LENGTH - 1
    ensures FlushSteps(q) ==
            Apply(q.(completed := q.completed + q.completedFifo[q.receiver.k..n], receiver := q.receiver.(k := n)), EndFlush)
    decreases n - q.receiver.k
  {
    var k := q.receiver.k;
    if k < n {
      FlushStepsTo(Apply(q, PushCompleted), n);
      OneMore(q.completed, q.completedFifo, k, n);
    } else {
      assert q.completed + q.completedFifo[k..n] == q.completed;
    }
  }

  lemma {:induction false} CompletionStepsTo(q: Queue)
    requires q.sender.Completing?
    ensures CompletionSteps(q) == Apply(q.(doneBatch := [], done := q.done + q.doneBatch,
                                           sender := Completing(q.sender.k + |q.doneBatch|)), EndCompletions)
    decreases |q.doneBatch|
  {
    if q.doneBatch != [] {
      CompletionStepsTo(Apply(q, Complete));
      assert q.done + q.doneBatch == (q.done + [q.doneBatch[0]]) + q.doneBatch[1..];
    } else {
      assert q.done + [] == q.done;
    }
  }

  lemma {:induction false} PoppedAll(q: Queue)
    requires q.sender == PoppingDone && q.doneBatch + q.completed != []
    ensures CompletionSteps(q)
         == CompletionSteps(q.(completed := [], doneBatch := q.doneBatch + q.completed, sender := Completing(0)))
    decreases |q.completed|
  {
    if q.completed != [] {
      PoppedAll(Apply(q, PopDone));
      assert (q.doneBatch + [q.completed[0]]) + q.completed[1..] == q.doneBatch + q.completed;
    } else {
      assert q.doneBatch + [] == q.doneBatch;
    }
  }

  lemma OneMore<T>(a: seq<T>, b: seq<T>, k: nat, n: nat)
    requires k < n <= |b|
    ensures a + b[k..n] == (a + [b[k]]) + b[k + 1..n]
  {
    assert b[k..n] == [b[k]] + b[k + 1..n];
  }

  lemma MovedAll<T>(log: seq<T>, held: multiset<T>, batch: seq<T>)
    requires batch != []
    ensures log + batch == (log + [batch[0]]) + batch[1..]
    ensures held + multiset(batch) == (held + multiset{batch[0]}) + multiset(batch[1..])
  {
    assert batch == [batch[0]] + batch[1..];
  }

  lemma {:induction false} IncomingStepsTo(q: Queue)
    requires q.receiver == Processing
    ensures IncomingSteps(q) == q.(batch := [], log := q.log + q.batch, processing := q.processing + multiset(q.batch),
                                   receiver := RIdle)
    decreases |q.batch|
  {
    if q.batch != [] {
      IncomingStepsTo(Apply(q, Process));
      Split(q.batch);
      MovedAll(q.log, q.processing, q.batch);
    } else {
      assert q.log + [] == q.log && q.processing + multiset([]) == q.processing;
    }
  }

  lemma {:induction false} TookAll(q: Queue)
    requires q.receiver == PoppingNew && q.batch + q.pending != []
    ensures IncomingSteps(q) == IncomingSteps(q.(pending := [], batch := q.batch + q.pending, receiver := Processing))
    decreases |q.pending|
  {
    if q.pending != [] {
      TookAll(Apply(q, PopNew));
      assert (q.batch + [q.pending[0]]) + q.pending[1..] == q.batch + q.pending;
    } else {
      assert q.batch + [] == q.batch;
    }
  }

  /** `process_completions` completes all that has come back, in the order it did. */
  lemma CompletionResult(q: Queue)
    requires q.sender == SIdle && q.doneBatch == []
    ensures (if Enabled(q, StartCompletions) then CompletionSteps(Apply(q, StartCompletions)) else q)
         == q.(completed := [], done := q.done + q.completed, compl := q.compl + |q.completed|,
               currentQueueLength := q.currentQueueLength - |q.completed|)
  {
    if q.completed != [] {
      PoppedAll(Apply(q, StartCompletions));
      assert [] + q.completed == q.completed;
      CompletionStepsTo(q.(completed := [], doneBatch := q.completed, sender := Completing(0)));
    } else {
      assert q.done + q.completed == q.done;
    }
  }

  /** `process_incoming` processes all that has come in, in the order it did. */
  lemma IncomingResult(q: Queue)
    requires q.receiver == RIdle && q.batch == []
    ensures (if Enabled(q, StartIncoming) then IncomingSteps(Apply(q, StartIncoming)) else q)
         == q.(pending := [], log := q.log + q.pending, processing := q.processing + multiset(q.pending))
  {
    if q.pending != [] {
      TookAll(Apply(q, StartIncoming));
      assert [] + q.pending == q.pending;
      IncomingStepsTo(q.(pending := [], batch := q.pending, receiver := Processing));
    } else {
      assert q.log + q.pending == q.log && q.processing + multiset(q.pending) == q.processing;
    }
  }

  /** `flush_response_batch` moves the first `n` responses when no more fit. */
  lemma FlushResult(q: Queue, n: nat)
    requires q.receiver == RIdle && n <= |q.completedFifo| && |q.completed| + n <= QUEUE_LENGTH - 1
    requires n == |q.completedFifo| || |q.completed| + n == QUEUE_LENGTH - 1
    ensures (if Enabled(q, FlushResponses) then FlushSteps(Apply(q, FlushResponses)) else q)
         == q.(completed := q.completed + q.completedFifo[..n], completedFifo := q.completedFifo[n..])
  {
    if q.completedFifo != [] {
      FlushStepsTo(Apply(q, FlushResponses), n);
      assert q.completedFifo[0..n] == q.completedFifo[..n];
    } else {
      assert q.completed + q.completedFifo[..n] == q.completed;
    }
  }

  /** `flush_request_batch` moves the first `n` requests when no more fit, and counts them. */
  lemma MoveResult(q: Queue, n: nat)
    requires q.sender == SIdle && n <= |q.pendingFifo| && |q.pending| + n <= QUEUE_LENGTH - 1
    requires n == |q.pendingFifo| || |q.pending| + n == QUEUE_LENGTH - 1
    ensures (if Enabled(q, FlushRequests) then MoveSteps(Apply(q, FlushRequests)) else q)
         == q.(pending := q.pending + q.pendingFifo[..n], pendingFifo := q.pendingFifo[n..], sent := q.sent + n,
               currentQueueLength := q.currentQueueLength + n)
  {
    if q.pendingFifo != [] {
      MoveStepsTo(Apply(q, FlushRequests), n);
      assert q.pendingFifo[0..n] == q.pendingFifo[..n] && (n == 0 ==> q.pendingFifo[n..] == q.pendingFifo);
    } else {
      assert q.pending + q.pendingFifo[..n] == q.pending;
    }
  }

  /** How many of the items that wait fit in a ring. */
  function Fit(ring: seq<nat>, fifo: seq<nat>): (n: nat)
    requires |ring| < QUEUE_LENGTH
    ensures n <= |fifo| && |ring| + n < QUEUE_LENGTH && (n == |fifo| || |ring| + n == QUEUE_LENGTH - 1)
  {
    if |ring| + |fifo| < QUEUE_LENGTH then |fifo| else QUEUE_LENGTH - 1 - |ring|
  }

  /** A response to a receiver at rest is one more waiting item, and perhaps a flush. */
  lemma RespondIsFlush(q: Queue, item: nat, stopped: bool)
    requires q.receiver == RIdle && item in q.processing
    ensures var r := q.(processing := q.processing - multiset{item}, completedFifo := q.completedFifo + [item]);
      && Enabled(r, FlushResponses)
      && Apply(q, Respond(item, stopped))
      == if |r.completedFifo| >= BATCH_SIZE || stopped then Apply(r, FlushResponses) else r
  {
  }

  /** The queue object. Each method is shown to do what the steps of its core do when the
      other core takes none meanwhile. */
  class MessageQueue {
    const pending: SpscQueues.SpscQueue<nat>
    const completed: SpscQueues.SpscQueue<nat>
    var pendingFifo: seq<nat>
    var completedFifo: seq<nat>
    var sent: nat
    var compl: nat
    var currentQueueLength: int
    var lastSntBatch: nat
    var lastCmplBatch: nat
    var received: nat
    var lastRcvBatch: nat
    // items in process and completed, and the history
    ghost var processing: multiset<nat>
    ghost var done: seq<nat>
    ghost var submitted: nat
    ghost var log: seq<nat>

    ghost predicate Valid()
      reads this, pending, completed
    {
      && pending != completed && pending.buffer != completed.buffer && pending.Valid() && completed.Valid()
      && pending.buffer.Length == completed.buffer.Length == QUEUE_LENGTH
    }

    ghost function State(s: Sender, r: Receiver): Queue
      requires Valid()
      reads this, pending, pending.buffer, completed, completed.buffer
    {
      Queue(pendingFifo, pending.Content(), [], processing, completedFifo, completed.Content(), [], done, s, r,
            sent, compl, currentQueueLength, submitted, log)
    }

    constructor ()
      ensures Valid() && State(SIdle, RIdle) == EMPTY
    {
      pending := new SpscQueues.SpscQueue(QUEUE_LENGTH);
      completed := new SpscQueues.SpscQueue(QUEUE_LENGTH);
      pendingFifo, completedFifo, sent, compl, currentQueueLength := [], [], 0, 0, 0;
      lastSntBatch, lastCmplBatch, received, lastRcvBatch := 0, 0, 0, 0;
      processing, done, submitted, log := multiset{}, [], 0, [];
    }

    /** `fifo` waited to be moved: what fits of it is in the ring of requests and counted, the
        rest waits on. */
    twostate predicate RequestsMoved(fifo: seq<nat>)
      requires old(Valid()) && Valid()
      reads this, pending, pending.buffer, completed
    {
      var n := Fit(old(pending.Content()), fifo);
      && pending.Content() == old(pending.Content()) + fifo[..n] && pendingFifo == fifo[n..]
      && sent == old(sent) + n && currentQueueLength == old(currentQueueLength) + n
    }

    /** The same of the ring of responses. */
    twostate predicate ResponsesMoved(fifo: seq<nat>)
      requires old(Valid()) && Valid()
      reads this, pending, completed, completed.buffer
    {
      var n := Fit(old(completed.Content()), fifo);
      completed.Content() == old(completed.Content()) + fifo[..n] && completedFifo == fifo[n..]
    }

    /** Pushes what fits of the requests that wait, and counts it. */
    method MovePending()
      requires Valid()
      modifies this`pendingFifo, this`sent, this`currentQueueLength, this`lastSntBatch, pending, pending.buffer
      ensures Valid() && RequestsMoved(old(pendingFifo)) && State(SIdle, RIdle) == MoveSteps(old(State(Moving(0), RIdle)))
    {
      ghost var q := State(Moving(0), RIdle);
      var nr := pending.PushAll(pendingFifo);
      MoveStepsTo(q, nr);
      assert q.pendingFifo[0..nr] == q.pendingFifo[..nr] && (nr == 0 ==> q.pendingFifo[nr..] == q.pendingFifo);
      if nr == 0 {
        return;
      }
      pendingFifo := pendingFifo[nr..];
      currentQueueLength := currentQueueLength + nr;
      lastSntBatch := nr;
      sent := sent + nr;
    }

    /** A full batch is moved at once. */
    method SubmitItem(item: nat)
      requires Valid() && item == submitted
      modifies this`pendingFifo, this`sent, this`currentQueueLength, this`lastSntBatch, this`submitted, pending, pending.buffer
      ensures Valid() && submitted == old(submitted) + 1
      ensures |old(pendingFifo)| + 1 < BATCH_SIZE ==>
        pendingFifo == old(pendingFifo) + [item] && pending.Content() == old(pending.Content()) && sent == old(sent)
      ensures |old(pendingFifo)| + 1 >= BATCH_SIZE ==> RequestsMoved(old(pendingFifo) + [item])
      ensures var q := Apply(old(State(SIdle, RIdle)), Submit);
        State(SIdle, RIdle) == if q.sender.Moving? then MoveSteps(q) else q
    {
      pendingFifo := pendingFifo + [item];
      submitted := submitted + 1;
      if |pendingFifo| >= BATCH_SIZE {
        MovePending();
      }
    }

    /** Pushes what fits of the requests that wait, however few there are. */
    method FlushRequestBatch()
      requires Valid()
      modifies this`pendingFifo, this`sent, this`currentQueueLength, this`lastSntBatch, pending, pending.buffer
      ensures Valid() && RequestsMoved(old(pendingFifo))
      ensures var q := old(State(SIdle, RIdle));
        State(SIdle, RIdle) == if Enabled(q, FlushRequests) then MoveSteps(Apply(q, FlushRequests)) else q
    {
      if pendingFifo == [] {
        assert pending.Content() + pendingFifo[..0] == pending.Content();
        return;
      }
      assert Apply(State(SIdle, RIdle), FlushRequests) == State(Moving(0), RIdle);
      MovePending();
    }

    /** Pushes what fits of the responses that wait. */
    method FlushResponseBatch()
      requires Valid()
      modifies this`completedFifo, completed, completed.buffer
      ensures Valid() && ResponsesMoved(old(completedFifo))
      ensures var q := old(State(SIdle, RIdle));
        State(SIdle, RIdle) == if Enabled(q, FlushResponses) then FlushSteps(Apply(q, FlushResponses)) else q
    {
      ghost var q := State(SIdle, RIdle);
      if completedFifo == [] {
        return;
      }
      var nr := completed.PushAll(completedFifo);
      FlushResult(q, nr);
      assert nr == 0 ==> q.completedFifo[nr..] == q.completedFifo;
      if nr == 0 {
        return;
      }
      completedFifo := completedFifo[nr..];
    }

    /** A full batch is flushed at once, and so is every response once the core has stopped. */
    method Respond(item: nat, stopped: bool)
      requires Valid() && item in processing
      modifies this`completedFifo, this`processing, completed, completed.buffer
      ensures Valid() && processing == old(processing) - multiset{item}
      ensures |old(completedFifo)| + 1 < BATCH_SIZE && !stopped ==>
        completedFifo == old(completedFifo) + [item] && completed.Content() == old(completed.Content())
      ensures |old(completedFifo)| + 1 >= BATCH_SIZE || stopped ==> ResponsesMoved(old(completedFifo) + [item])
      ensures var q := Apply(old(State(SIdle, RIdle)), Action.Respond(item, stopped));
        State(SIdle, RIdle) == if q.receiver.Flushing? then FlushSteps(q) else q
    {
      RespondIsFlush(State(SIdle, RIdle), item, stopped);
      processing := processing - multiset{item};
      completedFifo := completedFifo + [item];
      if |completedFifo| >= BATCH_SIZE || stopped {
        FlushResponseBatch();
      }
    }

    /** `wi->complete()` for each item. */
    method CompleteAll(items: seq<nat>)
      modifies this`done
      ensures done == old(done) + items
    {
      for i := 0 to |items|
        invariant done == old(done) + items[..i]
      {
        assert items[..i + 1] == items[..i] + [items[i]];
        done := done + [items[i]];
      }
      assert items[..|items|] == items;
    }

    /** Completes all that has come back. */
    method ProcessCompletions() returns (nr: nat)
      requires Valid()
      modifies this`currentQueueLength, this`compl, this`lastCmplBatch, this`done, completed
      ensures Valid() && nr == |old(completed.Content())| && lastCmplBatch == nr
      ensures done == old(done) + old(completed.Content()) && completed.Content() == []
      ensures compl == old(compl) + nr && currentQueueLength == old(currentQueueLength) - nr
      ensures var q := old(State(SIdle, RIdle));
        State(SIdle, RIdle) == if Enabled(q, StartCompletions) then CompletionSteps(Apply(q, StartCompletions)) else q
    {
      ghost var q := State(SIdle, RIdle);
      CompletionResult(q);
      var items := completed.PopMany(QUEUE_LENGTH);
      nr := |items|;
      assert items == q.completed && completed.Content() == [];
      CompleteAll(items);
      currentQueueLength := currentQueueLength - nr;
      compl := compl + nr;
      lastCmplBatch := nr;
    }

    /** `wi->process()` for each item. */
    method ProcessAll(items: seq<nat>)
      modifies this`log, this`processing
      ensures log == old(log) + items && processing == old(processing) + multiset(items)
    {
      for i := 0 to |items|
        invariant log == old(log) + items[..i] && processing == old(processing) + multiset(items[..i])
      {
        assert items[..i + 1] == items[..i] + [items[i]];
        log := log + [items[i]];
        processing := processing + multiset{items[i]};
      }
      assert items[..|items|] == items;
    }

    /** Processes all that has come in, in order. */
    method ProcessIncoming() returns (nr: nat)
      requires Valid()
      modifies this`received, this`lastRcvBatch, this`log, this`processing, pending
      ensures Valid() && nr == |old(pending.Content())| && received == old(received) + nr && lastRcvBatch == nr
      ensures log == old(log) + old(pending.Content()) && pending.Content() == []
      ensures processing == old(processing) + multiset(old(pending.Content()))
      ensures var q := old(State(SIdle, RIdle));
        State(SIdle, RIdle) == if Enabled(q, StartIncoming) then IncomingSteps(Apply(q, StartIncoming)) else q
    {
      ghost var q := State(SIdle, RIdle);
      IncomingResult(q);
      var items := pending.PopMany(QUEUE_LENGTH);
      nr := |items|;
      assert items == q.pending && pending.Content() == [];
      ProcessAll(items);
      received := received + nr;
      lastRcvBatch := nr;
    }
  }
}
