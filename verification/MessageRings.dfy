/** The message queue over its two rings as the cores run them, a load or a store at a time:
    every run is a run of the queue whose pushes and pops are single steps. */
module MessageRings {
  import opened MessageQueues
  import SpscQueues

  type RingAction = SpscQueues.Action<nat>

  /** `local` holds what the cores keep to themselves; its two ring fields are not used. */
  datatype Machine = Machine(local: Queue, requests: SpscQueues.Ring<nat>, responses: SpscQueues.Ring<nat>)

  datatype Event = Local(a: Action) | OnRequests(r: RingAction) | OnResponses(r: RingAction)

  /** The events of a core that touch no ring, which it is then not in the middle of using. */
  ghost predicate TouchesNoRing(m: Machine, a: Action) {
    match a
    case PushPending => false
    case PopDone => false
    case PopNew => false
    case PushCompleted => false
    case EndMove => m.requests.producer == SpscQueues.Outside
    case EndPopDone => m.responses.consumer == SpscQueues.Away
    case EndPopNew => m.requests.consumer == SpscQueues.Away
    case EndFlush => m.responses.producer == SpscQueues.Outside
    case _ => true
  }

  /** What a step from `r` to `s` of the request ring means to the cores: the sender is in
      `move_pending`, the receiver in the pops of `process_incoming`. A push that found no room
      ends the one, a pop that found nothing the other. */
  ghost predicate RequestStep(p: Queue, q: Queue, r: SpscQueues.Ring<nat>, s: SpscQueues.Ring<nat>, a: RingAction) {
    match a
    case CheckRoom(item) =>
      && p.sender.Moving? && p.sender.k < |p.pendingFifo| && item == p.pendingFifo[p.sender.k]
      && q == if s.producer == SpscQueues.Outside then MoveEnded(p) else p
    case PublishTail => p.sender.Moving? && q == p.(sender := Moving(p.sender.k + 1))
    case CheckItem =>
      && (p.receiver == RIdle || p.receiver == PoppingNew)
      && q == if s.consumer != SpscQueues.Away then p.(receiver := PoppingNew)
              else if p.receiver == PoppingNew then p.(receiver := Processing) else p
    case PublishHead => r.consumer.Read? && q == p.(batch := p.batch + [r.consumer.item])
    case Store => q == p
    case Load => q == p
  }

  /** The same of the response ring, where the receiver of requests pushes. */
  ghost predicate ResponseStep(p: Queue, q: Queue, r: SpscQueues.Ring<nat>, s: SpscQueues.Ring<nat>, a: RingAction) {
    match a
    case CheckRoom(item) =>
      && p.receiver.Flushing? && p.receiver.k < |p.completedFifo| && item == p.completedFifo[p.receiver.k]
      && q == if s.producer == SpscQueues.Outside then FlushEnded(p) else p
    case PublishTail => p.receiver.Flushing? && q == p.(receiver := p.receiver.(k := p.receiver.k + 1))
    case CheckItem =>
      && (p.sender == SIdle || p.sender == PoppingDone)
      && q == if s.consumer != SpscQueues.Away then p.(sender := PoppingDone)
              else if p.sender == PoppingDone then p.(sender := Completing(0)) else p
    case PublishHead => r.consumer.Read? && q == p.(doneBatch := p.doneBatch + [r.consumer.item])
    case Store => q == p
    case Load => q == p
  }

  ghost predicate InRange(r: SpscQueues.Ring<nat>) {
    r.head < |r.buffer| && r.tail < |r.buffer|
  }

  ghost predicate Step(m: Machine, n: Machine, e: Event) {
    match e
    case Local(a) =>
      TouchesNoRing(m, a) && Enabled(m.local, a) && n == m.(local := Apply(m.local, a))
    case OnRequests(a) =>
      && InRange(m.requests) && SpscQueues.Step(m.requests, n.requests, a)
      && n.responses == m.responses && RequestStep(m.local, n.local, m.requests, n.requests, a)
    case OnResponses(a) =>
      && InRange(m.responses) && SpscQueues.Step(m.responses, n.responses, a)
      && n.requests == m.requests && ResponseStep(m.local, n.local, m.responses, n.responses, a)
  }

  ghost predicate Init(m: Machine) {
    && m.local == EMPTY && SpscQueues.Init(m.requests) && SpscQueues.Init(m.responses)
    && |m.requests.buffer| == |m.responses.buffer| == QUEUE_LENGTH
  }

  ghost predicate StepAt(run: seq<Machine>, events: seq<Event>, i: nat)
    requires i < |events| && |run| == |events| + 1
  {
    Step(run[i], run[i + 1], events[i])
  }

  ghost predicate IsRun(run: seq<Machine>, events: seq<Event>) {
    |run| == |events| + 1 && Init(run[0]) && forall i :: 0 <= i < |events| ==> StepAt(run, events, i)
  }

  // ----- the queue the machine is

  /** The queue with the items of the rings in their places. */
  ghost function Abs(m: Machine): Queue
    requires InRange(m.requests) && InRange(m.responses)
  {
    m.local.(pending := SpscQueues.Items(m.requests), completed := SpscQueues.Items(m.responses))
  }

  /** A producer in the middle of a push has the item that is next. */
  ghost predicate Pushing(p: SpscQueues.Producer<nat>, fifo: seq<nat>, k: nat) {
    p == SpscQueues.Outside || (k < |fifo| && p.item == fifo[k])
  }

  ghost predicate RequestsOk(m: Machine) {
    && SpscQueues.RingOk(m.requests) && |m.requests.buffer| == QUEUE_LENGTH && m.local.pending == []
    && (m.requests.producer != SpscQueues.Outside ==> m.local.sender.Moving?)
    && (m.local.sender.Moving? ==>
      m.local.sender.k <= |m.local.pendingFifo| && Pushing(m.requests.producer, m.local.pendingFifo, m.local.sender.k))
    && (m.requests.consumer != SpscQueues.Away ==> m.local.receiver == PoppingNew)
    && (m.local.receiver == PoppingNew && m.requests.consumer == SpscQueues.Away ==> m.local.batch != [])
  }

  ghost predicate ResponsesOk(m: Machine) {
    && SpscQueues.RingOk(m.responses) && |m.responses.buffer| == QUEUE_LENGTH && m.local.completed == []
    && (m.responses.producer != SpscQueues.Outside ==> m.local.receiver.Flushing?)
    && (m.local.receiver.Flushing? ==>
      m.local.receiver.k <= |m.local.completedFifo| && Pushing(m.responses.producer, m.local.completedFifo, m.local.receiver.k))
    && (m.responses.consumer != SpscQueues.Away ==> m.local.sender == PoppingDone)
    && (m.local.sender == PoppingDone && m.responses.consumer == SpscQueues.Away ==> m.local.doneBatch != [])
  }

  ghost predicate Coupled(m: Machine) {
    RequestsOk(m) && ResponsesOk(m)
  }

  /** Nothing to see, or one step of the queue. */
  ghost predicate Simulated(p: Queue, q: Queue) {
    p == q || exists a :: Enabled(p, a) && q == Apply(p, a)
  }

  lemma LocalKeepsRequests(m: Machine, n: Machine, a: Action)
    requires Coupled(m) && Step(m, n, Local(a))
    ensures RequestsOk(n)
  {
  }

  lemma LocalKeepsResponses(m: Machine, n: Machine, a: Action)
    requires Coupled(m) && Step(m, n, Local(a))
    ensures ResponsesOk(n)
  {
  }

  lemma LocalSimulates(m: Machine, n: Machine, a: Action)
    requires Coupled(m) && Step(m, n, Local(a))
    ensures Coupled(n) && Simulated(Abs(m), Abs(n))
  {
    LocalKeepsRequests(m, n, a);
    LocalKeepsResponses(m, n, a);
    assert Enabled(Abs(m), a);
    assert Abs(n) == Apply(Abs(m), a);
  }

  lemma RequestSimulates(m: Machine, n: Machine, a: RingAction)
    requires Coupled(m) && Step(m, n, OnRequests(a))
    ensures Coupled(n) && Simulated(Abs(m), Abs(n))
  {
    SpscQueues.StepOnItems(m.requests, n.requests, a);
    var p, q := Abs(m), Abs(n);
    match a
    case CheckRoom(_) =>
      assert n.requests.producer == SpscQueues.Outside ==> Enabled(p, EndMove) && q == Apply(p, EndMove);
    case PublishTail =>
      assert Enabled(p, PushPending) && q == Apply(p, PushPending);
    case CheckItem =>
      if n.requests.consumer == SpscQueues.Away {
        assert m.local.receiver == PoppingNew ==> Enabled(p, EndPopNew) && q == Apply(p, EndPopNew);
      } else {
        assert m.local.receiver == RIdle ==> Enabled(p, StartIncoming) && q == Apply(p, StartIncoming);
      }
    case PublishHead =>
      assert Enabled(p, PopNew) && q == Apply(p, PopNew);
    case Store =>
    case Load =>
  }

  lemma ResponseSimulates(m: Machine, n: Machine, a: RingAction)
    requires Coupled(m) && Step(m, n, OnResponses(a))
    ensures Coupled(n) && Simulated(Abs(m), Abs(n))
  {
    SpscQueues.StepOnItems(m.responses, n.responses, a);
    var p, q := Abs(m), Abs(n);
    match a
    case CheckRoom(_) =>
      assert n.responses.producer == SpscQueues.Outside ==> Enabled(p, EndFlush) && q == Apply(p, EndFlush);
    case PublishTail =>
      assert Enabled(p, PushCompleted) && q == Apply(p, PushCompleted);
    case CheckItem =>
      if n.responses.consumer == SpscQueues.Away {
        assert m.local.sender == PoppingDone ==> Enabled(p, EndPopDone) && q == Apply(p, EndPopDone);
      } else {
        assert m.local.sender == SIdle ==> Enabled(p, StartCompletions) && q == Apply(p, StartCompletions);
      }
    case PublishHead =>
      assert Enabled(p, PopDone) && q == Apply(p, PopDone);
    case Store =>
    case Load =>
  }

  /** A load or a store is at most one step of the queue. */
  lemma StepSimulates(m: Machine, n: Machine, e: Event)
    requires Coupled(m) && Step(m, n, e)
    ensures Coupled(n) && Simulated(Abs(m), Abs(n))
  {
    match e
    case Local(a) => LocalSimulates(m, n, a);
    case OnRequests(a) => RequestSimulates(m, n, a);
    case OnResponses(a) => ResponseSimulates(m, n, a);
  }

  /** However the loads and stores of the two cores interleave, there is a run of the queue
      with single-step pushes and pops that ends in the same state. */
  lemma {:induction false} RunSimulated(run: seq<Machine>, events: seq<Event>, i: nat) returns (qs: seq<Queue>, acts: seq<Action>)
    requires IsRun(run, events) && i < |run|
    ensures Coupled(run[i]) && MessageQueues.IsRun(qs, acts) && qs[|acts|] == Abs(run[i])
    decreases i
  {
    if i == 0 {
      qs, acts := [EMPTY], [];
      assert Abs(run[0]) == EMPTY;
      return;
    }
    var qs', acts' := RunSimulated(run, events, i - 1);
    assert StepAt(run, events, i - 1);
    StepSimulates(run[i - 1], run[i], events[i - 1]);
    var p, q := Abs(run[i - 1]), Abs(run[i]);
    if p == q {
      qs, acts := qs', acts';
      return;
    }
    var a :| Enabled(p, a) && q == Apply(p, a);
    qs, acts := qs' + [q], acts' + [a];
    RunExtended(qs', acts', a);
  }

  lemma RunExtended(qs: seq<Queue>, acts: seq<Action>, a: Action)
    requires MessageQueues.IsRun(qs, acts) && Enabled(qs[|acts|], a)
    ensures MessageQueues.IsRun(qs + [Apply(qs[|acts|], a)], acts + [a])
  {
    var qs', acts' := qs + [Apply(qs[|acts|], a)], acts + [a];
    forall i | 0 <= i < |acts'|
      ensures MessageQueues.StepAt(qs', acts', i)
    {
      assert i < |acts| ==> MessageQueues.StepAt(qs, acts, i);
    }
  }

  // ----- what holds of every interleaving of loads and stores

  /** Each submitted item, and nothing else, is in exactly one stage, once: the rings count the
      items between `head` and `tail`, whatever the cores are in the middle of. */
  lemma OneStage(run: seq<Machine>, events: seq<Event>, i: nat, item: nat)
    requires IsRun(run, events) && i < |run|
    ensures Coupled(run[i]) && Inv(Abs(run[i]))
    ensures Occurrences(Abs(run[i]), item) == if item < run[i].local.submitted then 1 else 0
  {
    var qs, acts := RunSimulated(run, events, i);
    ExactlyOneStage(qs, acts, |acts|, item);
  }

  /** `process()` is called in the order of submission; nothing is completed twice, nor before
      it was processed. */
  lemma InOrderAndOnce(run: seq<Machine>, events: seq<Event>, i: nat)
    requires IsRun(run, events) && i < |run|
    ensures |run[i].local.log| <= run[i].local.submitted && run[i].local.log == Numbers(|run[i].local.log|)
    ensures forall j, k :: 0 <= j < k < |run[i].local.done| ==> run[i].local.done[j] != run[i].local.done[k]
    ensures forall x :: x in run[i].local.done ==> x in run[i].local.log
  {
    var qs, acts := RunSimulated(run, events, i);
    ProcessedInOrder(qs, acts, |acts|);
    MessageQueues.EveryState(qs, acts, |acts|);
    forall x | x in run[i].local.done
      ensures x in run[i].local.log
    {
      assert multiset(run[i].local.log)[x] >= multiset(run[i].local.done)[x] >= 1;
    }
    forall j, k | 0 <= j < k < |run[i].local.done|
      ensures run[i].local.done[j] != run[i].local.done[k]
    {
      CompletedOnce(qs, acts, |acts|, j, k);
    }
  }
}
