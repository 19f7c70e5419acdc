/** A message queue never gets stuck: whatever has been submitted gets to the other core and,
    once it is done there, back, by steps that the two cores can take. */
module MessageProgress {
  import opened MessageQueues

  /** The actions can be taken one after the other from `q` on. */
  ghost predicate Can(q: Queue, acts: seq<Action>)
    decreases |acts|
  {
    acts == [] || (Enabled(q, acts[0]) && Can(Apply(q, acts[0]), acts[1..]))
  }

  ghost function After(q: Queue, acts: seq<Action>): Queue
    requires Can(q, acts)
    decreases |acts|
  {
    if acts == [] then q else After(Apply(q, acts[0]), acts[1..])
  }

  lemma Later(q: Queue, a: Action, more: seq<Action>)
    requires Enabled(q, a) && Can(Apply(q, a), more)
    ensures Can(q, [a] + more) && After(q, [a] + more) == After(Apply(q, a), more)
  {
    assert ([a] + more)[1..] == more;
  }

  /** Steps of the cores alone: nothing is submitted, and no item in process gets done. */
  predicate Internal(a: Action) {
    a != Submit && !a.Respond?
  }

  lemma StepKeepsInv(q: Queue, a: Action)
    requires Inv(q) && Enabled(q, a)
    ensures Inv(Apply(q, a))
  {
    StepKeepsOrder(q, a);
    StepKeepsReturned(q, a);
    StepKeepsCounts(q, a);
  }

  /** A core that pops has popped something, or has something to pop. */
  ghost predicate Popping(q: Queue) {
    && (q.sender == PoppingDone ==> q.doneBatch != [] || q.completed != [])
    && (q.receiver == PoppingNew ==> q.batch != [] || q.pending != [])
  }

  lemma StepKeepsPopping(q: Queue, a: Action)
    requires Popping(q) && Enabled(q, a)
    ensures Popping(Apply(q, a))
  {
  }

  lemma {:induction false} EveryPopping(run: seq<Queue>, acts: seq<Action>, i: nat)
    requires IsRun(run, acts) && i < |run|
    ensures Popping(run[i])
  {
    if i > 0 {
      EveryPopping(run, acts, i - 1);
      assert StepAt(run, acts, i - 1);
      StepKeepsPopping(run[i - 1], acts[i - 1]);
    }
  }

  // ----- what the cores do next

  /** Both cores at rest, and nothing on its way. */
  ghost predicate Quiet(q: Queue) {
    && q.sender == SIdle && q.receiver == RIdle && q.pendingFifo == [] && q.pending == [] && q.batch == []
    && q.completedFifo == [] && q.completed == [] && q.doneBatch == []
  }

  ghost function SenderNext(q: Queue): Action
    requires q.sender != SIdle
  {
    match q.sender
    case Moving(k) => if k < |q.pendingFifo| && HasRoom(q.pending) then PushPending else EndMove
    case PoppingDone => if q.completed != [] then PopDone else EndPopDone
    case _ => if q.doneBatch != [] then Complete else EndCompletions
  }

  ghost function ReceiverNext(q: Queue): Action
    requires q.receiver != RIdle
  {
    match q.receiver
    case Flushing(k, _) => if k < |q.completedFifo| && HasRoom(q.completed) then PushCompleted else EndFlush
    case PoppingNew => if q.pending != [] then PopNew else EndPopNew
    case _ => if q.batch != [] then Process else EndIncoming
  }

  /** A core in the middle of something goes on with it; otherwise what is furthest on its way
      moves on. */
  ghost function NextStep(q: Queue): Action
    requires !Quiet(q)
  {
    if q.sender != SIdle then SenderNext(q)
    else if q.receiver != RIdle then ReceiverNext(q)
    else if q.completed != [] then StartCompletions
    else if q.pending != [] then StartIncoming
    else if q.completedFifo != [] then FlushResponses
    else FlushRequests
  }

  lemma NextEnabled(q: Queue)
    requires Inv(q) && Popping(q) && !Quiet(q)
    ensures Internal(NextStep(q)) && Enabled(q, NextStep(q))
  {
    assert q.doneBatch != [] ==> q.sender != SIdle;
    assert q.batch != [] ==> q.receiver != RIdle;
  }

  /** As long as a submitted item is neither done nor in process, a core can take a step that
      is no submission. */
  lemma NeverStuck(run: seq<Queue>, acts: seq<Action>, i: nat, item: nat) returns (a: Action)
    requires IsRun(run, acts) && i < |run|
    requires item < run[i].submitted && item !in run[i].done && item !in run[i].processing
    ensures Internal(a) && Enabled(run[i], a)
  {
    EveryState(run, acts, i);
    EveryPopping(run, acts, i);
    OnceInState(run[i], item);
    assert !Quiet(run[i]);
    NextEnabled(run[i]);
    a := NextStep(run[i]);
  }

  // ----- and it comes to an end

  /** How far all items are from being done. */
  ghost function Way(q: Queue): int {
    7 * (|q.pendingFifo| - Moved(q)) + 6 * |q.pending| + 5 * |q.batch| + 4 * |q.processing|
    + 3 * (|q.completedFifo| - Flushed(q)) + 2 * |q.completed| + |q.doneBatch|
  }

  /** A core is at rest, in the middle of something, or about to end it. */
  ghost function SenderPhase(q: Queue): nat {
    match q.sender
    case SIdle => 1
    case Moving(k) => if k < |q.pendingFifo| && HasRoom(q.pending) then 0 else 2
    case PoppingDone => if q.completed != [] then 0 else 2
    case Completing(_) => if q.doneBatch != [] then 0 else 2
  }

  ghost function ReceiverPhase(q: Queue): nat {
    match q.receiver
    case RIdle => 1
    case Flushing(k, processing) => if k < |q.completedFifo| && HasRoom(q.completed) then 0 else if processing then 3 else 2
    case PoppingNew => if q.pending != [] then 0 else 2
    case Processing => if q.batch != [] then 0 else 2
  }

  ghost function Rank(q: Queue): int {
    8 * Way(q) + SenderPhase(q) + ReceiverPhase(q)
  }

  lemma NextLowers(q: Queue)
    requires Inv(q) && Popping(q) && !Quiet(q) && Enabled(q, NextStep(q))
    ensures 0 <= Rank(Apply(q, NextStep(q))) < Rank(q)
  {
    var r := Apply(q, NextStep(q));
    if q.sender != SIdle {
      SenderLowers(q);
    } else if q.receiver != RIdle {
      ReceiverLowers(q);
    }
  }

  /** The parts of the invariant that ranks depend on. */
  ghost predicate Sound(q: Queue) {
    Moved(q) <= |q.pendingFifo| && Flushed(q) <= |q.completedFifo| && Popping(q)
  }

  lemma SenderLowers(q: Queue)
    requires Inv(q) && Popping(q) && q.sender != SIdle && Enabled(q, SenderNext(q))
    ensures 0 <= Rank(Apply(q, SenderNext(q))) < Rank(q)
  {
    match SenderNext(q)
    case PushPending => PushLowers(q);
    case EndMove => EndMoveLowers(q);
    case PopDone => PopDoneLowers(q);
    case EndPopDone => EndPopDoneLowers(q);
    case Complete => CompleteLowers(q);
    case EndCompletions => EndCompletionsLowers(q);
  }

  lemma PushLowers(q: Queue)
    requires Sound(q) && Enabled(q, PushPending)
    ensures 0 <= Rank(Apply(q, PushPending)) < Rank(q)
  {
    assert Way(Apply(q, PushPending)) == Way(q) - 1;
  }

  lemma EndMoveLowers(q: Queue)
    requires Sound(q) && Enabled(q, EndMove) && SenderNext(q) == EndMove
    ensures 0 <= Rank(Apply(q, EndMove)) < Rank(q)
  {
    assert Way(Apply(q, EndMove)) == Way(q);
  }

  lemma PopDoneLowers(q: Queue)
    requires Sound(q) && Enabled(q, PopDone)
    ensures 0 <= Rank(Apply(q, PopDone)) < Rank(q)
  {
    assert Way(Apply(q, PopDone)) == Way(q) - 1;
  }

  lemma EndPopDoneLowers(q: Queue)
    requires Sound(q) && Enabled(q, EndPopDone) && q.completed == []
    ensures 0 <= Rank(Apply(q, EndPopDone)) < Rank(q)
  {
    assert Way(Apply(q, EndPopDone)) == Way(q);
  }

  lemma CompleteLowers(q: Queue)
    requires Sound(q) && Enabled(q, Complete)
    ensures 0 <= Rank(Apply(q, Complete)) < Rank(q)
  {
    assert Way(Apply(q, Complete)) == Way(q) - 1;
  }

  lemma EndCompletionsLowers(q: Queue)
    requires Sound(q) && Enabled(q, EndCompletions)
    ensures 0 <= Rank(Apply(q, EndCompletions)) < Rank(q)
  {
    assert Way(Apply(q, EndCompletions)) == Way(q);
  }

  lemma ReceiverLowers(q: Queue)
    requires Inv(q) && Popping(q) && q.receiver != RIdle && Enabled(q, ReceiverNext(q))
    ensures 0 <= Rank(Apply(q, ReceiverNext(q))) < Rank(q)
  {
    match ReceiverNext(q)
    case PushCompleted => PushCompletedLowers(q);
    case EndFlush => EndFlushLowers(q);
    case PopNew => PopNewLowers(q);
    case EndPopNew => EndPopNewLowers(q);
    case Process => ProcessLowers(q);
    case EndIncoming => EndIncomingLowers(q);
  }

  lemma PushCompletedLowers(q: Queue)
    requires Sound(q) && Enabled(q, PushCompleted)
    ensures 0 <= Rank(Apply(q, PushCompleted)) < Rank(q)
  {
    assert Way(Apply(q, PushCompleted)) == Way(q) - 1;
  }

  lemma EndFlushLowers(q: Queue)
    requires Sound(q) && Enabled(q, EndFlush) && ReceiverNext(q) == EndFlush
    ensures 0 <= Rank(Apply(q, EndFlush)) < Rank(q)
  {
    assert Way(Apply(q, EndFlush)) == Way(q);
  }

  lemma PopNewLowers(q: Queue)
    requires Sound(q) && Enabled(q, PopNew)
    ensures 0 <= Rank(Apply(q, PopNew)) < Rank(q)
  {
    assert Way(Apply(q, PopNew)) == Way(q) - 1;
  }

  lemma EndPopNewLowers(q: Queue)
    requires Sound(q) && Enabled(q, EndPopNew) && q.pending == []
    ensures 0 <= Rank(Apply(q, EndPopNew)) < Rank(q)
  {
    assert Way(Apply(q, EndPopNew)) == Way(q);
  }

  lemma ProcessLowers(q: Queue)
    requires Sound(q) && Enabled(q, Process)
    ensures 0 <= Rank(Apply(q, Process)) < Rank(q)
  {
    assert |q.processing + multiset{q.batch[0]}| == |q.processing| + 1;
    assert Way(Apply(q, Process)) == Way(q) - 1;
  }

  lemma EndIncomingLowers(q: Queue)
    requires Sound(q) && Enabled(q, EndIncoming)
    ensures 0 <= Rank(Apply(q, EndIncoming)) < Rank(q)
  {
    assert Way(Apply(q, EndIncoming)) == Way(q);
  }

  /** What the next step leads to. */
  lemma NextKeeps(q: Queue)
    requires Inv(q) && Popping(q) && !Quiet(q)
    ensures Internal(NextStep(q)) && Enabled(q, NextStep(q)) && 0 <= Rank(Apply(q, NextStep(q))) < Rank(q)
    ensures var r := Apply(q, NextStep(q)); Inv(r) && Popping(r) && r.submitted == q.submitted
  {
    NextEnabled(q);
    NextLowers(q);
    StepKeepsInv(q, NextStep(q));
    StepKeepsPopping(q, NextStep(q));
  }

  /** Left to themselves the cores get everything into process or done, in finitely many
      steps. */
  lemma {:induction false} Settles(q: Queue) returns (acts: seq<Action>)
    requires Inv(q) && Popping(q)
    ensures Can(q, acts) && (forall k :: 0 <= k < |acts| ==> Internal(acts[k]))
    ensures var t := After(q, acts); Quiet(t) && Inv(t) && t.submitted == q.submitted
    decreases Rank(q)
  {
    if Quiet(q) {
      return [];
    }
    NextKeeps(q);
    var more := Settles(Apply(q, NextStep(q)));
    Later(q, NextStep(q), more);
    acts := [NextStep(q)] + more;
  }

  /** The first `n` items have been completed, and no more were submitted. */
  ghost predicate AllDone(q: Queue, n: nat) {
    Quiet(q) && q.submitted == n && multiset(q.done) == multiset(Numbers(n))
  }

  predicate NoSubmit(acts: seq<Action>) {
    forall k :: 0 <= k < |acts| ==> acts[k] != Submit
  }

  lemma LaterDone(q: Queue, a: Action, more: seq<Action>, n: nat)
    requires Enabled(q, a) && a != Submit && NoSubmit(more) && Can(Apply(q, a), more) && AllDone(After(Apply(q, a), more), n)
    ensures NoSubmit([a] + more) && Can(q, [a] + more) && AllDone(After(q, [a] + more), n)
  {
    Later(q, a, more);
  }

  /** With all items that are in process getting done, one after the other, all that were
      submitted are completed, in finitely many steps. */
  lemma {:induction false} Drains(q: Queue) returns (acts: seq<Action>)
    requires Inv(q) && Popping(q)
    ensures NoSubmit(acts) && Can(q, acts) && AllDone(After(q, acts), q.submitted)
    decreases Rank(q)
  {
    var a;
    if !Quiet(q) {
      a := NextStep(q);
      NextKeeps(q);
    } else if q.processing != multiset{} {
      var item :| item in q.processing;
      a := Respond(item, false);
      RespondKeeps(q, item);
    } else {
      QuietMeansDone(q);
      return [];
    }
    var more := Drains(Apply(q, a));
    LaterDone(q, a, more, q.submitted);
    acts := [a] + more;
  }

  lemma RespondKeeps(q: Queue, item: nat)
    requires Inv(q) && Quiet(q) && item in q.processing
    ensures Enabled(q, Respond(item, false)) && 0 <= Rank(Apply(q, Respond(item, false))) < Rank(q)
    ensures var r := Apply(q, Respond(item, false)); Inv(r) && Popping(r) && r.submitted == q.submitted
  {
    assert |q.processing - multiset{item}| == |q.processing| - 1;
    StepKeepsInv(q, Respond(item, false));
  }

  lemma QuietMeansDone(q: Queue)
    requires Inv(q) && Quiet(q) && q.processing == multiset{}
    ensures multiset(q.done) == multiset(Numbers(q.submitted))
  {
    assert Waiting(q) == [] && q.log + Waiting(q) == q.log;
    assert Back(q) == multiset(q.done);
  }

  /** From every state of every run, with nothing more submitted, every item gets processed or
      is done already, and every item gets completed once it is done there. */
  lemma EverythingDone(run: seq<Queue>, acts: seq<Action>, i: nat) returns (there: seq<Action>, back: seq<Action>)
    requires IsRun(run, acts) && i < |run|
    ensures Can(run[i], there) && (forall k :: 0 <= k < |there| ==> Internal(there[k])) && Quiet(After(run[i], there))
    ensures |After(run[i], there).log| == run[i].submitted
    ensures NoSubmit(back) && Can(run[i], back)
    ensures AllDone(After(run[i], back), run[i].submitted)
  {
    EveryState(run, acts, i);
    EveryPopping(run, acts, i);
    there := Settles(run[i]);
    var t := After(run[i], there);
    assert Waiting(t) == [] && t.log + Waiting(t) == t.log;
    back := Drains(run[i]);
  }
}
