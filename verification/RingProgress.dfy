/** The message queue over its two rings never gets stuck either: every step of the queue that
    is due can be taken, in a few loads and stores, and in the end everything is done. */
module RingProgress {
  import opened MessageQueues
  import opened MessageRings
  import MessageProgress
  import SpscQueues

  /** The events happen one after the other, through the states `ms`. */
  ghost predicate Path(ms: seq<Machine>, es: seq<Event>) {
    |ms| == |es| + 1 && forall i :: 0 <= i < |es| ==> MessageRings.StepAt(ms, es, i)
  }

  ghost predicate NoSubmit(es: seq<Event>) {
    forall i :: 0 <= i < |es| ==> es[i] != Local(Submit)
  }

  lemma One(m: Machine, e: Event, n: Machine)
    requires Step(m, n, e)
    ensures Path([m] + [n], [e])
  {
    assert MessageRings.StepAt([m] + [n], [e], 0);
  }

  lemma Joined(ms: seq<Machine>, es: seq<Event>, ns: seq<Machine>, fs: seq<Event>)
    requires Path(ms, es) && Path(ns, fs) && ms[|es|] == ns[0]
    ensures Path(ms + ns[1..], es + fs) && (ms + ns[1..])[|es + fs|] == ns[|fs|] && (ms + ns[1..])[0] == ms[0]
  {
    var all, evs := ms + ns[1..], es + fs;
    forall i | 0 <= i < |evs|
      ensures MessageRings.StepAt(all, evs, i)
    {
      if i < |es| {
        assert MessageRings.StepAt(ms, es, i);
        assert all[i] == ms[i] && all[i + 1] == ms[i + 1] && evs[i] == es[i];
      } else {
        var j := i - |es|;
        assert MessageRings.StepAt(ns, fs, j);
        assert all[i] == ns[j] && all[i + 1] == ns[j + 1] && evs[i] == fs[j];
      }
    }
  }

  /** One step leads from `m` to a machine from which a path leads to `p`. */
  lemma Before(m: Machine, e: Event, ns: seq<Machine>, fs: seq<Event>) returns (ms: seq<Machine>, es: seq<Event>)
    requires Path(ns, fs) && Step(m, ns[0], e)
    ensures es == [e] + fs && Path(ms, es) && ms[0] == m && ms[|es|] == ns[|fs|]
  {
    One(m, e, ns[0]);
    Joined([m] + [ns[0]], [e], ns, fs);
    ms, es := ([m] + [ns[0]]) + ns[1..], [e] + fs;
  }

  // ----- what the next load or store on a ring is, for the one who is in the middle of using it

  /** With fewer items than slots but one, the next slot is free. */
  lemma HasSlot(r: SpscQueues.Ring<nat>, item: nat)
    requires SpscQueues.RingOk(r) && r.producer == SpscQueues.Outside
    ensures SpscQueues.NextIndex(r.tail, |r.buffer|) == r.head <==> |SpscQueues.Items(r)| == |r.buffer| - 1
  {
    var s := if SpscQueues.NextIndex(r.tail, |r.buffer|) == r.head then r else r.(producer := SpscQueues.Room(item));
    SpscQueues.StepOnItems(r, s, SpscQueues.CheckRoom(item));
  }

  /** A ring with items has one for the consumer. */
  lemma HasItem(r: SpscQueues.Ring<nat>)
    requires SpscQueues.RingOk(r) && r.consumer == SpscQueues.Away
    ensures r.head == r.tail <==> SpscQueues.Items(r) == []
  {
    var s := if r.head == r.tail then r else r.(consumer := SpscQueues.Some);
    SpscQueues.StepOnItems(r, s, SpscQueues.CheckItem);
  }

  function PushNext(r: SpscQueues.Ring<nat>, item: nat): RingAction {
    match r.producer
    case Outside => SpscQueues.CheckRoom(item)
    case Room(_) => SpscQueues.Store
    case Stored(_) => SpscQueues.PublishTail
  }

  function PopNext(r: SpscQueues.Ring<nat>): RingAction {
    match r.consumer
    case Away => SpscQueues.CheckItem
    case Some => SpscQueues.Load
    case Read(_) => SpscQueues.PublishHead
  }

  /** The ring after the next load or store of the producer, or of the consumer. */
  ghost function Pushed(r: SpscQueues.Ring<nat>, item: nat): SpscQueues.Ring<nat>
    requires r.head < |r.buffer| && r.tail < |r.buffer|
  {
    match r.producer
    case Outside => r.(producer := SpscQueues.Room(item))
    case Room(x) => r.(buffer := r.buffer[r.tail := x], producer := SpscQueues.Stored(x))
    case Stored(x) =>
      r.(tail := SpscQueues.NextIndex(r.tail, |r.buffer|), producer := SpscQueues.Outside, pushed := r.pushed + [x])
  }

  ghost function Popped(r: SpscQueues.Ring<nat>): SpscQueues.Ring<nat>
    requires r.head < |r.buffer| && r.tail < |r.buffer|
  {
    match r.consumer
    case Away => r.(consumer := SpscQueues.Some)
    case Some => r.(consumer := SpscQueues.Read(r.buffer[r.head]))
    case Read(x) =>
      r.(head := SpscQueues.NextIndex(r.head, |r.buffer|), consumer := SpscQueues.Away, popped := r.popped + [x])
  }

  lemma PushStep(r: SpscQueues.Ring<nat>, item: nat)
    requires SpscQueues.RingOk(r) && (r.producer == SpscQueues.Outside ==> |SpscQueues.Items(r)| < |r.buffer| - 1)
    ensures SpscQueues.Step(r, Pushed(r, item), PushNext(r, item))
  {
    if r.producer == SpscQueues.Outside {
      HasSlot(r, item);
    }
  }

  lemma PopStep(r: SpscQueues.Ring<nat>)
    requires SpscQueues.RingOk(r) && (r.consumer == SpscQueues.Away ==> SpscQueues.Items(r) != [])
    ensures SpscQueues.Step(r, Popped(r), PopNext(r))
  {
    if r.consumer == SpscQueues.Away {
      HasItem(r);
    }
  }

  /** How many loads and stores a push, or a pop, still takes. */
  function ToPush(r: SpscQueues.Ring<nat>): nat {
    match r.producer
    case Outside => 2
    case Room(_) => 1
    case Stored(_) => 0
  }

  function ToPop(r: SpscQueues.Ring<nat>): nat {
    match r.consumer
    case Away => 2
    case Some => 1
    case Read(_) => 0
  }

  // ----- the pushes and pops of the two cores

  /** A path from `m` to a machine that is, as a queue, `q`. */
  ghost predicate Gets(m: Machine, ms: seq<Machine>, es: seq<Event>, q: Queue) {
    Path(ms, es) && NoSubmit(es) && ms[0] == m && Coupled(ms[|es|]) && Abs(ms[|es|]) == q
  }

  lemma Directly(m: Machine, e: Event, n: Machine)
    requires Coupled(m) && Step(m, n, e) && e != Local(Submit)
    ensures Coupled(n) && Gets(m, [m] + [n], [e], Abs(n))
  {
    StepSimulates(m, n, e);
    One(m, e, n);
  }

  lemma First(m: Machine, e: Event, ns: seq<Machine>, fs: seq<Event>, q: Queue) returns (ms: seq<Machine>, es: seq<Event>)
    requires |ns| > 0 && Step(m, ns[0], e) && e != Local(Submit) && Gets(ns[0], ns, fs, q)
    ensures Gets(m, ms, es, q)
  {
    ms, es := Before(m, e, ns, fs);
  }

  lemma {:induction false} PushRequest(m: Machine) returns (ms: seq<Machine>, es: seq<Event>)
    requires Coupled(m) && Enabled(Abs(m), PushPending)
    ensures Gets(m, ms, es, Apply(Abs(m), PushPending))
    decreases ToPush(m.requests)
  {
    var r, q := m.requests, m.local;
    var item := q.pendingFifo[q.sender.k];
    var e, s := OnRequests(PushNext(r, item)), Pushed(r, item);
    PushStep(r, item);
    SpscQueues.StepOnItems(r, s, PushNext(r, item));
    if r.producer.Stored? {
      var n := m.(local := q.(sender := Moving(q.sender.k + 1)), requests := s);
      Directly(m, e, n);
      ms, es := [m] + [n], [e];
    } else {
      var n := m.(requests := s);
      StepSimulates(m, n, e);
      var ns, fs := PushRequest(n);
      ms, es := First(m, e, ns, fs, Apply(Abs(m), PushPending));
    }
  }

  lemma {:induction false} PushResponse(m: Machine) returns (ms: seq<Machine>, es: seq<Event>)
    requires Coupled(m) && Enabled(Abs(m), PushCompleted)
    ensures Gets(m, ms, es, Apply(Abs(m), PushCompleted))
    decreases ToPush(m.responses)
  {
    var r, q := m.responses, m.local;
    var item := q.completedFifo[q.receiver.k];
    var e, s := OnResponses(PushNext(r, item)), Pushed(r, item);
    PushStep(r, item);
    SpscQueues.StepOnItems(r, s, PushNext(r, item));
    if r.producer.Stored? {
      var n := m.(local := q.(receiver := q.receiver.(k := q.receiver.k + 1)), responses := s);
      Directly(m, e, n);
      ms, es := [m] + [n], [e];
    } else {
      var n := m.(responses := s);
      StepSimulates(m, n, e);
      var ns, fs := PushResponse(n);
      ms, es := First(m, e, ns, fs, Apply(Abs(m), PushCompleted));
    }
  }

  lemma {:induction false} PopRequest(m: Machine) returns (ms: seq<Machine>, es: seq<Event>)
    requires Coupled(m) && Enabled(Abs(m), PopNew)
    ensures Gets(m, ms, es, Apply(Abs(m), PopNew))
    decreases ToPop(m.requests)
  {
    var r, q := m.requests, m.local;
    var e, s := OnRequests(PopNext(r)), Popped(r);
    PopStep(r);
    SpscQueues.StepOnItems(r, s, PopNext(r));
    if r.consumer.Read? {
      var n := m.(local := q.(batch := q.batch + [r.consumer.item]), requests := s);
      Directly(m, e, n);
      ms, es := [m] + [n], [e];
    } else {
      var n := m.(requests := s);
      StepSimulates(m, n, e);
      var ns, fs := PopRequest(n);
      ms, es := First(m, e, ns, fs, Apply(Abs(m), PopNew));
    }
  }

  lemma {:induction false} PopResponse(m: Machine) returns (ms: seq<Machine>, es: seq<Event>)
    requires Coupled(m) && Enabled(Abs(m), PopDone)
    ensures Gets(m, ms, es, Apply(Abs(m), PopDone))
    decreases ToPop(m.responses)
  {
    var r, q := m.responses, m.local;
    var e, s := OnResponses(PopNext(r)), Popped(r);
    PopStep(r);
    SpscQueues.StepOnItems(r, s, PopNext(r));
    if r.consumer.Read? {
      var n := m.(local := q.(doneBatch := q.doneBatch + [r.consumer.item]), responses := s);
      Directly(m, e, n);
      ms, es := [m] + [n], [e];
    } else {
      var n := m.(responses := s);
      StepSimulates(m, n, e);
      var ns, fs := PopResponse(n);
      ms, es := First(m, e, ns, fs, Apply(Abs(m), PopDone));
    }
  }

  // ----- every step that is due

  /** The first look into a ring that is not empty. */
  lemma StartPop(m: Machine, a: Action) returns (ms: seq<Machine>, es: seq<Event>)
    requires Coupled(m) && (a == StartIncoming || a == StartCompletions) && Enabled(Abs(m), a)
    ensures Gets(m, ms, es, Apply(Abs(m), a))
  {
    if a == StartIncoming {
      var n := m.(local := m.local.(receiver := PoppingNew), requests := Popped(m.requests));
      PopStep(m.requests);
      SpscQueues.StepOnItems(m.requests, n.requests, SpscQueues.CheckItem);
      Directly(m, OnRequests(SpscQueues.CheckItem), n);
      ms, es := [m] + [n], [OnRequests(SpscQueues.CheckItem)];
    } else {
      var n := m.(local := m.local.(sender := PoppingDone), responses := Popped(m.responses));
      PopStep(m.responses);
      SpscQueues.StepOnItems(m.responses, n.responses, SpscQueues.CheckItem);
      Directly(m, OnResponses(SpscQueues.CheckItem), n);
      ms, es := [m] + [n], [OnResponses(SpscQueues.CheckItem)];
    }
  }

  /** The end of pushing, with everything pushed or after a look at a full ring. */
  lemma EndPush(m: Machine, a: Action) returns (ms: seq<Machine>, es: seq<Event>)
    requires Coupled(m) && (a == EndMove || a == EndFlush) && Enabled(Abs(m), a)
    ensures Gets(m, ms, es, Apply(Abs(m), a))
  {
    var q := m.local;
    var e, n;
    if a == EndMove {
      if q.sender.k == |q.pendingFifo| {
        e, n := Local(a), m.(local := Apply(q, a));
      } else {
        var item := q.pendingFifo[q.sender.k];
        e, n := OnRequests(SpscQueues.CheckRoom(item)), m.(local := MoveEnded(q));
        FullStaysOut(m.requests);
        HasSlot(m.requests, item);
      }
    } else {
      if q.receiver.k == |q.completedFifo| {
        e, n := Local(a), m.(local := Apply(q, a));
      } else {
        var item := q.completedFifo[q.receiver.k];
        e, n := OnResponses(SpscQueues.CheckRoom(item)), m.(local := FlushEnded(q));
        FullStaysOut(m.responses);
        HasSlot(m.responses, item);
      }
    }
    Directly(m, e, n);
    ms, es := [m] + [n], [e];
  }

  /** Nobody is in the middle of a push on a full ring. */
  lemma FullStaysOut(r: SpscQueues.Ring<nat>)
    requires SpscQueues.RingOk(r) && |SpscQueues.Items(r)| == |r.buffer| - 1
    ensures r.producer == SpscQueues.Outside
  {
    HasSlot(r.(producer := SpscQueues.Outside), 0);
  }

  /** Nobody is in the middle of a pop on an empty ring. */
  lemma EmptyStaysAway(r: SpscQueues.Ring<nat>)
    requires SpscQueues.RingOk(r) && SpscQueues.Items(r) == []
    ensures r.consumer == SpscQueues.Away
  {
    HasItem(r.(consumer := SpscQueues.Away));
  }

  /** A step of one core that uses no ring. */
  lemma LocalStep(m: Machine, a: Action) returns (ms: seq<Machine>, es: seq<Event>)
    requires Coupled(m) && Enabled(m.local, a) && a != Submit && TouchesNoRing(m, a)
    ensures Gets(m, ms, es, Apply(Abs(m), a))
  {
    var n := m.(local := Apply(m.local, a));
    Directly(m, Local(a), n);
    ms, es := [m] + [n], [Local(a)];
  }

  /** Whatever the queue is to do next gets done in a few loads and stores. */
  lemma NextStep(m: Machine) returns (ms: seq<Machine>, es: seq<Event>)
    requires Coupled(m) && !MessageProgress.Quiet(Abs(m)) && Enabled(Abs(m), MessageProgress.NextStep(Abs(m)))
    requires MessageProgress.Internal(MessageProgress.NextStep(Abs(m)))
    ensures Gets(m, ms, es, Apply(Abs(m), MessageProgress.NextStep(Abs(m))))
  {
    var a := MessageProgress.NextStep(Abs(m));
    match a
    case PushPending => ms, es := PushRequest(m);
    case PushCompleted => ms, es := PushResponse(m);
    case PopNew => ms, es := PopRequest(m);
    case PopDone => ms, es := PopResponse(m);
    case EndMove => ms, es := EndPush(m, a);
    case EndFlush => ms, es := EndPush(m, a);
    case StartIncoming => ms, es := StartPop(m, a);
    case StartCompletions => ms, es := StartPop(m, a);
    case EndPopNew =>
      EmptyStaysAway(m.requests);
      ms, es := LocalStep(m, a);
    case EndPopDone =>
      EmptyStaysAway(m.responses);
      ms, es := LocalStep(m, a);
    case _ => ms, es := LocalStep(m, a);
  }

  lemma CoupledPops(m: Machine)
    requires Coupled(m)
    ensures MessageProgress.Popping(Abs(m))
  {
    if SpscQueues.Items(m.requests) == [] {
      EmptyStaysAway(m.requests);
    }
    if SpscQueues.Items(m.responses) == [] {
      EmptyStaysAway(m.responses);
    }
  }

  lemma JoinedGets(m: Machine, ms: seq<Machine>, es: seq<Event>, ns: seq<Machine>, fs: seq<Event>, p: Queue, q: Queue)
    requires Gets(m, ms, es, p) && Gets(ms[|es|], ns, fs, q)
    ensures Gets(m, ms + ns[1..], es + fs, q)
  {
    Joined(ms, es, ns, fs);
  }

  /** Everything gets done, by loads and stores of the two cores, as items that are in process
      get done. */
  lemma {:induction false} Drains(m: Machine) returns (ms: seq<Machine>, es: seq<Event>, q: Queue)
    requires Coupled(m) && Inv(Abs(m))
    ensures Gets(m, ms, es, q) && MessageProgress.AllDone(q, m.local.submitted)
    decreases MessageProgress.Rank(Abs(m))
  {
    CoupledPops(m);
    var p := Abs(m);
    var a;
    if !MessageProgress.Quiet(p) {
      MessageProgress.NextKeeps(p);
      a := MessageProgress.NextStep(p);
      ms, es := NextStep(m);
    } else if p.processing != multiset{} {
      var item :| item in p.processing;
      MessageProgress.RespondKeeps(p, item);
      a := Respond(item, false);
      ms, es := LocalStep(m, a);
    } else {
      MessageProgress.QuietMeansDone(p);
      return [m], [], p;
    }
    var n := ms[|es|];
    var ns, fs;
    ns, fs, q := Drains(n);
    JoinedGets(m, ms, es, ns, fs, Apply(p, a), q);
    ms, es := ms + ns[1..], es + fs;
  }

  /** From every state of every run of loads and stores, with nothing more submitted, there is a
      way on at whose end exactly the items submitted have been completed. */
  lemma EverythingDone(run: seq<Machine>, events: seq<Event>, i: nat) returns (ms: seq<Machine>, es: seq<Event>)
    requires MessageRings.IsRun(run, events) && i < |run|
    ensures Path(ms, es) && NoSubmit(es) && ms[0] == run[i]
    ensures ms[|es|].local.submitted == run[i].local.submitted
    ensures multiset(ms[|es|].local.done) == multiset(Numbers(run[i].local.submitted))
  {
    OneStage(run, events, i, 0);
    var q;
    ms, es, q := Drains(run[i]);
  }
}
