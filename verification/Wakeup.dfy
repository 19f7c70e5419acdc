/** How a core goes to sleep and how the cores that send to it wake it up, as interleaved
    loads and stores. Each sender feeds two rings of the receiver: its requests and the
    responses to the receiver's own requests. */
module Wakeups {

  const RING_ROOM: nat := 127

  /** A sender is idle, has pushed onto a ring and not looked at the receiver's flag yet, has
      seen the flag set, or has cleared it and owes the receiver a signal. */
  datatype Sender = Idle | Pushed(ring: nat) | SawSleeping | Cleared

  /** The receiver runs; has blocked signals; has announced that it sleeps and looks at ring
      `next`, `got` telling whether it found work; found none and waits for the other pollers
      to agree; is blocked in `epoll_pwait`; or has come out of it. */
  datatype Receiver = Running | SignalsBlocked | Checking(next: nat, got: bool) | Entering | Blocked | Woken

  /** `signal` is a signal sent and not yet delivered. */
  datatype State = State(
    senders: seq<Sender>,
    rings: seq<nat>,
    sleeping: bool,
    signal: bool,
    receiver: Receiver)

  datatype Action =
    | Push(ring: nat)
    | LoadFlag(sender: nat)
    | ClearFlag(sender: nat)
    | SendSignal(sender: nat)
    | Take(ring: nat)
    | DeliverSignal
    | BlockSignals
    | Retreat
    | Announce
    | CheckPop
    | CheckOther
    | CheckNext
    | CheckDone
    | Refused
    | Block
    | Wake
    | Exit

  ghost predicate Shape(s: State) {
    |s.rings| == 2 * |s.senders|
  }

  ghost predicate Init(s: State) {
    && Shape(s) && !s.sleeping && !s.signal && s.receiver == Running
    && (forall i :: 0 <= i < |s.senders| ==> s.senders[i] == Idle)
    && (forall r :: 0 <= r < |s.rings| ==> s.rings[r] == 0)
  }

  ghost predicate Enabled(s: State, a: Action)
    requires Shape(s)
  {
    match a
    case Push(r) =>
      r < |s.rings| && s.rings[r] < RING_ROOM && (s.senders[r / 2] == Idle || s.senders[r / 2] == Pushed(r))
    case LoadFlag(i) => i < |s.senders| && s.senders[i].Pushed?
    case ClearFlag(i) => i < |s.senders| && s.senders[i] == SawSleeping
    case SendSignal(i) => i < |s.senders| && s.senders[i] == Cleared
    case Take(r) => s.receiver == Running && r < |s.rings| && s.rings[r] > 0
    case DeliverSignal => s.receiver == Running && s.signal
    case BlockSignals => s.receiver == Running
    case Retreat => s.receiver == SignalsBlocked
    case Announce => s.receiver == SignalsBlocked
    case CheckPop => s.receiver.Checking? && s.receiver.next < |s.rings| && s.rings[s.receiver.next] > 0
    case CheckOther => s.receiver.Checking?
    case CheckNext =>
      s.receiver.Checking? && s.receiver.next < |s.rings| && (s.receiver.got || s.rings[s.receiver.next] == 0)
    case CheckDone => s.receiver.Checking? && s.receiver.next == |s.rings|
    case Refused => s.receiver == Entering
    case Block => s.receiver == Entering
    case Wake => s.receiver == Blocked
    case Exit => s.receiver == Woken
  }

  /** Waking delivers a pending signal; without one `epoll_pwait` returned for another event. */
  ghost function Apply(s: State, a: Action): State
    requires Shape(s) && Enabled(s, a)
  {
    match a
    case Push(r) => s.(rings := s.rings[r := s.rings[r] + 1], senders := s.senders[r / 2 := Pushed(r)])
    case LoadFlag(i) => s.(senders := s.senders[i := if s.sleeping then SawSleeping else Idle])
    case ClearFlag(i) => s.(sleeping := false, senders := s.senders[i := Cleared])
    case SendSignal(i) => s.(signal := true, senders := s.senders[i := Idle])
    case Take(r) => s.(rings := s.rings[r := s.rings[r] - 1])
    case DeliverSignal => s.(signal := false)
    case BlockSignals => s.(receiver := SignalsBlocked)
    case Retreat => s.(receiver := Running)
    case Announce => s.(sleeping := true, receiver := Checking(0, false))
    case CheckPop =>
      s.(rings := s.rings[s.receiver.next := s.rings[s.receiver.next] - 1], receiver := Checking(s.receiver.next, true))
    case CheckOther => s.(receiver := Checking(s.receiver.next, true))
    case CheckNext => s.(receiver := Checking(s.receiver.next + 1, s.receiver.got))
    case CheckDone => if s.receiver.got then s.(sleeping := false, receiver := Running) else s.(receiver := Entering)
    case Refused => s.(sleeping := false, receiver := Running)
    case Block => s.(receiver := Blocked)
    case Wake => s.(signal := false, receiver := Woken)
    case Exit => s.(sleeping := false, receiver := Running)
  }

  /** Some sender owes a signal. */
  ghost predicate SignalOwed(s: State) {
    exists i :: 0 <= i < |s.senders| && s.senders[i] == Cleared
  }

  /** A signal has been sent or is on its way on account of ring `r`. */
  ghost predicate WakeComing(s: State, r: nat)
    requires Shape(s) && r < |s.rings|
  {
    s.signal || SignalOwed(s) || s.senders[r / 2] == Pushed(r) || s.senders[r / 2] == SawSleeping
  }

  /** The rings the receiver has found empty since it announced its sleep. */
  ghost function Checked(s: State): nat {
    match s.receiver
    case Checking(next, got) => if got then 0 else next
    case Entering => |s.rings|
    case Blocked => |s.rings|
    case _ => 0
  }

  ghost predicate Asleep(s: State) {
    s.receiver.Checking? || s.receiver == Entering || s.receiver == Blocked
  }

  /** Once the receiver has announced its sleep, its flag is up or somebody who took it down
      has sent or owes a signal; and a ring it has checked holds nothing unless a wakeup is
      coming. */
  ghost predicate Inv(s: State) {
    && Shape(s)
    && (s.sleeping ==> Asleep(s) || s.receiver == Woken)
    && (Asleep(s) ==> s.sleeping || s.signal || SignalOwed(s))
    && Checked(s) <= |s.rings|
    && (forall r {:trigger WakeComing(s, r)} :: 0 <= r < Checked(s) && s.rings[r] > 0 ==> WakeComing(s, r))
  }

  lemma OwedKept(s: State, t: State, i: nat)
    requires |s.senders| == |t.senders| && i < |s.senders| && s.senders[i] != Cleared
    requires t.senders == s.senders[i := t.senders[i]]
    ensures SignalOwed(s) ==> SignalOwed(t)
  {
    if SignalOwed(s) {
      var j :| 0 <= j < |s.senders| && s.senders[j] == Cleared;
      assert t.senders[j] == Cleared;
    }
  }

  lemma SenderStep(s: State, a: Action)
    requires Inv(s) && Enabled(s, a)
    requires a.Push? || a.LoadFlag? || a.ClearFlag? || a.SendSignal?
    ensures Inv(Apply(s, a))
  {
    var t := Apply(s, a);
    var i := if a.Push? then a.ring / 2 else a.sender;
    if a.ClearFlag? {
      assert t.senders[i] == Cleared;
    } else if !a.SendSignal? {
      OwedKept(s, t, i);
    }
    forall r {:trigger WakeComing(t, r)} | 0 <= r < Checked(t) && t.rings[r] > 0
      ensures WakeComing(t, r)
    {
      if s.rings[r] > 0 {
        assert WakeComing(s, r);
      }
    }
  }

  lemma ReceiverStep(s: State, a: Action)
    requires Inv(s) && Enabled(s, a)
    requires !(a.Push? || a.LoadFlag? || a.ClearFlag? || a.SendSignal?)
    ensures Inv(Apply(s, a))
  {
    var t := Apply(s, a);
    assert SignalOwed(s) ==> SignalOwed(t) by {
      assert t.senders == s.senders;
    }
    forall r {:trigger WakeComing(t, r)} | 0 <= r < Checked(t) && t.rings[r] > 0
      ensures WakeComing(t, r)
    {
      assert r < Checked(s) ==> WakeComing(s, r);
    }
  }

  ghost predicate StepAt(run: seq<State>, acts: seq<Action>, i: nat)
    requires i < |acts| && |run| == |acts| + 1
  {
    Shape(run[i]) && Enabled(run[i], acts[i]) && run[i + 1] == Apply(run[i], acts[i])
  }

  ghost predicate IsRun(run: seq<State>, acts: seq<Action>) {
    |run| == |acts| + 1 && Init(run[0]) && forall i :: 0 <= i < |acts| ==> StepAt(run, acts, i)
  }

  lemma {:induction false} EveryState(run: seq<State>, acts: seq<Action>, i: nat)
    requires IsRun(run, acts) && i < |run|
    ensures Inv(run[i])
  {
    if i > 0 {
      EveryState(run, acts, i - 1);
      var a := acts[i - 1];
      assert StepAt(run, acts, i - 1);
      if a.Push? || a.LoadFlag? || a.ClearFlag? || a.SendSignal? {
        SenderStep(run[i - 1], a);
      } else {
        ReceiverStep(run[i - 1], a);
      }
    }
  }

  /** No lost wakeup: a receiver blocked while one of its rings holds an item has a signal
      pending, or some sender is between its push and its signal. */
  lemma NoLostWakeup(run: seq<State>, acts: seq<Action>, i: nat, r: nat)
    requires IsRun(run, acts) && i < |run| && r < |run[i].rings|
    requires run[i].receiver == Blocked && run[i].rings[r] > 0
    ensures run[i].signal || exists j :: 0 <= j < |run[i].senders| && run[i].senders[j] != Idle
  {
    EveryState(run, acts, i);
    var s := run[i];
    assert WakeComing(s, r);
    assert r / 2 < |s.senders|;
  }

  // ----- finitely many named steps

  /** The actions can be taken one after the other from `s` on. */
  ghost predicate Can(s: State, acts: seq<Action>)
    decreases |acts|
  {
    acts == [] || (Shape(s) && Enabled(s, acts[0]) && Can(Apply(s, acts[0]), acts[1..]))
  }

  ghost function After(s: State, acts: seq<Action>): State
    requires Can(s, acts)
    decreases |acts|
  {
    if acts == [] then s else After(Apply(s, acts[0]), acts[1..])
  }

  lemma {:induction false} Then(s: State, first: seq<Action>, more: seq<Action>)
    requires Can(s, first) && Can(After(s, first), more)
    ensures Can(s, first + more) && After(s, first + more) == After(After(s, first), more)
    decreases |first|
  {
    if first == [] {
      assert first + more == more;
    } else {
      Then(Apply(s, first[0]), first[1..], more);
      assert (first + more)[1..] == first[1..] + more;
    }
  }

  lemma One(s: State, a: Action)
    requires Shape(s) && Enabled(s, a)
    ensures Can(s, [a]) && After(s, [a]) == Apply(s, a)
  {
    assert [a][1..] == [];
  }

  predicate BySender(a: Action) {
    a.LoadFlag? || a.ClearFlag? || a.SendSignal?
  }

  /** The sender of a wakeup, left to itself, gets the signal out in at most three steps, in
      which nothing else happens. */
  lemma WakeupArrives(run: seq<State>, acts: seq<Action>, i: nat, r: nat) returns (more: seq<Action>)
    requires IsRun(run, acts) && i < |run| && r < |run[i].rings|
    requires run[i].receiver == Blocked && run[i].rings[r] > 0
    ensures |more| <= 3 && (forall k :: 0 <= k < |more| ==> BySender(more[k])) && Can(run[i], more)
    ensures var t := After(run[i], more); t.signal && t.receiver == Blocked && t.rings == run[i].rings && Shape(t)
  {
    EveryState(run, acts, i);
    var s, j := run[i], r / 2;
    assert WakeComing(s, r);
    if s.signal {
      more := [];
    } else if SignalOwed(s) {
      var o :| 0 <= o < |s.senders| && s.senders[o] == Cleared;
      more := [SendSignal(o)];
      One(s, SendSignal(o));
    } else if s.senders[j] == SawSleeping {
      more := SignalOut(s, j);
    } else {
      var t := Apply(s, LoadFlag(j));
      var rest := SignalOut(t, j);
      One(s, LoadFlag(j));
      Then(s, [LoadFlag(j)], rest);
      more := [LoadFlag(j)] + rest;
    }
  }

  lemma SignalOut(s: State, j: nat) returns (more: seq<Action>)
    requires Shape(s) && j < |s.senders| && s.senders[j] == SawSleeping
    ensures more == [ClearFlag(j)] + [SendSignal(j)] && Can(s, more)
    ensures After(s, more) == s.(sleeping := false, signal := true, senders := s.senders[j := Idle])
  {
    var t := Apply(s, ClearFlag(j));
    One(s, ClearFlag(j));
    One(t, SendSignal(j));
    Then(s, [ClearFlag(j)], [SendSignal(j)]);
    more := [ClearFlag(j)] + [SendSignal(j)];
    assert t.senders[j := Idle] == s.senders[j := Idle];
  }

  /** A blocked receiver that is woken runs again, awake, and has used up the signal. */
  lemma WakesUp(s: State)
    requires Shape(s) && s.receiver == Blocked
    ensures Can(s, [Wake] + [Exit])
    ensures After(s, [Wake] + [Exit]) == s.(receiver := Running, sleeping := false, signal := false)
  {
    var t := Apply(s, Wake);
    One(s, Wake);
    One(t, Exit);
    Then(s, [Wake], [Exit]);
  }

  /** A receiver blocked beside an item in a ring: at most three steps of a sender get it a
      signal, with which it wakes, runs, and takes the item. */
  lemma ItemIsTaken(run: seq<State>, acts: seq<Action>, i: nat, r: nat) returns (call: seq<Action>, all: seq<Action>)
    requires IsRun(run, acts) && i < |run| && r < |run[i].rings|
    requires run[i].receiver == Blocked && run[i].rings[r] > 0
    ensures |call| <= 3 && (forall k :: 0 <= k < |call| ==> BySender(call[k])) && all == call + ([Wake] + [Exit] + [Take(r)])
    ensures Can(run[i], call) && After(run[i], call).signal && Can(run[i], all)
    ensures var t := After(run[i], all);
      t.receiver == Running && !t.sleeping && !t.signal && t.rings == run[i].rings[r := run[i].rings[r] - 1]
  {
    call := WakeupArrives(run, acts, i, r);
    var t := After(run[i], call);
    WakesUp(t);
    var u := After(t, [Wake] + [Exit]);
    One(u, Take(r));
    Then(t, [Wake] + [Exit], [Take(r)]);
    Then(run[i], call, [Wake] + [Exit] + [Take(r)]);
    all := call + ([Wake] + [Exit] + [Take(r)]);
  }

  /** The looks at the rings from `k` on, none of which finds anything. */
  ghost function Looks(k: nat, n: nat): seq<Action>
    requires k <= n
  {
    seq(n - k, _ => CheckNext)
  }

  lemma {:induction false} LooksAtAll(s: State, k: nat)
    requires Shape(s) && s.receiver == Checking(k, false) && k <= |s.rings|
    requires forall r :: 0 <= r < |s.rings| ==> s.rings[r] == 0
    ensures Can(s, Looks(k, |s.rings|)) && After(s, Looks(k, |s.rings|)) == s.(receiver := Checking(|s.rings|, false))
    decreases |s.rings| - k
  {
    if k < |s.rings| {
      LooksAtAll(Apply(s, CheckNext), k + 1);
      assert Looks(k, |s.rings|)[1..] == Looks(k + 1, |s.rings|);
    }
  }

  /** With nothing in its rings and nobody pushing, the receiver gets to sleep, with its flag
      up, after one look at each ring. */
  lemma GetsToSleep(s: State) returns (acts: seq<Action>)
    requires Shape(s) && s.receiver == Running && forall r :: 0 <= r < |s.rings| ==> s.rings[r] == 0
    ensures acts == [BlockSignals] + [Announce] + Looks(0, |s.rings|) + [CheckDone] + [Block] && Can(s, acts)
    ensures After(s, acts) == s.(receiver := Blocked, sleeping := true)
  {
    var a := Apply(s, BlockSignals);
    var b := Apply(a, Announce);
    var c := b.(receiver := Checking(|s.rings|, false));
    var d := Apply(c, CheckDone);
    var looks := Looks(0, |s.rings|);
    One(s, BlockSignals);
    One(a, Announce);
    Then(s, [BlockSignals], [Announce]);
    LooksAtAll(b, 0);
    Then(s, [BlockSignals] + [Announce], looks);
    One(c, CheckDone);
    Then(s, [BlockSignals] + [Announce] + looks, [CheckDone]);
    One(d, Block);
    Then(s, [BlockSignals] + [Announce] + looks + [CheckDone], [Block]);
    acts := [BlockSignals] + [Announce] + looks + [CheckDone] + [Block];
  }

  /** Having found something, the receiver goes past the other rings. */
  lemma {:induction false} LooksOn(s: State, k: nat)
    requires Shape(s) && s.receiver == Checking(k, true) && k <= |s.rings|
    ensures Can(s, Looks(k, |s.rings|) + [CheckDone])
    ensures After(s, Looks(k, |s.rings|) + [CheckDone]) == s.(receiver := Running, sleeping := false)
    decreases |s.rings| - k
  {
    if k < |s.rings| {
      LooksOn(Apply(s, CheckNext), k + 1);
      assert (Looks(k, |s.rings|) + [CheckDone])[1..] == Looks(k + 1, |s.rings|) + [CheckDone];
    } else {
      assert Looks(k, |s.rings|) + [CheckDone] == [CheckDone];
      One(s, CheckDone);
    }
  }

  /** The steps that take the receiver back from wherever it is on its way to sleep, when it
      has to turn back or is woken. */
  ghost function Back(s: State): seq<Action>
    requires s.receiver.Checking? ==> s.receiver.next <= |s.rings|
  {
    match s.receiver
    case Running => []
    case SignalsBlocked => [Retreat]
    case Checking(k, _) => [CheckOther] + (Looks(k, |s.rings|) + [CheckDone])
    case Entering => [Refused]
    case Blocked => [Wake] + [Exit]
    case Woken => [Exit]
  }

  /** From wherever it is the receiver can get back to running, awake, by its own steps. */
  lemma ComesBack(run: seq<State>, acts: seq<Action>, i: nat)
    requires IsRun(run, acts) && i < |run|
    ensures run[i].receiver.Checking? ==> run[i].receiver.next <= |run[i].rings|
    ensures Can(run[i], Back(run[i]))
    ensures var t := After(run[i], Back(run[i]));
      t.receiver == Running && !t.sleeping && t.rings == run[i].rings && t.senders == run[i].senders
  {
    EveryState(run, acts, i);
    LooksWithin(run, acts, i);
    var s := run[i];
    match s.receiver
    case Running =>
    case SignalsBlocked => One(s, Retreat);
    case Checking(k, _) =>
      One(s, CheckOther);
      LooksOn(Apply(s, CheckOther), k);
      Then(s, [CheckOther], Looks(k, |s.rings|) + [CheckDone]);
    case Entering => One(s, Refused);
    case Blocked => WakesUp(s);
    case Woken => One(s, Exit);
  }

  lemma {:induction false} LooksWithin(run: seq<State>, acts: seq<Action>, i: nat)
    requires IsRun(run, acts) && i < |run|
    ensures run[i].receiver.Checking? ==> run[i].receiver.next <= |run[i].rings|
  {
    if i > 0 {
      LooksWithin(run, acts, i - 1);
      assert StepAt(run, acts, i - 1);
    }
  }

  /** On its way to sleep the receiver takes an item it finds in a ring, and does not sleep. */
  lemma FindsItem(s: State, r: nat, got: bool)
    requires Shape(s) && r < |s.rings| && s.receiver == Checking(r, got) && s.rings[r] > 0
    ensures Can(s, [CheckPop] + (Looks(r, |s.rings|) + [CheckDone]))
    ensures After(s, [CheckPop] + (Looks(r, |s.rings|) + [CheckDone]))
         == s.(rings := s.rings[r := s.rings[r] - 1], receiver := Running, sleeping := false)
  {
    One(s, CheckPop);
    LooksOn(Apply(s, CheckPop), r);
    Then(s, [CheckPop], Looks(r, |s.rings|) + [CheckDone]);
  }

  /** A sender at rest can push while there is room, whatever the receiver does, and goes on
      to send a signal if and only if it finds the flag up. */
  lemma PushCalls(s: State, r: nat) returns (rest: seq<Action>)
    requires Shape(s) && r < |s.rings| && s.senders[r / 2] == Idle && s.rings[r] < RING_ROOM
    ensures (forall k :: 0 <= k < |rest| ==> BySender(rest[k])) && Can(s, [Push(r)] + rest)
    ensures After(s, [Push(r)] + rest)
         == s.(rings := s.rings[r := s.rings[r] + 1], sleeping := false, signal := s.signal || s.sleeping)
  {
    var j := r / 2;
    var t := Apply(s, Push(r));
    var u := Apply(t, LoadFlag(j));
    One(s, Push(r));
    One(t, LoadFlag(j));
    if s.sleeping {
      var out := SignalOut(u, j);
      Then(t, [LoadFlag(j)], out);
      rest := [LoadFlag(j)] + out;
    } else {
      rest := [LoadFlag(j)];
    }
    Then(s, [Push(r)], rest);
    assert s.senders == s.senders[j := Pushed(r)][j := Idle];
  }

  // ----- what comes out of the rings, and what a signal is for

  /** The items pushed onto ring `r`, and those the receiver took from it, by the first `i`
      actions. */
  ghost function Pushes(acts: seq<Action>, r: nat, i: nat): nat
    requires i <= |acts|
  {
    if i == 0 then 0 else Pushes(acts, r, i - 1) + if acts[i - 1] == Push(r) then 1 else 0
  }

  predicate LooksAt(s: State, r: nat) {
    s.receiver.Checking? && s.receiver.next == r
  }

  ghost function Takes(run: seq<State>, acts: seq<Action>, r: nat, i: nat): nat
    requires i <= |acts| < |run|
  {
    if i == 0 then 0
    else Takes(run, acts, r, i - 1)
         + if acts[i - 1] == Take(r) || (acts[i - 1] == CheckPop && LooksAt(run[i - 1], r)) then 1 else 0
  }

  /** A ring holds what was pushed and not taken, whether by a poll or by a look on the way to
      sleep; after such a look the receiver does not sleep. */
  lemma {:induction false} RingCounts(run: seq<State>, acts: seq<Action>, r: nat, i: nat)
    requires IsRun(run, acts) && i < |run| && r < |run[0].rings|
    ensures |run[i].rings| == |run[0].rings| && run[i].rings[r] + Takes(run, acts, r, i) == Pushes(acts, r, i)
    ensures i > 0 && acts[i - 1] == CheckPop ==> run[i].receiver.Checking? && run[i].receiver.got
  {
    if i > 0 {
      RingCounts(run, acts, r, i - 1);
      assert StepAt(run, acts, i - 1);
    }
  }

  ghost function Sent(acts: seq<Action>, i: nat): nat
    requires i <= |acts|
  {
    if i == 0 then 0 else Sent(acts, i - 1) + if acts[i - 1].SendSignal? then 1 else 0
  }

  /** The signals delivered, to the receiver as it runs or to wake it. */
  ghost function Delivered(run: seq<State>, acts: seq<Action>, i: nat): nat
    requires i <= |acts| < |run|
  {
    if i == 0 then 0
    else Delivered(run, acts, i - 1)
         + if (acts[i - 1] == DeliverSignal || acts[i - 1] == Wake) && run[i - 1].signal then 1 else 0
  }

  ghost function Announced(acts: seq<Action>, i: nat): nat
    requires i <= |acts|
  {
    if i == 0 then 0 else Announced(acts, i - 1) + if acts[i - 1] == Announce then 1 else 0
  }

  /** No signal is delivered that was not sent, and none is sent to a receiver that has never
      announced that it sleeps. */
  lemma {:induction false} SignalsSent(run: seq<State>, acts: seq<Action>, i: nat)
    requires IsRun(run, acts) && i < |run|
    ensures Delivered(run, acts, i) + (if run[i].signal then 1 else 0) <= Sent(acts, i)
    ensures Announced(acts, i) == 0 ==> Sent(acts, i) == 0 && !run[i].sleeping && NobodyCalls(run[i])
    ensures Announced(acts, i) == 0 ==> run[i].receiver == Running || run[i].receiver == SignalsBlocked
  {
    if i > 0 {
      SignalsSent(run, acts, i - 1);
      assert StepAt(run, acts, i - 1);
    }
  }

  ghost predicate NobodyCalls(s: State) {
    forall j :: 0 <= j < |s.senders| ==> s.senders[j] == Idle || s.senders[j].Pushed?
  }
}
