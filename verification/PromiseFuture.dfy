/** Promises, futures and continuations: two-way links kept through moves, forwarding and
    destruction, and results that reach their consumer once, as what they were set to. */
module PromiseFutures {

  /** A future state: moved from, waiting, or holding a result, a value or an exception, which
      is known by number. */
  datatype FutureState = Invalid | Pending | Ready(result: nat, failed: bool)

  /** Where a promise's state is: in the promise, in the continuation attached to it, or, once
      that is scheduled or the promise moved from, nowhere. */
  datatype Where = Local | InTask | Nowhere

  class Promise {
    var future: Future?
    var local: FutureState
    var where: Where
    var task: Task?
    // the channel that a result set here comes in on, and that of its future or continuation
    ghost var origin: nat
    ghost var channel: nat

    constructor (ghost c: nat)
      ensures future == null && local == Pending && where == Local && task == null && origin == channel == c
    {
      future, local, where, task, origin, channel := null, Pending, Local, null, c, c;
    }
  }

  class Future {
    var promise: Promise?
    var local: FutureState
    ghost var channel: nat

    constructor (p: Promise?, s: FutureState, ghost c: nat)
      ensures promise == p && local == s && channel == c
    {
      promise, local, channel := p, s, c;
    }
  }

  /** A continuation, the state it will be run with, and the promise it carries. */
  class Task {
    var state: FutureState
    const next: Promise?
    ghost var owner: Promise?
    ghost var channel: nat

    constructor (s: FutureState, carried: Promise?, ghost p: Promise?, ghost c: nat)
      ensures state == s && owner == p && channel == c && next == carried
    {
      state, owner, channel, next := s, p, c, carried;
    }
  }

  /** Where a result is, or what became of it. */
  datatype Place = InPromise(p: Promise) | InFuture(f: Future) | InContinuation(t: Task)
                 | Delivered(channel: nat, asFailure: bool) | Dropped

  /** A result: where it is, whether it was set as an exception, the channel it was set on and
      the one it came to. */
  datatype Record = Record(place: Place, failed: bool, origin: nat, channel: nat)

  /** What a channel is there for: the promise to be set, or the result that was. */
  datatype Holder = Promised(p: Promise) | Reached(k: nat)

  ghost predicate Has(s: FutureState, k: nat) {
    s.Ready? && s.result == k
  }

  /** `n` forwards lead from channel `a` to channel `b`. */
  ghost predicate LeadsIn(a: nat, b: nat, next: map<nat, nat>, n: nat)
    decreases n
  {
    if n == 0 then a == b else a in next && LeadsIn(next[a], b, next, n - 1)
  }

  /** Forwards lead from channel `a` to channel `b`, which is not forwarded. */
  ghost predicate Leads(a: nat, b: nat, next: map<nat, nat>) {
    b !in next && exists n: nat :: LeadsIn(a, b, next, n)
  }

  lemma LeadsHere(a: nat, next: map<nat, nat>)
    requires a !in next
    ensures Leads(a, a, next)
  {
    assert LeadsIn(a, a, next, 0);
  }

  /** Forwards leave no choice: they lead to one end. */
  lemma {:induction false} OneWay(a: nat, b: nat, c: nat, next: map<nat, nat>, m: nat, n: nat)
    requires LeadsIn(a, b, next, m) && LeadsIn(a, c, next, n) && b !in next && c !in next
    ensures b == c && m == n
    decreases m
  {
    if m > 0 && n > 0 {
      OneWay(next[a], b, c, next, m - 1, n - 1);
    }
  }

  lemma OneEnd(a: nat, b: nat, c: nat, next: map<nat, nat>)
    requires Leads(a, b, next) && Leads(a, c, next)
    ensures b == c
  {
    var m: nat :| LeadsIn(a, b, next, m);
    var n: nat :| LeadsIn(a, c, next, n);
    OneWay(a, b, c, next, m, n);
  }

  lemma {:induction false} LeadsMore(a: nat, b: nat, next: map<nat, nat>, next': map<nat, nat>, n: nat)
    requires LeadsIn(a, b, next, n) && forall c :: c in next ==> c in next' && next'[c] == next[c]
    ensures LeadsIn(a, b, next', n)
    decreases n
  {
    if n > 0 {
      LeadsMore(next[a], b, next, next', n - 1);
    }
  }

  lemma {:induction false} LeadsOn(a: nat, b: nat, next: map<nat, nat>, n: nat)
    requires LeadsIn(a, b, next, n) && b in next
    ensures LeadsIn(a, next[b], next, n + 1)
    decreases n
  {
    if n > 0 {
      LeadsOn(next[a], b, next, n - 1);
    } else {
      assert LeadsIn(next[b], next[b], next, 0);
    }
  }

  /** One more forward, from the end of a way. */
  lemma Further(a: nat, b: nat, next: map<nat, nat>, d: nat)
    requires Leads(a, b, next) && d !in next && d != b
    ensures Leads(a, d, next[b := d])
  {
    var n: nat :| LeadsIn(a, b, next, n);
    LeadsMore(a, b, next, next[b := d], n);
    LeadsOn(a, b, next[b := d], n);
  }

  ghost predicate Touched(h: Holder, ps: set<Promise?>, ks: set<nat>) {
    match h
    case Promised(p) => p in ps
    case Reached(k) => k in ks
  }

  /** Channels change hands, and are forwarded, only when they were there for what was
      touched; a forward stays. */
  ghost predicate OnlyChannels(holder: map<nat, Holder>, holder': map<nat, Holder>, next: map<nat, nat>, next': map<nat, nat>,
                               ps: set<Promise?>, ks: set<nat>) {
    && (forall c {:trigger c in holder} {:trigger c in holder'} :: c in holder ==>
      c in holder' && (holder'[c] == holder[c] || Touched(holder[c], ps, ks)))
    && (forall c {:trigger c in next} {:trigger c in next'} ::
      && (c in next ==> c in next' && next'[c] == next[c])
      && (c in next' && c !in next ==> c in holder && Touched(holder[c], ps, ks)))
  }

  /** A way that ends on a channel there for something not touched is as good as it was. */
  lemma WayStays(a: nat, b: nat, h: Holder, holder: map<nat, Holder>, holder': map<nat, Holder>,
                 next: map<nat, nat>, next': map<nat, nat>, ps: set<Promise?>, ks: set<nat>)
    requires OnlyChannels(holder, holder', next, next', ps, ks) && !Touched(h, ps, ks)
    requires b in holder && holder[b] == h && Leads(a, b, next)
    ensures b in holder' && holder'[b] == h && Leads(a, b, next')
  {
    var n: nat :| LeadsIn(a, b, next, n);
    LeadsMore(a, b, next, next', n);
  }

  /** A result is as it was, or somewhere else with its status and its origin. */
  ghost predicate Kept(r: Record, r': Record) {
    r' == r || (r'.failed == r.failed && r'.origin == r.origin && !r.place.Delivered? && !r.place.Dropped?)
  }

  /** No result appears or is forgotten, none turns from a value into an exception or back or
      changes its origin, and what was delivered or dropped stays so. */
  ghost predicate AllKept(a: map<nat, Record>, b: map<nat, Record>) {
    a.Keys == b.Keys && forall k {:trigger b[k]} :: k in b ==> Kept(a[k], b[k])
  }

  /** The result in state `s`, if it holds one, is now at `place`. */
  ghost function WithMoved(results: map<nat, Record>, s: FutureState, place: Place): map<nat, Record> {
    if s.Ready? && s.result in results then results[s.result := results[s.result].(place := place)] else results
  }

  lemma MoveKeeps(results: map<nat, Record>, s: FutureState, place: Place)
    requires s.Ready? && s.result in results ==> !results[s.result].place.Delivered? && !results[s.result].place.Dropped?
    ensures AllKept(results, WithMoved(results, s, place))
  {
  }

  /** The promises that end with `p`: it, and as long as a continuation waits, the one that the
      continuation carries, and so on. */
  ghost function Falls(p: Promise, waits: map<Promise, Task>): set<Promise>
    decreases waits.Keys
  {
    if p in waits && waits[p].next != null then {p} + Falls(waits[p].next, waits - {p}) else {p}
  }

  /** The continuations that wait with the promises `ps`. */
  ghost function TasksOf(ps: set<Promise>, waits: map<Promise, Task>): set<Task> {
    set q | q in ps && q in waits :: waits[q]
  }

  lemma TasksOfMore(p: Promise, ps: set<Promise>, waits: map<Promise, Task>)
    requires p in waits
    ensures TasksOf({p} + ps, waits) == {waits[p]} + TasksOf(ps, waits - {p})
  {
  }

  /** Taking a result out and putting it back elsewhere, on another channel. */
  lemma PutBack(results: map<nat, Record>, k: nat, channel: nat, place: Place)
    requires k in results && !results[k].place.Delivered? && !results[k].place.Dropped?
    ensures var r := results[k];
      && (results - {k})[k := Record(place, r.failed, r.origin, channel)] == results[k := r.(place := place, channel := channel)]
      && AllKept(results, results[k := r.(place := place, channel := channel)])
  {
  }

  class World {
    // scheduled continuations
    var queue: seq<Task>
    ghost var promises: set<Promise>
    ghost var futures: set<Future>
    ghost var tasks: set<Task>
    // every result that was set, what each channel is there for, and the forwards
    ghost var results: map<nat, Record>
    ghost var holder: map<nat, Holder>
    ghost var next: map<nat, nat>

    /** The result in state `s` is at `place`, as what it was set to, having come there along
        its channel. */
    ghost predicate IsAt(s: FutureState, place: Place, channel: nat)
      requires s.Ready?
      reads this`results
    {
      && s.result in results && results[s.result].place == place && results[s.result].failed == s.failed
      && results[s.result].channel == channel
    }

    /** A result may still be set. */
    predicate Settable(p: Promise)
      reads p
    {
      p.where == InTask || (p.where == Local && p.local == Pending)
    }

    /** The channel of a promise that may still be set is there for it alone, and forwards lead
        there from its origin and no further. */
    ghost predicate WayOk(p: Promise)
      reads this`holder, this`next, p
    {
      p.channel in holder && holder[p.channel] == Promised(p) && Leads(p.origin, p.channel, next)
    }

    /** A linked future points back, and its promise has the state; an attached continuation
        belongs to its promise alone and waits. */
    ghost predicate PromiseOk(p: Promise)
      reads this`futures, this`tasks, this`results, this`holder, this`next, p, futures, tasks
    {
      && (p.future != null ==>
        p.future in futures && p.future.promise == p && p.future.channel == p.channel && p.where == Local)
      && (p.where == InTask <==> p.task != null)
      && (p.task != null ==>
        p.task in tasks && p.task.owner == p && p.task.state == Pending && p.task.channel == p.channel)
      && (p.local.Ready? ==> p.where == Local && IsAt(p.local, InPromise(p), p.channel))
      && (Settable(p) ==> WayOk(p))
    }

    ghost predicate FutureOk(f: Future)
      reads this`promises, this`results, f, promises
    {
      && (f.promise != null ==> f.promise in promises && f.promise.future == f && f.local == Pending)
      && (f.local.Ready? ==> IsAt(f.local, InFuture(f), f.channel))
    }

    /** A continuation is scheduled exactly when it has its result. */
    ghost predicate TaskOk(t: Task)
      reads this`promises, this`results, this`queue, t, promises
    {
      && (t.owner != null ==> t.owner in promises && t.owner.task == t && t.state == Pending)
      && (t in queue <==> t.state.Ready?)
      && (t.state.Ready? ==> t.owner == null && IsAt(t.state, InContinuation(t), t.channel))
      && (t.next != null ==> t.next in promises)
    }

    /** A result is where its record says it is; its channel is there for it alone, and forwards
        lead there from its origin and no further. */
    ghost predicate ResultOk(k: nat)
      requires k in results
      reads this`promises, this`futures, this`tasks, this`results, this`holder, this`next, promises, futures, tasks
    {
      var r := results[k];
      && r.channel in holder && holder[r.channel] == Reached(k) && Leads(r.origin, r.channel, next)
      && match r.place
         case InPromise(p) => p in promises && Has(p.local, k)
         case InFuture(f) => f in futures && Has(f.local, k)
         case InContinuation(t) => t in tasks && Has(t.state, k)
         case Delivered(c, asFailure) => c == r.channel && asFailure == r.failed
         case Dropped => true
    }

    ghost predicate Valid()
      reads this, promises, futures, tasks
    {
      && (forall p {:trigger p in promises} :: p in promises ==> PromiseOk(p))
      && (forall f {:trigger f in futures} :: f in futures ==> FutureOk(f))
      && (forall t {:trigger t in tasks} :: t in tasks ==> TaskOk(t))
      && (forall k {:trigger k in results} :: k in results ==> ResultOk(k))
      && QueueOk() && next.Keys <= holder.Keys
    }

    /** The queue holds known continuations, each once. */
    ghost predicate QueueOk()
      reads this`queue, this`tasks
    {
      && (forall t :: t in queue ==> t in tasks)
      && (forall i, j :: 0 <= i < j < |queue| ==> queue[i] != queue[j])
    }

    constructor ()
      ensures Valid() && promises == {} && futures == {} && tasks == {} && results == map[] && holder == map[] && queue == []
    {
      queue, promises, futures, tasks, results, holder, next := [], {}, {}, {}, map[], map[], map[];
    }

    // ----- what an operation touches

    twostate predicate SamePromise(p: Promise)
      reads p
    {
      && p.future == old(p.future) && p.local == old(p.local) && p.where == old(p.where) && p.task == old(p.task)
      && p.origin == old(p.origin) && p.channel == old(p.channel)
    }

    twostate predicate SameFuture(f: Future)
      reads f
    {
      f.promise == old(f.promise) && f.local == old(f.local) && f.channel == old(f.channel)
    }

    twostate predicate SameTask(t: Task)
      reads t
    {
      t.state == old(t.state) && t.owner == old(t.owner) && t.channel == old(t.channel)
    }

    /** Promises other than `ps` are as they were, and what those were linked to or held is
        among `fs`, `ts` and `ks`. */
    twostate predicate OnlyPromises(new ps: set<Promise?>, new fs: set<Future?>, new ts: set<Task?>, ks: set<nat>)
      reads this, promises
    {
      && (forall p: Promise {:trigger p in promises} :: p in promises ==> p in ps || (p in old(promises) && SamePromise(p)))
      && old(promises) <= promises
      && (forall p: Promise {:trigger p in ps} :: p in ps && p in old(promises) ==>
        && (old(p.future) != null ==> old(p.future) in fs) && (old(p.task) != null ==> old(p.task) in ts)
        && (old(p.local).Ready? ==> old(p.local).result in ks))
    }

    twostate predicate OnlyFutures(new ps: set<Promise?>, new fs: set<Future?>, ks: set<nat>)
      reads this, futures
    {
      && (forall f: Future {:trigger f in futures} :: f in futures ==> f in fs || (f in old(futures) && SameFuture(f)))
      && (forall f: Future {:trigger f in old(futures)} :: f in old(futures) && f !in fs ==> f in futures)
      && (forall f: Future {:trigger f in fs} :: f in fs && f in old(futures) ==>
        (old(f.promise) != null ==> old(f.promise) in ps) && (old(f.local).Ready? ==> old(f.local).result in ks))
    }

    twostate predicate OnlyTasks(new ps: set<Promise?>, new ts: set<Task?>, ks: set<nat>)
      reads this, tasks
    {
      && (forall t: Task {:trigger t in tasks} :: t in tasks ==>
        t in ts || (t in old(tasks) && SameTask(t) && (t in queue <==> t in old(queue))))
      && (forall t: Task {:trigger t in old(tasks)} :: t in old(tasks) && t !in ts ==> t in tasks)
      && (forall t: Task {:trigger t in ts} :: t in ts && t in old(tasks) ==>
        (old(t.owner) != null ==> old(t.owner) in ps) && (old(t.state).Ready? ==> old(t.state).result in ks))
    }

    /** Results other than `ks` are where they were, and those were with the objects touched. */
    twostate predicate OnlyResults(new ps: set<Promise?>, new fs: set<Future?>, new ts: set<Task?>, ks: set<nat>)
      reads this
    {
      && (forall k {:trigger k in results} :: k in results && k !in ks ==> k in old(results) && results[k] == old(results)[k])
      && (forall k {:trigger k in old(results)} :: k in old(results) && k !in ks ==> k in results)
      && (forall k {:trigger k in ks} :: k in ks && k in old(results) ==>
        match old(results)[k].place
        case InPromise(p) => p in ps
        case InFuture(f) => f in fs
        case InContinuation(t) => t in ts
        case _ => true)
    }

    twostate lemma WaysStay(new ps: set<Promise?>, ks: set<nat>)
      requires old(Valid()) && OnlyChannels(old(holder), holder, old(next), next, ps, ks)
      requires forall p: Promise {:trigger p in promises} :: p in promises ==> p in ps || (p in old(promises) && SamePromise(p))
      ensures forall p: Promise {:trigger WayOk(p)} :: p in promises && p !in ps && Settable(p) ==> WayOk(p)
    {
      forall p: Promise {:trigger WayOk(p)} | p in promises && p !in ps && Settable(p)
        ensures WayOk(p)
      {
        assert p in old(promises) && old(PromiseOk(p)) && SamePromise(p);
        WayStays(p.origin, p.channel, Promised(p), old(holder), holder, old(next), next, ps, ks);
      }
    }

    /** The promises touched are right, and so are the others. */
    twostate lemma PromisesStay(new ps: set<Promise?>, new fs: set<Future?>, new ts: set<Task?>, ks: set<nat>)
      requires old(Valid())
      requires OnlyPromises(ps, fs, ts, ks) && OnlyFutures(ps, fs, ks) && OnlyTasks(ps, ts, ks)
      requires OnlyResults(ps, fs, ts, ks) && OnlyChannels(old(holder), holder, old(next), next, ps, ks)
      requires forall p: Promise {:trigger p in ps} :: p in ps && p in promises ==> PromiseOk(p)
      ensures forall p: Promise {:trigger p in promises} :: p in promises ==> PromiseOk(p)
    {
      WaysStay(ps, ks);
      forall p: Promise {:trigger p in promises} | p in promises
        ensures PromiseOk(p)
      {
        if p !in ps {
          assert p in old(promises) && old(PromiseOk(p)) && SamePromise(p);
          if p.future != null {
            assert p.future in old(futures) && p.future !in fs && p.future in futures;
          }
          if p.task != null {
            assert p.task in old(tasks) && p.task !in ts && p.task in tasks;
          }
          if p.local.Ready? {
            assert p.local.result !in ks;
          }
        }
      }
    }

    twostate lemma FuturesStay(new ps: set<Promise?>, new fs: set<Future?>, new ts: set<Task?>, ks: set<nat>)
      requires old(Valid())
      requires OnlyPromises(ps, fs, ts, ks) && OnlyFutures(ps, fs, ks) && OnlyResults(ps, fs, ts, ks)
      requires forall f: Future {:trigger f in fs} :: f in fs && f in futures ==> FutureOk(f)
      ensures forall f: Future {:trigger f in futures} :: f in futures ==> FutureOk(f)
    {
      forall f: Future {:trigger f in futures} | f in futures
        ensures FutureOk(f)
      {
        if f !in fs {
          assert f in old(futures) && old(FutureOk(f)) && SameFuture(f);
          if f.promise != null {
            assert f.promise in old(promises) && f.promise !in ps && f.promise in promises;
          }
          if f.local.Ready? {
            assert f.local.result !in ks;
          }
        }
      }
    }

    twostate lemma TasksStay(new ps: set<Promise?>, new fs: set<Future?>, new ts: set<Task?>, ks: set<nat>)
      requires old(Valid())
      requires OnlyPromises(ps, fs, ts, ks) && OnlyTasks(ps, ts, ks) && OnlyResults(ps, fs, ts, ks)
      requires forall t: Task {:trigger t in ts} :: t in ts && t in tasks ==> TaskOk(t)
      ensures forall t: Task {:trigger t in tasks} :: t in tasks ==> TaskOk(t)
    {
      forall t: Task {:trigger t in tasks} | t in tasks
        ensures TaskOk(t)
      {
        if t !in ts {
          assert t in old(tasks) && old(TaskOk(t)) && SameTask(t);
          if t.owner != null {
            assert t.owner in old(promises) && t.owner !in ps && t.owner in promises;
          }
          if t.state.Ready? {
            assert t.state.result !in ks;
          }
        }
      }
    }

    twostate lemma ResultsStay(new ps: set<Promise?>, new fs: set<Future?>, new ts: set<Task?>, ks: set<nat>)
      requires old(Valid())
      requires OnlyPromises(ps, fs, ts, ks) && OnlyFutures(ps, fs, ks) && OnlyTasks(ps, ts, ks)
      requires OnlyResults(ps, fs, ts, ks) && OnlyChannels(old(holder), holder, old(next), next, ps, ks)
      requires forall k {:trigger k in ks} :: k in ks && k in results ==> ResultOk(k)
      ensures forall k {:trigger k in results} :: k in results ==> ResultOk(k)
    {
      forall k {:trigger k in results} | k in results
        ensures ResultOk(k)
      {
        if k !in ks {
          assert k in old(results) && old(ResultOk(k));
          WayStays(results[k].origin, results[k].channel, Reached(k), old(holder), holder, old(next), next, ps, ks);
          match results[k].place
          case InPromise(p) => assert p in old(promises) && p !in ps && p in promises;
          case InFuture(f) => assert f in old(futures) && f !in fs && f in futures;
          case InContinuation(t) => assert t in old(tasks) && t !in ts && t in tasks;
          case _ =>
        }
      }
    }

    /** When what an operation touched is right, everything is. */
    twostate lemma StillValid(new ps: set<Promise?>, new fs: set<Future?>, new ts: set<Task?>, ks: set<nat>)
      requires old(Valid())
      requires OnlyPromises(ps, fs, ts, ks)
      requires OnlyFutures(ps, fs, ks)
      requires OnlyTasks(ps, ts, ks)
      requires OnlyResults(ps, fs, ts, ks)
      requires OnlyChannels(old(holder), holder, old(next), next, ps, ks)
      requires forall p: Promise {:trigger p in ps} :: p in ps && p in promises ==> PromiseOk(p)
      requires forall f: Future {:trigger f in fs} :: f in fs && f in futures ==> FutureOk(f)
      requires forall t: Task {:trigger t in ts} :: t in ts && t in tasks ==> TaskOk(t)
      requires forall k {:trigger k in ks} :: k in ks && k in results ==> ResultOk(k)
      requires QueueOk()
      ensures Valid()
    {
      PromisesStay(ps, fs, ts, ks);
      FuturesStay(ps, fs, ts, ks);
      TasksStay(ps, fs, ts, ks);
      ResultsStay(ps, fs, ts, ks);
      assert next.Keys <= holder.Keys by {
        forall c | c in next
          ensures c in holder
        {
          assert c in old(next) ==> c in old(holder);
        }
      }
    }

    twostate predicate Settled()
      reads this
    {
      AllKept(old(results), results)
    }

    /** A new channel, and the promise that its result is to be set on. */
    method NewPromise(ghost channel: nat) returns (p: Promise)
      requires Valid() && channel !in holder
      modifies this`promises, this`holder
      ensures Valid() && fresh(p) && promises == old(promises) + {p} && p.origin == p.channel == channel
      ensures holder == old(holder)[channel := Promised(p)]
      ensures p.where == Local && p.local == Pending && p.future == null && p.task == null
    {
      p := new Promise(channel);
      promises := promises + {p};
      holder := holder[channel := Promised(p)];
      LeadsHere(channel, next);
      StillValid({p}, {}, {}, {});
    }

    /** `make_ready_future` and `make_exception_future`: a future with its result from the
        start. */
    method NewReady(k: nat, failed: bool, ghost channel: nat) returns (f: Future)
      requires Valid() && channel !in holder && k !in results
      modifies this`futures, this`holder, this`results
      ensures Valid() && fresh(f) && futures == old(futures) + {f} && f.promise == null && f.local == Ready(k, failed)
      ensures f.channel == channel && results == old(results)[k := Record(InFuture(f), failed, channel, channel)]
    {
      f := new Future(null, Ready(k, failed), channel);
      futures := futures + {f};
      holder := holder[channel := Reached(k)];
      results := results[k := Record(InFuture(f), failed, channel, channel)];
      LeadsHere(channel, next);
      StillValid({}, {f}, {}, {k});
    }

    /** `promise::get_future`. */
    method GetFuture(p: Promise) returns (f: Future)
      requires Valid() && p in promises && p.future == null && p.where == Local && p.task == null
      modifies this`futures, p`future
      ensures Valid() && fresh(f) && futures == old(futures) + {f} && f.promise == p && p.future == f && f.channel == p.channel
    {
      assert PromiseOk(p);
      f := new Future(p, Pending, p.channel);
      futures := futures + {f};
      p.future := f;
      StillValid({p}, {f}, {}, HeldBy(p));
    }

    /** The result in a promise. */
    ghost function HeldBy(p: Promise): set<nat>
      reads p
    {
      if p.local.Ready? then {p.local.result} else {}
    }

    // ----- the end of a promise

    /** A promise that ended, or that was moved from. */
    predicate Blank(p: Promise)
      reads p
    {
      p.future == null && p.task == null && p.where == Nowhere && !p.local.Ready?
    }

    /** What becomes of the result in a promise that ends. */
    ghost function EndPlace(p: Promise): Place
      reads p
    {
      if p.future != null then InFuture(p.future) else Dropped
    }

    /** `promise::abandoned` where no continuation waits: the future, if linked, takes over the
        state; a result nobody is linked to is lost. */
    method EndPromise(p: Promise)
      requires Valid() && p in promises && p.task == null
      modifies this`results, p, p.future
      ensures Valid() && Settled() && Blank(p) && results == WithMoved(old(results), old(p.local), old(EndPlace(p)))
      ensures old(p.future) != null ==> old(p.future).promise == null && old(p.future).local == old(p.local)
      ensures old(p.future) != null ==> old(p.future).channel == old(p.future.channel)
    {
      if p.future != null {
        HandOver(p, p.future);
        return;
      }
      EndAlone(p);
    }

    method EndAlone(p: Promise)
      requires Valid() && p in promises && p.task == null && p.future == null
      modifies this`results, p
      ensures Valid() && Settled() && Blank(p) && results == WithMoved(old(results), old(p.local), Dropped)
    {
      assert PromiseOk(p);
      assert p.local.Ready? ==> ResultOk(p.local.result);
      MoveKeeps(results, p.local, Dropped);
      ghost var ks := HeldBy(p);
      results := WithMoved(results, p.local, Dropped);
      Clear(p);
      StillValid({p}, {}, {}, ks);
    }

    method Clear(p: Promise)
      modifies p
      ensures Blank(p) && p.local == Invalid
    {
      p.future, p.local, p.where, p.task := null, Invalid, Nowhere, null;
    }

    /** The end of a promise whose future is linked. */
    method HandOver(p: Promise, f: Future)
      requires Valid() && p in promises && p.future == f
      modifies this`results, p, f
      ensures Valid() && Settled() && Blank(p) && results == WithMoved(old(results), old(p.local), InFuture(f))
      ensures f.promise == null && f.local == old(p.local) && f.channel == old(f.channel)
    {
      assert PromiseOk(p) && FutureOk(f);
      assert p.local.Ready? ==> ResultOk(p.local.result);
      MoveKeeps(results, p.local, InFuture(f));
      ghost var ks := HeldBy(p);
      TakeOver(f, p);
      StillValid({p}, {f}, {}, ks);
    }

    method TakeOver(f: Future, p: Promise)
      modifies this`results, p, f
      ensures f.promise == null && f.local == old(p.local) && f.channel == old(f.channel)
      ensures Blank(p) && results == WithMoved(old(results), old(p.local), InFuture(f))
    {
      results := WithMoved(results, p.local, InFuture(f));
      f.local := p.local;
      f.promise := null;
      Clear(p);
    }

    /** The end of a promise with its continuation, which will never run. */
    method DropTask(p: Promise)
      requires Valid() && p in promises && p.task != null
      modifies this`tasks, p
      ensures Valid() && tasks == old(tasks) - {old(p.task)} && Blank(p)
      ensures old(p.task).next != null ==> old(p.task).next in promises
    {
      assert PromiseOk(p) && TaskOk(p.task);
      ghost var t := p.task;
      tasks := tasks - {t};
      Clear(p);
      StillValid({p}, {}, {t}, {});
    }

    // ----- moves

    /** The move constructor: `p` takes the place of `x`, which keeps nothing. */
    method MoveInto(p: Promise, x: Promise)
      requires Valid() && x in promises && p != x && (p !in promises || Blank(p))
      modifies this`promises, this`results, this`holder, p, x, x.future, x.task
      ensures Valid() && Settled() && promises == old(promises) + {p}
      ensures p.future == old(x.future) && p.where == old(x.where) && p.task == old(x.task)
      ensures p.origin == old(x.origin) && p.channel == old(x.channel)
      ensures p.local == if old(x.where) == Local then old(x.local) else Pending
      ensures x.future == null && x.where == Nowhere && x.task == null
      ensures results == WithMoved(old(results), old(x.local), InPromise(p))
      ensures holder == if old(Settable(x)) then old(holder)[old(x.channel) := Promised(p)] else old(holder)
      ensures p.future != null ==> p.future.channel == old(x.future.channel)
    {
      assert PromiseOk(x);
      assert x.local.Ready? ==> ResultOk(x.local.result);
      MoveKeeps(results, x.local, InPromise(p));
      TransferAll(p, x);
      Moved(p, x);
    }

    /** The fields of `x` go to `p`, with what is known of them. */
    method TransferAll(p: Promise, x: Promise)
      requires p != x && (x.local.Ready? ==> x.where == Local)
      modifies this`promises, this`results, this`holder, p, x, x.future, x.task
      ensures promises == old(promises) + {p} && results == WithMoved(old(results), old(x.local), InPromise(p))
      ensures holder == if old(Settable(x)) then old(holder)[old(x.channel) := Promised(p)] else old(holder)
      ensures p.future == old(x.future) && p.where == old(x.where) && p.task == old(x.task)
      ensures p.origin == old(x.origin) && p.channel == old(x.channel)
      ensures p.local == if old(x.where) == Local then old(x.local) else Pending
      ensures x.future == null && x.where == Nowhere && x.task == null && !x.local.Ready?
      ensures p.future != null ==>
        p.future.promise == p && p.future.local == old(x.future.local) && p.future.channel == old(x.future.channel)
      ensures p.task != null ==>
        p.task.owner == p && p.task.state == old(x.task.state) && p.task.channel == old(x.task.channel)
    {
      promises := promises + {p};
      results := WithMoved(results, x.local, InPromise(p));
      holder := if Settable(x) then holder[x.channel := Promised(p)] else holder;
      Transfer(p, x);
    }

    /** The fields of `x` go to `p`, and what `x` was linked to points to `p`. */
    method Transfer(p: Promise, x: Promise)
      requires p != x && (x.local.Ready? ==> x.where == Local)
      modifies p, x, x.future, x.task
      ensures p.future == old(x.future) && p.where == old(x.where) && p.task == old(x.task)
      ensures p.origin == old(x.origin) && p.channel == old(x.channel)
      ensures p.local == if old(x.where) == Local then old(x.local) else Pending
      ensures x.future == null && x.where == Nowhere && x.task == null && !x.local.Ready?
      ensures p.future != null ==>
        p.future.promise == p && p.future.local == old(x.future.local) && p.future.channel == old(x.future.channel)
      ensures p.task != null ==>
        p.task.owner == p && p.task.state == old(x.task.state) && p.task.channel == old(x.task.channel)
    {
      p.future, p.where, p.task, p.origin, p.channel := x.future, x.where, x.task, x.origin, x.channel;
      p.local := if x.where == Local then x.local else Pending;
      x.local := if x.where == Local then Invalid else x.local;
      x.future, x.where, x.task := null, Nowhere, null;
      if p.future != null {
        p.future.promise := p;
      }
      if p.task != null {
        p.task.owner := p;
      }
    }

    /** Nothing but `x`, what it was linked to, and `p` changed, and `p` has what `x` had. */
    twostate lemma Moved(new p: Promise, x: Promise)
      requires old(Valid())
      requires x in old(promises) && p != x && (p !in old(promises) || old(Blank(p)))
      requires promises == old(promises) + {p} && futures == old(futures) && tasks == old(tasks) && queue == old(queue)
      requires next == old(next) && results == WithMoved(old(results), old(x.local), InPromise(p))
      requires holder == if old(Settable(x)) then old(holder)[old(x.channel) := Promised(p)] else old(holder)
      requires p.future == old(x.future) && p.where == old(x.where) && p.task == old(x.task)
      requires p.origin == old(x.origin) && p.channel == old(x.channel)
      requires p.local == if old(x.where) == Local then old(x.local) else Pending
      requires x.future == null && x.where == Nowhere && x.task == null && !x.local.Ready?
      requires forall q {:trigger q in old(promises)} :: q in old(promises) && q != x && q != p ==> SamePromise(q)
      requires forall f {:trigger f in futures} :: f in futures ==>
        f.local == old(f.local) && f.channel == old(f.channel) && f.promise == if f == old(x.future) then p else old(f.promise)
      requires forall t {:trigger t in tasks} :: t in tasks ==>
        t.state == old(t.state) && t.channel == old(t.channel) && t.owner == if t == old(x.task) then p else old(t.owner)
      ensures Valid()
    {
      assert old(PromiseOk(x));
      var ks := old(HeldBy(x));
      assert forall k :: k in ks ==> old(ResultOk(k));
      assert old(x.future) != null ==> old(FutureOk(x.future));
      assert old(x.task) != null ==> old(TaskOk(x.task));
      assert old(Settable(x)) ==> old(WayOk(x));
      StillValid({p, x}, {p.future}, {p.task}, ks);
    }

    /** `promise(promise&&)`. */
    method MovePromise(x: Promise) returns (p: Promise)
      requires Valid() && x in promises
      modifies this`promises, this`results, this`holder, x, x.future, x.task
      ensures Valid() && Settled() && fresh(p) && promises == old(promises) + {p}
      ensures p.future == old(x.future) && p.where == old(x.where) && p.task == old(x.task)
      ensures p.origin == old(x.origin) && p.channel == old(x.channel)
      ensures p.local == if old(x.where) == Local then old(x.local) else Pending
      ensures x.future == null && x.where == Nowhere && x.task == null
      ensures results == WithMoved(old(results), old(x.local), InPromise(p))
      ensures holder == if old(Settable(x)) then old(holder)[old(x.channel) := Promised(p)] else old(holder)
    {
      p := new Promise(0);
      MoveInto(p, x);
    }

    /** The continuation that waits with each promise. */
    ghost function Waits(): map<Promise, Task>
      reads this`promises, promises
    {
      map p | p in promises && p.task != null :: p.task
    }

    /** The promises `ps` ended: linked futures took over their states, results that nobody is
        linked to are lost, and nothing else happened to promises, futures and results. */
    twostate predicate Fell(new ps: set<Promise>)
      reads this, futures, promises
    {
      && (forall q: Promise {:trigger q in promises} :: q in promises ==>
        if q in ps then Blank(q) else q in old(promises) && SamePromise(q))
      && (forall f: Future {:trigger f in futures} :: f in futures ==> f in old(futures) && FutureFell(f, ps))
      && (forall k {:trigger k in results} :: k in results ==> k in old(results) && ResultFell(k, ps))
    }

    twostate predicate FutureFell(f: Future, new ps: set<Promise>)
      reads f
    {
      && f.channel == old(f.channel)
      && if old(f.promise) in ps then f.promise == null && f.local == old(f.promise.local)
         else f.promise == old(f.promise) && f.local == old(f.local)
    }

    twostate predicate ResultFell(k: nat, new ps: set<Promise>)
      requires k in results && k in old(results)
      reads this
    {
      var r := old(results)[k];
      results[k] == if r.place.InPromise? && r.place.p in ps then r.(place := old(EndPlace(r.place.p))) else r
    }

    /** The end of a promise without a continuation. */
    method EndOne(p: Promise)
      requires Valid() && p in promises && p.task == null
      modifies this`results, p, p.future
      ensures Valid() && Settled() && Fell({p})
    {
      OnlyWith(p);
      EndPromise(p);
    }

    /** The future linked and the result held are the only ones there with a promise. */
    lemma OnlyWith(p: Promise)
      requires Valid() && p in promises
      ensures forall f :: f in futures && f.promise == p ==> p.future == f
      ensures p.future != null ==> p.future in futures && p.future.promise == p
      ensures forall k {:trigger k in results} :: k in results ==> (results[k].place == InPromise(p) <==> Has(p.local, k))
      ensures p.local.Ready? ==> p.local.result in results
      ensures p.task != null ==> p.future == null && !p.local.Ready?
    {
      assert PromiseOk(p);
      forall f | f in futures && f.promise == p
        ensures p.future == f
      {
        assert FutureOk(f);
      }
      forall k | k in results
        ensures results[k].place == InPromise(p) <==> Has(p.local, k)
      {
        assert ResultOk(k);
      }
    }

    /** The end of a promise with its continuation, seen from all others. */
    method DropOne(p: Promise)
      requires Valid() && p in promises && p.task != null
      modifies this`tasks, p
      ensures Valid() && Fell({p}) && tasks == old(tasks) - {old(p.task)} && Blank(p)
      ensures old(p.task).next != null ==> old(p.task).next in promises
      ensures p in old(Waits()) && Waits() == old(Waits()) - {p}
      ensures forall f :: f in futures ==> f.promise != p
      ensures forall k :: k in results ==> results[k].place != InPromise(p)
    {
      OnlyWith(p);
      DropTask(p);
    }

    /** `promise::abandoned` and the end of the promise. A continuation that waits with it is
        dropped, and so is the promise that the continuation carries. */
    method Abandon(p: Promise)
      requires Valid() && p in promises
      modifies this`tasks, this`results, promises, futures
      ensures Valid() && Settled() && Fell(Falls(p, old(Waits())))
      ensures tasks == old(tasks) - TasksOf(Falls(p, old(Waits())), old(Waits()))
      decreases Waits().Keys, 1
    {
      if p.task == null {
        EndOne(p);
        return;
      }
      AbandonBoth(p);
    }

    /** A promise with a continuation, and what the continuation carries. */
    method AbandonBoth(p: Promise)
      requires Valid() && p in promises && p.task != null
      modifies this`tasks, this`results, promises, futures
      ensures Valid() && Settled() && Fell(Falls(p, old(Waits())))
      ensures tasks == old(tasks) - TasksOf(Falls(p, old(Waits())), old(Waits()))
      decreases Waits().Keys, 0
    {
      var t := p.task;
      DropOne(p);
      if t.next == null {
        return;
      }
      ghost var ps := Falls(t.next, Waits());
      label Dropped:
      Abandon(t.next);
      TasksOfMore(p, ps, old(Waits()));
      assert Fell@Dropped(ps);
      forall f: Future {:trigger FutureFell(f, {p} + ps)} | f in futures
        ensures FutureFell(f, {p} + ps)
      {
        assert FutureFell@Dropped(f, ps);
      }
      forall k {:trigger k in results} | k in results
        ensures ResultFell(k, {p} + ps)
      {
        assert ResultFell@Dropped(k, ps);
      }
    }

    /** `promise::operator=(promise&&)`: the target ends, then takes the place of `x`. The
        promise assigned from must not be one that ends with the target. */
    method AssignPromise(p: Promise, x: Promise)
      requires Valid() && p in promises && x in promises && (p != x ==> x !in Falls(p, Waits()))
      modifies this`promises, this`tasks, this`results, this`holder, promises, futures, x.task
      ensures Valid() && Settled() && promises == old(promises)
      ensures p.future == old(x.future) && p.where == old(x.where) && p.task == old(x.task)
      ensures p.origin == old(x.origin) && p.channel == old(x.channel)
      ensures p.local == if p == x || old(x.where) == Local then old(x.local) else Pending
      ensures p != x ==> Blank(x) && tasks == old(tasks) - TasksOf(Falls(p, old(Waits())), old(Waits()))
      ensures p != x && old(p.future) != null ==> old(p.future).promise == null && old(p.future).local == old(p.local)
      ensures p != x ==> forall q :: q in Falls(p, old(Waits())) && q in promises && q != p ==> Blank(q)
      ensures p == x ==> tasks == old(tasks) && results == old(results) && holder == old(holder)
    {
      if p == x {
        return;
      }
      assert PromiseOk(x);
      EndTarget(p, x);
      MoveInto(p, x);
    }

    /** The target of an assignment ends, and the promise assigned from stays as it is. */
    method EndTarget(p: Promise, x: Promise)
      requires Valid() && p in promises && x in promises && x !in Falls(p, Waits())
      modifies this`tasks, this`results, promises, futures
      ensures Valid() && Settled() && Blank(p) && SamePromise(x)
      ensures tasks == old(tasks) - TasksOf(Falls(p, old(Waits())), old(Waits()))
      ensures old(p.future) != null ==> old(p.future).promise == null && old(p.future).local == old(p.local)
      ensures old(p.future) != null ==> old(p.future) != x.future
      ensures forall q :: q in Falls(p, old(Waits())) && q in promises ==> Blank(q)
    {
      assert PromiseOk(p) && PromiseOk(x);
      ghost var f, ps := p.future, Falls(p, Waits());
      assert p in ps && (f != null ==> f in futures);
      Abandon(p);
      assert p in promises && x in promises && (f != null ==> f in futures);
    }

    /** The move constructor of a future. */
    method MoveFuture(x: Future) returns (f: Future)
      requires Valid() && x in futures
      modifies this`futures, this`results, x, x.promise
      ensures Valid() && Settled() && fresh(f) && futures == old(futures) + {f}
      ensures f.promise == old(x.promise) && f.channel == x.channel && x.promise == null && Seen(f) == old(Seen(x))
      ensures old(x.promise) == null ==> f.local == old(x.local) && x.local == Invalid
      ensures old(x.promise) == null ==> results == WithMoved(old(results), old(x.local), InFuture(f))
      ensures old(x.promise) != null ==> results == old(results) && f.promise.future == f
    {
      f := new Future(x.promise, Pending, x.channel);
      if x.promise == null {
        MoveState(x, f);
        return;
      }
      Relink(x, f, x.promise);
    }

    /** A future without a promise: its state moves. */
    method MoveState(x: Future, f: Future)
      requires Valid() && x in futures && x.promise == null && f !in futures
      requires f.promise == null && f.local == Pending && f.channel == x.channel
      modifies this`futures, this`results, x, f
      ensures Valid() && Settled() && futures == old(futures) + {f} && f.promise == null && f.channel == x.channel
      ensures f.local == old(x.local) && x.local == Invalid && x.promise == null
      ensures results == WithMoved(old(results), old(x.local), InFuture(f))
    {
      if x.local.Ready? {
        MoveReady(x, f);
        return;
      }
      ShiftState(x, f);
      StillValid({}, {x, f}, {}, {});
    }

    method MoveReady(x: Future, f: Future)
      requires Valid() && x in futures && x.promise == null && x.local.Ready? && f !in futures
      requires f.promise == null && f.local == Pending && f.channel == x.channel
      modifies this`futures, this`results, x`local, f`local
      ensures Valid() && Settled() && futures == old(futures) + {f} && f.local == old(x.local) && x.local == Invalid
      ensures results == WithMoved(old(results), old(x.local), InFuture(f))
    {
      assert FutureOk(x) && ResultOk(x.local.result);
      MoveKeeps(results, x.local, InFuture(f));
      ShiftState(x, f);
      StillValid({}, {x, f}, {}, {f.local.result});
    }

    method ShiftState(x: Future, f: Future)
      requires x != f
      modifies this`futures, this`results, x`local, f`local
      ensures f.local == old(x.local) && x.local == Invalid && futures == old(futures) + {f}
      ensures results == WithMoved(old(results), old(x.local), InFuture(f))
    {
      futures := futures + {f};
      results := WithMoved(results, x.local, InFuture(f));
      f.local := x.local;
      x.local := Invalid;
    }

    /** A future with a promise: the promise points to the new one. */
    method Relink(x: Future, f: Future, p: Promise)
      requires Valid() && x in futures && x.promise == p && f !in futures
      requires f.promise == p && f.local == Pending && f.channel == x.channel
      modifies this`futures, x`promise, p`future
      ensures Valid() && futures == old(futures) + {f} && x.promise == null && p.future == f
    {
      assert FutureOk(x) && PromiseOk(p);
      futures := futures + {f};
      x.promise := null;
      p.future := f;
      StillValid({p}, {x, f}, {}, HeldBy(p));
    }

    /** The state a future sees: its promise's, or its own. */
    function Seen(f: Future): FutureState
      reads f, f.promise
    {
      if f.promise != null then f.promise.local else f.local
    }

    /** Whether a future's state holds a result. */
    predicate Available(f: Future)
      reads f, f.promise
    {
      Seen(f).Ready?
    }

    /** The destructor of a future. An exception is reported, but stays with a linked promise,
        as a value does; what the future held itself is lost, and nothing else is. */
    method DestroyFuture(f: Future) returns (reported: bool)
      requires Valid() && f in futures
      modifies this`futures, this`results, f.promise
      ensures Valid() && Settled() && futures == old(futures) - {f}
      ensures reported == (Available(f) && Seen(f).failed) && Seen(f) == old(Seen(f))
      ensures f.promise != null ==> f.promise.future == null
      ensures results == if f.promise == null then WithMoved(old(results), f.local, Dropped) else old(results)
    {
      reported := Available(f) && Seen(f).failed;
      if f.promise != null {
        Unlink(f, f.promise);
        return;
      }
      DestroyAlone(f);
    }

    method DestroyAlone(f: Future)
      requires Valid() && f in futures && f.promise == null
      modifies this`futures, this`results
      ensures Valid() && Settled() && futures == old(futures) - {f} && results == WithMoved(old(results), f.local, Dropped)
    {
      assert FutureOk(f);
      assert f.local.Ready? ==> ResultOk(f.local.result);
      MoveKeeps(results, f.local, Dropped);
      futures := futures - {f};
      results := WithMoved(results, f.local, Dropped);
      StillValid({}, {f}, {}, if f.local.Ready? then {f.local.result} else {});
    }

    method Unlink(f: Future, p: Promise)
      requires Valid() && f in futures && f.promise == p
      modifies this`futures, p`future
      ensures Valid() && futures == old(futures) - {f} && p.future == null
    {
      assert FutureOk(f) && PromiseOk(p);
      futures := futures - {f};
      p.future := null;
      StillValid({p}, {f}, {}, HeldBy(p));
    }

    // ----- results

    /** `set_value` and `set_exception`: an attached continuation gets the result, as a value or
        an exception, and is scheduled, with the promise of no further use; otherwise the result
        waits in the promise. */
    method SetResult(p: Promise, failed: bool, k: nat)
      requires Valid() && p in promises && Settable(p) && k !in results
      modifies this`results, this`holder, this`queue, p, p.task
      ensures Valid() && p.future == old(p.future) && p.task == null && p.channel == old(p.channel)
      ensures old(p.where) == Local ==> InPlace(p, Ready(k, failed), old(results), p.origin, old(queue))
      ensures old(p.where) == InTask ==> p.where == Nowhere
      ensures old(p.where) == InTask ==> RanWith(old(p.task), Ready(k, failed), old(results), p.origin, old(queue))
    {
      assert PromiseOk(p);
      Put(p, failed, k, p.origin);
    }

    /** Result `s`, which came from `origin`, waits in promise `p`. */
    ghost predicate InPlace(p: Promise, s: FutureState, was: map<nat, Record>, origin: nat, queueWas: seq<Task>)
      requires s.Ready?
      reads this`results, this`queue, p
    {
      && p.where == Local && p.local == s && queue == queueWas
      && results == was[s.result := Record(InPromise(p), s.failed, origin, p.channel)]
    }

    /** Continuation `t` was scheduled with result `s`, which came from `origin`. */
    ghost predicate RanWith(t: Task?, s: FutureState, was: map<nat, Record>, origin: nat, queueWas: seq<Task>)
      requires s.Ready?
      reads this`results, this`queue, t
    {
      && t != null && t.state == s && queue == queueWas + [t]
      && results == was[s.result := Record(InContinuation(t), s.failed, origin, t.channel)]
    }

    /** A result that came in on channel `origin`, now or before it was forwarded to `p`. */
    method Put(p: Promise, failed: bool, k: nat, ghost origin: nat)
      requires Valid() && p in promises && Settable(p) && k !in results && Leads(origin, p.channel, next)
      modifies this`results, this`holder, this`queue, p, p.task
      ensures Valid() && p.future == old(p.future) && p.task == null && p.channel == old(p.channel) && p.origin == old(p.origin)
      ensures old(p.where) == Local ==> InPlace(p, Ready(k, failed), old(results), origin, old(queue))
      ensures old(p.where) == InTask ==> p.where == Nowhere
      ensures old(p.where) == InTask ==> RanWith(old(p.task), Ready(k, failed), old(results), origin, old(queue))
      ensures old(p.where) == InTask ==> old(p.task).channel == p.channel
    {
      assert PromiseOk(p);
      if p.where == InTask {
        MakeReady(p, p.task, failed, k, origin);
        return;
      }
      Keep(p, failed, k, origin);
    }

    method Keep(p: Promise, failed: bool, k: nat, ghost origin: nat)
      requires Valid() && p in promises && p.where == Local && p.local == Pending
      requires k !in results && Leads(origin, p.channel, next)
      modifies this`results, this`holder, p`local
      ensures Valid() && InPlace(p, Ready(k, failed), old(results), origin, queue)
    {
      assert PromiseOk(p);
      results := results[k := Record(InPromise(p), failed, origin, p.channel)];
      holder := holder[p.channel := Reached(k)];
      p.local := Ready(k, failed);
      StillValid({p}, {p.future}, {}, {k});
    }

    /** `promise::make_ready` with a continuation attached. */
    method MakeReady(p: Promise, t: Task, failed: bool, k: nat, ghost origin: nat)
      requires Valid() && p in promises && p.where == InTask && p.task == t && k !in results && Leads(origin, p.channel, next)
      modifies this`results, this`holder, this`queue, p, t
      ensures Valid() && p.where == Nowhere && p.future == old(p.future) && p.task == null
      ensures p.channel == old(p.channel) == t.channel && p.origin == old(p.origin)
      ensures RanWith(t, Ready(k, failed), old(results), origin, old(queue))
    {
      assert PromiseOk(p) && TaskOk(t);
      Run(p, t, Ready(k, failed), origin);
      StillValid({p}, {}, {t}, {k});
    }

    /** The state goes to the continuation, which leaves the promise for the queue. */
    method Run(p: Promise, t: Task, s: FutureState, ghost origin: nat)
      requires s.Ready?
      modifies this`results, this`holder, this`queue, p, t
      ensures t.state == s && t.owner == null && t.channel == old(t.channel) && queue == old(queue) + [t]
      ensures p.where == Nowhere && p.task == null && p.future == old(p.future) && p.local == old(p.local)
      ensures p.channel == old(p.channel) && p.origin == old(p.origin)
      ensures results == old(results)[s.result := Record(InContinuation(t), s.failed, origin, p.channel)]
      ensures holder == old(holder)[p.channel := Reached(s.result)]
    {
      results := results[s.result := Record(InContinuation(t), s.failed, origin, p.channel)];
      holder := holder[p.channel := Reached(s.result)];
      t.state := s;
      t.owner := null;
      p.where := Nowhere;
      p.task := null;
      queue := queue + [t];
    }

    /** The result moves out of an available future's state. */
    method TakeState(f: Future) returns (failed: bool, k: nat, ghost r: Record)
      requires Valid() && f in futures && Available(f)
      modifies this`results, f`local, f.promise
      ensures Valid() && Ready(k, failed) == old(Seen(f)) && k in old(results) && r == old(results)[k]
      ensures results == old(results) - {k} && r.failed == failed && r.channel == f.channel
      ensures !r.place.Delivered? && !r.place.Dropped?
      ensures r.channel in holder && holder[r.channel] == Reached(k) && Leads(r.origin, r.channel, next)
      ensures !Available(f) && f.promise == old(f.promise)
      ensures f.promise != null ==> f.promise.future == f && f.promise.where == Local
    {
      assert FutureOk(f);
      var p := f.promise;
      if p != null {
        failed, k, r := TakeLocal(f, p);
        return;
      }
      failed, k := f.local.failed, f.local.result;
      assert ResultOk(k);
      r := results[k];
      results := results - {k};
      f.local := Invalid;
      StillValid({}, {f}, {}, {k});
    }

    /** The result moves out of the promise of a future. */
    method TakeLocal(f: Future, p: Promise) returns (failed: bool, k: nat, ghost r: Record)
      requires Valid() && f in futures && f.promise == p && p.local.Ready?
      modifies this`results, p`local
      ensures Valid() && Ready(k, failed) == old(p.local) && k in old(results) && r == old(results)[k]
      ensures results == old(results) - {k} && r.failed == failed && r.channel == f.channel && r.place == InPromise(p)
      ensures r.channel in holder && holder[r.channel] == Reached(k) && Leads(r.origin, r.channel, next)
      ensures p.local == Invalid && p.future == f && p.where == Local
    {
      assert FutureOk(f) && PromiseOk(p);
      failed, k := p.local.failed, p.local.result;
      assert ResultOk(k);
      r := results[k];
      results := results - {k};
      p.local := Invalid;
      StillValid({p}, {f}, {}, {k});
    }

    /** The two ends let go of each other. */
    method Detach(f: Future)
      requires Valid() && f in futures
      modifies f`promise, f.promise
      ensures Valid() && f.promise == null
      ensures old(f.promise) != null ==> old(f.promise).future == null && old(f.promise).where == Local
      ensures old(f.promise) != null ==> old(f.promise).local == old(f.promise.local) && old(f.promise).task == null
      ensures old(f.promise) != null ==>
        old(f.promise).origin == old(f.promise.origin) && old(f.promise).channel == old(f.promise.channel)
    {
      assert FutureOk(f);
      var p := f.promise;
      if p == null {
        return;
      }
      assert PromiseOk(p);
      p.future := null;
      f.promise := null;
      StillValid({p}, {f}, {}, HeldBy(p));
    }

    /** `get_available_state`: the caller gets the result, as the value or the exception that it
        was set to, and nobody else does after that. */
    method GetAvailableState(f: Future) returns (failed: bool, k: nat)
      requires Valid() && f in futures && Available(f)
      modifies this`results, f, f.promise
      ensures Valid() && Settled() && f.promise == null && Ready(k, failed) == old(Seen(f))
      ensures k in old(results) && old(results)[k].failed == failed && old(results)[k].channel == f.channel
      ensures results == old(results)[k := old(results)[k].(place := Delivered(f.channel, failed))]
    {
      ghost var r;
      failed, k, r := TakeState(f);
      Detach(f);
      Deliver(k, r);
    }

    ghost method Deliver(k: nat, r: Record)
      requires Valid() && k !in results
      requires r.channel in holder && holder[r.channel] == Reached(k) && Leads(r.origin, r.channel, next)
      modifies this`results
      ensures Valid() && results == old(results)[k := r.(place := Delivered(r.channel, r.failed))]
    {
      results := results[k := r.(place := Delivered(r.channel, r.failed))];
      StillValid({}, {}, {}, {k});
    }

    // ----- continuations

    /** `future::schedule`: with the result there already, the continuation is scheduled with
        it; otherwise the promise takes the continuation and lets go of the future. */
    method Schedule(f: Future, carried: Promise?) returns (t: Task)
      requires Valid() && f in futures && (Available(f) || (f.promise != null && f.promise.local == Pending))
      requires carried != null ==> carried in promises
      modifies this`results, this`queue, this`tasks, f, f.promise
      ensures Valid() && Settled() && fresh(t) && tasks == old(tasks) + {t} && t.channel == f.channel && t.next == carried
      ensures old(Available(f)) ==> !Available(f) && t.state == old(Seen(f)) && queue == old(queue) + [t]
      ensures old(Available(f)) ==> results == WithMoved(old(results), old(Seen(f)), InContinuation(t))
      ensures !old(Available(f)) ==> queue == old(queue) && results == old(results) && f.promise == null
      ensures !old(Available(f)) ==> old(f.promise).task == t && old(f.promise).where == InTask
    {
      if Available(f) {
        t := ScheduleReady(f, carried);
        return;
      }
      t := Attach(f, f.promise, carried);
    }

    /** The result is there. */
    method ScheduleReady(f: Future, carried: Promise?) returns (t: Task)
      requires Valid() && f in futures && Available(f) && (carried != null ==> carried in promises)
      modifies this`results, this`queue, this`tasks, f, f.promise
      ensures Valid() && Settled() && fresh(t) && tasks == old(tasks) + {t} && t.channel == f.channel && t.next == carried
      ensures !Available(f) && t.state == old(Seen(f)) && queue == old(queue) + [t]
      ensures results == WithMoved(old(results), old(Seen(f)), InContinuation(t))
    {
      ghost var r;
      var failed, k;
      failed, k, r := TakeState(f);
      t := ScheduleNow(failed, k, carried, r);
    }

    method ScheduleNow(failed: bool, k: nat, carried: Promise?, ghost r: Record) returns (t: Task)
      requires Valid() && k !in results && r.failed == failed && (carried != null ==> carried in promises)
      requires r.channel in holder && holder[r.channel] == Reached(k) && Leads(r.origin, r.channel, next)
      modifies this`results, this`queue, this`tasks
      ensures Valid() && fresh(t) && tasks == old(tasks) + {t} && queue == old(queue) + [t]
      ensures t.state == Ready(k, failed) && t.channel == r.channel && t.next == carried
      ensures results == old(results)[k := r.(place := InContinuation(t))]
    {
      t := new Task(Ready(k, failed), carried, null, r.channel);
      results := results[k := r.(place := InContinuation(t))];
      tasks := tasks + {t};
      queue := queue + [t];
      StillValid({}, {}, {t}, {k});
    }

    /** `promise::schedule` on the promise of a waiting future. */
    method Attach(f: Future, p: Promise, carried: Promise?) returns (t: Task)
      requires Valid() && f in futures && f.promise == p && p.local == Pending && (carried != null ==> carried in promises)
      modifies this`tasks, f`promise, p`where, p`task, p`future
      ensures Valid() && fresh(t) && tasks == old(tasks) + {t} && t.channel == f.channel && t.next == carried
      ensures f.promise == null && p.task == t && p.where == InTask
    {
      assert FutureOk(f) && PromiseOk(p);
      t := new Task(Pending, carried, p, f.channel);
      tasks := tasks + {t};
      Await(f, p, t);
      StillValid({p}, {f}, {t}, {});
    }

    method Await(f: Future, p: Promise, t: Task)
      modifies f`promise, p`where, p`task, p`future
      ensures f.promise == null && p.task == t && p.where == InTask && p.future == null
    {
      p.where := InTask;
      p.task := t;
      p.future := null;
      f.promise := null;
    }

    /** Runs the continuation at the head of the queue with its result. */
    method RunTask() returns (t: Task)
      requires Valid() && queue != []
      modifies this`queue, this`tasks, this`results
      ensures Valid() && Settled() && t == old(queue)[0] && queue == old(queue)[1..] && tasks == old(tasks) - {t}
      ensures t.state.Ready? && t.state.result in old(results) && old(results)[t.state.result].place == InContinuation(t)
      ensures old(results)[t.state.result].failed == t.state.failed && old(results)[t.state.result].channel == t.channel
      ensures results == WithMoved(old(results), t.state, Delivered(t.channel, t.state.failed))
      ensures t.next != null ==> t.next in promises
    {
      t := queue[0];
      assert t in queue && TaskOk(t);
      assert ResultOk(t.state.result);
      MoveKeeps(results, t.state, Delivered(t.channel, t.state.failed));
      PopTask(t);
      StillValid({}, {}, {t}, {t.state.result});
    }

    method PopTask(t: Task)
      requires queue != [] && t.state.Ready?
      modifies this`queue, this`tasks, this`results
      ensures queue == old(queue)[1..] && tasks == old(tasks) - {t}
      ensures results == WithMoved(old(results), t.state, Delivered(t.channel, t.state.failed))
    {
      queue := queue[1..];
      tasks := tasks - {t};
      results := WithMoved(results, t.state, Delivered(t.channel, t.state.failed));
    }

    // ----- forwarding

    /** `future::forward_to`: with the result there already, `pr` is given it; otherwise the
        future's promise takes over what `pr` is linked to. Forwarding a waiting future to its
        own promise only cuts the link. */
    method ForwardTo(f: Future, pr: Promise)
      requires Valid() && f in futures && pr in promises
      requires Available(f) ==> Settable(pr)
      requires !Available(f) ==> f.promise != null
      modifies this`promises, this`results, this`holder, this`next, this`queue, f, f.promise, pr, pr.future, pr.task
      ensures Valid() && Settled() && promises == old(promises)
      ensures old(Available(f)) ==> pr.future == old(pr.future) && pr.task == null && next == old(next)[f.channel := pr.channel]
      ensures old(Available(f)) && old(pr.where) == Local ==> Given(pr, old(Seen(f)), old(results), old(queue))
      ensures old(Available(f)) && old(pr.where) == InTask ==> Taken(old(pr.task), old(Seen(f)), old(results), old(queue))
      ensures !old(Available(f)) ==> results == WithMoved(old(results), old(pr.local), InPromise(old(f.promise))) && queue == old(queue)
      ensures !old(Available(f)) ==> f.promise == null && pr.task == null
      ensures !old(Available(f)) && old(f.promise) != pr ==> Blank(pr)
      ensures !old(Available(f)) && old(f.promise) != pr ==>
        old(f.promise).future == old(pr.future) && old(f.promise).task == old(pr.task) && old(f.promise).where == old(pr.where)
    {
      if Available(f) {
        ForwardResult(f, pr);
        return;
      }
      ForwardPromise(f, f.promise, pr);
    }

    /** The result `s` waits in promise `p`, forwarded there. */
    ghost predicate Given(p: Promise, s: FutureState, was: map<nat, Record>, queueWas: seq<Task>)
      reads this`results, this`queue, p
    {
      && s.Ready? && s.result in was && p.where == Local && p.local == s && queue == queueWas
      && results == was[s.result := was[s.result].(place := InPromise(p), channel := p.channel)]
    }

    /** Continuation `t` was scheduled with the result `s`, forwarded to it. */
    ghost predicate Taken(t: Task?, s: FutureState, was: map<nat, Record>, queueWas: seq<Task>)
      reads this`results, this`queue, t
    {
      && s.Ready? && s.result in was && t != null && t.state == s && queue == queueWas + [t]
      && results == was[s.result := was[s.result].(place := InContinuation(t), channel := t.channel)]
    }

    /** The result of an available future goes on to `pr`. */
    method ForwardResult(f: Future, pr: Promise)
      requires Valid() && f in futures && pr in promises && Available(f) && Settable(pr)
      modifies this`results, this`holder, this`next, this`queue, f`local, f.promise, pr, pr.task
      ensures Valid() && Settled() && pr.future == old(pr.future) && pr.task == null && next == old(next)[f.channel := pr.channel]
      ensures old(pr.where) == Local ==> Given(pr, old(Seen(f)), old(results), old(queue))
      ensures old(pr.where) == InTask ==> Taken(old(pr.task), old(Seen(f)), old(results), old(queue)) && pr.where == Nowhere
    {
      assert PromiseOk(pr) && FutureOk(f);
      ghost var r;
      var failed, k;
      failed, k, r := TakeState(f);
      PutOn(pr, failed, k, r);
      PutBack(old(results), k, pr.channel, InPromise(pr));
      if old(pr.task) != null {
        PutBack(old(results), k, pr.channel, InContinuation(old(pr.task)));
      }
    }

    /** A result that came to another channel is set on `pr`. */
    method PutOn(pr: Promise, failed: bool, k: nat, ghost r: Record)
      requires Valid() && k !in results && pr in promises && Settable(pr)
      requires r.channel in holder && holder[r.channel] == Reached(k) && Leads(r.origin, r.channel, next)
      modifies this`results, this`holder, this`next, this`queue, pr, pr.task
      ensures Valid() && pr.future == old(pr.future) && pr.task == null && pr.channel == old(pr.channel)
      ensures next == old(next)[r.channel := pr.channel]
      ensures old(pr.where) == Local ==> InPlace(pr, Ready(k, failed), old(results), r.origin, old(queue))
      ensures old(pr.where) == InTask ==>
        RanWith(old(pr.task), Ready(k, failed), old(results), r.origin, old(queue)) && old(pr.task).channel == pr.channel
      ensures old(pr.where) == InTask ==> pr.where == Nowhere
    {
      assert PromiseOk(pr);
      if pr.task != null {
        assert TaskOk(pr.task);
      }
      JoinResult(k, r, pr);
      Put(pr, failed, k, r.origin);
    }

    /** The channel that a result came to goes on to that of `pr`. */
    ghost method JoinResult(k: nat, r: Record, pr: Promise)
      requires Valid() && k !in results && pr in promises && Settable(pr)
      requires r.channel in holder && holder[r.channel] == Reached(k) && Leads(r.origin, r.channel, next)
      modifies this`next
      ensures Valid() && next == old(next)[r.channel := pr.channel] && Leads(r.origin, pr.channel, next)
    {
      assert PromiseOk(pr);
      Further(r.origin, r.channel, next, pr.channel);
      next := next[r.channel := pr.channel];
      StillValid({}, {}, {}, {k});
    }

    /** The waiting future's promise takes over what `pr` is linked to. If results may still be
        set on both, those set on the former now come on the channel of the latter. */
    method ForwardPromise(f: Future, p: Promise, pr: Promise)
      requires Valid() && f in futures && f.promise == p && pr in promises && !p.local.Ready?
      modifies this`promises, this`results, this`holder, this`next, f`promise, p, pr, pr.future, pr.task
      ensures Valid() && Settled() && f.promise == null && promises == old(promises)
      ensures p == pr ==> results == old(results) && next == old(next) && p.future == null && p.task == null
      ensures p != pr ==> p.future == old(pr.future) && p.task == old(pr.task) && p.where == old(pr.where) && Blank(pr)
      ensures results == WithMoved(old(results), old(pr.local), InPromise(p))
      ensures p != pr ==> p.channel == old(pr.channel)
      ensures p != pr && old(Settable(p)) && old(Settable(pr)) ==>
        p.origin == old(p.origin) && next == old(next)[old(p.channel) := old(pr.channel)]
      ensures !(p != pr && old(Settable(p)) && old(Settable(pr))) ==> next == old(next)
    {
      assert FutureOk(f) && PromiseOk(p) && PromiseOk(pr);
      ghost var joins, o, c := Settable(p) && Settable(pr), p.origin, p.channel;
      Detach(f);
      if p == pr {
        return;
      }
      assert PromiseOk(pr);
      EndAlone(p);
      MoveInto(p, pr);
      if joins {
        JoinPromise(p, o, c);
      }
    }

    /** A promise that took over the links of another is set for the one it was, and the channel
        it was set for goes on to the one it has now. */
    ghost method JoinPromise(p: Promise, o: nat, c: nat)
      requires Valid() && p in promises && Settable(p) && c != p.channel
      requires c in holder && holder[c] == Promised(p) && Leads(o, c, next)
      modifies this`next, p`origin
      ensures Valid() && next == old(next)[c := p.channel] && p.origin == o
    {
      assert PromiseOk(p);
      Further(o, c, next, p.channel);
      next := next[c := p.channel];
      p.origin := o;
      if p.future != null {
        assert FutureOk(p.future);
      }
      if p.task != null {
        assert TaskOk(p.task);
      }
      StillValid({p}, {p.future}, {p.task}, {});
    }

    // ----- `then`

    /** A promise in its final place, and its future. */
    method NewPair(ghost channel: nat) returns (next: Future, carried: Promise)
      requires Valid() && channel !in holder
      modifies this`promises, this`futures, this`results, this`holder
      ensures Valid() && results == old(results) && fresh(next) && fresh(carried)
      ensures futures == old(futures) + {next} && carried in promises && old(promises) <= promises
      ensures next.promise == carried && carried.future == next && carried.task == null
      ensures next.channel == carried.origin == carried.channel == channel && carried.where == Local && carried.local == Pending
    {
      var pr := NewPromise(channel);
      next := GetFuture(pr);
      carried := MovePromise(pr);
      assert PromiseOk(carried);
    }

    /** `then`: the continuation carries a new promise, whose future the caller gets. */
    method Then(f: Future, ghost channel: nat) returns (t: Task, next: Future)
      requires Valid() && f in futures && (Available(f) || (f.promise != null && f.promise.local == Pending))
      requires channel !in holder
      modifies this`results, this`queue, this`tasks, this`promises, this`futures, this`holder, f, f.promise
      ensures Valid() && Settled() && fresh(t) && fresh(next) && t.channel == f.channel
      ensures next in futures && next.promise == t.next && t.next in promises && fresh(t.next) && t.next.future == next
      ensures next.channel == t.next.origin == t.next.channel == channel && t.next.where == Local && t.next.local == Pending
      ensures old(Available(f)) ==> t.state == old(Seen(f)) && queue == old(queue) + [t]
      ensures old(Available(f)) ==> results == WithMoved(old(results), old(Seen(f)), InContinuation(t))
      ensures !old(Available(f)) ==> results == old(results) && queue == old(queue)
      ensures !old(Available(f)) ==> f.promise == null && old(f.promise).task == t
    {
      var carried;
      next, carried := NewPair(channel);
      t := Schedule(f, carried);
    }

    /** Result `s` reached what a promise was linked to when the promise ended: its continuation
        `t`, or else its future `f`; without either it is lost. */
    ghost predicate Arrived(s: FutureState, t: Task?, f: Future?)
      reads this`results, t, f
    {
      && s.Ready? && s.result in results && results[s.result].failed == s.failed
      && (t != null ==> t.state == s && results[s.result].place == InContinuation(t))
      && (t == null && f != null ==> f.promise == null && f.local == s && results[s.result].place == InFuture(f))
      && (t == null && f == null ==> results[s.result].place == Dropped)
    }

    /** A failure goes on to the carried promise, which then ends. */
    method FailThen(pr: Promise, failure: nat)
      requires Valid() && pr in promises && Settable(pr) && failure !in results
      modifies this`results, this`holder, this`queue, pr, pr.future, pr.task
      ensures Valid() && Arrived(Ready(failure, true), old(pr.task), old(pr.future)) && old(results).Keys <= results.Keys
      ensures forall k :: k in old(results) && old(results)[k].place.Delivered? ==> results[k] == old(results)[k]
    {
      assert PromiseOk(pr);
      SetResult(pr, true, failure);
      assert pr in promises && PromiseOk(pr);
      EndPromise(pr);
    }

    /** The future that the function returned is forwarded to the carried promise, which then
        ends. */
    method PassThen(g: Future, pr: Promise)
      requires Valid() && g in futures && pr in promises && Settable(pr) && (Available(g) || g.promise != null)
      modifies this`promises, this`results, this`holder, this`next, this`queue, g, g.promise, pr, pr.future, pr.task
      ensures Valid() && Settled()
      ensures old(Available(g)) ==> Arrived(old(Seen(g)), old(pr.task), old(pr.future))
      ensures !old(Available(g)) && old(g.promise) != pr ==>
        old(g.promise).task == old(pr.task) && old(g.promise).future == old(pr.future)
    {
      if Available(g) {
        PassResult(g, pr);
        return;
      }
      PassLinks(g, g.promise, pr);
    }

    method PassResult(g: Future, pr: Promise)
      requires Valid() && g in futures && pr in promises && Settable(pr) && Available(g)
      modifies this`promises, this`results, this`holder, this`next, this`queue, g, g.promise, pr, pr.future, pr.task
      ensures Valid() && Settled() && Arrived(old(Seen(g)), old(pr.task), old(pr.future))
    {
      assert PromiseOk(pr);
      if pr.where == InTask {
        PassToTask(g, pr);
        return;
      }
      ForwardResult(g, pr);
      EndPromise(pr);
    }

    method PassToTask(g: Future, pr: Promise)
      requires Valid() && g in futures && pr in promises && Available(g) && pr.where == InTask
      modifies this`results, this`holder, this`next, this`queue, g`local, g.promise, pr, pr.task
      ensures Valid() && Settled() && Arrived(old(Seen(g)), old(pr.task), null)
    {
      assert PromiseOk(pr);
      ForwardResult(g, pr);
      assert pr in promises && PromiseOk(pr);
      EndPromise(pr);
    }

    method PassLinks(g: Future, p: Promise, pr: Promise)
      requires Valid() && g in futures && pr in promises && g.promise == p && !Available(g)
      modifies this`promises, this`results, this`holder, this`next, this`queue, g, p, pr, pr.future, pr.task
      ensures Valid() && Settled() && (p != pr ==> p.task == old(pr.task) && p.future == old(pr.future))
    {
      ForwardTo(g, pr);
      EndPromise(pr);
    }

    /** The continuation of `then` at the head of the queue: a failure goes on to the carried
        promise as result `failure`, and otherwise the function is called, and the future `g`
        it returns is forwarded to the promise. In the end the promise goes with the
        continuation. */
    method RunThen(g: Future, failure: nat) returns (t: Task)
      requires Valid() && queue != [] && queue[0].next != null && Settable(queue[0].next)
      requires failure !in results && g in futures && (Available(g) || g.promise != null)
      modifies this, g, g.promise, queue[0].next, queue[0].next.future, queue[0].next.task
      ensures Valid() && t == old(queue)[0] && t.state.Ready? && t.state == old(queue[0].state)
      ensures t.state.result in results && results[t.state.result].place == Delivered(t.channel, t.state.failed)
      ensures t.state.failed ==> Arrived(Ready(failure, true), old(t.next.task), old(t.next.future))
      ensures !t.state.failed && old(Available(g)) ==> Arrived(old(Seen(g)), old(t.next.task), old(t.next.future))
      ensures !t.state.failed && !old(Available(g)) && old(g.promise) != t.next ==>
        old(g.promise).task == old(t.next.task) && old(g.promise).future == old(t.next.future)
    {
      t := RunTask();
      var pr := t.next;
      if t.state.failed {
        FailThen(pr, failure);
        return;
      }
      PassThen(g, pr);
    }

    // ----- what holds of every result

    ghost predicate Holds(p: Promise, k: nat)
      reads p
    {
      Has(p.local, k)
    }

    /** A result is held by one promise, future or continuation at most, as the value or the
        exception it was set to, and by none once it was delivered or dropped. */
    lemma HeldOnce(k: nat)
      requires Valid() && k in results
      ensures forall p {:trigger Holds(p, k)} :: p in promises && Holds(p, k) ==>
        results[k].place == InPromise(p) && p.local == Ready(k, results[k].failed)
      ensures forall f :: f in futures && Has(f.local, k) ==>
        results[k].place == InFuture(f) && f.local == Ready(k, results[k].failed)
      ensures forall t :: t in tasks && Has(t.state, k) ==>
        results[k].place == InContinuation(t) && t.state == Ready(k, results[k].failed)
    {
      forall p {:trigger Holds(p, k)} | p in promises && Holds(p, k)
        ensures results[k].place == InPromise(p) && p.local == Ready(k, results[k].failed)
      {
        assert PromiseOk(p);
      }
      forall f | f in futures && Has(f.local, k)
        ensures results[k].place == InFuture(f) && f.local == Ready(k, results[k].failed)
      {
        assert FutureOk(f);
      }
      forall t | t in tasks && Has(t.state, k)
        ensures results[k].place == InContinuation(t) && t.state == Ready(k, results[k].failed)
      {
        assert TaskOk(t);
      }
    }

    /** A delivered result was delivered as what it was set to, on the one channel that the
        forwards from its origin lead to; no other result came to that channel, and none can be set
        there. */
    lemma DeliveredOnce(k: nat)
      requires Valid() && k in results && results[k].place.Delivered?
      ensures var r := results[k];
        && r.place == Delivered(r.channel, r.failed) && Leads(r.origin, r.channel, next)
        && forall c :: Leads(r.origin, c, next) ==> c == r.channel
      ensures forall j :: j in results && results[j].channel == results[k].channel ==> j == k
      ensures forall p :: p in promises && Settable(p) ==> p.channel != results[k].channel
    {
      assert ResultOk(k);
      var r := results[k];
      forall c | Leads(r.origin, c, next)
        ensures c == r.channel
      {
        OneEnd(r.origin, c, r.channel, next);
      }
      forall j | j in results && results[j].channel == r.channel
        ensures j == k
      {
        assert ResultOk(j);
      }
      forall p | p in promises && Settable(p)
        ensures p.channel != r.channel
      {
        assert PromiseOk(p);
      }
    }

    /** Links are symmetric: a promise names a future exactly when that future names it. */
    lemma LinksSymmetric(p: Promise, f: Future)
      requires Valid() && p in promises && f in futures
      ensures p.future == f <==> f.promise == p
    {
      assert PromiseOk(p) && FutureOk(f);
    }
  }
}
