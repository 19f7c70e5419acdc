/** The single-producer single-consumer ring: a method at a time, and as the loads and stores
    of a producer and a consumer that interleave. */
module SpscQueues {

  function NextIndex(current: nat, capacity: nat): (r: nat)
    requires capacity > 0
    ensures current < capacity ==> r == if current + 1 == capacity then 0 else current + 1
  {
    (current + 1) % capacity
  }

  /** How many slots are filled when the oldest is at `head` and the next free one at `tail`. */
  function Filled(head: nat, tail: nat, capacity: nat): (r: nat)
    requires head < capacity && tail < capacity
    ensures r < capacity
    ensures r == 0 <==> head == tail
    ensures r == capacity - 1 <==> NextIndex(tail, capacity) == head
  {
    if tail >= head then tail - head else tail + capacity - head
  }

  /** The slot `i` places after `head`. */
  function Slot(head: nat, i: nat, capacity: nat): nat
    requires head < capacity && i < capacity
  {
    if head + i < capacity then head + i else head + i - capacity
  }

  /** The items of the ring, oldest first. */
  ghost function Window<T>(buf: seq<T>, head: nat, tail: nat): (r: seq<T>)
    requires head < |buf| && tail < |buf|
    ensures |r| == Filled(head, tail, |buf|)
  {
    seq(Filled(head, tail, |buf|), i requires 0 <= i < |buf| => buf[Slot(head, i, |buf|)])
  }

  /** Filling the slot at `tail` and moving `tail` on appends. */
  lemma WindowPush<T>(buf: seq<T>, head: nat, tail: nat, x: T)
    requires head < |buf| && tail < |buf| && NextIndex(tail, |buf|) != head
    ensures Window(buf[tail := x], head, NextIndex(tail, |buf|)) == Window(buf, head, tail) + [x]
  {
    var n, next := |buf|, NextIndex(tail, |buf|);
    var k := Filled(head, tail, n);
    assert Filled(head, next, n) == k + 1;
    var old', new' := Window(buf, head, tail), Window(buf[tail := x], head, next);
    forall i | 0 <= i <= k
      ensures new'[i] == (old' + [x])[i]
    {
      assert Slot(head, i, n) == tail <==> i == k;
    }
  }

  /** Writing the free slot at `tail` changes no item. */
  lemma WindowFree<T>(buf: seq<T>, head: nat, tail: nat, x: T)
    requires head < |buf| && tail < |buf|
    ensures Window(buf[tail := x], head, tail) == Window(buf, head, tail)
  {
  }

  /** Moving `head` on drops the oldest item. */
  lemma WindowPop<T>(buf: seq<T>, head: nat, tail: nat)
    requires head < |buf| && tail < |buf| && head != tail
    ensures Window(buf, head, tail)[0] == buf[head]
    ensures Window(buf, NextIndex(head, |buf|), tail) == Window(buf, head, tail)[1..]
  {
    var n, next := |buf|, NextIndex(head, |buf|);
    var k := Filled(head, tail, n);
    assert Filled(next, tail, n) == k - 1;
    var old', new' := Window(buf, head, tail), Window(buf, next, tail);
    forall i | 0 <= i < k - 1
      ensures new'[i] == old'[i + 1]
    {
      assert Slot(next, i, n) == Slot(head, i + 1, n);
    }
  }

  lemma AppendNext<T>(front: seq<T>, items: seq<T>, n: nat)
    requires n < |items|
    ensures (front + items[..n]) + [items[n]] == front + items[..n + 1]
  {
    assert items[..n + 1] == items[..n] + [items[n]];
  }

  class SpscQueue<T(0)> {
    const buffer: array<T>
    var head: nat
    var tail: nat

    ghost predicate Valid()
      reads this
    {
      head < buffer.Length && tail < buffer.Length
    }

    ghost function Content(): seq<T>
      requires Valid()
      reads this, buffer
    {
      Window(buffer[..], head, tail)
    }

    constructor (capacity: nat)
      requires capacity > 0
      ensures Valid() && Content() == [] && buffer.Length == capacity && fresh(buffer)
    {
      buffer := new T[capacity];
      head, tail := 0, 0;
    }

    predicate Empty()
      requires Valid()
      reads this, buffer
      ensures Empty() <==> Content() == []
    {
      head == tail
    }

    /** One slot always stays free. */
    predicate Full()
      requires Valid()
      reads this, buffer
      ensures Full() <==> |Content()| == buffer.Length - 1
    {
      NextIndex(tail, buffer.Length) == head
    }

    method Push(item: T) returns (ok: bool)
      requires Valid()
      modifies this`tail, buffer
      ensures Valid() && ok == (|old(Content())| < buffer.Length - 1)
      ensures Content() == if ok then old(Content()) + [item] else old(Content())
    {
      var nextTail := NextIndex(tail, buffer.Length);
      if nextTail == head {
        return false;
      }
      WindowPush(buffer[..], head, tail, item);
      ghost var b := buffer[..];
      buffer[tail] := item;
      assert buffer[..] == b[tail := item];
      tail := nextTail;
      return true;
    }

    /** Pushes items from the front of a sequence until one does not fit. */
    method PushAll(items: seq<T>) returns (n: nat)
      requires Valid()
      modifies this`tail, buffer
      ensures Valid() && n <= |items| && Content() == old(Content()) + items[..n]
      ensures n < |items| ==> |Content()| == buffer.Length - 1
    {
      n := 0;
      while n < |items|
        invariant Valid() && n <= |items| && Content() == old(Content()) + items[..n]
      {
        var ok := Push(items[n]);
        if !ok {
          break;
        }
        AppendNext(old(Content()), items, n);
        n := n + 1;
      }
    }

    method Pop(item: T) returns (ok: bool, r: T)
      requires Valid()
      modifies this`head
      ensures Valid() && ok == (old(Content()) != [])
      ensures if ok then [r] + Content() == old(Content()) else r == item && Content() == old(Content())
    {
      if head == tail {
        return false, item;
      }
      WindowPop(buffer[..], head, tail);
      ok, r := true, buffer[head];
      head := NextIndex(head, buffer.Length);
    }

    /** Pops up to `max` items. */
    method PopMany(max: nat) returns (items: seq<T>)
      requires Valid()
      modifies this`head
      ensures Valid() && items + Content() == old(Content())
      ensures |items| == if |old(Content())| < max then |old(Content())| else max
    {
      items := [];
      while |items| < max && head != tail
        invariant Valid() && items + Content() == old(Content()) && |items| <= max
        decreases max - |items|
      {
        ghost var before := Content();
        var ok, x := Pop(buffer[head]);
        assert items + before == (items + [x]) + Content();
        items := items + [x];
      }
    }
  }

  // ----- producer and consumer interleaved

  /** The producer's place in `push`: before it, after it found room, and after it stored the
      item in its slot. */
  datatype Producer<T> = Outside | Room(item: T) | Stored(item: T)

  /** The consumer's place in `pop`: before it, after it found an item, and after it read it. */
  datatype Consumer<T> = Away | Some | Read(item: T)

  /** `head` and `tail` are shared; `pushed` and `popped` record what the calls that returned
      true took in and gave out. */
  datatype Ring<T> = Ring(
    buffer: seq<T>, head: nat, tail: nat,
    producer: Producer<T>, consumer: Consumer<T>,
    pushed: seq<T>, popped: seq<T>)

  ghost predicate Init<T>(r: Ring<T>) {
    && |r.buffer| > 0 && r.head == 0 && r.tail == 0
    && r.producer == Outside && r.consumer == Away && r.pushed == [] && r.popped == []
  }

  datatype Action<T> = CheckRoom(item: T) | Store | PublishTail | CheckItem | Load | PublishHead

  /** One atomic load or store. A check that fails returns false from the call. */
  ghost predicate Step<T(!new)>(r: Ring<T>, s: Ring<T>, a: Action<T>)
    requires r.head < |r.buffer| && r.tail < |r.buffer|
  {
    match a
    case CheckRoom(item) =>
      r.producer == Outside
      && s == if NextIndex(r.tail, |r.buffer|) == r.head then r else r.(producer := Room(item))
    case Store =>
      r.producer.Room? && s == r.(buffer := r.buffer[r.tail := r.producer.item], producer := Stored(r.producer.item))
    case PublishTail =>
      r.producer.Stored?
      && s == r.(tail := NextIndex(r.tail, |r.buffer|), producer := Outside, pushed := r.pushed + [r.producer.item])
    case CheckItem =>
      r.consumer == Away && s == if r.head == r.tail then r else r.(consumer := Some)
    case Load =>
      r.consumer == Some && s == r.(consumer := Read(r.buffer[r.head]))
    case PublishHead =>
      r.consumer.Read?
      && s == r.(head := NextIndex(r.head, |r.buffer|), consumer := Away, popped := r.popped + [r.consumer.item])
  }

  /** What was pushed is what was popped followed by what the ring holds, in order; a producer
      past its check still has room, a consumer past its check still has the item it saw. */
  ghost predicate RingOk<T>(r: Ring<T>) {
    && r.head < |r.buffer| && r.tail < |r.buffer|
    && r.pushed == r.popped + Window(r.buffer, r.head, r.tail)
    && (r.producer != Outside ==> NextIndex(r.tail, |r.buffer|) != r.head)
    && (r.producer.Stored? ==> r.buffer[r.tail] == r.producer.item)
    && (r.consumer != Away ==> r.head != r.tail)
    && (r.consumer.Read? ==> r.consumer.item == r.buffer[r.head])
  }

  lemma StepKeepsRing<T(!new)>(r: Ring<T>, s: Ring<T>, a: Action<T>)
    requires RingOk(r) && Step(r, s, a)
    ensures RingOk(s) && |s.buffer| == |r.buffer|
  {
    match a
    case CheckRoom(_) =>
    case Store =>
      WindowFree(r.buffer, r.head, r.tail, r.producer.item);
    case PublishTail =>
      WindowPush(r.buffer, r.head, r.tail, r.producer.item);
      assert r.buffer[r.tail := r.producer.item] == r.buffer;
    case CheckItem =>
    case Load =>
    case PublishHead =>
      WindowPop(r.buffer, r.head, r.tail);
      assert r.popped + Window(r.buffer, r.head, r.tail)
          == (r.popped + [r.consumer.item]) + Window(s.buffer, s.head, s.tail);
  }

  ghost function Items<T>(r: Ring<T>): seq<T>
    requires r.head < |r.buffer| && r.tail < |r.buffer|
  {
    Window(r.buffer, r.head, r.tail)
  }

  /** What one load or store is to those who see the items of the ring only: publishing
      `tail` is the push, publishing `head` is the pop, and all else changes nothing; a check
      fails exactly when the ring is full or empty. */
  lemma StepOnItems<T(!new)>(r: Ring<T>, s: Ring<T>, a: Action<T>)
    requires RingOk(r) && Step(r, s, a)
    ensures RingOk(s) && |s.buffer| == |r.buffer|
    ensures a == PublishTail ==> |Items(r)| < |r.buffer| - 1 && Items(s) == Items(r) + [r.producer.item]
    ensures a == PublishHead ==> Items(r) == [r.consumer.item] + Items(s)
    ensures a != PublishTail && a != PublishHead ==> Items(s) == Items(r)
    ensures a.CheckRoom? ==> (s.producer == Outside <==> |Items(r)| == |r.buffer| - 1)
    ensures a.CheckItem? ==> (s.consumer == Away <==> Items(r) == [])
  {
    StepKeepsRing(r, s, a);
    if a == Store {
      WindowFree(r.buffer, r.head, r.tail, r.producer.item);
    } else if a == PublishTail {
      WindowPush(r.buffer, r.head, r.tail, r.producer.item);
      assert r.buffer[r.tail := r.producer.item] == r.buffer;
    } else if a == PublishHead {
      WindowPop(r.buffer, r.head, r.tail);
    }
  }

  ghost predicate StepAt<T(!new)>(run: seq<Ring<T>>, acts: seq<Action<T>>, i: nat)
    requires i < |acts| && |run| == |acts| + 1
  {
    run[i].head < |run[i].buffer| && run[i].tail < |run[i].buffer| && Step(run[i], run[i + 1], acts[i])
  }

  ghost predicate IsRun<T(!new)>(run: seq<Ring<T>>, acts: seq<Action<T>>) {
    |run| == |acts| + 1 && Init(run[0]) && forall i :: 0 <= i < |acts| ==> StepAt(run, acts, i)
  }

  /** In every interleaving the consumer gets what the producer pushed, in order and once
      each, and at most all slots but one are ever filled. */
  lemma {:induction false} FifoInEveryRun<T(!new)>(run: seq<Ring<T>>, acts: seq<Action<T>>, i: nat)
    requires IsRun(run, acts) && i < |run|
    ensures RingOk(run[i]) && run[i].popped <= run[i].pushed
    ensures |run[i].pushed| - |run[i].popped| < |run[0].buffer| == |run[i].buffer|
  {
    if i > 0 {
      FifoInEveryRun(run, acts, i - 1);
      assert StepAt(run, acts, i - 1);
      StepKeepsRing(run[i - 1], run[i], acts[i - 1]);
    }
  }
}
