/** The timer set: pending timers in 64 buckets by the leading zeros of `timestamp ^ last`,
    with a bitmap of the buckets that are not empty. */
module TimerSets {
  import opened Bits
  import opened Utils

  const TIMESTAMP_BITS: nat := 63
  const N_BUCKETS: nat := 64
  const FALLBACK: nat := N_BUCKETS - 1
  const MAX_TIMESTAMP: int := 0x7fff_ffff_ffff_ffff

  predicate IsTimestamp(ts: int) {
    -MAX_TIMESTAMP - 1 <= ts <= MAX_TIMESTAMP
  }

  datatype Timer = Timer(id: nat, timeout: int)

  // ----- where two timestamps first differ

  ghost predicate SameAbove(a: nat, b: nat, k: nat) {
    a / Pow2(k) == b / Pow2(k)
  }

  lemma HalfThenDivide(a: nat, p: nat)
    requires p > 0
    ensures a / (2 * p) == (a / 2) / p
  {
    var q, r := a / (2 * p), a % (2 * p);
    assert a == q * (2 * p) + r;
    assert q * (2 * p) == 2 * (q * p);
    DivModUnique(a / 2, p, q, r / 2);
  }

  /** Numbers agree from bit `k` up exactly when their exclusive or is below `2^k`. */
  lemma {:induction false} XorLevel(a: nat, b: nat, k: nat)
    ensures Xor(a, b) < Pow2(k) <==> SameAbove(a, b, k)
    decreases k
  {
    if k > 0 {
      XorLevel(a / 2, b / 2, k - 1);
      HalfThenDivide(a, Pow2(k - 1));
      HalfThenDivide(b, Pow2(k - 1));
    }
  }

  /** The highest bit in which two numbers differ. */
  lemma TopBit(a: nat, b: nat, m: nat)
    requires a != b
    ensures Log2(Xor(a, b)) == m <==> SameAbove(a, b, m + 1) && !SameAbove(a, b, m)
    ensures Log2(Xor(a, b)) < m <==> SameAbove(a, b, m)
  {
    var x := Xor(a, b);
    XorLevel(a, b, m);
    XorLevel(a, b, m + 1);
    if Pow2(m) <= x < Pow2(m + 1) {
      Log2Unique(x, m);
    }
    if Log2(x) < m {
      Pow2Monotonic(Log2(x) + 1, m);
    } else {
      Pow2Monotonic(m, Log2(x));
    }
  }

  lemma DivideMonotonic(a: nat, b: nat, p: nat)
    requires a <= b && p > 0
    ensures a / p <= b / p
  {
    if a / p > b / p {
      MultiplesApart(b / p, a / p, p);
    }
  }

  /** Of two later timestamps the one that differs from `last` in a lower bit is earlier. */
  lemma LowerBitEarlier(last: nat, a: nat, b: nat)
    requires last < a && last < b && Log2(Xor(a, last)) < Log2(Xor(b, last))
    ensures a < b
  {
    var m := Log2(Xor(b, last));
    TopBit(a, last, m);
    TopBit(b, last, m);
    if b <= a {
      DivideMonotonic(last, b, Pow2(m));
      DivideMonotonic(b, a, Pow2(m));
    }
  }

  /** Moving `last` to a timestamp that differs from it in a lower bit only keeps the bit. */
  lemma HigherBitKept(last: nat, now: nat, ts: nat)
    requires last < now && last < ts && Log2(Xor(now, last)) < Log2(Xor(ts, last))
    ensures ts > now && Log2(Xor(ts, now)) == Log2(Xor(ts, last))
  {
    var m := Log2(Xor(ts, last));
    LowerBitEarlier(last, now, ts);
    TopBit(ts, last, m);
    TopBit(now, last, m);
    TopBit(now, last, m + 1);
    TopBit(ts, now, m);
  }

  /** Two later timestamps that first differ from `last` in the same bit differ from each
      other in a lower one. */
  lemma SameBitLower(last: nat, now: nat, ts: nat)
    requires last < now && last < ts && now != ts && Log2(Xor(now, last)) == Log2(Xor(ts, last))
    ensures Log2(Xor(ts, now)) < Log2(Xor(ts, last))
  {
    var m := Log2(Xor(ts, last));
    var p := Pow2(m);
    TopBit(ts, last, m);
    TopBit(now, last, m);
    DivideMonotonic(last, ts, p);
    DivideMonotonic(last, now, p);
    DivideHalf(ts, p);
    DivideHalf(now, p);
    DivideHalf(last, p);
    TopBit(ts, now, m);
  }

  lemma DivideHalf(a: nat, p: nat)
    requires p > 0
    ensures a / (2 * p) == (a / p) / 2
  {
    var q, r := a / p, a % p;
    var h, c := q / 2, q % 2;
    Recombine(h, c, p);
    assert c * p + r < 2 * p by {
      assert c == 0 || c == 1;
    }
    DivModUnique(a, 2 * p, h, c * p + r);
  }

  lemma Recombine(h: nat, c: nat, p: nat)
    requires c <= 1
    ensures (2 * h + c) * p == h * (2 * p) + c * p && c * p <= p
  {
  }

  // ----- buckets

  lemma XorWord(ts: int, last: nat)
    requires last < ts <= MAX_TIMESTAMP
    ensures 0 < Xor(ts, last) < Pow2(TIMESTAMP_BITS) && Log2(Xor(ts, last)) < TIMESTAMP_BITS
    ensures Pow2(TIMESTAMP_BITS) < Pow2(64)
  {
    Pow2Words();
    assert Pow2(64) == 2 * Pow2(63);
    XorBound(ts, last, TIMESTAMP_BITS);
    if Log2(Xor(ts, last)) >= TIMESTAMP_BITS {
      Pow2Monotonic(TIMESTAMP_BITS, Log2(Xor(ts, last)));
    }
  }

  /** The bucket of a timestamp: the last one when it is not after `last`, and otherwise the
      number of leading zeros of the exclusive or, not counting the sign bit. */
  function Index(last: nat, ts: int): (r: nat)
    requires ts <= MAX_TIMESTAMP
    ensures r < N_BUCKETS && (r == FALLBACK <==> ts <= last)
    ensures ts > last ==> Log2(Xor(ts, last)) == FALLBACK - 1 - r
  {
    if ts <= last then FALLBACK
    else
      XorWord(ts, last);
      CountLeadingZeros(Xor(ts, last), 64) - 1
  }

  /** A timestamp in a higher bucket, other than the fallback, is earlier. */
  lemma HigherBucketEarlier(last: nat, a: int, b: int)
    requires a <= MAX_TIMESTAMP && b <= MAX_TIMESTAMP
    requires Index(last, b) < Index(last, a)
    ensures a < b
  {
    if Index(last, a) < FALLBACK {
      LowerBitEarlier(last, a, b);
    }
  }

  /** Time moving on to `now` leaves the timestamps in the buckets below that of `now` where
      they are; those above it have expired; those in it have expired or move up. */
  lemma IndexMoves(last: nat, now: nat, ts: int)
    requires last <= now <= MAX_TIMESTAMP && ts <= MAX_TIMESTAMP
    ensures Index(last, ts) < Index(last, now) ==> ts > now && Index(now, ts) == Index(last, ts)
    ensures Index(last, ts) > Index(last, now) ==> ts <= now
    ensures Index(last, ts) == Index(last, now) && ts > now ==> Index(now, ts) > Index(last, now)
  {
    if last < now && last < ts {
      if Index(last, ts) < Index(last, now) {
        HigherBitKept(last, now, ts);
      } else if Index(last, ts) > Index(last, now) {
        HigherBucketEarlier(last, ts, now);
      } else if ts != now {
        SameBitLower(last, now, ts);
      }
    }
  }

  // ----- what the buckets hold

  /** The timers of all buckets. */
  ghost function All(b: seq<seq<Timer>>): multiset<Timer> {
    if b == [] then multiset{} else All(b[..|b| - 1]) + multiset(b[|b| - 1])
  }

  lemma AddBoth(a: multiset<Timer>, x: multiset<Timer>, b: multiset<Timer>, y: multiset<Timer>, m: multiset<Timer>)
    requires a + x == b + y
    ensures (a + m) + x == (b + m) + y
  {
    assert (a + m) + x == (a + x) + m && (b + m) + y == (b + y) + m;
  }

  lemma {:induction false} AllUpdate(b: seq<seq<Timer>>, i: nat, l: seq<Timer>)
    requires i < |b|
    ensures All(b[i := l]) + multiset(b[i]) == All(b) + multiset(l)
  {
    var n, c := |b| - 1, b[i := l];
    assert All(c) == All(c[..n]) + multiset(c[n]);
    if i < n {
      AllUpdate(b[..n], i, l);
      assert c[..n] == b[..n][i := l];
      assert b[..n][i] == b[i];
      AddBoth(All(b[..n][i := l]), multiset(b[i]), All(b[..n]), multiset(l), multiset(b[n]));
    } else {
      assert c[..n] == b[..n];
    }
  }

  lemma {:induction false} AllMembers(b: seq<seq<Timer>>, t: Timer)
    ensures t in All(b) <==> exists i :: 0 <= i < |b| && t in b[i]
  {
    if b != [] {
      var n := |b| - 1;
      AllMembers(b[..n], t);
      if t in All(b[..n]) {
        var i :| 0 <= i < |b[..n]| && t in b[..n][i];
        assert t in b[i];
      } else if t in b[n] {
        assert t in All(b);
      } else {
        forall i | 0 <= i < |b|
          ensures t !in b[i]
        {
          assert i < n ==> b[..n][i] == b[i];
        }
      }
    }
  }

  lemma {:induction false} AllSize(b: seq<seq<Timer>>)
    ensures |All(b)| == 0 <==> forall i :: 0 <= i < |b| ==> b[i] == []
  {
    if b != [] {
      var n := |b| - 1;
      AllSize(b[..n]);
      assert |multiset(b[n])| == |b[n]|;
      assert forall i :: 0 <= i < n ==> b[..n][i] == b[i];
    }
  }

  /** Every timer of bucket `i` belongs there as `last` now is. */
  ghost predicate BucketOk(b: seq<seq<Timer>>, last: nat, i: nat)
    requires i < |b|
  {
    forall t :: t in b[i] ==> IsTimestamp(t.timeout) && Index(last, t.timeout) == i
  }

  /** All buckets but `but` hold what they should, and the bitmap says which are not empty. */
  ghost predicate BucketsOk(b: seq<seq<Timer>>, bits: seq<bool>, last: nat, but: nat) {
    && |b| == |bits| == N_BUCKETS && last <= MAX_TIMESTAMP
    && (forall i {:trigger BucketOk(b, last, i)} :: 0 <= i < N_BUCKETS && i != but ==> BucketOk(b, last, i))
    && (forall i :: 0 <= i < N_BUCKETS && i != but ==> (bits[i] <==> b[i] != []))
  }

  /** Bucket `i` now holds `l`. */
  lemma BucketChanged(b: seq<seq<Timer>>, bits: seq<bool>, last: nat, but: nat, i: nat, l: seq<Timer>)
    requires BucketsOk(b, bits, last, but) && i < N_BUCKETS && i != but
    requires forall t :: t in l ==> IsTimestamp(t.timeout) && Index(last, t.timeout) == i
    ensures BucketsOk(b[i := l], bits[i := l != []], last, but)
    ensures All(b[i := l]) + multiset(b[i]) == All(b) + multiset(l)
  {
    AllUpdate(b, i, l);
    forall j {:trigger BucketOk(b[i := l], last, j)} | 0 <= j < N_BUCKETS && j != but
      ensures BucketOk(b[i := l], last, j)
    {
      assert BucketOk(b, last, j);
    }
  }

  /** The bucket computed for a pending timer is one that holds it. */
  lemma FoundInBucket(b: seq<seq<Timer>>, bits: seq<bool>, last: nat, t: Timer)
    requires BucketsOk(b, bits, last, N_BUCKETS) && t in All(b)
    ensures IsTimestamp(t.timeout) && t in b[Index(last, t.timeout)]
  {
    AllMembers(b, t);
    var i :| 0 <= i < |b| && t in b[i];
    assert BucketOk(b, last, i);
  }

  /** `next` is not after any pending timer. */
  ghost predicate BoundsBelow(next: int, all: multiset<Timer>) {
    forall t :: t in all ==> next <= t.timeout
  }

  // ----- the bitmap and the iteration over its set bits

  predicate None(bits: seq<bool>) {
    forall i :: 0 <= i < |bits| ==> !bits[i]
  }

  /** `bitset >>= k`: the word keeps its width. */
  function ShiftRight(bits: seq<bool>, k: nat): (r: seq<bool>)
    ensures |r| == |bits|
    ensures forall i :: 0 <= i < |bits| ==> r[i] == (i + k < |bits| && bits[i + k])
  {
    seq(|bits|, i requires 0 <= i => i + k < |bits| && bits[i + k])
  }

  /** The position of the lowest set bit. */
  function FirstSet(bits: seq<bool>): (r: nat)
    requires !None(bits)
    ensures r < |bits| && bits[r] && forall i :: 0 <= i < r ==> !bits[i]
  {
    if bits[0] then 0
    else
      assert forall i :: 0 <= i < |bits| - 1 ==> bits[1..][i] == bits[i + 1];
      assert !None(bits[1..]) by {
        var i :| 0 <= i < |bits| && bits[i];
        assert bits[1..][i - 1];
      }
      1 + FirstSet(bits[1..])
  }

  /** The position of the highest set bit. */
  function LastSet(bits: seq<bool>): (r: nat)
    requires !None(bits)
    ensures r < |bits| && bits[r] && forall i :: r < i < |bits| ==> !bits[i]
  {
    if bits[|bits| - 1] then |bits| - 1 else LastSet(bits[..|bits| - 1])
  }

  class SetIterator {
    var bits: seq<bool>
    var index: int
    // the bitmap being iterated over, and the positions passed so far
    ghost var word: seq<bool>
    ghost var from: nat

    /** Either at a set bit, with no set bit between `from` and it, or past the last one. */
    ghost predicate Valid()
      reads this
    {
      && |bits| == |word|
      && (if index < 0 then
            index == -1 && forall i :: from <= i < |word| ==> !word[i]
          else
            from <= index < |word| && word[index] && (forall i :: from <= i < index ==> !word[i])
            && forall j :: 0 <= j < |bits| ==> bits[j] == (index + 1 + j < |word| && word[index + 1 + j]))
    }

    constructor (bitset: seq<bool>, offset: nat)
      ensures Valid() && word == bitset && from == offset
    {
      bits := ShiftRight(bitset, offset);
      index := offset - 1;
      word, from := bitset, offset;
      new;
      Advance();
    }

    method Advance()
      requires |bits| == |word| && index >= -1
      requires forall j :: 0 <= j < |bits| ==> bits[j] == (index + 1 + j < |word| && word[index + 1 + j])
      modifies this
      ensures Valid() && word == old(word) && from == old(index) + 1
    {
      from := index + 1;
      if None(bits) {
        forall i | from <= i < |word|
          ensures !word[i]
        {
          assert bits[i - from] == word[i];
        }
        index := -1;
      } else {
        var shift := FirstSet(bits) + 1;
        forall i | from <= i < index + shift
          ensures !word[i]
        {
          assert bits[i - from] == word[i];
        }
        index := index + shift;
        bits := ShiftRight(bits, shift);
      }
    }
  }

  // ----- the timer set

  /** The first occurrence of `t` is dropped. */
  function Erase(l: seq<Timer>, t: Timer): (r: seq<Timer>)
    requires t in l
    ensures multiset(r) + multiset{t} == multiset(l)
    ensures forall x :: x in r ==> x in l
  {
    if l[0] == t then
      assert l == [t] + l[1..];
      l[1..]
    else
      assert l == [l[0]] + l[1..];
      [l[0]] + Erase(l[1..], t)
  }

  lemma AddedOne(a: multiset<Timer>, b: multiset<Timer>, l: seq<Timer>, t: Timer, next: int)
    requires b + multiset(l) == a + multiset(l + [t])
    ensures b == a + multiset{t}
    ensures BoundsBelow(next, a) ==> BoundsBelow(Min(next, t.timeout), b)
  {
    assert multiset(l + [t]) == multiset(l) + multiset{t};
    assert b + multiset(l) == (a + multiset{t}) + multiset(l);
    SameRest(b, a + multiset{t}, multiset(l));
  }

  lemma SameRest(a: multiset<Timer>, b: multiset<Timer>, m: multiset<Timer>)
    requires a + m == b + m
    ensures a == b
  {
    assert a == (a + m) - m && b == (b + m) - m;
  }

  lemma RemovedOne(a: multiset<Timer>, b: multiset<Timer>, l: seq<Timer>, r: seq<Timer>, t: Timer, next: int)
    requires b + multiset(l) == a + multiset(r) && multiset(r) + multiset{t} == multiset(l)
    ensures b == a - multiset{t}
    ensures BoundsBelow(next, a) ==> BoundsBelow(next, b)
  {
    assert b + multiset(l) == (b + multiset{t}) + multiset(r);
    SameRest(b + multiset{t}, a, multiset(r));
    assert b == (b + multiset{t}) - multiset{t};
  }

  /** A pending timer leaves the bucket that is computed for it, and nothing else changes. */
  lemma RemoveEffect(b: seq<seq<Timer>>, bits: seq<bool>, last: nat, t: Timer, next: int)
    requires BucketsOk(b, bits, last, N_BUCKETS) && t in All(b) && BoundsBelow(next, All(b))
    ensures t.timeout <= MAX_TIMESTAMP && Index(last, t.timeout) < N_BUCKETS && t in b[Index(last, t.timeout)]
    ensures var i := Index(last, t.timeout); var l := Erase(b[i], t);
      && BucketsOk(b[i := l], bits[i := l != []], last, N_BUCKETS) && All(b[i := l]) == All(b) - multiset{t}
      && BoundsBelow(next, All(b[i := l])) && (l != [] ==> bits[i := true] == bits)
  {
    FoundInBucket(b, bits, last, t);
    var i := Index(last, t.timeout);
    var l := Erase(b[i], t);
    assert BucketOk(b, last, i);
    BucketChanged(b, bits, last, N_BUCKETS, i, l);
    RemovedOne(All(b), All(b[i := l]), b[i], l, t, next);
  }

  class TimerSet {
    const buckets: array<seq<Timer>>
    var last: nat
    var next: int
    var nonEmpty: seq<bool>

    /** The pending timers. */
    ghost function Pending(): multiset<Timer>
      reads this, buckets
    {
      All(buckets[..])
    }

    ghost predicate ValidBut(but: nat)
      reads this, buckets
    {
      BucketsOk(buckets[..], nonEmpty, last, but) && next <= MAX_TIMESTAMP
    }

    ghost predicate Valid()
      reads this, buckets
    {
      ValidBut(N_BUCKETS) && BoundsBelow(next, Pending())
    }

    constructor ()
      ensures Valid() && Pending() == multiset{} && last == 0 && next == MAX_TIMESTAMP
      ensures fresh(buckets)
    {
      buckets := new seq<Timer>[N_BUCKETS](_ => []);
      last, next := 0, MAX_TIMESTAMP;
      nonEmpty := seq(N_BUCKETS, _ => false);
      new;
      AllSize(buckets[..]);
    }

    function GetIndex(ts: int): nat
      requires ts <= MAX_TIMESTAMP
      reads this
    {
      Index(last, ts)
    }

    /** Adds a timer; true when it now is the earliest one known. Bucket `but` is being
        rescanned, and none is in calls from outside. */
    method Insert(t: Timer, ghost but: nat := N_BUCKETS) returns (earliest: bool)
      requires ValidBut(but) && IsTimestamp(t.timeout) && GetIndex(t.timeout) != but
      modifies this`next, this`nonEmpty, buckets
      ensures ValidBut(but) && Pending() == old(Pending()) + multiset{t}
      ensures old(BoundsBelow(next, Pending())) ==> BoundsBelow(next, Pending())
      ensures earliest == (t.timeout < old(next)) && next == Min(old(next), t.timeout)
      ensures buckets[..] == old(buckets[..])[GetIndex(t.timeout) := old(buckets[GetIndex(t.timeout)]) + [t]]
    {
      var index := GetIndex(t.timeout);
      ghost var b := buckets[..];
      assert BucketOk(b, last, index);
      BucketChanged(b, nonEmpty, last, but, index, b[index] + [t]);
      buckets[index] := buckets[index] + [t];
      nonEmpty := nonEmpty[index := true];
      assert buckets[..] == b[index := b[index] + [t]];
      AddedOne(All(b), Pending(), b[index], t, next);
      if t.timeout < next {
        next := t.timeout;
        return true;
      }
      return false;
    }

    /** Takes a pending timer out: the bucket computed for it now is the one that holds it. */
    method Remove(t: Timer)
      requires Valid() && t in Pending()
      modifies this`nonEmpty, buckets
      ensures Valid() && Pending() == old(Pending()) - multiset{t}
    {
      ghost var b := buckets[..];
      RemoveEffect(b, nonEmpty, last, t, next);
      var index := GetIndex(t.timeout);
      buckets[index] := Erase(buckets[index], t);
      assert buckets[..] == b[index := Erase(b[index], t)];
      nonEmpty := if buckets[index] == [] then nonEmpty[index := false] else nonEmpty;
    }
  
    /** Bucket `i` goes to the end of the result. */
    method SpliceOne(i: nat, exp: seq<Timer>) returns (r: seq<Timer>)
      requires ValidBut(N_BUCKETS) && i < N_BUCKETS
      modifies this`nonEmpty, buckets
      ensures ValidBut(N_BUCKETS) && buckets[..] == old(buckets[..])[i := []]
      ensures r == exp + old(buckets[i]) && multiset(r) + Pending() == multiset(exp) + old(Pending())
    {
      ghost var b := buckets[..];
      BucketChanged(b, nonEmpty, last, N_BUCKETS, i, []);
      Spliced(exp, b, b[i := []], i);
      r := exp + buckets[i];
      buckets[i] := [];
      nonEmpty := nonEmpty[i := false];
      assert buckets[..] == b[i := []];
    }

    /** The buckets of `b0` above `lo` have been moved up to `done`; the iterator stands at the
        next that is not empty, which is moved too. */
    method SpliceNext(it: SetIterator, exp: seq<Timer>, ghost b0: seq<seq<Timer>>, ghost lo: nat, ghost now: int)
      returns (r: seq<Timer>)
      requires ValidBut(N_BUCKETS) && it.Valid() && 0 <= it.index && lo < it.from && Cleared(b0, buckets[..], lo, it.from)
      requires BucketsOk(b0, it.word, last, N_BUCKETS) && AllBefore(b0[it.index], now) && AllBefore(exp, now)
      modifies this`nonEmpty, buckets, it
      ensures ValidBut(N_BUCKETS) && multiset(r) + Pending() == multiset(exp) + old(Pending())
      ensures it.Valid() && it.word == old(it.word) && it.from == old(it.index) + 1
      ensures Cleared(b0, buckets[..], lo, it.from) && AllBefore(r, now)
    {
      ghost var b, i, done := buckets[..], it.index, it.from;
      r := SpliceOne(it.index, exp);
      it.Advance();
      ClearedMore(b0, b, buckets[..], lo, done, i);
    }

    /** Moves the timers of all buckets above `index` to the result, in ascending order of
        buckets. */
    method SpliceAbove(index: nat, ghost now: int) returns (exp: seq<Timer>)
      requires ValidBut(N_BUCKETS) && index < N_BUCKETS
      requires forall j :: index < j < N_BUCKETS ==> AllBefore(buckets[j], now)
      modifies this`nonEmpty, buckets
      ensures ValidBut(N_BUCKETS) && multiset(exp) + Pending() == old(Pending())
      ensures Cleared(old(buckets[..]), buckets[..], index, N_BUCKETS) && AllBefore(exp, now)
    {
      exp := [];
      var it := new SetIterator(nonEmpty, index + 1);
      ghost var word, b0 := nonEmpty, buckets[..];
      while it.index >= 0
        modifies this`nonEmpty, buckets, it
        invariant fresh(it) && it.Valid() && it.word == word && index < it.from <= N_BUCKETS
        invariant ValidBut(N_BUCKETS) && multiset(exp) + Pending() == old(Pending())
        invariant Cleared(b0, buckets[..], index, it.from) && AllBefore(exp, now)
        decreases N_BUCKETS - it.from
      {
        exp := SpliceNext(it, exp, b0, index, now);
      }
    }

    /** The first timer of the bucket being rescanned goes to the result or back into the
        set. */
    method RescanOne(index: nat, now: int, exp: seq<Timer>) returns (r: seq<Timer>)
      requires index < N_BUCKETS && ValidBut(index) && buckets[index] != [] && last == now
      requires Rescannable(buckets[index], index, now) && AllBefore(exp, now)
      modifies this`next, this`nonEmpty, buckets
      ensures ValidBut(index) && multiset(r) + Pending() == multiset(exp) + old(Pending())
      ensures buckets[index] == old(buckets[index])[1..] && AllBefore(r, now)
      ensures forall j :: 0 <= j < index ==> buckets[j] == old(buckets[j])
      ensures old(NextAbove(next, buckets[..], index)) ==> NextAbove(next, buckets[..], index)
      ensures old(buckets[FALLBACK]) == [] ==> buckets[FALLBACK] == []
    {
      ghost var b := buckets[..];
      var t := buckets[index][0];
      buckets[index] := buckets[index][1..];
      ghost var c := b[index := b[index][1..]];
      assert buckets[..] == c;
      PoppedOne(b, index);
      Popped(exp, All(c), All(b), t);
      PoppedKept(b, nonEmpty, now, index, next);
      if t.timeout <= now {
        r := exp + [t];
        return;
      }
      NextAboveInsert(next, c, index, Index(now, t.timeout), t);
      var earliest := Insert(t, index);
      r := exp;
    }

    /** Empties the bucket of the current time: what has expired joins the result, the rest
        goes to strictly higher buckets. */
    method Rescan(index: nat, now: int, exp0: seq<Timer>) returns (exp: seq<Timer>)
      requires index < N_BUCKETS && ValidBut(index) && last == now && next == MAX_TIMESTAMP
      requires Rescannable(buckets[index], index, now) && AllBefore(exp0, now)
      requires forall j :: index < j < N_BUCKETS ==> buckets[j] == []
      modifies this`next, this`nonEmpty, buckets
      ensures ValidBut(index) && multiset(exp) + Pending() == multiset(exp0) + old(Pending())
      ensures buckets[index] == [] && AllBefore(exp, now) && NextAbove(next, buckets[..], index)
      ensures buckets[FALLBACK] == []
      ensures forall j :: 0 <= j < index ==> buckets[j] == old(buckets[j])
    {
      exp := exp0;
      while buckets[index] != []
        invariant ValidBut(index) && multiset(exp) + Pending() == multiset(exp0) + old(Pending())
        invariant Rescannable(buckets[index], index, now) && AllBefore(exp, now)
        invariant NextAbove(next, buckets[..], index) && (index < FALLBACK ==> buckets[FALLBACK] == [])
        invariant forall j :: 0 <= j < index ==> buckets[j] == old(buckets[j])
        decreases |buckets[index]|
      {
        exp := RescanOne(index, now, exp);
      }
    }

    /** Moves the time to `now`, whose bucket is `index`. */
    method MoveTo(index: nat, now: nat, exp0: seq<Timer>) returns (exp: seq<Timer>)
      requires last <= now <= MAX_TIMESTAMP && index == Index(last, now) && ValidBut(N_BUCKETS) && AllBefore(exp0, now)
      requires forall j :: index < j < N_BUCKETS ==> buckets[j] == []
      modifies this`last, this`next, this`nonEmpty, buckets
      ensures ValidBut(N_BUCKETS) && last == now && AllBefore(exp, now)
      ensures multiset(exp) + Pending() == multiset(exp0) + old(Pending())
      ensures forall t :: t in Pending() ==> t.timeout > now
      ensures buckets[index] == [] && buckets[FALLBACK] == [] && NextAbove(next, buckets[..], index)
    {
      ExpireMoved(buckets[..], buckets[..], nonEmpty, last, now);
      last := now;
      next := MAX_TIMESTAMP;
      exp := Rescan(index, now, exp0);
      nonEmpty := nonEmpty[index := buckets[index] != []];
      RescanDone(buckets[..], nonEmpty, now, index);
    }

    /** When nothing was put back, the earliest timer is in the highest non-empty bucket. */
    method FindNext(ghost index: nat)
      requires ValidBut(N_BUCKETS) && index < N_BUCKETS && NextAbove(next, buckets[..], index)
      requires buckets[index] == [] && buckets[FALLBACK] == []
      modifies this`next
      ensures Valid() && IsEarliest(next, Pending())
    {
      ghost var b := buckets[..];
      if next != MAX_TIMESTAMP || None(nonEmpty) {
        EarliestAbove(b, nonEmpty, last, index, next);
        return;
      }
      var lastBucket := LastSet(nonEmpty);
      var l := buckets[lastBucket];
      for i := 0 to |l|
        invariant MinOf(l[..i], next)
      {
        assert l[..i + 1] == l[..i] + [l[i]];
        next := Min(next, l[i].timeout);
      }
      assert l[..|l|] == l;
      EarliestInLast(b, nonEmpty, last, lastBucket, next);
    }

    /** The pending timers that are due, each once; the others stay, and the next timeout
        becomes exact. */
    method Expire(now: nat) returns (exp: seq<Timer>)
      requires Valid() && last <= now <= MAX_TIMESTAMP
      modifies this`last, this`next, this`nonEmpty, buckets
      ensures Valid() && last == now
      ensures multiset(exp) + Pending() == old(Pending())
      ensures forall t :: t in exp ==> t.timeout <= now
      ensures forall t :: t in Pending() ==> t.timeout > now
      ensures IsEarliest(next, Pending())
    {
      var index := GetIndex(now);
      ExpireStart(buckets[..], nonEmpty, last, now);
      exp := SpliceAbove(index, now);
      exp := MoveTo(index, now, exp);
      FindNext(index);
    }

    /** The time to arm for: it is not in the past, it comes after no pending timer that is not,
        and it is that of one when `next` is exact, as it is after `Expire`. */
    function GetNextTimeout(): (r: int)
      requires Valid()
      reads this, buckets
      ensures last <= r && forall t :: t in Pending() ==> r <= Max(last, t.timeout)
      ensures IsEarliest(next, Pending()) && Pending() != multiset{} ==> exists t :: t in Pending() && r == Max(last, t.timeout)
    {
      Max(last, next)
    }

    /** The number of pending timers. */
    method Size() returns (n: nat)
      requires Valid()
      ensures n == |Pending()|
    {
      n := 0;
      for i := 0 to N_BUCKETS
        invariant n == |All(buckets[..i])|
      {
        assert buckets[..i + 1][..i] == buckets[..i];
        n := n + |buckets[i]|;
      }
      assert buckets[..N_BUCKETS] == buckets[..];
    }

    /** No timer is pending. */
    method Empty() returns (r: bool)
      requires Valid()
      ensures r <==> Pending() == multiset{}
    {
      AllSize(buckets[..]);
      r := None(nonEmpty);
      assert |Pending()| == 0 <==> Pending() == multiset{};
    }
  }

  predicate AllBefore(l: seq<Timer>, now: int) {
    forall t :: t in l ==> t.timeout <= now
  }

  /** `b` is `a` with the buckets strictly between `lo` and `hi` emptied. */
  ghost predicate Cleared(a: seq<seq<Timer>>, b: seq<seq<Timer>>, lo: nat, hi: nat) {
    |a| == |b| && forall j :: 0 <= j < |a| ==> b[j] == if lo < j < hi then [] else a[j]
  }

  lemma ClearedMore(a: seq<seq<Timer>>, b: seq<seq<Timer>>, c: seq<seq<Timer>>, lo: nat, done: nat, i: nat)
    requires Cleared(a, b, lo, done) && lo < done <= i < |b| && c == b[i := []]
    requires forall j :: done <= j < i ==> b[j] == []
    ensures Cleared(a, c, lo, i + 1)
  {
  }

  lemma Spliced(exp: seq<Timer>, b: seq<seq<Timer>>, b': seq<seq<Timer>>, i: nat)
    requires i < |b| && All(b') + multiset(b[i]) == All(b)
    ensures multiset(exp + b[i]) + All(b') == multiset(exp) + All(b)
  {
    assert multiset(exp + b[i]) == multiset(exp) + multiset(b[i]);
  }

  /** The timers of bucket `i` that are not due belong in a higher bucket. */
  ghost predicate Rescannable(l: seq<Timer>, i: nat, now: nat) {
    forall t :: t in l ==> IsTimestamp(t.timeout) && (t.timeout > now ==> Index(now, t.timeout) > i)
  }

  ghost predicate Holds(b: seq<seq<Timer>>, j: nat, ts: int) {
    j < |b| && exists t :: t in b[j] && t.timeout == ts
  }

  /** `next` is the earliest timestamp in the buckets above `index`. */
  ghost predicate NextAbove(next: int, b: seq<seq<Timer>>, index: nat) {
    && (forall j, t :: index < j < |b| && t in b[j] ==> next <= t.timeout)
    && (next == MAX_TIMESTAMP || exists j :: index < j && Holds(b, j, next))
  }

  lemma NextAboveInsert(next: int, b: seq<seq<Timer>>, index: nat, k: nat, t: Timer)
    requires index < k < |b| && t.timeout <= MAX_TIMESTAMP && next <= MAX_TIMESTAMP
    ensures NextAbove(next, b, index) ==> NextAbove(Min(next, t.timeout), b[k := b[k] + [t]], index)
  {
    var c := b[k := b[k] + [t]];
    if NextAbove(next, b, index) {
      assert t in c[k] && Holds(c, k, t.timeout);
      if next != MAX_TIMESTAMP {
        var j :| index < j && Holds(b, j, next);
        assert Holds(c, j, next) by {
          var x :| x in b[j] && x.timeout == next;
          assert x in c[j];
        }
      }
    }
  }

  lemma PoppedOne(b: seq<seq<Timer>>, i: nat)
    requires i < |b| && b[i] != []
    ensures All(b[i := b[i][1..]]) + multiset{b[i][0]} == All(b)
  {
    var c, tail, t := b[i := b[i][1..]], multiset(b[i][1..]), multiset{b[i][0]};
    AllUpdate(b, i, b[i][1..]);
    assert b[i] == [b[i][0]] + b[i][1..];
    assert multiset(b[i]) == t + tail;
    assert (All(c) + t) + tail == All(b) + tail;
    SameRest(All(c) + t, All(b), tail);
  }

  lemma Popped(exp: seq<Timer>, rest: multiset<Timer>, all: multiset<Timer>, t: Timer)
    requires rest + multiset{t} == all
    ensures multiset(exp + [t]) + rest == multiset(exp) + all
  {
    assert multiset(exp + [t]) == multiset(exp) + multiset{t};
  }

  lemma PoppedKept(b: seq<seq<Timer>>, bits: seq<bool>, last: nat, i: nat, next: int)
    requires BucketsOk(b, bits, last, i) && i < N_BUCKETS && b[i] != []
    ensures BucketsOk(b[i := b[i][1..]], bits, last, i)
    ensures NextAbove(next, b, i) ==> NextAbove(next, b[i := b[i][1..]], i)
  {
    var c := b[i := b[i][1..]];
    forall j {:trigger BucketOk(c, last, j)} | 0 <= j < N_BUCKETS && j != i
      ensures BucketOk(c, last, j)
    {
      assert BucketOk(b, last, j);
    }
    if NextAbove(next, b, i) && next != MAX_TIMESTAMP {
      var j :| i < j && Holds(b, j, next);
      assert Holds(c, j, next);
    }
  }

  lemma ExpireStart(b: seq<seq<Timer>>, bits: seq<bool>, last: nat, now: nat)
    requires BucketsOk(b, bits, last, N_BUCKETS) && last <= now <= MAX_TIMESTAMP
    ensures forall j :: Index(last, now) < j < N_BUCKETS ==> AllBefore(b[j], now)
  {
    forall j, t | Index(last, now) < j < N_BUCKETS && t in b[j]
      ensures t.timeout <= now
    {
      assert BucketOk(b, last, j);
      IndexMoves(last, now, t.timeout);
    }
  }

  /** With the buckets above that of `now` emptied, those below it are right for `now` too. */
  lemma ExpireMoved(a: seq<seq<Timer>>, b: seq<seq<Timer>>, bits: seq<bool>, last: nat, now: nat)
    requires last <= now <= MAX_TIMESTAMP && BucketsOk(b, bits, last, N_BUCKETS)
    requires Cleared(a, b, Index(last, now), N_BUCKETS)
    ensures BucketsOk(b, bits, now, Index(last, now)) && Rescannable(b[Index(last, now)], Index(last, now), now)
    ensures forall j :: Index(last, now) < j < N_BUCKETS ==> b[j] == []
  {
    var index := Index(last, now);
    forall j {:trigger BucketOk(b, now, j)} | 0 <= j < N_BUCKETS && j != index
      ensures BucketOk(b, now, j)
    {
      assert BucketOk(b, last, j);
      forall t | t in b[j]
        ensures Index(now, t.timeout) == j
      {
        IndexMoves(last, now, t.timeout);
      }
    }
    assert BucketOk(b, last, index);
    forall t | t in b[index]
      ensures t.timeout > now ==> Index(now, t.timeout) > index
    {
      IndexMoves(last, now, t.timeout);
    }
  }

  /** After the rescan every pending timer is later than `now`. */
  lemma RescanDone(b: seq<seq<Timer>>, bits: seq<bool>, now: nat, index: nat)
    requires index < N_BUCKETS && |bits| == N_BUCKETS && BucketsOk(b, bits, now, index) && b[index] == [] && !bits[index]
    requires b[FALLBACK] == []
    ensures BucketsOk(b, bits, now, N_BUCKETS)
    ensures forall t :: t in All(b) ==> t.timeout > now
  {
    assert BucketOk(b, now, index);
    forall t | t in All(b)
      ensures t.timeout > now
    {
      FoundInBucket(b, bits, now, t);
    }
  }

  /** `next` is the earliest pending timestamp, or the largest one when none is pending. */
  ghost predicate IsEarliest(next: int, all: multiset<Timer>) {
    && BoundsBelow(next, all)
    && (if all == multiset{} then next == MAX_TIMESTAMP else exists t :: t in all && t.timeout == next)
  }

  ghost predicate MinOf(l: seq<Timer>, next: int) {
    && next <= MAX_TIMESTAMP && (forall t :: t in l ==> next <= t.timeout)
    && (next == MAX_TIMESTAMP || exists t :: t in l && t.timeout == next)
  }

  lemma EarliestAbove(b: seq<seq<Timer>>, bits: seq<bool>, last: nat, index: nat, next: int)
    requires BucketsOk(b, bits, last, N_BUCKETS) && index < N_BUCKETS && b[index] == []
    requires NextAbove(next, b, index) && (next != MAX_TIMESTAMP || None(bits))
    ensures IsEarliest(next, All(b))
  {
    if next == MAX_TIMESTAMP {
      AllSize(b);
      return;
    }
    var j :| index < j && Holds(b, j, next);
    var soonest :| soonest in b[j] && soonest.timeout == next;
    AllMembers(b, soonest);
    assert BucketOk(b, last, j);
    forall t | t in All(b)
      ensures next <= t.timeout
    {
      FoundInBucket(b, bits, last, t);
      if Index(last, t.timeout) < index {
        HigherBucketEarlier(last, next, t.timeout);
      }
    }
  }

  /** The earliest timer of the highest non-empty bucket is the earliest of all, unless that
      is the fallback bucket, whose timers are due. */
  lemma EarliestInLast(b: seq<seq<Timer>>, bits: seq<bool>, last: nat, k: nat, next: int)
    requires BucketsOk(b, bits, last, N_BUCKETS) && k < FALLBACK && b[k] != []
    requires forall j :: k < j < N_BUCKETS ==> !bits[j]
    requires MinOf(b[k], next)
    ensures IsEarliest(next, All(b))
  {
    assert BucketOk(b, last, k);
    var head := b[k][0];
    assert head in b[k] && head.timeout <= MAX_TIMESTAMP;
    var soonest :| soonest in b[k] && soonest.timeout == next;
    AllMembers(b, soonest);
    forall t | t in All(b)
      ensures next <= t.timeout
    {
      FoundInBucket(b, bits, last, t);
      if Index(last, t.timeout) < k {
        HigherBucketEarlier(last, next, t.timeout);
      }
    }
  }
}
