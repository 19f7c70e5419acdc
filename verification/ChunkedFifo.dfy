/** A queue kept in a linked list of ring-shaped chunks with wrapping 32-bit counters. */
module ChunkedFifos {
  import opened Bits
  import opened Utils

  const WORD: nat := 0x1_0000_0000
  const SIZE_T: nat := 0x1_0000_0000_0000_0000
  const SAVE_FREE_CHUNKS: nat := 1

  type uint32 = x: nat | x < WORD

  /** A chunk size: a power of two that the 32-bit counters can tell from zero. */
  ghost predicate IsChunkSize(n: nat) {
    0 < n <= 0x8000_0000 && exists k: nat :: Pow2(k) == n
  }

  /** What an `unsigned` counter keeps. */
  function Wrap(x: nat): (r: uint32)
    ensures x < WORD ==> r == x
  {
    if x < WORD then x else Wrap(x - WORD)
  }

  lemma {:induction false} WrapIs(x: nat)
    ensures Wrap(x) == Low32(x)
  {
    if x >= WORD {
      WrapIs(x - WORD);
    }
  }

  /** `mask`: the position of a counter within a chunk. */
  function Mask(x: nat, n: nat): (r: nat)
    requires n > 0
    ensures r < n
  {
    if x < n then x else Mask(x - n, n)
  }

  /** `k` chunks more do not change it. */
  lemma {:induction false} MaskLess(x: nat, k: nat, n: nat)
    requires n > 0 && x >= k * n
    ensures Mask(x - k * n, n) == Mask(x, n)
  {
    if k > 0 {
      assert k * n == (k - 1) * n + n && (k - 1) * n >= 0;
      MaskLess(x - n, k - 1, n);
    }
  }

  /** Counters less than a chunk apart have different positions. */
  lemma {:induction false} MaskApart(x: nat, y: nat, n: nat)
    requires x < y < x + n
    ensures Mask(x, n) != Mask(y, n)
  {
    if x >= n {
      MaskApart(x - n, y - n, n);
    }
  }

  lemma WordMultiple(n: nat) returns (k: nat)
    requires IsChunkSize(n)
    ensures k > 0 && WORD == k * n
  {
    var m: nat :| Pow2(m) == n;
    Pow2Words();
    if m > 32 {
      Pow2Monotonic(32, m);
    }
    Pow2Add(32 - m, m);
    k := Pow2(32 - m);
  }

  /** Wrapping to 32 bits does not disturb the position within a chunk. */
  lemma {:induction false} WrapMask(x: nat, n: nat)
    requires IsChunkSize(n)
    ensures Mask(Wrap(x), n) == Mask(x, n)
  {
    if x >= WORD {
      WordMask(x, n);
      WrapMask(x - WORD, n);
    }
  }

  lemma WordMask(x: nat, n: nat)
    requires IsChunkSize(n) && x >= WORD
    ensures Mask(x - WORD, n) == Mask(x, n)
  {
    var k := WordMultiple(n);
    MaskLess(x, k, n);
  }

  /** The slot `i` places after counter `begin`. */
  function Slot(begin: nat, i: nat, n: nat): (r: nat)
    requires n > 0
    ensures r < n
  {
    Mask(begin + i, n)
  }

  lemma SlotsDiffer(begin: nat, i: nat, j: nat, n: nat)
    requires i < j < n
    ensures Slot(begin, i, n) != Slot(begin, j, n)
  {
    MaskApart(begin + i, begin + j, n);
  }

  /** The 32-bit count of items tells a full chunk of 2^k items from any other if and only if
      that is a chunk size; a larger chunk is never seen to be full. */
  lemma FullIsSeen(k: nat)
    ensures IsChunkSize(Pow2(k)) <==> forall c: nat :: c <= Pow2(k) ==> (Low32(c) == Pow2(k) <==> c == Pow2(k))
    ensures !IsChunkSize(Pow2(k)) ==> forall c: nat :: Low32(c) != Pow2(k)
  {
    Pow2Words();
    if k < 32 {
      Pow2Monotonic(k, 31);
    } else {
      Pow2Monotonic(32, k);
      assert Low32(Pow2(k)) < 0x1_0000_0000;
    }
  }

  // ----- one chunk, on values

  /** The ring `items` holds `part` from counter `begin` to counter `end`. */
  ghost predicate Holds<T>(items: seq<T>, begin: uint32, end: uint32, part: seq<T>) {
    && |part| <= |items| && |items| > 0 && end == Wrap(begin + |part|)
    && forall i {:trigger part[i]} :: 0 <= i < |part| ==> items[Slot(begin, i, |items|)] == part[i]
  }

  /** How many items the counters say there are. */
  function Held(begin: uint32, end: uint32): nat {
    Wrap(end + WORD - begin)
  }

  lemma HeldIsCount<T>(items: seq<T>, begin: uint32, end: uint32, part: seq<T>)
    requires Holds(items, begin, end, part) && |items| < WORD
    ensures Held(begin, end) == |part|
    ensures begin == end <==> part == []
  {
  }

  /** An item stored behind those that are there disturbs none of them. */
  lemma StoredBehind<T>(items: seq<T>, begin: uint32, part: seq<T>, x: T)
    requires |part| < |items| && forall i {:trigger part[i]} :: 0 <= i < |part| ==> items[Slot(begin, i, |items|)] == part[i]
    ensures var now := items[Slot(begin, |part|, |items|) := x];
      forall i {:trigger (part + [x])[i]} :: 0 <= i < |part| + 1 ==> now[Slot(begin, i, |items|)] == (part + [x])[i]
  {
    var n := |items|;
    forall i {:trigger (part + [x])[i]} | 0 <= i < |part| + 1
      ensures items[Slot(begin, |part|, n) := x][Slot(begin, i, n)] == (part + [x])[i]
    {
      if i < |part| {
        SlotsDiffer(begin, i, |part|, n);
        assert part[i] == items[Slot(begin, i, n)];
      }
    }
  }

  /** Storing at `mask(end)` and counting `end` up adds an item. */
  lemma HoldsPush<T>(items: seq<T>, begin: uint32, end: uint32, part: seq<T>, x: T)
    requires Holds(items, begin, end, part) && IsChunkSize(|items|) && |part| < |items|
    ensures Holds(items[Mask(end, |items|) := x], begin, Wrap(end + 1), part + [x])
  {
    WrapMask(begin + |part|, |items|);
    StoredBehind(items, begin, part, x);
    CountUp(begin + |part|);
  }

  lemma {:induction false} CountUp(s: nat)
    ensures Wrap(Wrap(s) + 1) == Wrap(s + 1)
  {
    if s >= WORD {
      CountUp(s - WORD);
    }
  }

  /** Counting `begin` up drops the oldest item. */
  lemma HoldsPop<T>(items: seq<T>, begin: uint32, end: uint32, part: seq<T>)
    requires Holds(items, begin, end, part) && IsChunkSize(|items|) && part != []
    ensures Holds(items, Wrap(begin + 1), end, part[1..]) && items[Mask(begin, |items|)] == part[0]
  {
    var n, b := |items|, Wrap(begin + 1);
    assert part[0] == items[Slot(begin, 0, n)];
    EndAfterPop(begin, |part|);
    forall i | 0 <= i < |part| - 1
      ensures items[Slot(b, i, n)] == part[1..][i]
    {
      assert part[1..][i] == part[i + 1];
      SlotAfterPop(begin, i, n);
    }
  }

  /** Seen from the next counter, the end is one item nearer. */
  lemma EndAfterPop(begin: uint32, count: nat)
    requires 0 < count < WORD
    ensures Wrap(Wrap(begin + 1) + (count - 1)) == Wrap(begin + count)
  {
  }

  /** Every other item is one slot nearer as well. */
  lemma SlotAfterPop(begin: uint32, i: nat, n: nat)
    requires IsChunkSize(n)
    ensures Slot(Wrap(begin + 1), i, n) == Slot(begin, i + 1, n)
  {
    if begin + 1 == WORD {
      WordMask(WORD + i, n);
    }
  }

  /** The newest item is at `mask(end - 1)`. */
  lemma HoldsBack<T>(items: seq<T>, begin: uint32, end: uint32, part: seq<T>)
    requires Holds(items, begin, end, part) && IsChunkSize(|items|) && part != []
    ensures items[Mask(Wrap(end + WORD - 1), |items|)] == part[|part| - 1]
  {
    var n, s := |items|, begin + |part|;
    assert Wrap(end + WORD - 1) == Wrap(s - 1);
    WrapMask(s - 1, n);
    assert part[|part| - 1] == items[Slot(begin, |part| - 1, n)];
  }

  // ----- all chunks, on values

  ghost function Flatten<T>(parts: seq<seq<T>>): seq<T> {
    if parts == [] then [] else parts[0] + Flatten(parts[1..])
  }

  lemma AppendAssociates<T>(a: seq<T>, b: seq<T>, c: seq<T>)
    ensures (a + b) + c == a + (b + c)
  {
  }

  lemma {:induction false} FlattenConcat<T>(a: seq<seq<T>>, b: seq<seq<T>>)
    ensures Flatten(a + b) == Flatten(a) + Flatten(b)
  {
    if a == [] {
      assert a + b == b;
    } else {
      FlattenConcat(a[1..], b);
      assert (a + b)[0] == a[0] && (a + b)[1..] == a[1..] + b;
      AppendAssociates(a[0], Flatten(a[1..]), Flatten(b));
    }
  }

  lemma FlattenOne<T>(p: seq<T>)
    ensures Flatten([p]) == p
  {
    assert [p][1..] == [];
  }

  /** Appending to the last part appends to the whole. */
  lemma FlattenPush<T>(parts: seq<seq<T>>, x: T)
    requires parts != []
    ensures Flatten(parts[|parts| - 1 := parts[|parts| - 1] + [x]]) == Flatten(parts) + [x]
  {
    var n := |parts| - 1;
    var p := parts[n];
    FlattenConcat(parts[..n], [p]);
    FlattenConcat(parts[..n], [p + [x]]);
    FlattenOne(p);
    FlattenOne(p + [x]);
    assert parts == parts[..n] + [p];
    assert parts[n := p + [x]] == parts[..n] + [p + [x]];
  }

  /** An empty part at the end adds nothing. */
  lemma FlattenEmpty<T>(parts: seq<seq<T>>)
    ensures Flatten(parts + [[]]) == Flatten(parts)
  {
    FlattenConcat(parts, [[]]);
    FlattenOne<T>([]);
  }

  lemma FlattenEnds<T>(parts: seq<seq<T>>)
    requires parts != [] && parts[0] != [] && parts[|parts| - 1] != []
    ensures Flatten(parts) != [] && Flatten(parts)[0] == parts[0][0]
    ensures Flatten(parts)[|Flatten(parts)| - 1] == parts[|parts| - 1][|parts[|parts| - 1]| - 1]
  {
    var n := |parts| - 1;
    FlattenConcat(parts[..n], [parts[n]]);
    FlattenOne(parts[n]);
    assert parts == parts[..n] + [parts[n]];
  }

  /** No part is empty, unless the last one is being filled; all but the first and the last
      are full. */
  ghost predicate PartsOk<T>(parts: seq<seq<T>>, n: nat, filling: bool) {
    && (forall i {:trigger parts[i]} :: 0 <= i < |parts| ==> |parts[i]| <= n)
    && (forall i {:trigger parts[i]} :: 0 <= i < |parts| && !(filling && i == |parts| - 1) ==> parts[i] != [])
    && (forall i {:trigger parts[i]} :: 0 < i < |parts| - 1 ==> |parts[i]| == n)
  }

  lemma {:induction false} FullSize<T>(parts: seq<seq<T>>, n: nat)
    requires forall i {:trigger parts[i]} :: 0 <= i < |parts| ==> |parts[i]| == n
    ensures |Flatten(parts)| == |parts| * n
  {
    if parts != [] {
      FullSize(parts[1..], n);
      assert |parts| * n == n + (|parts| - 1) * n;
    }
  }

  /** What the end chunks hold and how many chunks there are gives the number of items. */
  lemma FlattenSize<T>(parts: seq<seq<T>>, n: nat)
    requires PartsOk(parts, n, false)
    ensures |parts| == 1 ==> |Flatten(parts)| == |parts[0]|
    ensures |parts| >= 2 ==> |Flatten(parts)| == |parts[0]| + |parts[|parts| - 1]| + (|parts| - 2) * n
  {
    if |parts| == 1 {
      FlattenOne(parts[0]);
      assert parts == [parts[0]];
    } else if |parts| >= 2 {
      var k := |parts| - 1;
      var mid := parts[1..k];
      FullSize(mid, n);
      FlattenConcat(mid, [parts[k]]);
      FlattenOne(parts[k]);
      assert parts[1..] == mid + [parts[k]];
    }
  }

  /** `size()`: the counters are subtracted and added in 32 bits, the full chunks between them
      in 64. */
  function SizeFormula(nchunks: nat, front: uint32, back: uint32, n: nat): nat {
    if nchunks == 0 then 0
    else if nchunks == 1 then front
    else (Wrap(front + back) + (nchunks - 2) * n) % SIZE_T
  }

  /** `size()` is right unless the front and the back chunk are both full and of the largest
      size: then the 32-bit sum of their counts is zero. */
  lemma SizeExact<T>(parts: seq<seq<T>>, n: nat)
    requires PartsOk(parts, n, false) && IsChunkSize(n) && |Flatten(parts)| < SIZE_T
    ensures parts != [] ==> |parts[0]| < WORD && |parts[|parts| - 1]| < WORD
    ensures var size := SizeFormula(|parts|, if parts == [] then 0 else |parts[0]|,
                                    if parts == [] then 0 else |parts[|parts| - 1]|, n);
      size == |Flatten(parts)| <==>
        !(n == 0x8000_0000 && |parts| >= 2 && |parts[0]| == |parts[|parts| - 1]| == n)
    ensures SizeFormula(|parts|, if parts == [] then 0 else |parts[0]|,
                        if parts == [] then 0 else |parts[|parts| - 1]|, n) <= |Flatten(parts)|
  {
    FlattenSize(parts, n);
    if |parts| >= 2 {
      var f, b, m := |parts[0]|, |parts[|parts| - 1]|, (|parts| - 2) * n;
      assert m >= 0;
      if f + b < WORD {
        DivModUnique(f + b + m, SIZE_T, 0, f + b + m);
      } else {
        DivModUnique(f + b - WORD + m, SIZE_T, 0, f + b - WORD + m);
      }
    }
  }

  /** Two full chunks of 2^31 items count as none. */
  lemma SizeWrapExample()
    ensures SizeFormula(2, 0x8000_0000, 0x8000_0000, 0x8000_0000) == 0
  {
    DivModUnique(0, SIZE_T, 0, 0);
  }

  /** `reserve(n)`: chunks to allocate for `n - size` more items when the back chunk has room
      for `room`, in 64-bit arithmetic that may go below zero. */
  function NeededChunks(n: nat, size: nat, room: nat, chunk: nat): nat
    requires chunk > 0
  {
    ((n - size - room) % SIZE_T + chunk - 1) % SIZE_T / chunk
  }

  /** The chunks make up for what the back chunk lacks, also when the subtraction went below
      zero, unless the request is so large that rounding it up wraps. */
  lemma NeededChunksEnough(n: nat, size: nat, room: nat, chunk: nat)
    requires 0 < chunk <= 0x8000_0000 && size <= n < SIZE_T && room < chunk
    ensures NeededChunks(n, size, room, chunk) * chunk + room >= n - size <==> n - size - room <= SIZE_T - chunk
  {
    var need := n - size - room;
    if need <= 0 {
      if need < 0 {
        DivModUnique(need, SIZE_T, -1, need + SIZE_T);
        DivModUnique(need + SIZE_T + chunk - 1, SIZE_T, 1, need + chunk - 1);
      } else {
        DivModUnique(chunk - 1, SIZE_T, 0, chunk - 1);
      }
      assert NeededChunks(n, size, room, chunk) * chunk >= 0;
    } else {
      DivModUnique(need, SIZE_T, 0, need);
      if need <= SIZE_T - chunk {
        DivModUnique(need + chunk - 1, SIZE_T, 0, need + chunk - 1);
        var q, r := (need + chunk - 1) / chunk, (need + chunk - 1) % chunk;
        assert need + chunk - 1 == q * chunk + r;
      } else {
        var w := need + chunk - 1 - SIZE_T;
        DivModUnique(need + chunk - 1, SIZE_T, 1, w);
        DivModUnique(w, chunk, 0, w);
      }
    }
  }

  /** And no chunk more than that, unless rounding up wraps. */
  lemma NeededChunksLeast(n: nat, size: nat, room: nat, chunk: nat)
    requires 0 < chunk <= 0x8000_0000 && size <= n < SIZE_T && room < chunk && n - size - room <= SIZE_T - chunk
    ensures NeededChunks(n, size, room, chunk) > 0 ==> (NeededChunks(n, size, room, chunk) - 1) * chunk + room < n - size
    ensures n - size <= room ==> NeededChunks(n, size, room, chunk) == 0
  {
    var need := n - size - room;
    if need < 0 {
      DivModUnique(need, SIZE_T, -1, need + SIZE_T);
      DivModUnique(need + SIZE_T + chunk - 1, SIZE_T, 1, need + chunk - 1);
      DivModUnique(need + chunk - 1, chunk, 0, need + chunk - 1);
    } else {
      DivModUnique(need, SIZE_T, 0, need);
      DivModUnique(need + chunk - 1, SIZE_T, 0, need + chunk - 1);
      var q, r := (need + chunk - 1) / chunk, (need + chunk - 1) % chunk;
      assert need + chunk - 1 == q * chunk + r && (q - 1) * chunk == q * chunk - chunk;
      if need == 0 {
        DivModUnique(chunk - 1, chunk, 0, chunk - 1);
      }
    }
  }

  /** Rounding up a request for 2^64 - 1 items wraps, and no chunk is allocated for it. */
  lemma ReserveWrapExample()
    ensures NeededChunks(SIZE_T - 1, 0, 0, 8) == 0
  {
    DivModUnique(SIZE_T - 1, SIZE_T, 0, SIZE_T - 1);
    DivModUnique(SIZE_T + 6, SIZE_T, 1, 6);
  }

  /** For fewer items than there are, the subtraction wraps: nothing is asked for if and only
      if the items and the room behind them exceed `n` by less than a chunk; otherwise almost
      all of the 2^64 are. */
  lemma NeededChunksBelow(n: nat, size: nat, room: nat, chunk: nat)
    requires 0 < chunk <= 0x8000_0000 && n < size < SIZE_T && room < chunk
    ensures var d := (size + room - n) % SIZE_T;
      && (NeededChunks(n, size, room, chunk) == 0 <==> d < chunk)
      && (d >= chunk ==> NeededChunks(n, size, room, chunk) * chunk >= SIZE_T - d)
  {
    NegatedMod(size + room - n);
    assert n - size - room == -(size + room - n);
    WrappedChunks((size + room - n) % SIZE_T, chunk);
  }

  lemma NegatedMod(x: int)
    ensures (-x) % SIZE_T == if x % SIZE_T == 0 then 0 else SIZE_T - x % SIZE_T
  {
    var k: int, d := x / SIZE_T, x % SIZE_T;
    if d == 0 {
      DivModUnique(-x, SIZE_T, -k, 0);
    } else {
      DivModUnique(-x, SIZE_T, -k - 1, SIZE_T - d);
    }
  }

  lemma WrappedChunks(d: nat, chunk: nat)
    requires d < SIZE_T && 0 < chunk <= 0x8000_0000
    ensures var chunks := ((if d == 0 then 0 else SIZE_T - d) + chunk - 1) % SIZE_T / chunk;
      && (chunks == 0 <==> d < chunk)
      && (d >= chunk ==> chunks * chunk >= SIZE_T - d)
  {
    if d == 0 {
      DivModUnique(chunk - 1, SIZE_T, 0, chunk - 1);
      DivModUnique(chunk - 1, chunk, 0, chunk - 1);
    } else if d < chunk {
      DivModUnique(SIZE_T - d + chunk - 1, SIZE_T, 1, chunk - 1 - d);
      DivModUnique(chunk - 1 - d, chunk, 0, chunk - 1 - d);
    } else {
      DivModUnique(SIZE_T - d + chunk - 1, SIZE_T, 0, SIZE_T - d + chunk - 1);
      RoundUpCovers(SIZE_T - d, chunk);
    }
  }

  lemma RoundUpCovers(need: nat, chunk: nat)
    requires chunk > 0 && need > 0
    ensures (need + chunk - 1) / chunk * chunk >= need && (need + chunk - 1) / chunk > 0
  {
    var q, r := (need + chunk - 1) / chunk, (need + chunk - 1) % chunk;
    assert need + chunk - 1 == q * chunk + r;
  }

  /** With 256 items in two full chunks, a request for none asks for 2^57 - 2 chunks. */
  lemma ReserveBelowExample()
    ensures NeededChunks(0, 256, 0, 128) == 0x1FF_FFFF_FFFF_FFFE
  {
    DivModUnique(-256, SIZE_T, -1, SIZE_T - 256);
    DivModUnique(SIZE_T - 129, SIZE_T, 0, SIZE_T - 129);
    DivModUnique(SIZE_T - 129, 128, 0x1FF_FFFF_FFFF_FFFE, 127);
  }

  /** Items that fit in the back chunk and the saved chunks. */
  function RoomOf<T>(parts: seq<seq<T>>, nfree: nat, n: nat): int {
    (if parts == [] then 0 else n - |parts[|parts| - 1]|) + nfree * n
  }

  /** Putting a saved chunk behind a full one neither makes nor takes room. */
  lemma RoomMoves<T>(parts: seq<seq<T>>, nfree: nat, n: nat)
    requires parts != [] ==> |parts[|parts| - 1]| == n
    ensures RoomOf(parts, nfree, n) == nfree * n
    ensures nfree > 0 ==> RoomOf(parts + [[]], nfree - 1, n) == nfree * n
  {
  }

  // ----- the queue

  class Chunk<T(0)> {
    const items: array<T>
    var next: Chunk?<T>
    var begin: uint32
    var end: uint32

    constructor (n: nat)
      ensures fresh(items) && items.Length == n
    {
      items := new T[n];
      next, begin, end := null, 0, 0;
    }

    /** Drops the oldest item. */
    method Drop(ghost part: seq<T>)
      requires ChunkOk(this, part, items.Length) && IsChunkSize(items.Length) && part != []
      modifies this`begin
      ensures ChunkOk(this, part[1..], items.Length)
      ensures begin == end <==> |part| == 1
    {
      HoldsPop(items[..], begin, end, part);
      HeldIsCount(items[..], Wrap(begin + 1), end, part[1..]);
      begin := Wrap(begin + 1);
    }

    /** Adds an item behind the newest. */
    method Add(x: T, ghost part: seq<T>)
      requires ChunkOk(this, part, items.Length) && IsChunkSize(items.Length) && |part| < items.Length
      modifies this`end, items
      ensures ChunkOk(this, part + [x], items.Length)
    {
      HoldsPush(items[..], begin, end, part, x);
      ghost var was := items[..];
      var p := Mask(end, items.Length);
      items[p] := x;
      assert items[..] == was[p := x];
      end := Wrap(end + 1);
    }
  }

  ghost predicate ChunkOk<T(0)>(c: Chunk<T>, part: seq<T>, n: nat)
    reads c`begin, c`end, c.items
  {
    c.items.Length == n && Holds(c.items[..], c.begin, c.end, part)
  }

  /** The chunk at `i` of a linked list. */
  function At<T(0)>(l: seq<Chunk<T>>, i: nat): Chunk?<T> {
    if i < |l| then l[i] else null
  }

  ghost predicate NextOk<T(0)>(l: seq<Chunk<T>>, i: nat)
    requires i < |l|
    reads l[i]
  {
    l[i].next == At(l, i + 1)
  }

  ghost predicate Linked<T(0)>(l: seq<Chunk<T>>)
    reads l
  {
    forall i {:trigger NextOk(l, i)} :: 0 <= i < |l| ==> NextOk(l, i)
  }

  ghost predicate Apart<T(0)>(l: seq<Chunk<T>>, i: nat, j: nat)
    requires i < |l| && j < |l|
  {
    i != j ==> l[i] != l[j] && l[i].items != l[j].items
  }

  /** No two chunks share anything. */
  ghost predicate AllApart<T(0)>(l: seq<Chunk<T>>) {
    forall i, j {:trigger Apart(l, i, j)} :: 0 <= i < |l| && 0 <= j < |l| ==> Apart(l, i, j)
  }

  class ChunkedFifo<T(0)> {
    const itemsPerChunk: nat
    var frontChunk: Chunk?<T>
    var backChunk: Chunk?<T>
    var nchunks: nat
    var freeChunks: Chunk?<T>
    var nfreeChunks: nat
    // the chunks in use, oldest first, what each holds, and the chunks saved
    ghost var chunks: seq<Chunk<T>>
    ghost var parts: seq<seq<T>>
    ghost var free: seq<Chunk<T>>
    // how many chunks were allocated, and all the storage in use
    ghost var allocations: nat
    ghost var repr: set<object>

    ghost function Content(): seq<T>
      reads this
    {
      Flatten(parts)
    }

    /** The list fields describe `chunks` and `free`. */
    ghost predicate Shape()
      reads this, chunks, free
    {
      && IsChunkSize(itemsPerChunk) && AllApart(chunks + free)
      && |parts| == |chunks| == nchunks && |free| == nfreeChunks
      && frontChunk == At(chunks, 0) && backChunk == (if chunks == [] then null else chunks[|chunks| - 1])
      && freeChunks == At(free, 0) && Linked(chunks) && Linked(free)
      && (forall c :: c in free ==> c.items.Length == itemsPerChunk && c in repr && c.items in repr)
      && (forall c :: c in chunks ==> c in repr && c.items in repr)
    }

    ghost predicate ChunksOk()
      requires |parts| == |chunks|
      reads this, chunks, set c | c in chunks :: c.items
    {
      forall i {:trigger ChunkOk(chunks[i], parts[i], itemsPerChunk)} :: 0 <= i < |chunks| ==>
        ChunkOk(chunks[i], parts[i], itemsPerChunk)
    }

    ghost predicate ValidBut(filling: bool)
      reads this, chunks, free, set c | c in chunks :: c.items
    {
      Shape() && ChunksOk() && PartsOk(parts, itemsPerChunk, filling)
    }

    ghost predicate Valid()
      reads this, chunks, free, set c | c in chunks :: c.items
    {
      ValidBut(false)
    }

    constructor (n: nat)
      requires IsChunkSize(n)
      ensures Valid() && Content() == [] && itemsPerChunk == n && free == [] && chunks == []
    {
      itemsPerChunk := n;
      frontChunk, backChunk, freeChunks := null, null, null;
      nchunks, nfreeChunks := 0, 0;
      chunks, parts, free, allocations, repr := [], [], [], 0, {};
    }

    predicate Empty()
      requires Valid()
      reads this, chunks, free, set c | c in chunks :: c.items
      ensures Empty() <==> Content() == []
    {
      assert parts != [] ==> parts[0] != [];
      frontChunk == null
    }

    /** Pushes that need no new chunk. */
    ghost function Room(): int
      reads this
    {
      RoomOf(parts, nfreeChunks, itemsPerChunk)
    }

    /** Stores an item in the back chunk, which has room for it. */
    method Store(x: T)
      requires ValidBut(true) && parts != [] && |parts[|parts| - 1]| < itemsPerChunk
      modifies this`parts, backChunk`end, backChunk.items
      ensures Valid() && Content() == old(Content()) + [x]
      ensures parts == old(parts)[|parts| - 1 := old(parts)[|parts| - 1] + [x]] && Room() == old(Room()) - 1
    {
      ghost var k := |chunks| - 1;
      assert ChunkOk(chunks[k], parts[k], itemsPerChunk);
      FlattenPush(parts, x);
      backChunk.Add(x, parts[k]);
      parts := parts[k := parts[k] + [x]];
      forall i {:trigger ChunkOk(chunks[i], parts[i], itemsPerChunk)} | 0 <= i < |chunks|
        ensures ChunkOk(chunks[i], parts[i], itemsPerChunk)
      {
        assert Apart(chunks + free, i, k);
        assert i < k ==> old(ChunkOk(chunks[i], parts[i], itemsPerChunk));
      }
      forall i {:trigger NextOk(chunks, i)} | 0 <= i < |chunks|
        ensures NextOk(chunks, i)
      {
        assert old(NextOk(chunks, i));
      }
      forall i {:trigger NextOk(free, i)} | 0 <= i < |free|
        ensures NextOk(free, i)
      {
        assert old(NextOk(free, i));
      }
    }

    /** A chunk from the saved ones, or a new one. */
    method TakeChunk() returns (c: Chunk<T>)
      requires Valid()
      modifies this`freeChunks, this`nfreeChunks, this`free, this`allocations, this`repr
      ensures fresh(repr - old(repr)) && old(repr) <= repr && c in repr && c.items in repr
      ensures Valid() && c !in chunks && c !in free && AllApart((chunks + [c]) + free)
      ensures c.items.Length == itemsPerChunk && ((fresh(c) && fresh(c.items)) || c == old(freeChunks))
      ensures old(free) == [] ==> free == [] && allocations == old(allocations) + 1
      ensures old(free) != [] ==> free == old(free)[1..] && allocations == old(allocations)
    {
      if freeChunks == null {
        assert free == [] && chunks + free == chunks;
        c := new Chunk(itemsPerChunk);
        allocations := allocations + 1;
        repr := repr + {c, c.items};
        NewApart(chunks, c);
        assert (chunks + [c]) + free == chunks + [c];
        return;
      }
      c := freeChunks;
      assert NextOk(free, 0);
      MoveApart(chunks, free);
      TailLinked(free);
      freeChunks := freeChunks.next;
      nfreeChunks := nfreeChunks - 1;
      free := free[1..];
    }

    /** Makes the empty chunk `c` the last one. */
    method LinkBack(c: Chunk<T>)
      requires Valid() && (parts != [] ==> |parts[|parts| - 1]| == itemsPerChunk)
      requires c !in chunks && c !in free && AllApart((chunks + [c]) + free)
      requires c in repr && c.items in repr && c.items.Length == itemsPerChunk && c.next == null && c.begin == c.end == 0
      modifies this`frontChunk, this`backChunk, this`nchunks, this`chunks, this`parts, backChunk
      ensures ValidBut(true) && parts == old(parts) + [[]] && chunks == old(chunks) + [c]
    {
      if backChunk == null {
        assert (chunks + [c]) + free == [c] + free;
        LinkFirst(c);
        return;
      }
      ghost var k := |chunks| - 1;
      assert chunks + ([c] + free) == (chunks + [c]) + free;
      Separate(chunks, [c] + free);
      backChunk.next := c;
      backChunk := c;
      nchunks := nchunks + 1;
      chunks := chunks + [c];
      parts := parts + [[]];
      forall i {:trigger NextOk(chunks, i)} | 0 <= i < |chunks|
        ensures NextOk(chunks, i)
      {
        assert i < k ==> old(NextOk(chunks, i)) && Apart(chunks + free, i, k);
      }
      forall i {:trigger NextOk(free, i)} | 0 <= i < |free|
        ensures NextOk(free, i)
      {
        assert old(NextOk(free, i)) && free[i] in [c] + free;
      }
      forall i {:trigger ChunkOk(chunks[i], parts[i], itemsPerChunk)} | 0 <= i < |chunks|
        ensures ChunkOk(chunks[i], parts[i], itemsPerChunk)
      {
        assert i <= k ==> old(ChunkOk(chunks[i], parts[i], itemsPerChunk));
      }
    }

    /** Makes the empty chunk `c` the only one. */
    method LinkFirst(c: Chunk<T>)
      requires Valid() && chunks == [] && c !in free && AllApart([c] + free)
      requires c in repr && c.items in repr && c.items.Length == itemsPerChunk && c.next == null && c.begin == c.end == 0
      modifies this`frontChunk, this`backChunk, this`nchunks, this`chunks, this`parts
      ensures ValidBut(true) && parts == [[]] && chunks == [c]
    {
      frontChunk, backChunk := c, c;
      nchunks := nchunks + 1;
      chunks, parts := [c], [[]];
      assert NextOk(chunks, 0);
    }

    /** Appends an empty chunk. */
    method BackChunkNew()
      requires Valid() && (parts != [] ==> |parts[|parts| - 1]| == itemsPerChunk)
      modifies this`freeChunks, this`nfreeChunks, this`free, this`allocations, this`repr, this`frontChunk,
               this`backChunk, this`nchunks, this`chunks, this`parts, backChunk, freeChunks
      ensures ValidBut(true) && parts == old(parts) + [[]]
      ensures old(free) == [] ==> free == [] && allocations == old(allocations) + 1
      ensures old(free) != [] ==> free == old(free)[1..] && allocations == old(allocations)
      ensures chunks == old(chunks) + [backChunk]
      ensures fresh(repr - old(repr))
    {
      var c := TakeChunk();
      c.next := null;
      c.begin := 0;
      c.end := 0;
      LinkBack(c);
    }

    method EnsureRoomBack()
      requires Valid()
      modifies this`freeChunks, this`nfreeChunks, this`free, this`allocations, this`repr, this`frontChunk,
               this`backChunk, this`nchunks, this`chunks, this`parts, backChunk, freeChunks
      ensures ValidBut(true) && parts != [] && |parts[|parts| - 1]| < itemsPerChunk
      ensures parts == if BackHasRoom(old(parts)) then old(parts) else old(parts) + [[]]
      ensures chunks == if BackHasRoom(old(parts)) then old(chunks) else old(chunks) + [backChunk]
      ensures free == if BackHasRoom(old(parts)) || old(free) == [] then old(free) else old(free)[1..]
      ensures fresh(repr - old(repr)) && Content() == old(Content())
      ensures old(Room()) > 0 ==> allocations == old(allocations) && Room() == old(Room())
    {
      FlattenEmpty(parts);
      if backChunk == null {
        RoomMoves(parts, nfreeChunks, itemsPerChunk);
        BackChunkNew();
        return;
      }
      ghost var k := |chunks| - 1;
      assert ChunkOk(chunks[k], parts[k], itemsPerChunk);
      HeldIsCount(backChunk.items[..], backChunk.begin, backChunk.end, parts[k]);
      if Held(backChunk.begin, backChunk.end) == itemsPerChunk {
        RoomMoves(parts, nfreeChunks, itemsPerChunk);
        BackChunkNew();
        return;
      }
    }

    ghost predicate BackHasRoom(p: seq<seq<T>>) {
      p != [] && |p[|p| - 1]| < itemsPerChunk
    }

    /** Drops the back chunk if it is empty: the one before it is found by walking the list. */
    method UndoRoomBack()
      requires ValidBut(true) && parts != []
      modifies this`frontChunk, this`backChunk, this`nchunks, this`chunks, this`parts, chunks
      ensures Valid() && Content() == old(Content())
      ensures old(parts[|parts| - 1]) != [] ==> chunks == old(chunks) && parts == old(parts)
      ensures old(parts[|parts| - 1]) == [] ==>
        chunks == old(chunks)[..|old(chunks)| - 1] && parts == old(parts)[..|old(parts)| - 1]
    {
      ghost var k := |chunks| - 1;
      assert ChunkOk(chunks[k], parts[k], itemsPerChunk);
      HeldIsCount(backChunk.items[..], backChunk.begin, backChunk.end, parts[k]);
      if backChunk.begin != backChunk.end {
        return;
      }
      assert parts == parts[..k] + [[]];
      FlattenEmpty(parts[..k]);
      if nchunks == 1 {
        DropLast(chunks, free);
        nchunks := 0;
        frontChunk, backChunk := null, null;
        chunks, parts := [], [];
        return;
      }
      CutBack();
    }

    /** The last of several chunks, which is empty, leaves the list. */
    method CutBack()
      requires ValidBut(true) && |chunks| >= 2 && parts[|parts| - 1] == []
      modifies this`backChunk, this`nchunks, this`chunks, this`parts, chunks
      ensures Valid()
      ensures chunks == old(chunks)[..|old(chunks)| - 1] && parts == old(parts)[..|old(parts)| - 1]
    {
      ghost var k := |chunks| - 1;
      DropLast(chunks, free);
      var prev := FindBefore(backChunk);
      nchunks := nchunks - 1;
      backChunk := prev;
      prev.next := null;
      chunks, parts := chunks[..k], parts[..k];
      forall i {:trigger NextOk(chunks, i)} | 0 <= i < |chunks|
        ensures NextOk(chunks, i)
      {
        assert old(NextOk(chunks, i)) && Apart(old(chunks) + free, i, k - 1);
      }
      forall i {:trigger NextOk(free, i)} | 0 <= i < |free|
        ensures NextOk(free, i)
      {
        assert old(NextOk(free, i)) && free[i] in free && prev in old(chunks);
      }
      forall i {:trigger ChunkOk(chunks[i], parts[i], itemsPerChunk)} | 0 <= i < |chunks|
        ensures ChunkOk(chunks[i], parts[i], itemsPerChunk)
      {
        assert old(ChunkOk(chunks[i], parts[i], itemsPerChunk));
      }
    }

    /** The chunk before the last one. */
    method FindBefore(last: Chunk<T>) returns (p: Chunk<T>)
      requires ValidBut(true) && |chunks| >= 2 && last == chunks[|chunks| - 1]
      ensures p == chunks[|chunks| - 2]
    {
      p := frontChunk;
      ghost var i := 0;
      assert NextOk(chunks, 0);
      while p.next != last
        invariant i <= |chunks| - 2 && p == chunks[i] && NextOk(chunks, i)
        decreases |chunks| - i
      {
        assert Apart(chunks + free, i + 1, |chunks| - 1);
        assert NextOk(chunks, i + 1);
        p := p.next;
        i := i + 1;
      }
      assert Apart(chunks + free, i + 1, |chunks| - 1);
    }

    /** Appends an item; when its constructor throws, everything is as it was, except that a
        saved chunk may have been lost. */
    method PushBack(x: T, throws: bool) returns (ok: bool)
      requires Valid()
      modifies this, repr
      ensures Valid() && ok == !throws
      ensures Content() == if ok then old(Content()) + [x] else old(Content())
      ensures !ok ==> chunks == old(chunks) && parts == old(parts) && nchunks == old(nchunks)
      ensures !ok ==> free == old(free) || (old(free) != [] && free == old(free)[1..])
      ensures ok && old(Room()) > 0 ==> allocations == old(allocations) && Room() == old(Room()) - 1
      ensures fresh(repr - old(repr))
    {
      if throws {
        Attempt();
        return false;
      }
      Add(x);
      return true;
    }

    /** A push whose item does not get constructed. */
    method Attempt()
      requires Valid()
      modifies this, repr
      ensures Valid() && Content() == old(Content())
      ensures chunks == old(chunks) && parts == old(parts) && nchunks == old(nchunks)
      ensures free == old(free) || (old(free) != [] && free == old(free)[1..])
      ensures fresh(repr - old(repr))
    {
      EnsureRoomBack();
      UndoRoomBack();
    }

    /** A push whose item does. */
    method Add(x: T)
      requires Valid()
      modifies this, repr
      ensures Valid() && Content() == old(Content()) + [x] && fresh(repr - old(repr))
      ensures old(Room()) > 0 ==> allocations == old(allocations) && Room() == old(Room()) - 1
    {
      EnsureRoomBack();
      Store(x);
    }

    function Front(): T
      requires Valid() && Content() != []
      reads this, chunks, free, set c | c in chunks :: c.items
      ensures Front() == Content()[0]
    {
      assert ChunkOk(chunks[0], parts[0], itemsPerChunk);
      HoldsPop(frontChunk.items[..], frontChunk.begin, frontChunk.end, parts[0]);
      FlattenEnds(parts);
      frontChunk.items[Mask(frontChunk.begin, itemsPerChunk)]
    }

    function Back(): T
      requires Valid() && Content() != []
      reads this, chunks, free, set c | c in chunks :: c.items
      ensures Back() == Content()[|Content()| - 1]
    {
      assert ChunkOk(chunks[|chunks| - 1], parts[|chunks| - 1], itemsPerChunk);
      HoldsBack(backChunk.items[..], backChunk.begin, backChunk.end, parts[|chunks| - 1]);
      FlattenEnds(parts);
      backChunk.items[Mask(Wrap(backChunk.end + WORD - 1), itemsPerChunk)]
    }

    /** The front chunk, which is empty, leaves the list. */
    method UnlinkFront() returns (c: Chunk<T>)
      requires Shape() && ChunksOk() && chunks != [] && parts[0] == [] && PartsOk(parts[1..], itemsPerChunk, false)
      modifies this`frontChunk, this`backChunk, this`nchunks, this`chunks, this`parts
      ensures Valid() && c == old(frontChunk) && chunks == old(chunks)[1..] && parts == old(parts)[1..]
      ensures c !in chunks && c !in free && AllApart(chunks + ([c] + free))
      ensures c.items.Length == itemsPerChunk && c in repr && c.items in repr
    {
      c := frontChunk;
      var next := c.next;
      assert NextOk(chunks, 0) && ChunkOk(chunks[0], parts[0], itemsPerChunk);
      TailLinked(chunks);
      FrontApart(chunks, free);
      backChunk := if backChunk == frontChunk then null else backChunk;
      frontChunk := next;
      nchunks := nchunks - 1;
      chunks, parts := chunks[1..], parts[1..];
      forall i {:trigger ChunkOk(chunks[i], parts[i], itemsPerChunk)} | 0 <= i < |chunks|
        ensures ChunkOk(chunks[i], parts[i], itemsPerChunk)
      {
        assert old(ChunkOk(chunks[i + 1], parts[i + 1], itemsPerChunk));
      }
    }

    /** A chunk no longer in use is saved. */
    method SaveChunk(c: Chunk<T>)
      requires Valid() && c !in chunks && c !in free && AllApart(chunks + ([c] + free))
      requires c.items.Length == itemsPerChunk && c in repr && c.items in repr
      modifies this`freeChunks, this`nfreeChunks, this`free, c`next
      ensures Valid() && free == [c] + old(free)
    {
      c.next := freeChunks;
      freeChunks := c;
      nfreeChunks := nfreeChunks + 1;
      free := [c] + free;
      forall i {:trigger NextOk(chunks, i)} | 0 <= i < |chunks|
        ensures NextOk(chunks, i)
      {
        assert chunks[i] in chunks && old(NextOk(chunks, i));
      }
      assert NextOk(free, 0);
      forall i {:trigger NextOk(free, i)} | 0 < i < |free|
        ensures NextOk(free, i)
      {
        assert free[i] in old(free) && old(NextOk(free, i - 1));
      }
      forall i {:trigger ChunkOk(chunks[i], parts[i], itemsPerChunk)} | 0 <= i < |chunks|
        ensures ChunkOk(chunks[i], parts[i], itemsPerChunk)
      {
        assert old(ChunkOk(chunks[i], parts[i], itemsPerChunk));
      }
    }

    /** The front chunk, which is empty, leaves the list; one chunk may be saved. */
    method FrontChunkDelete()
      requires Shape() && ChunksOk() && chunks != [] && parts[0] == [] && PartsOk(parts[1..], itemsPerChunk, false)
      modifies this`frontChunk, this`backChunk, this`nchunks, this`freeChunks, this`nfreeChunks,
               this`chunks, this`parts, this`free, frontChunk`next
      ensures Valid() && chunks == old(chunks)[1..] && parts == old(parts)[1..]
      ensures free == if old(|free|) < SAVE_FREE_CHUNKS then [old(chunks)[0]] + old(free) else old(free)
    {
      var c := UnlinkFront();
      if nfreeChunks < SAVE_FREE_CHUNKS {
        SaveChunk(c);
      }
    }

    method PopFront()
      requires Valid() && Content() != []
      modifies this`frontChunk, this`backChunk, this`nchunks, this`freeChunks, this`nfreeChunks,
               this`chunks, this`parts, this`free, frontChunk
      ensures Valid() && Content() == old(Content())[1..]
    {
      PopFlatten(parts);
      DropFront();
      if frontChunk.begin == frontChunk.end {
        FrontChunkDelete();
      }
    }

    /** Counts the oldest item out of the front chunk, which may leave it empty. */
    method DropFront()
      requires Valid() && chunks != []
      modifies this`parts, frontChunk`begin
      ensures Shape() && ChunksOk() && parts == old(parts)[0 := old(parts)[0][1..]]
      ensures PartsOk(parts[1..], itemsPerChunk, false) && (parts[0] != [] ==> PartsOk(parts, itemsPerChunk, false))
      ensures frontChunk.begin == frontChunk.end <==> parts[0] == []
    {
      assert ChunkOk(chunks[0], parts[0], itemsPerChunk);
      frontChunk.Drop(parts[0]);
      parts := parts[0 := parts[0][1..]];
      forall i {:trigger ChunkOk(chunks[i], parts[i], itemsPerChunk)} | 0 <= i < |chunks|
        ensures ChunkOk(chunks[i], parts[i], itemsPerChunk)
      {
        assert Apart(chunks + free, i, 0);
        assert i > 0 ==> old(ChunkOk(chunks[i], parts[i], itemsPerChunk));
      }
      forall i {:trigger NextOk(chunks, i)} | 0 <= i < |chunks|
        ensures NextOk(chunks, i)
      {
        assert old(NextOk(chunks, i));
      }
      forall i {:trigger NextOk(free, i)} | 0 <= i < |free|
        ensures NextOk(free, i)
      {
        assert old(NextOk(free, i));
      }
    }

    /** The number of items, if the counters and the full chunks between them add up to it. */
    function Size(): (size: nat)
      requires Valid() && |Content()| < SIZE_T
      reads this, chunks, free, set c | c in chunks :: c.items
      ensures size == |Content()| <==> !BothEndsFull()
      ensures size <= |Content()|
    {
      if frontChunk == null then
        0
      else
        assert ChunkOk(chunks[0], parts[0], itemsPerChunk);
        assert ChunkOk(chunks[|chunks| - 1], parts[|chunks| - 1], itemsPerChunk);
        HeldIsCount(frontChunk.items[..], frontChunk.begin, frontChunk.end, parts[0]);
        HeldIsCount(backChunk.items[..], backChunk.begin, backChunk.end, parts[|chunks| - 1]);
        SizeExact(parts, itemsPerChunk);
        SizeFormula(nchunks, Held(frontChunk.begin, frontChunk.end), Held(backChunk.begin, backChunk.end), itemsPerChunk)
    }

    /** Two chunks or more of 2^31 items, the first and the last of them full. */
    ghost predicate BothEndsFull()
      reads this
    {
      itemsPerChunk == 0x8000_0000 && |parts| >= 2 && |parts[0]| == |parts[|parts| - 1]| == itemsPerChunk
    }

    /** Pushes that the back chunk has room for. */
    ghost function BackRoom(): (room: nat)
      requires Valid()
      reads this, chunks, free, set c | c in chunks :: c.items
      ensures room < itemsPerChunk
    {
      assert parts != [] ==> parts[|parts| - 1] != [];
      if parts == [] then 0 else itemsPerChunk - |parts[|parts| - 1]|
    }

    /** What `reserve(n)` lacks can be rounded up to whole chunks in 64 bits. */
    ghost predicate RoundsUp(n: nat)
      requires Valid() && |Content()| < SIZE_T
      reads this, chunks, free, set c | c in chunks :: c.items
    {
      n - Size() - BackRoom() <= SIZE_T - itemsPerChunk
    }

    /** Allocates chunks so that the queue can grow to `n` items without allocating. */
    method Reserve(n: nat)
      requires Valid() && |Content()| < SIZE_T && n < SIZE_T
      modifies this`freeChunks, this`nfreeChunks, this`free, this`allocations, this`repr
      ensures Valid() && (old(RoundsUp(n)) ==> Room() >= n - |Content()|)
      ensures |free| == Max(|old(free)|, NeededChunks(n, old(Size()), old(BackRoom()), itemsPerChunk))
      ensures parts == old(parts) && chunks == old(chunks) && fresh(repr - old(repr))
    {
      var needed := Needed(n);
      if needed <= nfreeChunks {
        MoreChunksMoreRoom(needed, nfreeChunks, itemsPerChunk);
        return;
      }
      SaveChunks(needed - nfreeChunks);
    }

    /** The chunks that `reserve` asks for. */
    method Needed(n: nat) returns (needed: nat)
      requires Valid() && |Content()| < SIZE_T && n < SIZE_T
      ensures needed == NeededChunks(n, Size(), BackRoom(), itemsPerChunk)
      ensures RoundsUp(n) ==> needed * itemsPerChunk + BackRoom() >= n - |Content()|
    {
      var room: nat := 0;
      if backChunk != null {
        assert ChunkOk(chunks[|chunks| - 1], parts[|chunks| - 1], itemsPerChunk);
        HeldIsCount(backChunk.items[..], backChunk.begin, backChunk.end, parts[|chunks| - 1]);
        room := itemsPerChunk - Held(backChunk.begin, backChunk.end);
      }
      needed := NeededChunks(n, Size(), room, itemsPerChunk);
      if Size() <= n {
        NeededChunksEnough(n, Size(), room, itemsPerChunk);
      } else {
        MoreChunksMoreRoom(0, needed, itemsPerChunk);
      }
    }

    /** Allocates chunks to the saved ones. */
    method SaveChunks(count: nat)
      requires Valid()
      modifies this`freeChunks, this`nfreeChunks, this`free, this`allocations, this`repr
      ensures Valid() && nfreeChunks == old(nfreeChunks) + count && fresh(repr - old(repr))
    {
      for i := 0 to count
        invariant Valid() && nfreeChunks == old(nfreeChunks) + i && fresh(repr - old(repr))
      {
        SaveNew();
      }
    }

    method SaveNew()
      requires Valid()
      modifies this`freeChunks, this`nfreeChunks, this`free, this`allocations, this`repr
      ensures Valid() && nfreeChunks == old(nfreeChunks) + 1 && fresh(repr - old(repr))
    {
      var c := new Chunk(itemsPerChunk);
      NewSaved(chunks, free, c);
      allocations := allocations + 1;
      repr := repr + {c, c.items};
      SaveChunk(c);
    }

    /** What `reserve` promises its caller: growing to `n` items allocates nothing more. */
    method ReserveAndPush(n: nat, xs: seq<T>) returns (ghost reserved: nat)
      requires Valid() && |Content()| + |xs| <= n < SIZE_T && RoundsUp(n)
      modifies this, repr
      ensures Valid() && Content() == old(Content()) + xs && allocations == reserved
    {
      Reserve(n);
      reserved := allocations;
      PushAll(xs);
    }

    method PushAll(xs: seq<T>)
      requires Valid() && |xs| <= Room()
      modifies this, repr
      ensures Valid() && Content() == old(Content()) + xs && allocations == old(allocations)
    {
      for i := 0 to |xs|
        invariant Valid() && Content() == old(Content()) + xs[..i] && allocations == old(allocations)
        invariant Room() >= |xs| - i && fresh(repr - old(repr))
      {
        var ok := PushBack(xs[i], false);
        assert xs[..i + 1] == xs[..i] + [xs[i]];
      }
      assert xs[..|xs|] == xs;
    }
  }

  lemma MoreChunksMoreRoom(a: nat, b: nat, n: nat)
    requires a <= b
    ensures a * n <= b * n
  {
  }

  lemma NewSaved<T(0)>(a: seq<Chunk<T>>, b: seq<Chunk<T>>, c: Chunk<T>)
    requires AllApart(a + b) && forall x :: x in a + b ==> x != c && x.items != c.items
    ensures AllApart(a + ([c] + b))
  {
    var r := a + ([c] + b);
    forall i, j {:trigger Apart(r, i, j)} | 0 <= i < |r| && 0 <= j < |r|
      ensures Apart(r, i, j)
    {
      var k := |a|;
      if i != k && j != k {
        assert Apart(a + b, if i < k then i else i - 1, if j < k then j else j - 1);
      } else if i != k {
        assert r[i] in a + b;
      } else if j != k {
        assert r[j] in a + b;
      }
    }
  }

  lemma PopFlatten<T>(parts: seq<seq<T>>)
    requires parts != [] && parts[0] != []
    ensures Flatten(parts[0 := parts[0][1..]]) == Flatten(parts)[1..]
    ensures |parts[0]| == 1 ==> Flatten(parts[1..]) == Flatten(parts)[1..]
  {
    assert parts[0 := parts[0][1..]][1..] == parts[1..];
  }

  lemma FrontApart<T(0)>(a: seq<Chunk<T>>, b: seq<Chunk<T>>)
    requires AllApart(a + b) && a != []
    ensures AllApart(a[1..] + b) && AllApart(a[1..] + ([a[0]] + b))
    ensures a[0] !in a[1..] && a[0] !in b
  {
    var r := a[1..] + b;
    Separate(a, b);
    assert a[0] in a;
    forall i, j {:trigger Apart(r, i, j)} | 0 <= i < |r| && 0 <= j < |r|
      ensures Apart(r, i, j)
    {
      assert Apart(a + b, i + 1, j + 1);
    }
    var k := |a| - 1;
    var t := a[1..] + ([a[0]] + b);
    forall i, j {:trigger Apart(t, i, j)} | 0 <= i < |t| && 0 <= j < |t|
      ensures Apart(t, i, j)
    {
      assert Apart(a + b, if i < k then i + 1 else if i == k then 0 else i, if j < k then j + 1 else if j == k then 0 else j);
    }
    forall i | 0 <= i < |a[1..]|
      ensures a[1..][i] != a[0]
    {
      assert Apart(a + b, 0, i + 1);
    }
  }

  lemma DropLast<T(0)>(a: seq<Chunk<T>>, b: seq<Chunk<T>>)
    requires AllApart(a + b) && a != []
    ensures AllApart(a[..|a| - 1] + b)
    ensures forall x, y :: x in a && y in b ==> x != y && x.items != y.items
  {
    var k := |a| - 1;
    var r := a[..k] + b;
    Separate(a, b);
    forall i, j {:trigger Apart(r, i, j)} | 0 <= i < |r| && 0 <= j < |r|
      ensures Apart(r, i, j)
    {
      assert Apart(a + b, if i < k then i else i + 1, if j < k then j else j + 1);
    }
  }

  lemma NewApart<T(0)>(l: seq<Chunk<T>>, c: Chunk<T>)
    requires AllApart(l) && c !in l && forall x :: x in l ==> x.items != c.items
    ensures AllApart(l + [c])
  {
    forall i, j {:trigger Apart(l + [c], i, j)} | 0 <= i < |l + [c]| && 0 <= j < |l + [c]|
      ensures Apart(l + [c], i, j)
    {
      assert i < |l| && j < |l| ==> Apart(l, i, j);
    }
  }

  lemma MoveApart<T(0)>(a: seq<Chunk<T>>, b: seq<Chunk<T>>)
    requires AllApart(a + b) && b != []
    ensures AllApart((a + [b[0]]) + b[1..]) && AllApart(a + b[1..]) && b[0] !in a && b[0] !in b[1..]
  {
    assert (a + [b[0]]) + b[1..] == a + b;
    var r := a + b[1..];
    forall i, j {:trigger Apart(r, i, j)} | 0 <= i < |r| && 0 <= j < |r|
      ensures Apart(r, i, j)
    {
      assert Apart(a + b, if i < |a| then i else i + 1, if j < |a| then j else j + 1);
    }
    forall i | 0 <= i < |a|
      ensures a[i] != b[0]
    {
      assert Apart(a + b, i, |a|);
    }
    forall i | 0 <= i < |b[1..]|
      ensures b[1..][i] != b[0]
    {
      assert Apart(a + b, |a|, |a| + 1 + i);
    }
  }

  lemma Separate<T(0)>(a: seq<Chunk<T>>, b: seq<Chunk<T>>)
    requires AllApart(a + b)
    ensures forall x, y :: x in a && y in b ==> x != y && x.items != y.items
  {
    forall x, y | x in a && y in b
      ensures x != y && x.items != y.items
    {
      var i :| 0 <= i < |a| && a[i] == x;
      var j :| 0 <= j < |b| && b[j] == y;
      assert Apart(a + b, i, |a| + j);
    }
  }

  lemma TailLinked<T(0)>(l: seq<Chunk<T>>)
    requires Linked(l) && l != []
    ensures Linked(l[1..])
  {
    forall i {:trigger NextOk(l[1..], i)} | 0 <= i < |l[1..]|
      ensures NextOk(l[1..], i)
    {
      assert NextOk(l, i + 1);
    }
  }
}
