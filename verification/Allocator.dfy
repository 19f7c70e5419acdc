/** The allocator of one CPU: the page allocator, and the pools that serve small requests
    from spans of its pages. */
module Allocator {
  import opened Bits
  import opened PageLists
  import opened Tilings
  import opened PageAllocator
  import opened PoolSizing
  import opened Slabs
  import opened SmallPools
  import opened SizeClasses
  import opened Utils

  /** The pool identity of large allocations. */
  const NO_POOL: nat := 0

  /** The 32-bit number of pages a request of `size` bytes is rounded up to. */
  function PagesFor(size: nat): uint32 {
    (size + PAGE_SIZE - 1) / PAGE_SIZE % 0x1_0000_0000
  }

  /** The pages of a request hold it exactly as long as their number fits in 32 bits. */
  lemma PagesSuffice(size: nat)
    ensures PagesFor(size) * PAGE_SIZE >= size <==> size <= 0xFFFF_FFFF * PAGE_SIZE
    ensures size > 0 && size <= 0xFFFF_FFFF * PAGE_SIZE ==> PagesFor(size) > 0
  {
    var n := (size + PAGE_SIZE - 1) / PAGE_SIZE;
    assert n * PAGE_SIZE <= size + PAGE_SIZE - 1 < n * PAGE_SIZE + PAGE_SIZE;
    if size <= 0xFFFF_FFFF * PAGE_SIZE {
      assert n <= 0xFFFF_FFFF;
    } else {
      assert n > 0xFFFF_FFFF;
      assert PagesFor(size) <= n - 0x1_0000_0000 by {
        assert n == n / 0x1_0000_0000 * 0x1_0000_0000 + PagesFor(size);
      }
    }
  }

  lemma PagesMost(size: nat)
    ensures PagesFor(size) * PAGE_SIZE < size + PAGE_SIZE
  {
    var n := (size + PAGE_SIZE - 1) / PAGE_SIZE;
    assert n * PAGE_SIZE <= size + PAGE_SIZE - 1;
    assert PagesFor(size) <= n;
  }

  /** One page fewer would not hold it. */
  lemma PagesLeast(size: nat)
    requires 0 < size <= 0xFFFF_FFFF * PAGE_SIZE
    ensures PagesFor(size) > 0 && (PagesFor(size) - 1) * PAGE_SIZE < size <= PagesFor(size) * PAGE_SIZE
  {
    var n := (size + PAGE_SIZE - 1) / PAGE_SIZE;
    assert n * PAGE_SIZE <= size + PAGE_SIZE - 1 < n * PAGE_SIZE + PAGE_SIZE;
    assert 0 < n <= 0xFFFF_FFFF;
  }

  /** An aligned request for 2^44 + 1 bytes is taken for one of a single page. */
  lemma PagesCutExample()
    ensures PagesFor(0x1000_0000_0001) == 1
  {
    DivModUnique(0x1000_0000_0001 + PAGE_SIZE - 1, PAGE_SIZE, 0x1_0000_0001, 0);
    DivModUnique(0x1_0000_0001, 0x1_0000_0000, 1, 1);
  }

  /** The 32-bit number of pages of an alignment, at least one page. */
  function AlignPages(align: nat): uint32 {
    Max(align, PAGE_SIZE) / PAGE_SIZE % 0x1_0000_0000
  }

  /** The pages of an aligned request and of its alignment add up to at most 2^32. */
  predicate Countable(align: nat, size: nat) {
    (Max(size, align) + PAGE_SIZE - 1) / PAGE_SIZE + Max(align, PAGE_SIZE) / PAGE_SIZE <= 0x1_0000_0000
  }

  /** That is so exactly when neither number is cut, and the sum that makes room for the
      alignment does not wrap. */
  lemma CountableIff(align: nat, size: nat)
    requires align > 0
    ensures Countable(align, size) <==>
            Alignable(AlignPages(align), PagesFor(Max(size, align))) && Max(size, align) <= 0xFFFF_FFFF * PAGE_SIZE
  {
    var s := Max(size, align);
    var n, a := (s + PAGE_SIZE - 1) / PAGE_SIZE, Max(align, PAGE_SIZE) / PAGE_SIZE;
    assert n * PAGE_SIZE <= s + PAGE_SIZE - 1 < n * PAGE_SIZE + PAGE_SIZE;
    assert a * PAGE_SIZE <= Max(align, PAGE_SIZE) < a * PAGE_SIZE + PAGE_SIZE;
    assert 1 <= a && 1 <= n;
    if n < 0x1_0000_0000 {
      DivModUnique(n, 0x1_0000_0000, 0, n);
    }
    if a < 0x1_0000_0000 {
      DivModUnique(a, 0x1_0000_0000, 0, a);
    }
  }

  /** 2^44 bytes at a multiple of two pages are taken for no pages at all, and a search for
      one page. */
  lemma NoPagesExample()
    ensures PagesFor(0x1000_0000_0000) == 0 && AlignPages(0x2000) == 2 && AlignedRequest(2, 0) == 1
    ensures !Countable(0x2000, 0x1000_0000_0000)
  {
    DivModUnique(0x1000_0000_0000 + PAGE_SIZE - 1, PAGE_SIZE, 0x1_0000_0000, PAGE_SIZE - 1);
    DivModUnique(0x1_0000_0000, 0x1_0000_0000, 1, 0);
    DivModUnique(0x2000, PAGE_SIZE, 2, 0);
  }

  /** 2^44 - 2^31 bytes at a multiple of 2^32: the pages fit in 32 bits, but their sum with
      those of the alignment wraps, and a search for 2^19 - 1 pages is made. */
  lemma WrappedSumExample()
    ensures PagesFor(0xFFF_8000_0000) == 0xFFF8_0000 && AlignPages(0x1_0000_0000) == 0x10_0000
    ensures AlignedRequest(0x10_0000, 0xFFF8_0000) == 0x7_FFFF
    ensures 0xFFF_8000_0000 <= 0xFFFF_FFFF * PAGE_SIZE && !Countable(0x1_0000_0000, 0xFFF_8000_0000)
  {
    DivModUnique(0xFFF_8000_0000 + PAGE_SIZE - 1, PAGE_SIZE, 0xFFF8_0000, PAGE_SIZE - 1);
    DivModUnique(0xFFF8_0000, 0x1_0000_0000, 0, 0xFFF8_0000);
    DivModUnique(0x1_0000_0000, PAGE_SIZE, 0x10_0000, 0);
    DivModUnique(0xFFF8_0000 + 0x10_0000 - 1, 0x1_0000_0000, 1, 0x7_FFFF);
  }

  /** Spans in use that belong to no pool, with their sizes. */
  ghost function LargeSpans(img: seq<Page>, spans: Spans): map<nat, nat> {
    map x | x in spans && !spans[x].free && x < |img| && img[x].pool == 0 :: spans[x].size
  }

  /** Memory a user holds: an object of a pool, or a span of pages. */
  datatype Region = SmallAt(pool: nat, obj: nat) | LargeAt(page: nat)

  /** An object lies in a span in use whose first page names the pool. */
  lemma ObjectExtent(g: Geometry, img: seq<Page>, spans: Spans, mine: set<nat>, homes: Homes, free: seq<nat>,
                     listed: seq<nat>, o: nat)
    requires PoolOk(g, img, spans, mine, homes, free, listed, 0) && o in homes
    ensures var h := homes[o].head;
      && Used(spans, h) && spans[h].size == g.spanSize && h < |img| && img[h].pool == g.id && h in mine
      && IsObj(g, h, o)
  {
    assert HomeOk(g, img, mine, homes, free, o);
    assert SlabSpan(g, img, spans, listed, 0, homes[o].head);
    assert OwnsPages(g, img, homes[o].head);
  }

  /** Two objects of one span do not overlap. */
  lemma ObjectsOfSpan(g: Geometry, h: nat, o: nat, p: nat)
    requires g.objectSize > 0 && IsObj(g, h, o) && IsObj(g, h, p) && o < p
    ensures o + g.objectSize <= p
  {
    var j := IsObjHasIndex(g, h, o);
    var k := IsObjHasIndex(g, h, p);
    if j < k {
      MultiplesApart(j, k, g.objectSize);
    } else {
      MulMonotonic(k, j, g.objectSize);
    }
  }

  lemma KeptPage(a: seq<Page>, b: seq<Page>, s0: Spans, s1: Spans, mine: set<nat>, x: nat)
    requires OthersKept(a, b, s0, s1, mine) && Used(s0, x) && x !in mine && s0[x].size > 0
    ensures Used(s1, x) && s1[x] == s0[x] && |a| == |b|
    ensures x < |a| ==> b[x].pool == a[x].pool
  {
    assert KeptSpan(a, b, s0, s1, x);
    assert x <= x < x + s0[x].size;
  }

  /** The heads of an owner's spans carry its tag. */
  ghost predicate TagsName(img: seq<Page>, mine: set<nat>, id: nat) {
    forall h :: h in mine ==> h < |img| && img[h].pool == id
  }

  ghost predicate Sized(spans: Spans) {
    forall x {:trigger Used(spans, x)} :: Used(spans, x) ==> spans[x].size > 0
  }

  /** A pool's spans name it. */
  lemma PoolTags(g: Geometry, img: seq<Page>, spans: Spans, mine: set<nat>, homes: Homes, free: seq<nat>, listed: seq<nat>)
    requires PoolOk(g, img, spans, mine, homes, free, listed, 0)
    ensures forall h :: h in mine ==> h < |img| && img[h].pool == g.id
    ensures g.id > 0
  {
    forall h | h in mine
      ensures h < |img| && img[h].pool == g.id
    {
      assert SlabSpan(g, img, spans, listed, 0, h) && OwnsPages(g, img, h);
    }
  }

  /** What an owner of spans does leaves the large allocations in place, unless they are the
      owner's. */
  lemma LargeKept(a: seq<Page>, b: seq<Page>, s0: Spans, s1: Spans, mine0: set<nat>, mine1: set<nat>, id: nat)
    requires OthersKept(a, b, s0, s1, mine0) && NoStray(s0, s1, mine0, mine1)
    requires id == 0 ==> forall x :: x in mine1 ==> x in mine0 || !Used(s0, x)
    requires forall x {:trigger Used(s0, x)} :: Used(s0, x) ==> s0[x].size > 0
    requires forall h :: h in mine0 ==> h < |a| && a[h].pool == id
    requires forall h :: h in mine1 ==> h < |b| && b[h].pool == id
    ensures id == 0 ==> LargeSpans(a, s0) - mine0 == LargeSpans(b, s1) - mine1
    ensures id > 0 ==> LargeSpans(a, s0) == LargeSpans(b, s1)
  {
    forall x: nat | x !in mine0 && x in LargeSpans(a, s0)
      ensures x in LargeSpans(b, s1) && LargeSpans(a, s0)[x] == LargeSpans(b, s1)[x] && (x in mine1 ==> id == 0)
    {
      assert Used(s0, x);
      KeptPage(a, b, s0, s1, mine0, x);
    }
    forall x: nat | x !in mine1 && x in LargeSpans(b, s1)
      ensures x in LargeSpans(a, s0) && x !in mine0
    {
      assert Used(s1, x) && Used(s0, x);
      KeptPage(a, b, s0, s1, mine0, x);
    }
  }

  /** Of the spans in use after a span was carved, only the part allocated is new. */
  lemma CarvedStray(s0: Spans, avail: Spans, s1: Spans, span: nat, t: Trim)
    requires Carved(avail, s1, span, t) && avail[span].free
    requires avail == s0 || (s0 == map[] && avail == Bootstrap())
    ensures NoStray(s0, s1, {}, {span + t.offset})
    ensures !Used(s0, span + t.offset)
    ensures span + t.offset in s1 && s1[span + t.offset] == Span(t.nrPages, false)
  {
    CarvedUsed(avail, s1, span, t);
  }

  lemma LargeResized(a: seq<Page>, b: seq<Page>, s0: Spans, s1: Spans, x: nat, n: nat)
    requires x in LargeSpans(a, s0) && LargeSpans(b, s1) - {x} == LargeSpans(a, s0) - {x}
    requires Frame(a, b, s0, s1) && x in s1 && s1[x] == Span(n, false)
    ensures LargeSpans(b, s1) == LargeSpans(a, s0)[x := n]
  {
    assert FrameAt(a, b, s0, s1, x);
    var m, k := LargeSpans(b, s1), LargeSpans(a, s0)[x := n];
    forall y | y != x
      ensures y in m <==> y in k
      ensures y in m ==> m[y] == k[y]
    {
      assert y in m <==> y in m - {x};
      assert y in k <==> y in LargeSpans(a, s0) - {x};
      assert y in m ==> m[y] == (m - {x})[y] && (LargeSpans(a, s0) - {x})[y] == k[y];
    }
  }

  ghost function Resized(large: map<nat, nat>, x: nat, n: nat): map<nat, nat> {
    if n > 0 then large[x := n] else large - {x}
  }

  lemma SpanSizes(img: seq<Page>, spans: Spans, base: nat, nr: nat)
    requires spans == map[] || Tiling(img, spans, base, nr, nr, nr)
    ensures forall x {:trigger Used(spans, x)} :: Used(spans, x) ==> spans[x].size > 0
  {
    forall x: nat {:trigger Used(spans, x)} | Used(spans, x)
      ensures spans[x].size > 0
    {
      SpanFacts(img, spans, base, nr, nr, nr, x);
    }
  }

  /** The span in use at `x`, if it is not the owner `id`'s, belongs to nobody or to another
      pool. */
  ghost predicate ClaimedBut(img: seq<Page>, spans: Spans, id: nat, mine: set<nat>, mines: seq<set<nat>>, x: nat) {
    Used(spans, x) && x < |img| && x !in mine ==>
      img[x].pool == 0 || (img[x].pool <= |mines| && img[x].pool != id && x in mines[img[x].pool - 1])
  }

  ghost predicate AllClaimed(img: seq<Page>, spans: Spans, id: nat, mine: set<nat>, mines: seq<set<nat>>) {
    forall x {:trigger ClaimedBut(img, spans, id, mine, mines, x)} :: ClaimedBut(img, spans, id, mine, mines, x)
  }

  lemma {:induction false} Divides(d: nat, a: nat, b: nat, k: nat)
    requires d > 0 && a % d == 0 && b % d == 0
    ensures (a + k * b) % d == 0
  {
    var x, y := a / d, b / d;
    assert a == x * d && b == y * d;
    assert a + k * b == (x + k * y) * d by {
      assert k * (y * d) == (k * y) * d;
      assert (x + k * y) * d == x * d + (k * y) * d;
    }
    MulMod(x + k * y, d);
  }

  /** Objects whose size is a power of two are aligned to the powers of two up to it, and up
      to the page size. */
  lemma SlabAligned(g: Geometry, h: nat, o: nat, k: nat, m: nat)
    requires g.objectSize == Pow2(m) && IsObj(g, h, o)
    requires k <= m && k <= 12 && g.mem % Pow2(k) == 0
    ensures o % Pow2(k) == 0
  {
    var i := IsObjHasIndex(g, h, o);
    PageIsPower();
    PowerDivides(k, 12);
    PowerDivides(k, m);
    Divides(Pow2(k), g.mem, PAGE_SIZE, h);
    Divides(Pow2(k), SpanPtr(g, h), Pow2(m), i);
  }

  lemma PowerOrder(a: nat, b: nat)
    ensures Pow2(a) <= Pow2(b) <==> a <= b
  {
    if a <= b {
      Pow2Monotonic(a, b);
    } else {
      Pow2Monotonic(b, a);
    }
  }

  lemma PageIsPower()
    ensures Pow2(12) == PAGE_SIZE
  {
    Pow2Add(4, 8);
    Pow2Words();
    assert Pow2(4) == 16;
  }

  /** The pages of a power of two are cut to all of them or to none. */
  lemma AlignPagesCut(align: nat, k: nat)
    requires align == Pow2(k) && AlignPages(align) > 0
    ensures AlignPages(align) == Max(align, PAGE_SIZE) / PAGE_SIZE
  {
    PageIsPower();
    Pow2Words();
    if k < 44 {
      Pow2Monotonic(k, 44);
      Pow2Add(12, 32);
      var a := Max(align, PAGE_SIZE) / PAGE_SIZE;
      assert a < 0x1_0000_0000;
      DivModUnique(a, 0x1_0000_0000, 0, a);
    } else {
      Pow2Monotonic(12, k);
      Pow2Add(k - 12, 12);
      MulMod(Pow2(k - 12), PAGE_SIZE);
      PowerDivides(32, k - 12);
    }
  }

  /** Whole pages at a multiple of the alignment are aligned, also to less than a page. */
  lemma PagesAligned(mem: nat, page: nat, align: nat, k: nat)
    requires align == Pow2(k) && mem % align == 0
    requires AlignPages(align) > 0 && page % AlignPages(align) == 0
    ensures (mem + page * PAGE_SIZE) % align == 0
  {
    AlignPagesCut(align, k);
    PageIsPower();
    if k <= 12 {
      PowerDivides(k, 12);
      Divides(align, mem, PAGE_SIZE, page);
    } else {
      Pow2Monotonic(12, k);
      PowerDivides(12, k);
      var q := align / PAGE_SIZE;
      assert align == q * PAGE_SIZE;
      var j := page / q;
      assert page == j * q;
      assert page * PAGE_SIZE == j * align by {
        assert (j * q) * PAGE_SIZE == j * (q * PAGE_SIZE);
      }
      Divides(align, mem, align, j);
    }
  }

  /** `Overrun`: the pages to allocate reach beyond the page array, and what the source does
      is undefined. */
  datatype Outcome = Memory(ptr: nat) | OutOfMemory | Overrun

  class CpuMemory {
    const cpu: CpuPages
    const pools: seq<SmallPool>

    ghost predicate PoolWired(i: nat)
      requires i < |pools|
    {
      && pools[i].cpu == cpu && pools[i].id == i + 1 && pools[i].objectSize == IdxToSize(i)
      && forall j :: 0 <= j < i ==> pools[j] != pools[i] && pools[j].spanList != pools[i].spanList
    }

    ghost predicate Wired() {
      && |pools| == NR_SMALL_POOLS
      && forall i {:trigger PoolWired(i)} :: 0 <= i < |pools| ==> PoolWired(i)
    }

    ghost function Lists(): set<PageList> {
      set i | 0 <= i < |pools| :: pools[i].spanList
    }

    ghost predicate PoolValid(i: nat)
      requires i < |pools| && PoolWired(i)
      reads cpu, cpu.pages, cpu.freeSpans, pools, Lists()
    {
      pools[i].Valid()
    }

    /** The span in use at `x` belongs to no pool, or to the one its first page names. */
    ghost predicate Claimed(x: nat)
      reads cpu, pools
    {
      Used(cpu.spans, x) && x < |cpu.img| ==>
        cpu.img[x].pool == 0 || (cpu.img[x].pool <= |pools| && x in pools[cpu.img[x].pool - 1].mine)
    }

    ghost predicate Valid()
      reads cpu, cpu.pages, cpu.freeSpans, pools, Lists()
    {
      && Wired() && cpu.Valid()
      && (forall i {:trigger PoolValid(i)} :: 0 <= i < |pools| && PoolWired(i) ==> PoolValid(i))
      && (forall x {:trigger Claimed(x)} :: Claimed(x))
    }

    ghost function Large(): map<nat, nat>
      reads cpu
    {
      LargeSpans(cpu.img, cpu.spans)
    }

    /** `r` is held by a user. */
    ghost predicate Live(r: Region)
      reads cpu, pools
    {
      match r
      case SmallAt(i, o) => i < |pools| && o in pools[i].InUse()
      case LargeAt(x) => x in Large()
    }

    ghost function Begin(r: Region): nat {
      match r
      case SmallAt(_, o) => o
      case LargeAt(x) => cpu.ToPtr(x)
    }

    ghost function Bytes(r: Region): nat
      requires Live(r)
      reads cpu, pools
    {
      match r
      case SmallAt(i, _) => pools[i].objectSize
      case LargeAt(x) => Large()[x] * PAGE_SIZE
    }

    /** The head of the span `r` lies in. */
    ghost function Head(r: Region): nat
      requires Live(r)
      reads cpu, pools
    {
      match r
      case SmallAt(i, o) => pools[i].homes[o].head
      case LargeAt(x) => x
    }

    ghost function Owner(r: Region): nat {
      match r
      case SmallAt(i, _) => i + 1
      case LargeAt(_) => 0
    }

    lemma Extent(r: Region)
      requires Valid() && Live(r)
      ensures Used(cpu.spans, Head(r)) && Head(r) < |cpu.img| && cpu.img[Head(r)].pool == Owner(r)
      ensures cpu.ToPtr(Head(r)) <= Begin(r) && Begin(r) + Bytes(r) <= cpu.ToPtr(Head(r) + cpu.spans[Head(r)].size)
      ensures r.SmallAt? ==> GeometryOk(pools[r.pool].Geo()) && IsObj(pools[r.pool].Geo(), Head(r), r.obj)
    {
      if r.SmallAt? {
        var p := pools[r.pool];
        assert PoolWired(r.pool) && PoolValid(r.pool);
        ObjectExtent(p.Geo(), cpu.img, cpu.spans, p.mine, p.homes, p.free, p.spanList.content, r.obj);
      }
    }

    /** Memory held by users never overlaps. */
    lemma LiveApart(q: Region, r: Region)
      requires Valid() && Live(q) && Live(r) && q != r
      ensures Begin(q) + Bytes(q) <= Begin(r) || Begin(r) + Bytes(r) <= Begin(q)
    {
      Extent(q);
      Extent(r);
      var x, y := Head(q), Head(r);
      if x == y {
        var g := pools[q.pool].Geo();
        if q.obj < r.obj {
          ObjectsOfSpan(g, x, q.obj, r.obj);
        } else {
          ObjectsOfSpan(g, x, r.obj, q.obj);
        }
      } else {
        assert Apart(cpu.spans, x, y) && Apart(cpu.spans, y, x);
      }
    }

    /** Memory held by users lies in the managed pages, away from the free spans. */
    lemma LiveNotFree(r: Region, x: nat)
      requires Valid() && Live(r)
      ensures cpu.ToPtr(cpu.base) <= Begin(r) && Begin(r) + Bytes(r) <= cpu.ToPtr(cpu.nrPages)
      ensures x in cpu.spans && cpu.spans[x].free ==>
        Begin(r) + Bytes(r) <= cpu.ToPtr(x) || cpu.ToPtr(x + cpu.spans[x].size) <= Begin(r)
    {
      Extent(r);
      SpanFacts(cpu.img, cpu.spans, cpu.base, cpu.nrPages, cpu.nrPages, cpu.nrPages, Head(r));
      if x in cpu.spans && cpu.spans[x].free {
        assert Apart(cpu.spans, x, Head(r)) && Apart(cpu.spans, Head(r), x);
      }
    }

    /** A fresh pool of class `i`. */
    static ghost predicate FreshPool(p: SmallPool, c: CpuPages, i: nat)
      reads p
    {
      && p.cpu == c && p.id == i + 1 && p.objectSize == IdxToSize(i) && AsMade(p) && p.homes == map[] && p.mine == {}
    }

    static method MakePools(c: CpuPages) returns (all: seq<SmallPool>)
      requires c.Valid()
      ensures |all| == NR_SMALL_POOLS
      ensures forall i {:trigger all[i]} :: 0 <= i < |all| ==> FreshPool(all[i], c, i) && all[i].Valid()
      ensures forall i, j :: 0 <= j < i < |all| ==> all[j] != all[i] && all[j].spanList != all[i].spanList
    {
      all := [];
      while |all| < NR_SMALL_POOLS
        invariant |all| <= NR_SMALL_POOLS
        invariant forall i {:trigger all[i]} :: 0 <= i < |all| ==>
          && allocated(all[i]) && allocated(all[i].spanList)
          && FreshPool(all[i], c, i) && all[i].Valid()
        invariant forall i, j :: 0 <= j < i < |all| ==> all[j] != all[i] && all[j].spanList != all[i].spanList
      {
        var i := |all|;
        PoolSizes(i);
        var p := new SmallPool(IdxToSize(i), i + 1, c);
        all := all + [p];
      }
    }

    /** Every pool has the limits it was made with; no operation changes them. */
    ghost predicate Limited()
      reads pools`minFree, pools`maxFree
    {
      forall i {:trigger pools[i]} :: 0 <= i < |pools| ==> AsMade(pools[i])
    }

    static ghost predicate AsMade(p: SmallPool)
      reads p`minFree, p`maxFree
    {
      p.objectSize > 0 && ChosenFor(p.objectSize, p.spanSize, p.minFree, p.maxFree)
    }

    function PoolAt(i: nat): SmallPool
      requires i < |pools|
    {
      pools[i]
    }

    constructor (memBase: nat)
      ensures Valid() && cpu.memory == memBase && forall r :: !Live(r)
      ensures Limited() && forall i {:trigger pools[i]} :: 0 <= i < NR_SMALL_POOLS ==> FreshPool(pools[i], cpu, i)
    {
      var c := new CpuPages(memBase);
      var all := MakePools(c);
      cpu, pools := c, all;
    }

    ghost function Rest(id: nat): set<SmallPool> {
      set j | 0 <= j < |pools| && j + 1 != id :: pools[j]
    }

    ghost function RestLists(id: nat): set<PageList> {
      set j | 0 <= j < |pools| && j + 1 != id :: pools[j].spanList
    }

    /** Pool `j` has the spans `mines[j]`, and its invariant holds of the page array `img`. */
    ghost predicate KeptBy(j: nat, img: seq<Page>, spans: Spans, mines: seq<set<nat>>)
      requires j < |pools| == |mines|
      reads pools[j], pools[j].spanList
    {
      pools[j].Keeps(img, spans) && pools[j].mine == mines[j]
    }

    /** What everyone but the owner `id` of the spans `mine` needs of the page allocator. */
    ghost predicate Elsewhere(img: seq<Page>, spans: Spans, id: nat, mine: set<nat>, mines: seq<set<nat>>)
      reads Rest(id), RestLists(id)
    {
      && |mines| == |pools|
      && (forall j {:trigger KeptBy(j, img, spans, mines)} :: 0 <= j < |pools| && j + 1 != id ==> KeptBy(j, img, spans, mines))
      && AllClaimed(img, spans, id, mine, mines)
    }

    lemma SetAside(id: nat, mine: set<nat>) returns (mines: seq<set<nat>>)
      requires Valid() && id <= |pools| && (id > 0 ==> mine == pools[id - 1].mine)
      ensures Elsewhere(cpu.img, cpu.spans, id, mine, mines)
      ensures id > 0 ==> pools[id - 1] !in Rest(id) && pools[id - 1].spanList !in RestLists(id)
      ensures forall j :: 0 <= j < |pools| && j + 1 != id ==> pools[j].spanList !in cpu.freeSpans
    {
      mines := seq(|pools|, j requires 0 <= j < |pools| reads pools => pools[j].mine);
      forall j | 0 <= j < |pools| && j + 1 != id
        ensures KeptBy(j, cpu.img, cpu.spans, mines) && pools[j].spanList !in cpu.freeSpans
      {
        assert PoolWired(j) && PoolValid(j);
      }
      forall x: nat {:trigger ClaimedBut(cpu.img, cpu.spans, id, mine, mines, x)}
        ensures ClaimedBut(cpu.img, cpu.spans, id, mine, mines, x)
      {
        assert Claimed(x);
      }
      if id > 0 {
        forall j | 0 <= j < |pools| && j + 1 != id
          ensures pools[j] != pools[id - 1] && pools[j].spanList != pools[id - 1].spanList
        {
          assert PoolWired(j) && PoolWired(id - 1);
        }
      }
    }

    /** A pool with another identity stays valid when one owner of spans works. */
    lemma OtherPool(j: nat, id: nat, others: set<nat>, a: seq<Page>, s0: Spans)
      requires Wired()
      requires cpu.Valid()
      requires j < |pools| && id != j + 1
      requires pools[j].Keeps(a, s0)
      requires forall h :: h in others ==> h < |a| && a[h].pool == id
      requires OthersKept(a, cpu.img, s0, cpu.spans, others)
      ensures PoolWired(j) && PoolValid(j)
    {
      assert PoolWired(j);
      var p := pools[j];
      PoolsIsolated(p.Geo(), a, cpu.img, s0, cpu.spans, p.mine, p.homes, p.free,
                    p.spanList.content, p.spanList.front, p.spanList.back, others, id);
      forall x | x in p.spanList.content
        ensures Used(cpu.spans, x)
      {
        assert SlabSpan(p.Geo(), cpu.img, cpu.spans, p.spanList.content, 0, x);
      }
    }

    /** The owner `id` of the spans `mine0` (a pool, or 0 for the large allocations) exchanged
        them for the spans `mine1`: everyone else is as before. */
    lemma OthersStay(id: nat, mine0: set<nat>, mine1: set<nat>, a: seq<Page>, s0: Spans, mines: seq<set<nat>>)
      requires Wired()
      requires cpu.Valid()
      requires id <= |pools| && Elsewhere(a, s0, id, mine0, mines)
      requires id > 0 ==> pools[id - 1].Valid() && mine1 == pools[id - 1].mine
      requires forall h :: h in mine0 ==> h < |a| && a[h].pool == id
      requires forall h :: h in mine1 ==> h < |cpu.img| && cpu.img[h].pool == id
      requires OthersKept(a, cpu.img, s0, cpu.spans, mine0)
      requires NoStray(s0, cpu.spans, mine0, mine1)
      requires forall x {:trigger Used(s0, x)} :: Used(s0, x) ==> s0[x].size > 0
      ensures Valid()
    {
      forall i {:trigger PoolValid(i)} | 0 <= i < |pools| && PoolWired(i)
        ensures PoolValid(i)
      {
        if i + 1 != id {
          assert KeptBy(i, a, s0, mines);
          OtherPool(i, id, mine0, a, s0);
        }
      }
      forall x: nat {:trigger Claimed(x)}
        ensures Claimed(x)
      {
        if Used(cpu.spans, x) && x !in mine1 {
          KeptPage(a, cpu.img, s0, cpu.spans, mine0, x);
          assert ClaimedBut(a, s0, id, mine0, mines, x);
          if x < |a| && a[x].pool > 0 {
            assert KeptBy(a[x].pool - 1, a, s0, mines);
          }
        }
      }
    }

    /** Pool `i` (unless it is being torn down) has no object left and no span to take. */
    ghost predicate NoObject(i: nat)
      reads cpu, pools
    {
      i < |pools| && pools[i].minFree + pools[i].maxFree >= 2 ==>
        pools[i].homes.Keys == pools[i].InUse() && NoneFit(cpu.spans, pools[i].spanSize)
    }

    /** Nothing can serve a request of `size` bytes. */
    ghost predicate NoRoom(size: nat)
      requires size >= MIN_OBJECT
      reads cpu, pools
    {
      if size <= MAX_SMALL then
        NoObject(SizeToIdx(size))
      else
        PagesFor(size) * PAGE_SIZE < size || PagesFor(size) > 0x4000_0000 || NoneFit(cpu.spans, PagesFor(size))
    }

    ghost predicate NoRoomAligned(align: nat, size: nat)
      requires size >= MIN_OBJECT
      reads cpu, pools
    {
      if size <= MAX_SMALL && align <= PAGE_SIZE then
        NoRoom(Pow2(Log2Ceil(size)))
      else
        var n := AlignedRequest(AlignPages(align), PagesFor(size));
        n > 0x4000_0000 || NoneFit(cpu.spans, n)
    }

    /** Everything but pool `i`, which is about to move spans. */
    lemma SetPoolAside(i: nat) returns (mines: seq<set<nat>>)
      requires Valid() && i < |pools|
      ensures PoolWired(i) && PoolValid(i) && Elsewhere(cpu.img, cpu.spans, i + 1, pools[i].mine, mines)
      ensures pools[i] !in Rest(i + 1) && pools[i].spanList !in RestLists(i + 1)
      ensures forall j :: 0 <= j < |pools| && j != i ==> pools[j].spanList !in cpu.freeSpans
      ensures TagsName(cpu.img, pools[i].mine, i + 1) && Sized(cpu.spans)
    {
      assert PoolWired(i) && PoolValid(i);
      var p := pools[i];
      PoolTags(p.Geo(), cpu.img, cpu.spans, p.mine, p.homes, p.free, p.spanList.content);
      SpanSizes(cpu.img, cpu.spans, cpu.base, cpu.nrPages);
      mines := SetAside(i + 1, p.mine);
    }

    /** Pool `i` moved spans; all else is as it was set aside. */
    lemma PoolMoved(i: nat, mine0: set<nat>, a: seq<Page>, s0: Spans, mines: seq<set<nat>>)
      requires Wired()
      requires cpu.Valid()
      requires i < |pools| && PoolWired(i) && PoolValid(i) && Elsewhere(a, s0, i + 1, mine0, mines)
      requires TagsName(a, mine0, i + 1) && Sized(s0)
      requires OthersKept(a, cpu.img, s0, cpu.spans, mine0) && NoStray(s0, cpu.spans, mine0, pools[i].mine)
      ensures Valid() && Large() == LargeSpans(a, s0)
    {
      var p := pools[i];
      PoolTags(p.Geo(), cpu.img, cpu.spans, p.mine, p.homes, p.free, p.spanList.content);
      OthersStay(i + 1, mine0, p.mine, a, s0, mines);
      LargeKept(a, cpu.img, s0, cpu.spans, mine0, p.mine, i + 1);
    }

    /** Pool `i` had `free` on its stack and `nr` spans, with `pages` pages free: one object was
        taken from the stack, or, with none there, only the spans that it takes to get half way
        between the limits. */
    ghost predicate Drawn(i: nat, free: seq<nat>, nr: nat, pages: nat)
      requires i < |pools| && PoolWired(i)
      reads cpu, pools
    {
      pools[i].objectSize > 0 && pools[i].Drawn(free, nr, pages)
    }

    /** No small request takes more than three spans. */
    lemma FewPages(i: nat, free: seq<nat>, nr: nat, pages: nat)
      requires Valid() && Limited() && i < |pools| && PoolWired(i) && Drawn(i, free, nr, pages)
      ensures 0 <= pages - cpu.PagesFree() <= 3 * pools[i].spanSize
    {
      assert PoolValid(i);
      pools[i].FewSpans(free, nr, pages);
    }

    /** An object of pool `i`. */
    method AllocateFrom(i: nat) returns (r: ObjectResult)
      requires Valid() && i < |pools|
      modifies cpu, cpu.pages, cpu.freeSpans, pools[i].spanList,
               PoolAt(i)`free, PoolAt(i)`freeCount, PoolAt(i)`spansInUse, PoolAt(i)`mine, PoolAt(i)`homes
      ensures Valid() && Large() == old(Large())
      ensures r.Object? ==> r.ptr !in old(pools[i].InUse()) && pools[i].InUse() == old(pools[i].InUse()) + {r.ptr}
      ensures r.NoMemory? ==> pools[i].InUse() == old(pools[i].InUse())
      ensures r.NoMemory? ==> NoObject(i)
      ensures Drawn(i, old(pools[i].free), old(pools[i].spansInUse), old(cpu.PagesFree()))
    {
      assert PoolWired(i) && PoolValid(i);
      var p := pools[i];
      ghost var a, s0, mine0 := cpu.img, cpu.spans, p.mine;
      ghost var mines := SetPoolAside(i);
      r := p.Allocate();
      PoolMoved(i, mine0, a, s0, mines);
    }

    /** `obj` goes back to pool `i`. */
    method GiveBackTo(i: nat, obj: nat)
      requires Valid() && i < |pools| && obj in pools[i].InUse()
      modifies cpu, cpu.pages, cpu.freeSpans, pools[i].spanList,
               PoolAt(i)`free, PoolAt(i)`freeCount, PoolAt(i)`spansInUse, PoolAt(i)`mine, PoolAt(i)`homes
      ensures Valid() && Large() == old(Large())
      ensures pools[i].InUse() == old(pools[i].InUse()) - {obj}
    {
      assert PoolWired(i) && PoolValid(i);
      var p := pools[i];
      ghost var a, s0, mine0 := cpu.img, cpu.spans, p.mine;
      ghost var mines := SetPoolAside(i);
      p.Deallocate(obj);
      PoolMoved(i, mine0, a, s0, mines);
    }

    /** Pages changed hands: the large allocations `gone` made way for those in `come`. */
    lemma LargeMoved(a: seq<Page>, s0: Spans, mines: seq<set<nat>>, gone: set<nat>, come: set<nat>)
      requires Wired()
      requires cpu.Valid()
      requires Elsewhere(a, s0, NO_POOL, gone, mines)
      requires OthersKept(a, cpu.img, s0, cpu.spans, gone) && NoStray(s0, cpu.spans, gone, come)
      requires forall x {:trigger Used(s0, x)} :: Used(s0, x) ==> s0[x].size > 0
      requires forall h :: h in gone ==> h < |a| && a[h].pool == 0
      requires forall h :: h in come ==> h < |cpu.img| && cpu.img[h].pool == 0
      requires forall x :: x in come ==> x in gone || !Used(s0, x)
      ensures Valid() && LargeSpans(a, s0) - gone == Large() - come
    {
      OthersStay(NO_POOL, gone, come, a, s0, mines);
      LargeKept(a, cpu.img, s0, cpu.spans, gone, come, 0);
    }

    lemma TakenKeeps(a: seq<Page>, s0: Spans, mines: seq<set<nat>>, nr0: nat, base0: nat, span: nat, t: Trim)
      requires Wired() && Elsewhere(a, s0, NO_POOL, {}, mines) && Tiling(a, s0, base0, nr0, nr0, nr0)
      requires t.nrPages > 0 && Carved(s0, cpu.spans, span, t) && s0[span].free
      requires Frame(WithoutPool(a, span + t.offset), cpu.img, s0, cpu.spans)
      ensures OthersKept(a, cpu.img, s0, cpu.spans, {})
    {
      var p := pools[0];
      assert KeptBy(0, a, s0, mines);
      AllocationKeepsPool(p.Geo(), a, cpu.img, s0, cpu.spans, p.mine, p.homes, p.free, p.spanList.content, span, t, base0, nr0);
    }

    /** The only news is a large allocation at `h`. */
    lemma LargeAdded(a: seq<Page>, s0: Spans, mines: seq<set<nat>>, h: nat)
      requires Wired()
      requires cpu.Valid()
      requires Elsewhere(a, s0, NO_POOL, {}, mines) && h in Large() && !Used(s0, h)
      requires OthersKept(a, cpu.img, s0, cpu.spans, {}) && NoStray(s0, cpu.spans, {}, {h})
      requires forall x {:trigger Used(s0, x)} :: Used(s0, x) ==> s0[x].size > 0
      ensures Valid() && h !in LargeSpans(a, s0) && Large() == LargeSpans(a, s0)[h := cpu.spans[h].size]
    {
      LargeMoved(a, s0, mines, {}, {h});
      assert LargeSpans(a, s0) - {} == LargeSpans(a, s0);
    }

    /** The part `t` of the span at `span`, which begins at `h`, was allocated. */
    lemma LargeTaken(a: seq<Page>, s0: Spans, mines: seq<set<nat>>, nr0: nat, base0: nat, avail: Spans, span: nat, t: Trim, h: nat)
      requires Wired()
      requires cpu.Valid()
      requires Elsewhere(a, s0, NO_POOL, {}, mines)
      requires nr0 == 0 ==> s0 == map[] && avail == Bootstrap()
      requires nr0 > 0 ==> avail == s0 && Tiling(a, s0, base0, nr0, nr0, nr0)
      requires h == span + t.offset && (nr0 > 0 ==> Frame(WithoutPool(a, h), cpu.img, s0, cpu.spans))
      requires t.nrPages > 0 && Carved(avail, cpu.spans, span, t) && avail[span].free && NoPool(cpu.img, h)
      ensures Valid() && h !in LargeSpans(a, s0) && Large() == LargeSpans(a, s0)[h := t.nrPages]
    {
      SpanSizes(a, s0, base0, nr0);
      CarvedStray(s0, avail, cpu.spans, span, t);
      if nr0 > 0 {
        TakenKeeps(a, s0, mines, nr0, base0, span, t);
      }
      SpanFacts(cpu.img, cpu.spans, cpu.base, cpu.nrPages, cpu.nrPages, cpu.nrPages, h);
      LargeAdded(a, s0, mines, h);
    }

    /** A large allocation of `n` pages. */
    method AllocatePages(n: uint32) returns (r: Outcome, ghost at: nat)
      requires Valid() && ShiftDefined(n, cpu.nrPages)
      modifies cpu, cpu.pages, cpu.freeSpans
      ensures Valid() && !r.Overrun?
      ensures r.Memory? ==> at !in old(Large()) && Large() == old(Large())[at := n] && r.ptr == cpu.ToPtr(at)
      ensures r.OutOfMemory? ==> Large() == old(Large()) && (n > 0x4000_0000 || NoneFit(cpu.spans, n))
    {
      ghost var a, s0, nr0, base0 := cpu.img, cpu.spans, cpu.nrPages, cpu.base;
      ghost var mines := SetAside(NO_POOL, {});
      var got;
      ghost var avail, span;
      got, avail, span := cpu.AllocateLarge(n);
      assert Elsewhere(a, s0, NO_POOL, {}, mines);
      if !got.Allocated? {
        LargeRefused(a, s0, mines, nr0, base0);
        return OutOfMemory, 0;
      }
      LargeTaken(a, s0, mines, nr0, base0, avail, span, Trim(0, n), span);
      r, at := Memory(got.ptr), span;
    }

    /** No pages were allocated. */
    lemma LargeRefused(a: seq<Page>, s0: Spans, mines: seq<set<nat>>, nr0: nat, base0: nat)
      requires Wired()
      requires cpu.Valid()
      requires Elsewhere(a, s0, NO_POOL, {}, mines)
      requires nr0 == 0 ==> s0 == map[] && (cpu.spans == s0 || cpu.spans == Bootstrap())
      requires nr0 > 0 ==> cpu.spans == s0 && Frame(a, cpu.img, s0, s0) && Tiling(a, s0, base0, nr0, nr0, nr0)
      ensures Valid() && Large() == LargeSpans(a, s0)
    {
      SpanSizes(a, s0, base0, nr0);
      if nr0 > 0 {
        FrameOthers(a, cpu.img, s0, s0, {});
      }
      LargeMoved(a, s0, mines, {}, {});
      assert LargeSpans(a, s0) - {} == LargeSpans(a, s0) && Large() - {} == Large();
    }

    /** A large allocation of `n` pages from a page whose index is a multiple of `alignPages`.
        With no pages, or a sum that wraps, the invariant is gone once a span is found. */
    method AllocatePagesAligned(alignPages: uint32, n: uint32) returns (r: Outcome, ghost at: nat)
      requires Valid() && ShiftDefined(AlignedRequest(alignPages, n), cpu.nrPages)
      modifies cpu, cpu.pages, cpu.freeSpans
      ensures r.Memory? ==> (Valid() <==> Alignable(alignPages, n)) && (n == 0 || Alignable(alignPages, n))
      ensures r.Memory? && n > 0 ==> at !in old(Large()) && Large() == old(Large())[at := n]
      ensures r.Memory? ==> r.ptr == cpu.ToPtr(at) && alignPages > 0 && at % alignPages == 0
      ensures r.Overrun? ==> n > 0 && !Alignable(alignPages, n)
      ensures r.OutOfMemory? ==> Valid() && Large() == old(Large())
      ensures r.OutOfMemory? ==>
        AlignedRequest(alignPages, n) > 0x4000_0000 || NoneFit(cpu.spans, AlignedRequest(alignPages, n))
    {
      ghost var a, s0, nr0, base0 := cpu.img, cpu.spans, cpu.nrPages, cpu.base;
      ghost var mines := SetAside(NO_POOL, {});
      var got;
      ghost var avail, span;
      got, avail, span := cpu.AllocateLargeAligned(alignPages, n);
      assert Elsewhere(a, s0, NO_POOL, {}, mines);
      if got.Overrun? {
        return Outcome.Overrun, 0;
      }
      if !got.Allocated? {
        LargeRefused(a, s0, mines, nr0, base0);
        return OutOfMemory, 0;
      }
      r, at := Memory(got.ptr), AlignUp(span, alignPages);
      if n > 0 {
        LargeTaken(a, s0, mines, nr0, base0, avail, span, Trim(at - span, n), at);
      }
    }

    /** Spans in use other than `x` stayed as they were, and free spans only were made. */
    lemma LargeCut(a: seq<Page>, s0: Spans, mines: seq<set<nat>>, nr0: nat, base0: nat, x: nat, come: set<nat>)
      requires Wired()
      requires cpu.Valid()
      requires Elsewhere(a, s0, NO_POOL, {x}, mines) && Tiling(a, s0, base0, nr0, nr0, nr0)
      requires x in LargeSpans(a, s0) && Frame(a, cpu.img, s0, cpu.spans)
      requires come <= {x} && NoStray(s0, cpu.spans, {x}, come)
      requires forall y :: Used(s0, y) && y != x ==> y in cpu.spans && cpu.spans[y] == s0[y]
      ensures Valid() && Large() - come == LargeSpans(a, s0) - {x}
    {
      SpanSizes(a, s0, base0, nr0);
      FrameOthers(a, cpu.img, s0, cpu.spans, {x});
      assert FrameAt(a, cpu.img, s0, cpu.spans, x);
      LargeMoved(a, s0, mines, {x}, come);
    }

    /** The large allocation on page `x` was cut down to `n` pages. */
    lemma LargeShrunk(a: seq<Page>, s0: Spans, mines: seq<set<nat>>, nr0: nat, base0: nat, x: nat, n: nat, at: nat, size: nat)
      requires Wired()
      requires cpu.Valid()
      requires Elsewhere(a, s0, NO_POOL, {x}, mines) && Tiling(a, s0, base0, nr0, nr0, nr0)
      requires x in LargeSpans(a, s0) && Frame(a, cpu.img, s0, cpu.spans)
      requires if n > 0 && n == s0[x].size then cpu.spans == s0 else Absorbed(CutTo(s0, x, n), cpu.spans, at, size)
      ensures Valid() && Large() == Resized(LargeSpans(a, s0), x, n)
    {
      SpanFacts(a, s0, base0, nr0, nr0, nr0, x);
      if n > 0 {
        LargeCut(a, s0, mines, nr0, base0, x, {x});
        LargeResized(a, cpu.img, s0, cpu.spans, x, n);
      } else {
        LargeCut(a, s0, mines, nr0, base0, x, {});
        assert Large() - {} == Large();
      }
    }

    /** The large allocation at `ptr`, which begins on page `x`, is freed. */
    method FreePages(ptr: nat, ghost x: nat)
      requires Valid() && x in Large() && ptr == cpu.ToPtr(x)
      modifies cpu, cpu.pages, cpu.freeSpans
      ensures Valid() && Large() == old(Large()) - {x}
      ensures cpu.nrFreePages == old(cpu.nrFreePages) + old(Large())[x]
    {
      ghost var a, s0, nr0, base0 := cpu.img, cpu.spans, cpu.nrPages, cpu.base;
      ghost var mines := SetAside(NO_POOL, {x});
      MulMod(x, PAGE_SIZE);
      ghost var at, size := cpu.FreeLarge(ptr);
      assert Elsewhere(a, s0, NO_POOL, {x}, mines);
      LargeShrunk(a, s0, mines, nr0, base0, x, 0, at, size);
    }

    /** The large allocation at `ptr`, which begins on page `x`, keeps the pages that hold its
        first `newSize` bytes. When it keeps none, the invariant survives on the first managed
        page only. */
    method ShrinkPages(ptr: nat, newSize: nat, ghost x: nat)
      requires Valid() && x in Large() && ptr == cpu.ToPtr(x)
      requires newSize < SIZE_T && PagesKept(newSize) <= Large()[x]
      modifies cpu, cpu.pages, cpu.freeSpans
      ensures Valid() <==> PagesKept(newSize) > 0 || x == old(cpu.base)
      ensures Valid() ==> Large() == Resized(old(Large()), x, PagesKept(newSize))
      ensures Valid() ==> cpu.nrFreePages + PagesKept(newSize) == old(cpu.nrFreePages) + old(Large())[x]
    {
      ghost var a, s0, nr0, base0 := cpu.img, cpu.spans, cpu.nrPages, cpu.base;
      ghost var mines := SetAside(NO_POOL, {x});
      MulMod(x, PAGE_SIZE);
      SpanFacts(a, s0, base0, nr0, nr0, nr0, x);
      ghost var at, size := cpu.Shrink(ptr, newSize);
      assert Elsewhere(a, s0, NO_POOL, {x}, mines);
      if PagesKept(newSize) > 0 || x == base0 {
        LargeShrunk(a, s0, mines, nr0, base0, x, PagesKept(newSize), at, size);
      }
    }

    /** An object for a request of `size` bytes, from the smallest class that fits. */
    method AllocateSmall(size: nat) returns (r: Outcome, ghost at: Region)
      requires Valid() && MIN_OBJECT <= size <= MAX_SMALL
      modifies cpu, cpu.pages, cpu.freeSpans, Lists(),
               pools`free, pools`freeCount, pools`spansInUse, pools`mine, pools`homes
      ensures Valid() && !r.Overrun?
      ensures r.Memory? ==> at == SmallAt(SizeToIdx(size), r.ptr) && !old(Live(at))
      ensures r.Memory? ==> forall q {:trigger Live(q)} :: Live(q) <==> q == at || old(Live(q))
      ensures r.OutOfMemory? ==> forall q {:trigger Live(q)} :: Live(q) <==> old(Live(q))
      ensures r.OutOfMemory? ==> NoRoom(size)
      ensures Large() == old(Large())
      ensures SizeToIdx(size) < |pools|
      ensures var p := pools[SizeToIdx(size)]; Drawn(SizeToIdx(size), old(p.free), old(p.spansInUse), old(cpu.PagesFree()))
    {
      PoolsSuffice(size);
      var idx := SizeToIdx(size);
      var got := AllocateFrom(idx);
      at := SmallAt(idx, if got.Object? then got.ptr else 0);
      forall q {:trigger Live(q)}
        ensures Live(q) <==> (got.Object? && q == at) || old(Live(q))
      {
        if q.SmallAt? && q.pool < |pools| && q.pool != idx {
          assert PoolWired(q.pool) && PoolWired(idx);
        }
      }
      r := if got.Object? then Memory(got.ptr) else OutOfMemory;
    }

    /** The region handed out, of at least `size` bytes, was held by nobody; what others hold
        stays. */
    method Allocate(size: nat) returns (r: Outcome, ghost at: Region)
      requires Valid() && size < 0x8000_0000_0000_0000
      requires size > MAX_SMALL && PagesFor(size) * PAGE_SIZE >= size ==> ShiftDefined(PagesFor(size), cpu.nrPages)
      modifies cpu, cpu.pages, cpu.freeSpans, Lists(),
               pools`free, pools`freeCount, pools`spansInUse, pools`mine, pools`homes
      ensures Valid() && !r.Overrun?
      ensures r.Memory? ==> Live(at) && !old(Live(at)) && Begin(at) == r.ptr && Bytes(at) >= size
      ensures forall q {:trigger Live(q)} :: Live(q) <==> (r.Memory? && q == at) || old(Live(q))
      ensures forall q {:trigger Bytes(q)} :: old(Live(q)) ==> Bytes(q) == old(Bytes(q))
      ensures r.OutOfMemory? ==> NoRoom(if size <= MIN_OBJECT then MIN_OBJECT else size)
      ensures r.Memory? && size > MAX_SMALL ==> at.LargeAt? && Bytes(at) < size + PAGE_SIZE
      ensures size <= MAX_SMALL ==> SizeToIdx(Max(size, MIN_OBJECT)) < |pools|
      ensures r.Memory? && size <= MAX_SMALL ==> at == SmallAt(SizeToIdx(Max(size, MIN_OBJECT)), r.ptr)
      ensures size <= MAX_SMALL ==> var i := SizeToIdx(Max(size, MIN_OBJECT));
        && Drawn(i, old(pools[i].free), old(pools[i].spansInUse), old(cpu.PagesFree()))
        && (Limited() ==> 0 <= old(cpu.PagesFree()) - cpu.PagesFree() <= 3 * pools[i].spanSize)
    {
      var n := if size <= MIN_OBJECT then MIN_OBJECT else size;
      if n <= MAX_SMALL {
        r, at := AllocateSmall(n);
        if r.Memory? {
          SmallFits(n);
        }
        if Limited() {
          ghost var p := pools[SizeToIdx(n)];
          FewPages(SizeToIdx(n), old(p.free), old(p.spansInUse), old(cpu.PagesFree()));
        }
        return;
      }
      PagesSuffice(n);
      if PagesFor(n) * PAGE_SIZE < n {
        return OutOfMemory, LargeAt(0);
      }
      PagesLeast(n);
      ghost var x;
      r, x := AllocatePages(PagesFor(n));
      at := LargeAt(x);
    }

    lemma SmallFits(size: nat)
      requires Wired() && MIN_OBJECT <= size <= MAX_SMALL
      ensures SizeToIdx(size) < |pools| && size <= pools[SizeToIdx(size)].objectSize
    {
      PoolsSuffice(size);
      ClassBracket(size);
      assert PoolWired(SizeToIdx(size));
    }

    /** As `Allocate`, at a multiple of the power of two `align` if the CPU's address range
        begins at one. The source does not check the page counts of a large request: the
        invariant is kept and the memory is large enough exactly when they are countable. */
    method AllocateAligned(align: nat, ghost k: nat, size: nat) returns (r: Outcome, ghost at: Region)
      requires Valid() && align == Pow2(k) && Max(size, align) < 0x8000_0000_0000_0000
      requires Max(size, align) > MAX_SMALL || align > PAGE_SIZE ==>
        ShiftDefined(AlignedRequest(AlignPages(align), PagesFor(Max(size, align))), cpu.nrPages)
      modifies cpu, cpu.pages, cpu.freeSpans, Lists(),
               pools`free, pools`freeCount, pools`spansInUse, pools`mine, pools`homes
      ensures Countable(align, size) ==> Valid() && !r.Overrun?
      ensures r.Memory? && Valid() ==> Live(at) && !old(Live(at)) && Begin(at) == r.ptr
      ensures r.Memory? && Valid() ==> (Bytes(at) >= Max(size, align) <==> Countable(align, size))
      ensures r.Memory? && Valid() ==> var n := Max(Max(size, align), MIN_OBJECT); Bytes(at) < Max(2 * n, n + PAGE_SIZE)
      ensures r.Memory? && Valid() && cpu.memory % align == 0 ==> r.ptr % align == 0
      ensures r.OutOfMemory? ==> Valid() && NoRoomAligned(align, Max(Max(size, align), MIN_OBJECT))
      ensures !r.Overrun? && Valid() ==> forall q {:trigger Live(q)} :: Live(q) <==> (r.Memory? && q == at) || old(Live(q))
      ensures !r.Overrun? && Valid() ==> forall q {:trigger Bytes(q)} :: old(Live(q)) ==> Bytes(q) == old(Bytes(q))
    {
      var n := Max(size, align);
      n := if n <= MIN_OBJECT then MIN_OBJECT else n;
      CountableIff(align, size);
      if n <= MAX_SMALL && align <= PAGE_SIZE {
        r, at := AllocateAlignedSmall(align, k, n);
        return;
      }
      r, at := AllocateAlignedLarge(align, k, n);
    }

    /** An object of the class of the next power of two. */
    method AllocateAlignedSmall(align: nat, ghost k: nat, size: nat) returns (r: Outcome, ghost at: Region)
      requires Valid() && align == Pow2(k) && align <= size && align <= PAGE_SIZE && MIN_OBJECT <= size <= MAX_SMALL
      modifies cpu, cpu.pages, cpu.freeSpans, Lists(),
               pools`free, pools`freeCount, pools`spansInUse, pools`mine, pools`homes
      ensures Valid() && !r.Overrun?
      ensures r.Memory? ==> Live(at) && !old(Live(at)) && Begin(at) == r.ptr && size <= Bytes(at) < 2 * size
      ensures r.Memory? && cpu.memory % align == 0 ==> r.ptr % align == 0
      ensures r.OutOfMemory? ==> NoRoomAligned(align, size)
      ensures forall q {:trigger Live(q)} :: Live(q) <==> (r.Memory? && q == at) || old(Live(q))
      ensures forall q {:trigger Bytes(q)} :: old(Live(q)) ==> Bytes(q) == old(Bytes(q))
    {
      RoundedUp(size, align, k);
      r, at := AllocateSmall(Pow2(Log2Ceil(size)));
      if r.Memory? {
        SmallAligned(Log2Ceil(size), k, r.ptr);
      }
    }

    method AllocateAlignedLarge(align: nat, ghost k: nat, size: nat) returns (r: Outcome, ghost at: Region)
      requires Valid() && align == Pow2(k) && size >= align
      requires ShiftDefined(AlignedRequest(AlignPages(align), PagesFor(size)), cpu.nrPages)
      modifies cpu, cpu.pages, cpu.freeSpans
      ensures r.Memory? ==> (Valid() <==> Alignable(AlignPages(align), PagesFor(size)))
      ensures r.Memory? && Valid() ==> Live(at) && !old(Live(at)) && Begin(at) == r.ptr
      ensures r.Memory? && Valid() ==> (Bytes(at) >= size <==> size <= 0xFFFF_FFFF * PAGE_SIZE) && Bytes(at) < size + PAGE_SIZE
      ensures r.Memory? && Valid() && cpu.memory % align == 0 ==> r.ptr % align == 0
      ensures r.Overrun? ==> !Alignable(AlignPages(align), PagesFor(size))
      ensures r.OutOfMemory? ==> Valid()
      ensures r.OutOfMemory? ==>
        var n := AlignedRequest(AlignPages(align), PagesFor(size)); n > 0x4000_0000 || NoneFit(cpu.spans, n)
      ensures !r.Overrun? && Valid() ==> forall q {:trigger Live(q)} :: Live(q) <==> (r.Memory? && q == at) || old(Live(q))
      ensures !r.Overrun? && Valid() ==> forall q {:trigger Bytes(q)} :: old(Live(q)) ==> Bytes(q) == old(Bytes(q))
    {
      PagesSuffice(size);
      PagesMost(size);
      ghost var x;
      r, x := AllocatePagesAligned(AlignPages(align), PagesFor(size));
      at := LargeAt(x);
      if r.Memory? && cpu.memory % align == 0 {
        PagesAligned(cpu.memory, x, align, k);
      }
    }

    lemma RoundedUp(n: nat, align: nat, k: nat)
      requires MIN_OBJECT <= n <= MAX_SMALL && align == Pow2(k) && align <= n && align <= PAGE_SIZE
      ensures 2 <= Log2Ceil(n) && k <= Log2Ceil(n) && k <= 12
      ensures n <= Pow2(Log2Ceil(n)) <= MAX_SMALL
    {
      var m := Log2Ceil(n);
      PageIsPower();
      assert Pow2(14) == MAX_SMALL && Pow2(1) == 2;
      PowerOrder(k, 12);
      PowerOrder(k, m);
      PowerOrder(2, m);
      if m > 0 {
        PowerOrder(m, 14);
        PowerOrder(14, m - 1);
      }
    }

    lemma SmallAligned(m: nat, k: nat, ptr: nat)
      requires Valid() && 2 <= m && k <= m && k <= 12 && MIN_OBJECT <= Pow2(m) <= MAX_SMALL
      requires Live(SmallAt(SizeToIdx(Pow2(m)), ptr))
      ensures Bytes(SmallAt(SizeToIdx(Pow2(m)), ptr)) == Pow2(m)
      ensures cpu.memory % Pow2(k) == 0 ==> ptr % Pow2(k) == 0
    {
      var at := SmallAt(SizeToIdx(Pow2(m)), ptr);
      PowerClass(m);
      assert PoolWired(at.pool);
      Extent(at);
      if cpu.memory % Pow2(k) == 0 {
        SlabAligned(pools[at.pool].Geo(), Head(at), ptr, k, m);
      }
    }

    /** The page an allocation begins on names its pool, if it has one. */
    lemma OwnerFound(at: Region)
      requires Valid() && Live(at)
      ensures Begin(at) >= cpu.memory && cpu.ToPage(Begin(at)) < |cpu.img|
      ensures cpu.img[cpu.ToPage(Begin(at))].pool == Owner(at)
      ensures at.LargeAt? ==> cpu.ToPage(Begin(at)) == at.page && cpu.img[at.page].spanSize == Large()[at.page]
    {
      match at
      case SmallAt(i, o) =>
        assert PoolWired(i) && PoolValid(i);
        var p := pools[i];
        PageNamesPool(p.Geo(), cpu.img, p.mine, p.homes, p.free, o);
      case LargeAt(x) =>
        MulMod(x, PAGE_SIZE);
        SpanFacts(cpu.img, cpu.spans, cpu.base, cpu.nrPages, cpu.nrPages, cpu.nrPages, x);
    }

    /** Takes back the memory at `ptr`, and nothing else. */
    method Free(ptr: nat, ghost at: Region)
      requires Valid() && Live(at) && Begin(at) == ptr
      modifies cpu, cpu.pages, cpu.freeSpans, Lists(),
               pools`free, pools`freeCount, pools`spansInUse, pools`mine, pools`homes
      ensures Valid()
      ensures forall q {:trigger Live(q)} :: Live(q) <==> old(Live(q)) && q != at
      ensures forall q {:trigger Bytes(q)} :: Live(q) ==> Bytes(q) == old(Bytes(q))
    {
      OwnerFound(at);
      var id := cpu.pages[cpu.ToPage(ptr)].pool;
      if id != 0 {
        GiveBackTo(id - 1, ptr);
        forall q {:trigger Live(q)}
          ensures Live(q) <==> old(Live(q)) && q != at
        {
          if q.SmallAt? && q.pool < |pools| && q.pool != id - 1 {
            assert PoolWired(q.pool) && PoolWired(id - 1);
          }
        }
        return;
      }
      FreePages(ptr, at.page);
    }

    /** Gives back the pages of a large allocation beyond `newSize` bytes; small ones stay as
        they are. A large one of which no page is left is gone, and the invariant with it unless
        it began on the first managed page. */
    method Shrink(ptr: nat, newSize: nat, ghost at: Region)
      requires Valid() && Live(at) && Begin(at) == ptr && newSize < SIZE_T
      requires at.LargeAt? ==> PagesKept(newSize) * PAGE_SIZE <= Bytes(at)
      modifies cpu, cpu.pages, cpu.freeSpans, Lists(),
               pools`free, pools`freeCount, pools`spansInUse, pools`mine, pools`homes
      ensures Valid() <==> at.SmallAt? || PagesKept(newSize) > 0 || at.page == old(cpu.base)
      ensures Valid() ==> forall q {:trigger Live(q)} ::
        Live(q) <==> old(Live(q)) && (q != at || at.SmallAt? || PagesKept(newSize) > 0)
      ensures Valid() ==> forall q {:trigger Bytes(q)} :: Live(q) && q != at ==> Bytes(q) == old(Bytes(q))
      ensures Valid() && Live(at) ==>
        Bytes(at) == if at.SmallAt? then old(Bytes(at)) else PagesKept(newSize) * PAGE_SIZE
    {
      OwnerFound(at);
      if cpu.pages[cpu.ToPage(ptr)].pool != 0 {
        return;
      }
      ShrinkPages(ptr, newSize, at.page);
    }

    /** The size of the memory at `ptr`. */
    method ObjectSize(ptr: nat, ghost at: Region) returns (size: nat)
      requires Valid() && Live(at) && Begin(at) == ptr
      ensures size == Bytes(at)
    {
      OwnerFound(at);
      var p := cpu.pages[cpu.ToPage(ptr)];
      if p.pool != 0 {
        return pools[p.pool - 1].objectSize;
      }
      size := p.spanSize * PAGE_SIZE;
    }
  }
}
