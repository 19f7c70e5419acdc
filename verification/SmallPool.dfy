/** A slab pool: fixed-size objects carved out of spans it takes from the page allocator. */
module SmallPools {
  import opened Bits
  import opened PageLists
  import opened Tilings
  import opened PageAllocator
  import opened PoolSizing
  import opened Slabs
  import opened Utils

  // ----- the pool's invariant, on values

  /** Span `h` of the pool is in use in the page allocator, has an object off its freelist,
      and is on the span list exactly when its freelist has objects. The last two are put
      aside for the span `but` that is being worked on. */
  ghost predicate SlabSpan(g: Geometry, img: seq<Page>, spans: Spans, listed: seq<nat>, but: nat, h: nat) {
    && 0 < h < |img| && Used(spans, h) && spans[h].size == g.spanSize
    && (h != but ==> img[h].nrSmallAlloc > 0 && (h in listed <==> img[h].freelist != []))
  }

  ghost predicate PoolOk(g: Geometry, img: seq<Page>, spans: Spans, mine: set<nat>, homes: Homes,
                         free: seq<nat>, listed: seq<nat>, but: nat) {
    && Conserved(g, img, mine, homes, free)
    && (forall h {:trigger SlabSpan(g, img, spans, listed, but, h)} :: h in mine ==>
      SlabSpan(g, img, spans, listed, but, h))
    && (forall h :: h in listed ==> h in mine)
  }

  ghost function HeldIn(homes: Homes): set<nat> {
    set o | o in homes && homes[o].place == Held
  }

  /** The span in use at `x` is still there, and the slab layer finds it as it was. */
  ghost predicate KeptSpan(a: seq<Page>, b: seq<Page>, s0: Spans, s1: Spans, x: nat)
    requires x in s0
  {
    && Used(s1, x) && s1[x] == s0[x] && |a| == |b|
    && (forall p :: x <= p < x + s0[x].size && p < |a| ==>
      && b[p].offsetInSpan == a[p].offsetInSpan && b[p].pool == a[p].pool
      && b[p].nrSmallAlloc == a[p].nrSmallAlloc && b[p].freelist == a[p].freelist)
    && (x < |a| ==> b[x].prev == a[x].prev && b[x].next == a[x].next)
  }

  /** What a pool that owns the spans `mine` leaves of the other spans in use. */
  ghost predicate OthersKept(a: seq<Page>, b: seq<Page>, s0: Spans, s1: Spans, mine: set<nat>) {
    forall x {:trigger KeptSpan(a, b, s0, s1, x)} :: Used(s0, x) && x !in mine ==> KeptSpan(a, b, s0, s1, x)
  }

  /** Every span in use was in use before and not the pool's, or is the pool's now. */
  ghost predicate NoStray(s0: Spans, s1: Spans, mine0: set<nat>, mine1: set<nat>) {
    forall x {:trigger Used(s1, x)} :: Used(s1, x) ==> x in mine1 || (Used(s0, x) && x !in mine0)
  }

  lemma OthersKeptTrans(a: seq<Page>, b: seq<Page>, c: seq<Page>, s0: Spans, s1: Spans, s2: Spans,
                        mine: set<nat>, mine': set<nat>)
    requires OthersKept(a, b, s0, s1, mine) && OthersKept(b, c, s1, s2, mine')
    requires forall x :: x in mine' ==> x in mine || !Used(s0, x)
    ensures OthersKept(a, c, s0, s2, mine)
  {
    forall x {:trigger KeptSpan(a, c, s0, s2, x)} | Used(s0, x) && x !in mine
      ensures KeptSpan(a, c, s0, s2, x)
    {
      assert KeptSpan(a, b, s0, s1, x) && KeptSpan(b, c, s1, s2, x);
    }
  }

  /** Pools do not disturb one another: what one does outside its own spans leaves the
      invariant of a pool with another identity, and its span list, in place. */
  lemma PoolsIsolated(g: Geometry, a: seq<Page>, b: seq<Page>, s0: Spans, s1: Spans, mine: set<nat>, homes: Homes,
                      free: seq<nat>, listed: seq<nat>, front: nat, back: nat, others: set<nat>, id: nat)
    requires PoolOk(g, a, s0, mine, homes, free, listed, 0) && Linked(a, front, back, listed)
    requires id != g.id && forall h :: h in others ==> h < |a| && a[h].pool == id
    requires OthersKept(a, b, s0, s1, others)
    ensures PoolOk(g, b, s1, mine, homes, free, listed, 0) && Linked(b, front, back, listed)
  {
    if mine == {} {
      EmptyPool(g, a, s0, mine, homes, free, listed);
      return;
    }
    forall h | h in mine
      ensures SlabSpan(g, a, s0, listed, 0, h) && KeptSpan(a, b, s0, s1, h)
    {
      assert SlabSpan(g, a, s0, listed, 0, h);
      assert OwnsPages(g, a, h) && h <= h < h + g.spanSize;
      assert a[h].pool == g.id;
    }
    ConservedFrame(g, a, b, mine, homes, free);
    forall h {:trigger SlabSpan(g, b, s1, listed, 0, h)} | h in mine
      ensures SlabSpan(g, b, s1, listed, 0, h)
    {
      assert SlabSpan(g, a, s0, listed, 0, h) && KeptSpan(a, b, s0, s1, h);
      assert h <= h < h + g.spanSize;
    }
    forall i | 0 <= i < |listed|
      ensures b[listed[i]].prev == a[listed[i]].prev && b[listed[i]].next == a[listed[i]].next
    {
      assert listed[i] in mine && KeptSpan(a, b, s0, s1, listed[i]);
    }
    LinkedFrame(a, b, front, back, listed);
  }

  /** The page allocator finds an object's pool: the page the object begins on names it, and
      leads to the head of the object's span. */
  lemma PageNamesPool(g: Geometry, img: seq<Page>, mine: set<nat>, homes: Homes, free: seq<nat>, o: nat)
    requires Conserved(g, img, mine, homes, free) && o in homes
    ensures g.mem <= o && (o - g.mem) / PAGE_SIZE < |img|
    ensures var p := (o - g.mem) / PAGE_SIZE;
      img[p].pool == g.id && p - img[p].offsetInSpan == homes[o].head
  {
    assert HomeOk(g, img, mine, homes, free, o);
    ObjPage(g, homes[o].head, o);
    assert OwnsPages(g, img, homes[o].head);
  }

  /** A span the pool keeps has an object that is held or pooled. */
  lemma KeptSpansBusy(g: Geometry, img: seq<Page>, spans: Spans, mine: set<nat>, homes: Homes, free: seq<nat>,
                      listed: seq<nat>, h: nat)
    requires PoolOk(g, img, spans, mine, homes, free, listed, 0) && h in mine
    ensures exists o {:trigger IsObj(g, h, o)} :: IsObj(g, h, o) && o in homes && homes[o].place != InSpan
  {
    assert SlabSpan(g, img, spans, listed, 0, h);
    AllInSpanIff(g, img, mine, homes, free, h);
    assert Slabs.SpanOk(g, img, homes, h);
  }

  // ----- steps on values

  lemma LinksOnly(g: Geometry, a: seq<Page>, b: seq<Page>, spans: Spans, mine: set<nat>, homes: Homes,
                  free: seq<nat>, listed: seq<nat>, listed': seq<nat>, but: nat, touched: seq<nat>)
    requires PoolOk(g, a, spans, mine, homes, free, listed, but) && OnlyLinks(a, b, touched)
    requires forall h :: h in touched ==> h in mine
    requires forall h :: h in listed' ==> h in mine
    requires forall h :: h != but ==> (h in listed' <==> h in listed)
    ensures PoolOk(g, b, spans, mine, homes, free, listed', but)
    ensures OthersKept(a, b, spans, spans, mine)
  {
    ConservedFrame(g, a, b, mine, homes, free);
    forall h {:trigger SlabSpan(g, b, spans, listed', but, h)} | h in mine
      ensures SlabSpan(g, b, spans, listed', but, h)
    {
      assert SlabSpan(g, a, spans, listed, but, h);
    }
    forall x {:trigger KeptSpan(a, b, spans, spans, x)} | Used(spans, x) && x !in mine
      ensures KeptSpan(a, b, spans, spans, x)
    {
    }
  }

  lemma PutAside(g: Geometry, img: seq<Page>, spans: Spans, mine: set<nat>, homes: Homes, free: seq<nat>,
                 listed: seq<nat>, h: nat)
    requires PoolOk(g, img, spans, mine, homes, free, listed, 0)
    ensures PoolOk(g, img, spans, mine, homes, free, listed, h)
  {
    forall x {:trigger SlabSpan(g, img, spans, listed, h, x)} | x in mine
      ensures SlabSpan(g, img, spans, listed, h, x)
    {
      assert SlabSpan(g, img, spans, listed, 0, x);
    }
  }

  /** The span `h` was listed, and the drain is done: nothing is put aside any more. */
  lemma Settle(g: Geometry, img: seq<Page>, spans: Spans, mine: set<nat>, homes: Homes, free: seq<nat>,
               listed: seq<nat>, h: nat)
    requires PoolOk(g, img, spans, mine, homes, free, listed, h)
    requires h in mine && h < |img| ==> img[h].nrSmallAlloc > 0 && (h in listed <==> img[h].freelist != [])
    ensures PoolOk(g, img, spans, mine, homes, free, listed, 0)
  {
    forall x {:trigger SlabSpan(g, img, spans, listed, 0, x)} | x in mine
      ensures SlabSpan(g, img, spans, listed, 0, x)
    {
      assert SlabSpan(g, img, spans, listed, h, x);
    }
  }

  /** Changing the counts and the freelist of the span put aside. */
  lemma OneSpanChanged(g: Geometry, a: seq<Page>, b: seq<Page>, spans: Spans, mine: set<nat>, homes: Homes,
                       free: seq<nat>, homes': Homes, free': seq<nat>, listed: seq<nat>, h: nat)
    requires PoolOk(g, a, spans, mine, homes, free, listed, h) && Conserved(g, b, mine, homes', free')
    requires h in mine && h < |a| == |b| && OnlyCounts(a, b, h)
    requires Disjoint(spans)
    ensures PoolOk(g, b, spans, mine, homes', free', listed, h)
    ensures OthersKept(a, b, spans, spans, mine)
  {
    forall x {:trigger SlabSpan(g, b, spans, listed, h, x)} | x in mine
      ensures SlabSpan(g, b, spans, listed, h, x)
    {
      assert SlabSpan(g, a, spans, listed, h, x);
    }
    assert SlabSpan(g, a, spans, listed, h, h);
    forall x {:trigger KeptSpan(a, b, spans, spans, x)} | Used(spans, x) && x !in mine
      ensures KeptSpan(a, b, spans, spans, x)
    {
      assert Apart(spans, x, h) && Apart(spans, h, x);
    }
  }

  lemma HeldSame(homes: Homes, o: nat, home: Home)
    requires o in homes && homes[o].place != Held && home.place != Held && home.head == homes[o].head
    ensures HeldIn(homes[o := home]) == HeldIn(homes) && homes[o := home].Keys == homes.Keys && Grown(homes, homes[o := home])
  {
  }

  /** An object of the span put aside goes to `_free`. */
  lemma DrainStep(g: Geometry, img: seq<Page>, spans: Spans, mine: set<nat>, homes: Homes, free: seq<nat>,
                  listed: seq<nat>, h: nat)
    requires PoolOk(g, img, spans, mine, homes, free, listed, h) && Disjoint(spans)
    requires h in mine && h < |img| && img[h].freelist != []
    ensures var o := img[h].freelist[0];
      && PoolOk(g, Drained(img, h), spans, mine, homes[o := Home(h, Pooled)], [o] + free, listed, h)
      && HeldIn(homes[o := Home(h, Pooled)]) == HeldIn(homes) && Grown(homes, homes[o := Home(h, Pooled)])
    ensures OthersKept(img, Drained(img, h), spans, spans, mine)
  {
    var o := img[h].freelist[0];
    DrainOne(g, img, mine, homes, free, h);
    HeldSame(homes, o, Home(h, Pooled));
    OneSpanChanged(g, img, Drained(img, h), spans, mine, homes, free, homes[o := Home(h, Pooled)], [o] + free, listed, h);
  }

  /** The head of `_free` goes back to its span, which is then put aside. */
  lemma TrimStep(g: Geometry, img: seq<Page>, spans: Spans, mine: set<nat>, homes: Homes, free: seq<nat>,
                 listed: seq<nat>, o: nat, h: nat)
    requires free != [] && free[0] == o && o in homes && homes[o].head == h
    requires PoolOk(g, img, spans, mine, homes, free, listed, h) && Disjoint(spans)
    ensures h in mine && h < |img| && img[h].nrSmallAlloc > 0
    ensures PoolOk(g, Trimmed(img, h, o), spans, mine, homes[o := Home(h, InSpan)], free[1..], listed, h)
    ensures HeldIn(homes[o := Home(h, InSpan)]) == HeldIn(homes) && homes[o := Home(h, InSpan)].Keys == homes.Keys
    ensures OthersKept(img, Trimmed(img, h, o), spans, spans, mine)
  {
    TrimOne(g, img, mine, homes, free);
    HeldSame(homes, o, Home(h, InSpan));
    OneSpanChanged(g, img, Trimmed(img, h, o), spans, mine, homes, free, homes[o := Home(h, InSpan)], free[1..], listed, h);
  }

  /** A span with nothing held or pooled leaves the pool once it is off the span list; the
      page allocator reuses its pages. */
  lemma SpanReturned(g: Geometry, a: seq<Page>, b: seq<Page>, s0: Spans, s1: Spans, mine: set<nat>, homes: Homes,
                     free: seq<nat>, listed: seq<nat>, h: nat)
    requires PoolOk(g, a, s0, mine, homes, free, listed, h) && h in mine && h !in listed
    requires h < |a| && a[h].nrSmallAlloc == 0
    requires Frame(a, b, s0, s1) && Absorbs(s0 - {h}, s1)
    ensures PoolOk(g, b, s1, mine - {h}, homes - ObjSet(g, h, PerSpan(g)), free, listed, 0)
    ensures HeldIn(homes - ObjSet(g, h, PerSpan(g))) == HeldIn(homes)
    ensures OthersKept(a, b, s0, s1, mine)
  {
    DropSpan(g, a, mine, homes, free, h);
    DropKeepsHeld(g, a, mine, homes, free, h);
    var homes', mine' := homes - ObjSet(g, h, PerSpan(g)), mine - {h};
    FrameSlabs(g, a, b, s0, s1, mine');
    ConservedFrame(g, a, b, mine', homes', free);
    forall x {:trigger SlabSpan(g, b, s1, listed, 0, x)} | x in mine'
      ensures SlabSpan(g, b, s1, listed, 0, x)
    {
      assert SlabSpan(g, a, s0, listed, h, x) && FrameAt(a, b, s0, s1, x) && Used(s0 - {h}, x);
    }
    forall x | Used(s0, x) && x !in mine
      ensures x in s1 && s1[x] == s0[x]
    {
      assert Used(s0 - {h}, x);
    }
    FrameOthers(a, b, s0, s1, mine);
  }

  lemma DropKeepsHeld(g: Geometry, img: seq<Page>, mine: set<nat>, homes: Homes, free: seq<nat>, h: nat)
    requires Conserved(g, img, mine, homes, free) && h in mine && h < |img| && img[h].nrSmallAlloc == 0
    ensures HeldIn(homes - ObjSet(g, h, PerSpan(g))) == HeldIn(homes)
  {
    AllInSpanIff(g, img, mine, homes, free, h);
    forall o | o in HeldIn(homes)
      ensures o !in ObjSet(g, h, PerSpan(g))
    {
      if o in ObjSet(g, h, PerSpan(g)) {
        InObjSetIsObj(g, h, PerSpan(g), o);
      }
    }
  }

  lemma FrameSlabs(g: Geometry, a: seq<Page>, b: seq<Page>, s0: Spans, s1: Spans, mine: set<nat>)
    requires Frame(a, b, s0, s1)
    ensures SameSlabs(a, b, g, mine)
  {
    forall h, p | h in mine && h <= p < h + g.spanSize && p < |a|
      ensures b[p].offsetInSpan == a[p].offsetInSpan && b[p].pool == a[p].pool
      ensures b[p].nrSmallAlloc == a[p].nrSmallAlloc && b[p].freelist == a[p].freelist
    {
      assert FrameAt(a, b, s0, s1, p);
    }
  }

  lemma FrameOthers(a: seq<Page>, b: seq<Page>, s0: Spans, s1: Spans, mine: set<nat>)
    requires Frame(a, b, s0, s1)
    requires forall x :: Used(s0, x) && x !in mine ==> x in s1 && s1[x] == s0[x]
    ensures OthersKept(a, b, s0, s1, mine)
  {
    forall x: nat {:trigger KeptSpan(a, b, s0, s1, x)} | Used(s0, x) && x !in mine
      ensures KeptSpan(a, b, s0, s1, x)
    {
      forall p | x <= p < x + s0[x].size && p < |a|
        ensures b[p].offsetInSpan == a[p].offsetInSpan && b[p].pool == a[p].pool
        ensures b[p].nrSmallAlloc == a[p].nrSmallAlloc && b[p].freelist == a[p].freelist
      {
        assert FrameAt(a, b, s0, s1, p);
      }
      assert x < |a| ==> FrameAt(a, b, s0, s1, x);
    }
  }

  /** Every span in use stays. */
  ghost predicate Absorbs(a: Spans, b: Spans) {
    forall x {:trigger Used(a, x)} :: Used(a, x) ==> x in b && b[x] == a[x]
  }

  /** Other work on the page allocator leaves the pool's spans and their links in place. */
  lemma FrameKeepsPool(g: Geometry, a: seq<Page>, b: seq<Page>, s0: Spans, s1: Spans, mine: set<nat>, homes: Homes,
                       free: seq<nat>, listed: seq<nat>)
    requires PoolOk(g, a, s0, mine, homes, free, listed, 0)
    requires Frame(a, b, s0, s1) && Absorbs(s0, s1)
    ensures PoolOk(g, b, s1, mine, homes, free, listed, 0)
    ensures OthersKept(a, b, s0, s1, {})
  {
    FrameSlabs(g, a, b, s0, s1, mine);
    ConservedFrame(g, a, b, mine, homes, free);
    forall x {:trigger SlabSpan(g, b, s1, listed, 0, x)} | x in mine
      ensures SlabSpan(g, b, s1, listed, 0, x)
    {
      assert SlabSpan(g, a, s0, listed, 0, x) && FrameAt(a, b, s0, s1, x);
    }
    FrameOthers(a, b, s0, s1, {});
  }

  /** Clearing the pool of a page that belongs to no span in use disturbs no pool. */
  lemma ClearKeepsPool(g: Geometry, a: seq<Page>, spans: Spans, mine: set<nat>, homes: Homes,
                       free: seq<nat>, listed: seq<nat>, s: nat, h: nat)
    requires PoolOk(g, a, spans, mine, homes, free, listed, 0) && Disjoint(spans) && s in spans && spans[s].free
    requires s <= h < s + spans[s].size
    ensures PoolOk(g, WithoutPool(a, h), spans, mine, homes, free, listed, 0)
    ensures OthersKept(a, WithoutPool(a, h), spans, spans, {})
  {
    var b := WithoutPool(a, h);
    forall x: nat | Used(spans, x)
      ensures !(x <= h < x + spans[x].size)
    {
      assert Apart(spans, x, s) && Apart(spans, s, x);
    }
    forall x | x in mine
      ensures Used(spans, x) && spans[x].size == g.spanSize
    {
      assert SlabSpan(g, a, spans, listed, 0, x);
    }
    ConservedFrame(g, a, b, mine, homes, free);
    forall x {:trigger SlabSpan(g, b, spans, listed, 0, x)} | x in mine
      ensures SlabSpan(g, b, spans, listed, 0, x)
    {
      assert SlabSpan(g, a, spans, listed, 0, x);
    }
    forall x: nat {:trigger KeptSpan(a, b, spans, spans, x)} | Used(spans, x)
      ensures KeptSpan(a, b, spans, spans, x)
    {
    }
  }

  /** `b` is `a` with the pages of the span at `h` marked as the pool's. */
  ghost predicate MarkedBy(g: Geometry, a: seq<Page>, b: seq<Page>, h: nat) {
    && |a| == |b|
    && forall p {:trigger b[p]} :: 0 <= p < |a| ==>
      b[p] == if h <= p < h + g.spanSize then a[p].(offsetInSpan := p - h, pool := g.id) else a[p]
  }

  /** One more page is marked. */
  lemma MarkedOne(g: Geometry, a: seq<Page>, b: seq<Page>, h: nat, i: nat)
    requires MarkedBy(g.(spanSize := i), a, b, h) && h + i < |b|
    ensures MarkedBy(g.(spanSize := i + 1), a, b[h + i := b[h + i].(offsetInSpan := i, pool := g.id)], h)
  {
  }

  /** The objects of a fresh span in the order the pool's stack gets them. */
  ghost function Carve(g: Geometry, h: nat, k: nat): (r: seq<nat>)
    ensures |r| == k
  {
    if k == 0 then [] else [ObjAt(g, h, k - 1)] + Carve(g, h, k - 1)
  }

  /** `k` objects of span `h` have been counted and pooled. */
  ghost predicate CarvedTo(g: Geometry, h: nat, k: nat, a: seq<Page>, free: seq<nat>, b: seq<Page>, free': seq<nat>) {
    h < |a| && b == a[h := a[h].(nrSmallAlloc := k)] && free' == Carve(g, h, k) + free
  }

  lemma CarvedMore(g: Geometry, h: nat, k: nat, a: seq<Page>, free: seq<nat>, b: seq<Page>, free': seq<nat>, obj: nat)
    requires CarvedTo(g, h, k, a, free, b, free') && obj == ObjAt(g, h, k)
    ensures CarvedTo(g, h, k + 1, a, free, b[h := b[h].(nrSmallAlloc := k + 1)], [obj] + free')
  {
    assert [obj] + free' == ([obj] + Carve(g, h, k)) + free;
  }

  lemma {:induction false} CarveMembers(g: Geometry, h: nat, k: nat)
    ensures forall o :: o in Carve(g, h, k) <==> o in ObjSet(g, h, k)
  {
    if k > 0 {
      CarveMembers(g, h, k - 1);
    }
  }

  lemma {:induction false} CarveDistinct(g: Geometry, h: nat, k: nat)
    requires g.objectSize > 0
    ensures Distinct(Carve(g, h, k))
  {
    if k > 0 {
      CarveDistinct(g, h, k - 1);
      CarveMembers(g, h, k - 1);
      ObjSetSize(g, h, k - 1);
      PushDistinct(Carve(g, h, k - 1), ObjAt(g, h, k - 1));
    }
  }

  /** A fresh span, marked and carved into objects on `pool._free`, joins the pool. */
  lemma SpanAdded(g: Geometry, a: seq<Page>, b: seq<Page>, c: seq<Page>, spans: Spans, mine: set<nat>, homes: Homes,
                  free: seq<nat>, listed: seq<nat>, h: nat)
    requires PoolOk(g, a, spans, mine, homes, free, listed, 0)
    requires Disjoint(spans) && Used(spans, h) && spans[h].size == g.spanSize && h !in mine
    requires 0 < h && h + g.spanSize <= |a| && MarkedBy(g, a, b, h)
    requires c == b[h := b[h].(nrSmallAlloc := PerSpan(g), freelist := [])]
    ensures PoolOk(g, c, spans, mine + {h}, homes + NewHomes(g, h), Carve(g, h, PerSpan(g)) + free, listed, 0)
    ensures HeldIn(homes + NewHomes(g, h)) == HeldIn(homes) && homes.Keys !! NewHomes(g, h).Keys
    ensures OthersKept(a, c, spans, spans, {h})
  {
    forall x | x in mine
      ensures x + g.spanSize <= h || h + g.spanSize <= x
    {
      assert SlabSpan(g, a, spans, listed, 0, x) && Apart(spans, x, h) && Apart(spans, h, x);
    }
    assert SameSlabs(a, c, g, mine);
    CarveMembers(g, h, PerSpan(g));
    CarveDistinct(g, h, PerSpan(g));
    SpanHasObject(g);
    AddSpan(g, a, c, mine, homes, free, h, Carve(g, h, PerSpan(g)));
    var homes', free' := homes + NewHomes(g, h), Carve(g, h, PerSpan(g)) + free;
    assert HeldIn(homes') == HeldIn(homes);
    forall x {:trigger SlabSpan(g, c, spans, listed, 0, x)} | x in mine + {h}
      ensures SlabSpan(g, c, spans, listed, 0, x)
    {
      assert x in mine ==> SlabSpan(g, a, spans, listed, 0, x);
    }
    forall x: nat {:trigger KeptSpan(a, c, spans, spans, x)} | Used(spans, x) && x != h
      ensures KeptSpan(a, c, spans, spans, x)
    {
      assert Apart(spans, x, h) && Apart(spans, h, x);
    }
  }

  lemma SpanHasObject(g: Geometry)
    requires GeometryOk(g)
    ensures PerSpan(g) > 0
  {
  }

  lemma EmptyPool(g: Geometry, a: seq<Page>, spans: Spans, mine: set<nat>, homes: Homes, free: seq<nat>, listed: seq<nat>)
    requires PoolOk(g, a, spans, mine, homes, free, listed, 0) && (spans == map[] || mine == {})
    ensures mine == {} && homes == map[] && free == [] && listed == []
    ensures forall b, spans' :: PoolOk(g, b, spans', mine, homes, free, listed, 0)
  {
    assert forall h :: h in mine ==> !SlabSpan(g, a, spans, listed, 0, h);
    assert forall o :: o in homes ==> !HomeOk(g, a, mine, homes, free, o);
    assert free != [] ==> At(free, 0) in free;
    assert listed != [] ==> At(listed, 0) in listed;
  }

  /** `n` times `each`. */
  ghost function Times(n: nat, each: nat): nat {
    if n == 0 then 0 else Times(n - 1, each) + each
  }

  lemma {:induction false} TimesSum(a: nat, b: nat, each: nat)
    ensures Times(a + b, each) == Times(a, each) + Times(b, each)
  {
    if b > 0 {
      TimesSum(a, b - 1, each);
    }
  }

  lemma AtMostThree(n: nat, per: nat, goal: nat, size: nat)
    requires Times(n, per) <= Max(0, goal - 1 + per) && 0 < per && goal <= 3 * per
    ensures n <= 3 && Times(n, size) <= 3 * size
  {
    if n > 3 {
      TimesSum(4, n - 4, per);
      FourTimes(per);
    } else {
      TimesSum(n, 3 - n, size);
      FourTimes(size);
    }
  }

  lemma FourTimes(each: nat)
    ensures Times(3, each) == 3 * each && Times(4, each) == 4 * each
  {
    assert Times(1, each) == each;
    assert Times(2, each) == 2 * each;
  }

  /** Only as many spans of `per` objects were added to `nr` as it took to have `goal` objects,
      where there were `count`. */
  ghost predicate SpansAdded(goal: nat, per: nat, count: nat, nr: nat, count': nat, nr': nat) {
    nr <= nr' && count' == count + Times(nr' - nr, per) && count' <= Max(count, goal - 1 + per)
  }

  lemma OneSpanMore(goal: nat, per: nat, count: nat, nr: nat, count': nat, nr': nat)
    requires SpansAdded(goal, per, count, nr, count', nr') && count' < goal
    ensures SpansAdded(goal, per, count, nr, count' + per, nr' + 1)
  {
  }

  datatype ObjectResult = Object(ptr: nat) | NoMemory

  class SmallPool {
    const objectSize: nat
    const spanSize: nat
    const id: nat
    const cpu: CpuPages
    const spanList: PageList
    var minFree: nat
    var maxFree: nat
    // `_free`, a stack threaded through the free objects
    var free: seq<nat>
    var freeCount: nat
    var spansInUse: nat
    // the pool's spans, and the place of each of their objects
    ghost var mine: set<nat>
    ghost var homes: Homes

    ghost function Geo(): Geometry {
      Geometry(cpu.memory, objectSize, spanSize, id)
    }

    /** The invariant, but for the counts of span `but` and its place on the span list. */
    ghost predicate Inv(but: nat)
      reads this, cpu, cpu.pages, cpu.freeSpans, spanList
    {
      && cpu.Valid() && cpu.UsedList(spanList)
      && PoolOk(Geo(), cpu.img, cpu.spans, mine, homes, free, spanList.content, but)
      && freeCount == |free| && spansInUse == |mine|
    }

    ghost predicate Valid()
      reads this, cpu, cpu.pages, cpu.freeSpans, spanList
    {
      Inv(0)
    }

    /** What the invariant says of the page array `img` with the spans `spans`. */
    ghost predicate Keeps(img: seq<Page>, spans: Spans)
      reads this, spanList
    {
      && PoolOk(Geo(), img, spans, mine, homes, free, spanList.content, 0)
      && Linked(img, spanList.front, spanList.back, spanList.content)
      && freeCount == |free| && spansInUse == |mine| && spanList !in cpu.freeSpans
    }

    /** The objects the pool's users hold. */
    ghost function InUse(): set<nat>
      reads this
    {
      HeldIn(homes)
    }

    lemma HasPages()
      requires cpu.Valid() && cpu.spans != map[]
      ensures cpu.nrPages > 0 && Disjoint(cpu.spans)
    {
    }

    /** The pool of objects of `size` bytes, at most four pages. */
    constructor (size: nat, identity: nat, allocator: CpuPages)
      requires 0 < size <= 4 * PAGE_SIZE && identity > 0 && allocator.Valid()
      ensures Valid() && mine == {} && homes == map[] && cpu == allocator && fresh(spanList)
      ensures objectSize == size && id == identity && ChosenFor(size, spanSize, minFree, maxFree)
    {
      var pages: nat, low: nat, high: nat, _ := Choose(size);
      objectSize, spanSize, id, cpu := size, pages, identity, allocator;
      minFree, maxFree := low, high;
      free, freeCount, spansInUse := [], 0, 0;
      mine, homes := {}, map[];
      spanList := new PageList();
    }

    /** One object of span `h` goes from the span's freelist to `_free`. */
    method DrainObject(h: nat)
      requires Inv(h) && h in mine && h < |cpu.img| && cpu.img[h].freelist != []
      modifies this`free, this`freeCount, this`homes, cpu`img, cpu.pages
      ensures Inv(h) && |cpu.img| == old(|cpu.img|) && cpu.img[h].freelist == old(cpu.img)[h].freelist[1..]
      ensures cpu.img[h].nrSmallAlloc > 0
      ensures freeCount == old(freeCount) + 1 && InUse() == old(InUse()) && Grown(old(homes), homes)
      ensures OthersKept(old(cpu.img), cpu.img, cpu.spans, cpu.spans, mine)
    {
      ghost var g, pg := Geo(), cpu.img;
      assert SlabSpan(g, pg, cpu.spans, spanList.content, h, h);
      HasPages();
      var obj := cpu.pages[h].freelist[0];
      DrainStep(g, pg, cpu.spans, mine, homes, free, spanList.content, h);
      var span := cpu.pages[h];
      cpu.WriteSlab(h, span.(freelist := span.freelist[1..], nrSmallAlloc := span.nrSmallAlloc + 1), spanList);
      PushPooled(obj, h);
    }

    /** An object of span `h` comes first in `_free`. */
    method PushPooled(obj: nat, ghost h: nat)
      modifies this`free, this`freeCount, this`homes
      ensures free == [obj] + old(free) && freeCount == old(freeCount) + 1 && homes == old(homes)[obj := Home(h, Pooled)]
    {
      homes, free, freeCount := homes[obj := Home(h, Pooled)], [obj] + free, freeCount + 1;
    }
  
    /** Every object of span `h`'s freelist goes to `_free`. */
    method DrainSpan(h: nat)
      requires Inv(h) && h in mine && h !in spanList.content
      requires h < |cpu.img| && cpu.img[h].freelist != []
      modifies this`free, this`freeCount, this`homes, cpu`img, cpu.pages
      ensures Valid() && old(freeCount) < freeCount == old(freeCount) + |old(cpu.img)[h].freelist| <= old(freeCount) + PerSpan(Geo())
      ensures InUse() == old(InUse()) && Grown(old(homes), homes)
      ensures OthersKept(old(cpu.img), cpu.img, cpu.spans, cpu.spans, mine)
    {
      ghost var was, g := cpu.img, Geo();
      assert SlabSpan(g, was, cpu.spans, spanList.content, h, h);
      assert Slabs.SpanOk(g, was, homes, h);
      DrainObject(h);
      while cpu.pages[h].freelist != []
        modifies this`free, this`freeCount, this`homes, cpu`img, cpu.pages
        invariant Inv(h) && h < |cpu.img| && cpu.img[h].nrSmallAlloc > 0 && freeCount > old(freeCount)
        invariant freeCount + |cpu.img[h].freelist| == old(freeCount) + |was[h].freelist|
        invariant InUse() == old(InUse()) && Grown(old(homes), homes)
        invariant OthersKept(was, cpu.img, cpu.spans, cpu.spans, mine)
        decreases |cpu.img[h].freelist|
      {
        ghost var now := cpu.img;
        DrainObject(h);
        OthersKeptTrans(was, now, cpu.img, cpu.spans, cpu.spans, cpu.spans, mine, mine);
      }
      HasPages();
      assert cpu.img[h].freelist == [];
      Settle(g, cpu.img, cpu.spans, mine, homes, free, spanList.content, h);
    }

    /** Takes the first listed span off the list. */
    method PopListed() returns (h: nat)
      requires Valid() && spanList.content != []
      modifies cpu`img, cpu.pages, spanList
      ensures h == old(spanList.content)[0] && spanList.content == Without(old(spanList.content), 0)
      ensures Inv(h) && h in mine && h !in spanList.content && h < |cpu.img| && cpu.img[h].freelist != []
      ensures OthersKept(old(cpu.img), cpu.img, cpu.spans, cpu.spans, mine)
    {
      ghost var g, pg, l := Geo(), cpu.img, spanList.content;
      h := spanList.front;
      assert h == l[0] && h in l;
      assert SlabSpan(g, pg, cpu.spans, l, 0, h);
      HasPages();
      WithoutMembers(l, 0);
      PutAside(g, pg, cpu.spans, mine, homes, free, l, h);
      cpu.PopUsed(spanList);
      LinksOnly(g, pg, cpu.img, cpu.spans, mine, homes, free, l, spanList.content, h, l);
    }

    method DrainFront()
      requires Valid() && spanList.content != []
      modifies this`free, this`freeCount, this`homes, cpu`img, cpu.pages, spanList
      ensures Valid() && old(freeCount) < freeCount <= old(freeCount) + PerSpan(Geo()) && |spanList.content| < old(|spanList.content|)
      ensures InUse() == old(InUse()) && Grown(old(homes), homes)
      ensures OthersKept(old(cpu.img), cpu.img, cpu.spans, cpu.spans, mine)
    {
      ghost var was := cpu.img;
      var h := PopListed();
      ghost var now := cpu.img;
      DrainSpan(h);
      OthersKeptTrans(was, now, cpu.img, cpu.spans, cpu.spans, cpu.spans, mine, mine);
    }

    /** Refills `_free` from the listed spans, whole spans at a time. */
    method DrainListed(goal: nat)
      requires Valid()
      modifies this`free, this`freeCount, this`homes, cpu`img, cpu.pages, spanList
      ensures Valid() && freeCount >= old(freeCount)
      ensures freeCount >= goal || spanList.content == []
      ensures freeCount <= Max(old(freeCount), goal - 1 + PerSpan(Geo()))
      ensures old(freeCount) >= goal ==> free == old(free) && spanList.content == old(spanList.content)
      ensures InUse() == old(InUse()) && Grown(old(homes), homes)
      ensures OthersKept(old(cpu.img), cpu.img, cpu.spans, cpu.spans, mine)
    {
      ghost var was := cpu.img;
      while !spanList.Empty() && freeCount < goal
        modifies this`free, this`freeCount, this`homes, cpu`img, cpu.pages, spanList
        invariant Valid() && old(freeCount) <= freeCount <= Max(old(freeCount), goal - 1 + PerSpan(Geo()))
        invariant old(freeCount) >= goal ==> free == old(free) && spanList.content == old(spanList.content)
        invariant InUse() == old(InUse()) && Grown(old(homes), homes)
        invariant OthersKept(was, cpu.img, cpu.spans, cpu.spans, mine)
        decreases |spanList.content|
      {
        ghost var now := cpu.img;
        DrainFront();
        OthersKeptTrans(was, now, cpu.img, cpu.spans, cpu.spans, cpu.spans, mine, mine);
      }
    }
  
    /** A span for the pool from the page allocator, 0 when there is none. */
    method TakeSpan() returns (h: nat)
      requires Valid()
      modifies cpu`nrPages, cpu`pages, cpu`base, cpu`nrFreePages, cpu`spans, cpu`lists, cpu`img, cpu`heads,
               cpu.pages, cpu.freeSpans
      ensures Valid() && (fresh(cpu.pages) || cpu.pages == old(cpu.pages))
      ensures h == 0 ==> NoneFit(cpu.spans, spanSize)
      ensures h > 0 ==> Used(cpu.spans, h) && cpu.spans[h].size == spanSize && h + spanSize <= |cpu.img|
      ensures h > 0 ==> h !in mine && !Used(old(cpu.spans), h)
      ensures forall x :: Used(cpu.spans, x) ==> (h > 0 && x == h) || Used(old(cpu.spans), x)
      ensures OthersKept(old(cpu.img), cpu.img, old(cpu.spans), cpu.spans, {})
      ensures cpu.PagesFree() + (if h > 0 then spanSize else 0) == old(cpu.PagesFree())
    {
      ghost var g, pg, s0, nr0, base0 := Geo(), cpu.img, cpu.spans, cpu.nrPages, cpu.base;
      SpanHasObject(g);
      var r;
      ghost var avail, span;
      r, avail, span := cpu.AllocateLarge(spanSize);
      if nr0 == 0 {
        EmptyPool(g, pg, s0, mine, homes, free, spanList.content);
        FirstFree(cpu.spans, span, spanSize, r.Allocated?);
      } else if r.NullPtr? {
        FrameKeepsPool(g, pg, cpu.img, s0, s0, mine, homes, free, spanList.content);
        FrameKeepsList(pg, cpu.img, s0, s0, spanList.front, spanList.back, spanList.content);
      } else {
        AllocationKeepsPool(g, pg, cpu.img, s0, cpu.spans, mine, homes, free, spanList.content, span, Trim(0, spanSize), base0, nr0);
        AllocationKeepsList(pg, cpu.img, s0, cpu.spans, spanList.front, spanList.back, spanList.content, span);
      }
      if r.NullPtr? {
        return 0;
      }
      SpanFacts(cpu.img, cpu.spans, cpu.base, cpu.nrPages, cpu.nrPages, cpu.nrPages, span);
      PageOfPtr(span);
      CarvedUsed(avail, cpu.spans, span, Trim(0, spanSize));
      h := cpu.ToPage(r.ptr);
    }

    /** Marks the pages of the fresh span `h` as the pool's, with no object yet. */
    method MarkSpan(h: nat) returns (ghost marked: seq<Page>)
      requires cpu.nrPages > 0 && cpu.Valid() && cpu.UsedList(spanList) && h + spanSize <= |cpu.img| && spanSize > 0
      modifies cpu`img, cpu.pages
      ensures cpu.Valid() && cpu.UsedList(spanList)
      ensures MarkedBy(Geo(), old(cpu.img), marked, h) && h < |marked|
      ensures cpu.img == marked[h := marked[h].(nrSmallAlloc := 0, freelist := [])]
    {
      for i := 0 to spanSize
        modifies cpu`img, cpu.pages
        invariant cpu.Valid() && cpu.UsedList(spanList)
        invariant MarkedBy(Geo().(spanSize := i), old(cpu.img), cpu.img, h)
      {
        var p := cpu.pages[h + i];
        MarkedOne(Geo(), old(cpu.img), cpu.img, h, i);
        cpu.WriteSlab(h + i, p.(offsetInSpan := i, pool := id), spanList);
      }
      marked := cpu.img;
      var span := cpu.pages[h];
      cpu.WriteSlab(h, span.(nrSmallAlloc := 0, freelist := []), spanList);
    }

    /** Puts the objects of the marked span `h` on `_free`. */
    method CarveObjects(h: nat)
      requires cpu.nrPages > 0 && cpu.Valid() && cpu.UsedList(spanList) && h < |cpu.img| && cpu.img[h].nrSmallAlloc == 0
      requires GeometryOk(Geo()) && freeCount == |free|
      modifies this`free, this`freeCount, cpu`img, cpu.pages
      ensures cpu.Valid() && cpu.UsedList(spanList)
      ensures free == Carve(Geo(), h, PerSpan(Geo())) + old(free) && freeCount == |free|
      ensures cpu.img == old(cpu.img)[h := old(cpu.img)[h].(nrSmallAlloc := PerSpan(Geo()))]
    {
      ghost var g, k := Geo(), 0;
      var data, offset := cpu.ToPtr(h), 0;
      while offset <= spanSize * PAGE_SIZE - objectSize
        modifies this`free, this`freeCount, cpu`img, cpu.pages
        invariant cpu.Valid() && cpu.UsedList(spanList) && freeCount == |free|
        invariant k <= PerSpan(g) && offset == k * objectSize
        invariant CarvedTo(g, h, k, old(cpu.img), old(free), cpu.img, free)
        decreases PerSpan(g) - k
      {
        OneMore(g, k);
        CarvedMore(g, h, k, old(cpu.img), old(free), cpu.img, free, data + offset);
        CarveOne(h, data + offset, k);
        offset, k := offset + objectSize, k + 1;
      }
      OneMore(g, k);
    }

    /** `obj` of the fresh span `h` is pooled, and counted. */
    method CarveOne(h: nat, obj: nat, ghost k: nat)
      requires cpu.nrPages > 0 && cpu.Valid() && cpu.UsedList(spanList) && h < |cpu.img|
      requires cpu.img[h].nrSmallAlloc == k && freeCount == |free|
      modifies this`free, this`freeCount, cpu`img, cpu.pages
      ensures cpu.Valid() && cpu.UsedList(spanList) && free == [obj] + old(free) && freeCount == |free|
      ensures cpu.img == old(cpu.img)[h := old(cpu.img)[h].(nrSmallAlloc := k + 1)]
    {
      free := [obj] + free;
      freeCount := freeCount + 1;
      var span := cpu.pages[h];
      cpu.WriteSlab(h, span.(nrSmallAlloc := span.nrSmallAlloc + 1), spanList);
    }

    /** Pages that are free or in the pool's spans. */
    ghost function PagesOwned(): nat
      reads this, cpu`nrPages, cpu`nrFreePages
    {
      cpu.PagesFree() + Times(spansInUse, spanSize)
    }

    /** The span `h` taken from the page allocator becomes the pool's. */
    method Adopt(h: nat)
      requires Valid() && h > 0 && Used(cpu.spans, h) && cpu.spans[h].size == spanSize && h + spanSize <= |cpu.img|
      requires h !in mine
      modifies this`free, this`freeCount, this`spansInUse, this`mine, this`homes, cpu`img, cpu.pages
      ensures Valid() && old(freeCount) < freeCount == old(freeCount) + PerSpan(Geo()) && spansInUse == old(spansInUse) + 1
      ensures PagesOwned() == old(PagesOwned()) + spanSize
      ensures InUse() == old(InUse()) && Grown(old(homes), homes) && mine == old(mine) + {h}
      ensures OthersKept(old(cpu.img), cpu.img, cpu.spans, cpu.spans, {h})
    {
      ghost var g, pg := Geo(), cpu.img;
      HasPages();
      ghost var marked := MarkSpan(h);
      CarveObjects(h);
      SpanAdded(g, pg, marked, cpu.img, cpu.spans, mine, homes, old(free), spanList.content, h);
      SpanHasObject(g);
      homes, mine, spansInUse := homes + NewHomes(g, h), mine + {h}, spansInUse + 1;
    }

    /** Takes one more span and carves it; false when the page allocator has none. */
    method AddSpan() returns (ok: bool)
      requires Valid()
      modifies this`free, this`freeCount, this`spansInUse, this`mine, this`homes, cpu, cpu.pages, cpu.freeSpans
      ensures Valid() && (fresh(cpu.pages) || cpu.pages == old(cpu.pages))
      ensures ok ==> old(freeCount) < freeCount == old(freeCount) + PerSpan(Geo()) && spansInUse == old(spansInUse) + 1
      ensures !ok ==> freeCount == old(freeCount) && spansInUse == old(spansInUse) && NoneFit(cpu.spans, spanSize)
      ensures InUse() == old(InUse()) && Grown(old(homes), homes)
      ensures forall h :: h in mine ==> h in old(mine) || !Used(old(cpu.spans), h)
      ensures old(mine) <= mine && NoStray(old(cpu.spans), cpu.spans, old(mine), mine)
      ensures spanList.content == old(spanList.content)
      ensures OthersKept(old(cpu.img), cpu.img, old(cpu.spans), cpu.spans, {})
      ensures PagesOwned() == old(PagesOwned())
    {
      ghost var pg, s0 := cpu.img, cpu.spans;
      var h := TakeSpan();
      if h == 0 {
        return false;
      }
      ghost var pg1 := cpu.img;
      Adopt(h);
      OthersKeptTrans(pg, pg1, cpu.img, s0, cpu.spans, cpu.spans, {}, {h});
      ok := true;
    }

    /** `_free` had `count` objects and the pool `nr` spans: only as many spans were added, all
        their objects with them, as it took to have `goal` objects there. */
    ghost predicate Taken(goal: nat, count: nat, nr: nat)
      requires objectSize > 0
      reads this
    {
      SpansAdded(goal, PerSpan(Geo()), count, nr, freeCount, spansInUse)
    }

    /** Refills `_free` with fresh spans, if it needs any. */
    method AddSpans(goal: nat)
      requires Valid() && (freeCount < goal ==> spanList.content == [])
      modifies this`free, this`freeCount, this`spansInUse, this`mine, this`homes, cpu, cpu.pages, cpu.freeSpans
      ensures Valid() && Taken(goal, old(freeCount), old(spansInUse)) && spanList.content == old(spanList.content)
      ensures freeCount < goal ==> spanList.content == [] && NoneFit(cpu.spans, spanSize)
      ensures old(freeCount) >= goal ==>
        free == old(free) && mine == old(mine) && cpu.nrFreePages == old(cpu.nrFreePages) && cpu.spans == old(cpu.spans)
      ensures InUse() == old(InUse()) && Grown(old(homes), homes)
      ensures OthersKept(old(cpu.img), cpu.img, old(cpu.spans), cpu.spans, {})
      ensures NoStray(old(cpu.spans), cpu.spans, old(mine), mine)
      ensures PagesOwned() == old(PagesOwned())
    {
      if freeCount < goal {
        FillUp(goal);
      }
    }

    /** Adds spans until there are enough objects, or no span is left. */
    method FillUp(goal: nat)
      requires Valid() && freeCount < goal && spanList.content == []
      modifies this`free, this`freeCount, this`spansInUse, this`mine, this`homes, cpu, cpu.pages, cpu.freeSpans
      ensures Valid() && Taken(goal, old(freeCount), old(spansInUse)) && spanList.content == old(spanList.content)
      ensures freeCount < goal ==> NoneFit(cpu.spans, spanSize)
      ensures InUse() == old(InUse()) && Grown(old(homes), homes)
      ensures OthersKept(old(cpu.img), cpu.img, old(cpu.spans), cpu.spans, {})
      ensures old(mine) <= mine && NoStray(old(cpu.spans), cpu.spans, old(mine), mine)
      ensures PagesOwned() == old(PagesOwned())
    {
      ghost var was, s0 := cpu.img, cpu.spans;
      var ok := true;
      while ok && freeCount < goal
        modifies this`free, this`freeCount, this`spansInUse, this`mine, this`homes, cpu, cpu.pages, cpu.freeSpans
        invariant Valid() && (fresh(cpu.pages) || cpu.pages == old(cpu.pages))
        invariant Taken(goal, old(freeCount), old(spansInUse)) && spanList.content == old(spanList.content)
        invariant InUse() == old(InUse()) && Grown(old(homes), homes)
        invariant OthersKept(was, cpu.img, s0, cpu.spans, {})
        invariant old(mine) <= mine && NoStray(s0, cpu.spans, old(mine), mine)
        invariant PagesOwned() == old(PagesOwned())
        invariant !ok ==> NoneFit(cpu.spans, spanSize)
        decreases ok, goal - freeCount
      {
        ghost var pg, s1 := cpu.img, cpu.spans;
        OneSpanMore(goal, PerSpan(Geo()), old(freeCount), old(spansInUse), freeCount, spansInUse);
        ok := AddSpan();
        OthersKeptTrans(was, pg, cpu.img, s0, s1, cpu.spans, {}, {});
      }
    }

    /** `_free` had `count` objects and the pool `nr` spans: the refill stopped as soon as half
        way between the limits was reached, and all objects of the spans added are in it. */
    ghost predicate Refilled(count: nat, nr: nat)
      requires objectSize > 0
      reads this
    {
      && freeCount <= Max(count, (minFree + maxFree) / 2 - 1 + PerSpan(Geo()))
      && nr <= spansInUse && count + Times(spansInUse - nr, PerSpan(Geo())) <= freeCount
    }

    /** Refills `_free` half way between the limits, from the pool's own spans first. */
    method AddMoreObjects()
      requires Valid()
      modifies this`free, this`freeCount, this`spansInUse, this`mine, this`homes, cpu, cpu.pages, cpu.freeSpans, spanList
      ensures Valid() && Refilled(old(freeCount), old(spansInUse))
      ensures freeCount < (minFree + maxFree) / 2 ==> spanList.content == [] && NoneFit(cpu.spans, spanSize)
      ensures spansInUse > old(spansInUse) ==> spanList.content == []
      ensures NoStray(old(cpu.spans), cpu.spans, old(mine), mine)
      ensures InUse() == old(InUse()) && Grown(old(homes), homes)
      ensures OthersKept(old(cpu.img), cpu.img, old(cpu.spans), cpu.spans, old(mine))
      ensures PagesOwned() == old(PagesOwned())
    {
      var goal := (minFree + maxFree) / 2;
      ghost var was, s0 := cpu.img, cpu.spans;
      DrainListed(goal);
      ghost var pg := cpu.img;
      AddSpans(goal);
      OthersKeptTrans(was, pg, cpu.img, s0, s0, cpu.spans, old(mine), {});
    }

    /** With nothing on `_free` and `nr` spans: the request took one object out of a refill. */
    ghost predicate Served(r: ObjectResult, nr: nat)
      requires objectSize > 0
      reads this
    {
      var count := freeCount + if r.Object? then 1 else 0;
      && count <= Max(0, (minFree + maxFree) / 2 - 1 + PerSpan(Geo()))
      && nr <= spansInUse && Times(spansInUse - nr, PerSpan(Geo())) <= count
    }

    /** There were `was` on `_free`, `nr` spans in the pool, and `pages` pages free: one object
        was taken from `_free`, or, with none there, only the spans that it takes to get half
        way between the limits. */
    ghost predicate Drawn(was: seq<nat>, nr: nat, pages: nat)
      requires objectSize > 0
      reads this, cpu
    {
      if was != [] then
        free == was[1..] && spansInUse == nr && cpu.PagesFree() == pages
      else
        && nr <= spansInUse && Times(spansInUse - nr, PerSpan(Geo())) <= Max(0, (minFree + maxFree) / 2 - 1 + PerSpan(Geo()))
        && cpu.PagesFree() + Times(spansInUse - nr, spanSize) == pages
    }

    /** With the limits that the pool was made with that is no more than three spans. */
    lemma FewSpans(was: seq<nat>, nr: nat, pages: nat)
      requires Valid() && ChosenFor(objectSize, spanSize, minFree, maxFree) && Drawn(was, nr, pages)
      ensures nr <= spansInUse <= nr + 3 && cpu.PagesFree() <= pages <= cpu.PagesFree() + 3 * spanSize
    {
      HalfWay(Geo(), minFree, maxFree);
      if was == [] {
        AtMostThree(spansInUse - nr, PerSpan(Geo()), (minFree + maxFree) / 2, spanSize);
      }
    }

    lemma PagesDrawn(nr: nat, pages: nat)
      requires nr <= spansInUse && PagesOwned() == pages + Times(nr, spanSize)
      ensures cpu.PagesFree() + Times(spansInUse - nr, spanSize) == pages
    {
      TimesSum(nr, spansInUse - nr, spanSize);
    }

    /** An object nobody holds, or nothing when no object and no span for more is left. */
    method Allocate() returns (r: ObjectResult)
      requires Valid()
      modifies this`free, this`freeCount, this`spansInUse, this`mine, this`homes, cpu, cpu.pages, cpu.freeSpans, spanList
      ensures Valid()
      ensures r.Object? ==> r.ptr !in old(InUse()) && InUse() == old(InUse()) + {r.ptr}
      ensures r.Object? ==> homes[r.ptr].head in mine && IsObj(Geo(), homes[r.ptr].head, r.ptr)
      ensures r.NoMemory? ==> InUse() == old(InUse())
      ensures old(free) != [] ==> r == Object(old(free)[0]) && free == old(free)[1..] && freeCount == |free|
      ensures old(free) != [] ==>
        mine == old(mine) && spansInUse == old(spansInUse) && cpu.nrFreePages == old(cpu.nrFreePages)
      ensures old(free) == [] ==> Served(r, old(spansInUse))
      ensures Drawn(old(free), old(spansInUse), old(cpu.PagesFree()))
      ensures NoStray(old(cpu.spans), cpu.spans, old(mine), mine)
      ensures r.NoMemory? && minFree + maxFree >= 2 ==> homes.Keys == InUse() && NoneFit(cpu.spans, spanSize)
      ensures OthersKept(old(cpu.img), cpu.img, old(cpu.spans), cpu.spans, old(mine))
      ensures PagesOwned() == old(PagesOwned())
    {
      if free == [] {
        r := AllocateNew();
        PagesDrawn(old(spansInUse), old(cpu.PagesFree()));
        return;
      }
      r := TakeFree();
    }

    /** With nothing on `_free` it is refilled first. */
    method AllocateNew() returns (r: ObjectResult)
      requires Valid() && free == []
      modifies this`free, this`freeCount, this`spansInUse, this`mine, this`homes, cpu, cpu.pages, cpu.freeSpans, spanList
      ensures Valid()
      ensures r.Object? ==> r.ptr !in old(InUse()) && InUse() == old(InUse()) + {r.ptr}
      ensures r.Object? ==> homes[r.ptr].head in mine && IsObj(Geo(), homes[r.ptr].head, r.ptr)
      ensures r.NoMemory? ==> InUse() == old(InUse())
      ensures Served(r, old(spansInUse))
      ensures NoStray(old(cpu.spans), cpu.spans, old(mine), mine)
      ensures r.NoMemory? && minFree + maxFree >= 2 ==> homes.Keys == InUse() && NoneFit(cpu.spans, spanSize)
      ensures OthersKept(old(cpu.img), cpu.img, old(cpu.spans), cpu.spans, old(mine))
      ensures PagesOwned() == old(PagesOwned())
    {
      AddMoreObjects();
      if free == [] {
        if spanList.content == [] {
          AllHeld(Geo(), cpu.img, cpu.spans, mine, homes, spanList.content);
        }
        return NoMemory;
      }
      r := TakeFree();
    }

    /** Pops `_free`. */
    method TakeFree() returns (r: ObjectResult)
      requires Valid() && free != []
      modifies this`free, this`freeCount, this`homes
      ensures Valid() && r.Object? && r.ptr !in old(InUse()) && InUse() == old(InUse()) + {r.ptr}
      ensures homes[r.ptr].head in mine && IsObj(Geo(), homes[r.ptr].head, r.ptr)
      ensures r.ptr == old(free)[0] && free == old(free)[1..] && freeCount == old(freeCount) - 1
    {
      var obj := free[0];
      TakeStep(Geo(), cpu.img, cpu.spans, mine, homes, free, spanList.content);
      homes := homes[obj := Home(homes[obj].head, Held)];
      free := free[1..];
      freeCount := freeCount - 1;
      r := Object(obj);
    }

    /** Puts span `h` on the span list if its freelist is empty. */
    method Relist(h: nat)
      requires Valid() && h in mine && h < |cpu.img|
      modifies cpu`img, cpu.pages, spanList
      ensures Inv(h) && h in spanList.content && |cpu.img| == old(|cpu.img|)
      ensures cpu.img[h].freelist == old(cpu.img)[h].freelist && cpu.img[h].nrSmallAlloc == old(cpu.img)[h].nrSmallAlloc
      ensures OthersKept(old(cpu.img), cpu.img, cpu.spans, cpu.spans, mine)
    {
      ghost var g, pg, l := Geo(), cpu.img, spanList.content;
      assert SlabSpan(g, pg, cpu.spans, l, 0, h);
      PutAside(g, pg, cpu.spans, mine, homes, free, l, h);
      LinksOnly(g, pg, pg, cpu.spans, mine, homes, free, l, l, h, []);
      HasPages();
      if cpu.pages[h].freelist != [] {
        return;
      }
      cpu.PushUsed(spanList, h);
      LinksOnly(g, pg, cpu.img, cpu.spans, mine, homes, free, l, spanList.content, h, spanList.content);
    }

    /** Takes span `h` off the span list. */
    method Delist(h: nat)
      requires Inv(h) && h in mine && h in spanList.content && h < |cpu.img|
      modifies cpu`img, cpu.pages, spanList
      ensures Inv(h) && h !in spanList.content && |cpu.img| == old(|cpu.img|)
      ensures cpu.img[h].nrSmallAlloc == old(cpu.img)[h].nrSmallAlloc
      ensures OthersKept(old(cpu.img), cpu.img, cpu.spans, cpu.spans, mine)
    {
      ghost var g, pg, l := Geo(), cpu.img, spanList.content;
      assert SlabSpan(g, pg, cpu.spans, l, h, h);
      ghost var k :| 0 <= k < |l| && l[k] == h;
      HasPages();
      assert PageLists.Linked(pg, spanList.front, spanList.back, l);
      WithoutMembers(l, k);
      cpu.EraseUsed(spanList, h, k);
      LinksOnly(g, pg, cpu.img, cpu.spans, mine, homes, free, l, spanList.content, h, l);
    }

    /** Returns the pages of span `h`, which is not on the span list. */
    method FreeSpanPages(h: nat)
      requires cpu.nrPages > 0 && cpu.Valid() && cpu.UsedList(spanList) && Used(cpu.spans, h) && h !in spanList.content
      modifies cpu`nrFreePages, cpu`spans, cpu`lists, cpu`img, cpu`heads, cpu.pages, cpu.freeSpans
      ensures cpu.Valid() && cpu.UsedList(spanList)
      ensures Frame(old(cpu.img), cpu.img, old(cpu.spans), cpu.spans) && Absorbs(old(cpu.spans) - {h}, cpu.spans)
      ensures forall x :: Used(cpu.spans, x) ==> x != h && Used(old(cpu.spans), x)
      ensures cpu.nrFreePages == old(cpu.nrFreePages) + old(cpu.spans)[h].size
    {
      ghost var pg, s0 := cpu.img, cpu.spans;
      SpanFacts(pg, s0, cpu.base, cpu.nrPages, cpu.nrPages, cpu.nrPages, h);
      ghost var at, size := cpu.FreeUsed(h, cpu.pages[h].spanSize);
      FrameKeepsList(pg, cpu.img, s0, cpu.spans, spanList.front, spanList.back, spanList.content);
    }

    /** Returns the delisted span `h`, no object of which is out, to the page allocator. */
    method GiveBack(h: nat)
      requires Inv(h) && h in mine && h !in spanList.content && h < |cpu.img| && cpu.img[h].nrSmallAlloc == 0
      modifies this`spansInUse, this`mine, this`homes, cpu`nrFreePages, cpu`spans, cpu`lists, cpu`img, cpu`heads,
               cpu.pages, cpu.freeSpans
      ensures Valid() && mine == old(mine) - {h} && homes == old(homes) - ObjSet(Geo(), h, PerSpan(Geo()))
      ensures NoStray(old(cpu.spans), cpu.spans, old(mine), mine)
      ensures InUse() == old(InUse()) && PagesOwned() == old(PagesOwned())
      ensures OthersKept(old(cpu.img), cpu.img, old(cpu.spans), cpu.spans, old(mine))
    {
      ghost var g, pg, s0, l := Geo(), cpu.img, cpu.spans, spanList.content;
      assert SlabSpan(g, pg, s0, l, h, h);
      HasPages();
      FreeSpanPages(h);
      SpanReturned(g, pg, cpu.img, s0, cpu.spans, mine, homes, free, l, h);
      DropSpan(h, homes - ObjSet(g, h, PerSpan(g)));
    }

    /** The span is the pool's no longer. */
    method DropSpan(h: nat, ghost left: Homes)
      requires spansInUse > 0
      modifies this`spansInUse, this`mine, this`homes
      ensures spansInUse == old(spansInUse) - 1 && mine == old(mine) - {h} && homes == left
    {
      homes, mine, spansInUse := left, mine - {h}, spansInUse - 1;
    }

    /** The head of `_free` goes back to its span `h`, which is on the span list. */
    method TrimTo(h: nat)
      requires Inv(h) && free != [] && free[0] in homes && homes[free[0]].head == h && h in spanList.content
      modifies this`free, this`freeCount, this`homes, cpu`img, cpu.pages
      ensures Inv(h) && h in mine && h < |cpu.img| && cpu.img[h].freelist != []
      ensures free == old(free)[1..] && homes == old(homes)[old(free)[0] := Home(h, InSpan)] && InUse() == old(InUse())
      ensures OthersKept(old(cpu.img), cpu.img, cpu.spans, cpu.spans, mine)
    {
      ghost var pg := cpu.img;
      var obj := free[0];
      HasPages();
      TrimStep(Geo(), pg, cpu.spans, mine, homes, free, spanList.content, obj, h);
      var span := cpu.pages[h];
      cpu.WriteSlab(h, span.(freelist := [obj] + span.freelist, nrSmallAlloc := span.nrSmallAlloc - 1), spanList);
      assert cpu.img == Trimmed(pg, h, obj);
      homes := homes[obj := Home(h, InSpan)];
      free := free[1..];
      freeCount := freeCount - 1;
    }

    /** The head of `_free` goes back to its span `h`, which gets listed. */
    method PutBack() returns (h: nat)
      requires Valid() && free != []
      modifies this`free, this`freeCount, this`homes, cpu`img, cpu.pages, spanList
      ensures Inv(h) && h in mine && h < |cpu.img| && h in spanList.content && cpu.img[h].freelist != []
      ensures free == old(free)[1..] && InUse() == old(InUse()) && Shrunk(old(homes), homes, mine)
      ensures OthersKept(old(cpu.img), cpu.img, cpu.spans, cpu.spans, mine)
    {
      ghost var pg, homes0 := cpu.img, homes;
      var obj := free[0];
      FreeObject(Geo(), pg, cpu.spans, mine, homes, free, spanList.content);
      var page := cpu.ToPage(obj);
      h := page - cpu.pages[page].offsetInSpan;
      Relist(h);
      ghost var pg1 := cpu.img;
      TrimTo(h);
      OthersKeptTrans(pg, pg1, cpu.img, cpu.spans, cpu.spans, cpu.spans, mine, mine);
      PutBackShrunk(Geo(), pg, mine, homes0, old(free), obj, h);
    }

    /** Span `h`, no object of which is out, leaves the span list and the pool. */
    method ReturnSpan(h: nat)
      requires Inv(h) && h in mine && h in spanList.content && h < |cpu.img| && cpu.img[h].nrSmallAlloc == 0
      modifies this`spansInUse, this`mine, this`homes, cpu`nrFreePages, cpu`spans, cpu`lists, cpu`img, cpu`heads,
               cpu.pages, cpu.freeSpans, spanList
      ensures Valid() && mine == old(mine) - {h} && Shrunk(old(homes), homes, mine)
      ensures NoStray(old(cpu.spans), cpu.spans, old(mine), mine)
      ensures InUse() == old(InUse()) && PagesOwned() == old(PagesOwned())
      ensures OthersKept(old(cpu.img), cpu.img, old(cpu.spans), cpu.spans, old(mine))
    {
      ghost var pg, s0 := cpu.img, cpu.spans;
      ReturnShrunk(Geo(), pg, mine, homes, free, h);
      Delist(h);
      ghost var pg1 := cpu.img;
      GiveBack(h);
      OthersKeptTrans(pg, pg1, cpu.img, s0, s0, cpu.spans, old(mine), old(mine));
    }

    /** The head of `_free` goes back to its span, and the span to the page allocator if that
        was the last of its objects that was out. */
    method TrimObject()
      requires Valid() && free != []
      modifies this`free, this`freeCount, this`spansInUse, this`mine, this`homes,
               cpu`nrFreePages, cpu`spans, cpu`lists, cpu`img, cpu`heads, cpu.pages, cpu.freeSpans, spanList
      ensures Valid() && free == old(free)[1..] && mine <= old(mine) && Shrunk(old(homes), homes, mine)
      ensures NoStray(old(cpu.spans), cpu.spans, old(mine), mine)
      ensures InUse() == old(InUse()) && PagesOwned() == old(PagesOwned())
      ensures OthersKept(old(cpu.img), cpu.img, old(cpu.spans), cpu.spans, old(mine))
    {
      ghost var pg, s0 := cpu.img, cpu.spans;
      var h := PutBack();
      ghost var pg1, homes1 := cpu.img, homes;
      if cpu.pages[h].nrSmallAlloc != 0 {
        Settle(Geo(), pg1, s0, mine, homes, free, spanList.content, h);
        return;
      }
      ReturnSpan(h);
      OthersKeptTrans(pg, pg1, cpu.img, s0, s0, cpu.spans, old(mine), old(mine));
      ShrunkTrans(old(homes), homes1, homes, old(mine), mine);
    }

    /** Returns objects to their spans until at most `goal` are on `_free`. */
    method TrimDown(goal: nat)
      requires Valid()
      modifies this`free, this`freeCount, this`spansInUse, this`mine, this`homes,
               cpu`nrFreePages, cpu`spans, cpu`lists, cpu`img, cpu`heads, cpu.pages, cpu.freeSpans, spanList
      ensures Valid() && freeCount == Min(old(freeCount), goal)
      ensures free == Drop(old(free), old(freeCount) - freeCount)
      ensures InUse() == old(InUse()) && Shrunk(old(homes), homes, mine) && mine <= old(mine)
      ensures NoStray(old(cpu.spans), cpu.spans, old(mine), mine)
      ensures PagesOwned() == old(PagesOwned())
      ensures OthersKept(old(cpu.img), cpu.img, old(cpu.spans), cpu.spans, old(mine))
    {
      ghost var pg, s0, mine0, homes0 := cpu.img, cpu.spans, mine, homes;
      ShrunkStart(Geo(), pg, mine, homes, free);
      while free != [] && freeCount > goal
        modifies this`free, this`freeCount, this`spansInUse, this`mine, this`homes,
                 cpu`nrFreePages, cpu`spans, cpu`lists, cpu`img, cpu`heads, cpu.pages, cpu.freeSpans, spanList
        invariant Valid() && Min(old(freeCount), goal) <= freeCount <= old(freeCount)
        invariant free == Drop(old(free), old(freeCount) - freeCount)
        invariant InUse() == old(InUse()) && Shrunk(homes0, homes, mine) && mine <= mine0
        invariant NoStray(s0, cpu.spans, mine0, mine)
        invariant PagesOwned() == old(PagesOwned()) && OthersKept(pg, cpu.img, s0, cpu.spans, mine0)
        decreases freeCount
      {
        ghost var pg1, s1, mine1, homes1 := cpu.img, cpu.spans, mine, homes;
        DropOne(old(free), old(freeCount) - freeCount);
        TrimObject();
        OthersKeptTrans(pg, pg1, cpu.img, s0, s1, cpu.spans, mine0, mine1);
        ShrunkTrans(homes0, homes1, homes, mine1, mine);
      }
    }

    /** Returns objects to their spans down to half way between the limits. A span goes back
        to the page allocator exactly when none of its objects is held or pooled. */
    method TrimFreeList()
      requires Valid()
      modifies this`free, this`freeCount, this`spansInUse, this`mine, this`homes,
               cpu`nrFreePages, cpu`spans, cpu`lists, cpu`img, cpu`heads, cpu.pages, cpu.freeSpans, spanList
      ensures Valid() && freeCount == Min(old(freeCount), (minFree + maxFree) / 2)
      ensures free == Drop(old(free), old(freeCount) - freeCount)
      ensures InUse() == old(InUse()) && Shrunk(old(homes), homes, mine) && mine <= old(mine)
      ensures NoStray(old(cpu.spans), cpu.spans, old(mine), mine)
      ensures BusyKept(Geo(), old(mine), mine, InUse(), free)
      ensures PagesOwned() == old(PagesOwned())
      ensures OthersKept(old(cpu.img), cpu.img, old(cpu.spans), cpu.spans, old(mine))
    {
      ghost var pg, mine0, homes0 := cpu.img, mine, homes;
      TrimDown((minFree + maxFree) / 2);
      ReturnedIff(Geo(), pg, cpu.img, cpu.spans, mine0, homes0, old(free), mine, homes, free, spanList.content);
    }

    /** Takes an object back from its holder. */
    method Deallocate(obj: nat)
      requires Valid() && obj in InUse()
      modifies this`free, this`freeCount, this`spansInUse, this`mine, this`homes,
               cpu`nrFreePages, cpu`spans, cpu`lists, cpu`img, cpu`heads, cpu.pages, cpu.freeSpans, spanList
      ensures Valid() && InUse() == old(InUse()) - {obj}
      ensures NoStray(old(cpu.spans), cpu.spans, old(mine), mine)
      ensures old(freeCount) + 1 < maxFree ==> free == [obj] + old(free) && mine == old(mine)
      ensures old(freeCount) + 1 >= maxFree ==> freeCount == Min(old(freeCount) + 1, (minFree + maxFree) / 2)
      ensures old(freeCount) + 1 >= maxFree ==> BusyKept(Geo(), old(mine), mine, InUse(), free)
      ensures PagesOwned() == old(PagesOwned())
      ensures OthersKept(old(cpu.img), cpu.img, old(cpu.spans), cpu.spans, old(mine))
    {
      PutFree(obj);
      if freeCount < maxFree {
        return;
      }
      TrimFreeList();
    }

    /** An object comes back to `_free`. */
    method PutFree(obj: nat)
      requires Valid() && obj in InUse()
      modifies this`free, this`freeCount, this`homes
      ensures Valid() && InUse() == old(InUse()) - {obj}
      ensures free == [obj] + old(free) && freeCount == old(freeCount) + 1
    {
      PutStep(Geo(), cpu.img, cpu.spans, mine, homes, free, spanList.content, obj);
      homes := homes[obj := Home(homes[obj].head, Pooled)];
      free := [obj] + free;
      freeCount := freeCount + 1;
    }

    /** The pool's destructor: every span with no object held goes back. */
    method Destroy()
      requires Valid()
      modifies this`free, this`freeCount, this`spansInUse, this`mine, this`homes, this`minFree, this`maxFree,
               cpu`nrFreePages, cpu`spans, cpu`lists, cpu`img, cpu`heads, cpu.pages, cpu.freeSpans, spanList
      ensures Valid() && free == [] && InUse() == old(InUse())
      ensures BusyKept(Geo(), old(mine), mine, InUse(), [])
      ensures old(InUse()) == {} ==> spansInUse == 0 && cpu.PagesFree() == old(PagesOwned())
    {
      minFree, maxFree := 0, 0;
      ghost var was := mine;
      TrimFreeList();
      if InUse() == {} {
        NothingHeld(Geo(), was, mine);
      }
    }

    lemma PageOfPtr(h: nat)
      ensures cpu.ToPtr(h) >= cpu.memory && cpu.ToPage(cpu.ToPtr(h)) == h
    {
      MulMod(h, PAGE_SIZE);
    }
  }

  lemma FrameKeepsList(a: seq<Page>, b: seq<Page>, s0: Spans, s1: Spans, front: nat, back: nat, listed: seq<nat>)
    requires Linked(a, front, back, listed) && Frame(a, b, s0, s1)
    requires forall x :: x in listed ==> Used(s0, x) && Used(s1, x)
    ensures Linked(b, front, back, listed)
  {
    forall i | 0 <= i < |listed|
      ensures b[listed[i]].prev == a[listed[i]].prev && b[listed[i]].next == a[listed[i]].next
    {
      assert FrameAt(a, b, s0, s1, listed[i]) && listed[i] in listed;
    }
    LinkedFrame(a, b, front, back, listed);
  }

  lemma AllocationKeepsList(a: seq<Page>, b: seq<Page>, s0: Spans, s1: Spans, front: nat, back: nat,
                            listed: seq<nat>, span: nat)
    requires Linked(a, front, back, listed) && Frame(WithoutPool(a, span), b, s0, s1)
    requires forall x :: x in listed ==> Used(s0, x) && Used(s1, x)
    ensures Linked(b, front, back, listed)
  {
    LinkedFrame(a, WithoutPool(a, span), front, back, listed);
    FrameKeepsList(WithoutPool(a, span), b, s0, s1, front, back, listed);
  }

  /** Every span is apart from a given one. */
  lemma AllApart(pg: seq<Page>, spans: Spans, span: nat, base: nat, nr: nat)
    requires Tiling(pg, spans, base, nr, nr, nr) && span in spans
    ensures forall x :: x in spans ==> spans[x].size > 0 && Apart(spans, x, span) && Apart(spans, span, x)
    ensures span + spans[span].size <= nr
  {
    forall x | x in spans
      ensures spans[x].size > 0 && Apart(spans, x, span) && Apart(spans, span, x)
    {
      SpanFacts(pg, spans, base, nr, nr, nr, x);
    }
    SpanFacts(pg, spans, base, nr, nr, nr, span);
  }

  /** An allocation by anyone leaves the pool as it was, and its pages belong to no pool. */
  lemma AllocationKeepsPool(g: Geometry, a: seq<Page>, b: seq<Page>, s0: Spans, s1: Spans, mine: set<nat>, homes: Homes,
                            free: seq<nat>, listed: seq<nat>, span: nat, t: Trim, base: nat, nr: nat)
    requires PoolOk(g, a, s0, mine, homes, free, listed, 0)
    requires Tiling(a, s0, base, nr, nr, nr) && t.nrPages > 0 && Carved(s0, s1, span, t) && s0[span].free
    requires Frame(WithoutPool(a, span + t.offset), b, s0, s1)
    ensures PoolOk(g, b, s1, mine, homes, free, listed, 0)
    ensures OthersKept(a, b, s0, s1, {}) && Absorbs(s0, s1)
    ensures span !in mine && FreeBelow(s1, nr) + t.nrPages == FreeBelow(s0, nr)
  {
    var h := span + t.offset;
    AllApart(a, s0, span, base, nr);
    CarvedCount(s0, s1, span, t, nr);
    ClearKeepsPool(g, a, s0, mine, homes, free, listed, span, h);
    FrameKeepsPool(g, WithoutPool(a, h), b, s0, s1, mine, homes, free, listed);
    OthersKeptTrans(a, WithoutPool(a, h), b, s0, s0, s1, {}, {});
    assert SlabSpan(g, a, s0, listed, 0, span) ==> false;
  }

  /** The pages free after the first span was taken, if one was. */
  lemma FirstFree(b: Spans, span: nat, n: nat, taken: bool)
    requires if taken then n > 0 && Carved(Bootstrap(), b, span, Trim(0, n)) else b == Bootstrap()
    ensures FreeBelow(b, BOOTSTRAP_PAGES) + (if taken then n else 0) == BOOTSTRAP_PAGES - BOOTSTRAP_RESERVED
  {
    BootstrapFree();
    if taken {
      CarvedCount(Bootstrap(), b, span, Trim(0, n), BOOTSTRAP_PAGES);
    }
  }

  /** The next object fits in the span as long as fewer than `PerSpan` do. */
  lemma OneMore(g: Geometry, k: nat)
    requires g.objectSize > 0
    ensures k * g.objectSize <= g.spanSize * PAGE_SIZE - g.objectSize <==> k < PerSpan(g)
    ensures (k + 1) * g.objectSize == k * g.objectSize + g.objectSize
  {
    PerSpanBounds(g);
    if k < PerSpan(g) {
      MultiplesApart(k, PerSpan(g), g.objectSize);
    } else {
      MulMonotonic(PerSpan(g), k, g.objectSize);
    }
  }

  /** Every object there was is still there, in the same span. */
  ghost predicate Grown(a: Homes, b: Homes) {
    forall o :: o in a ==> o in b && b[o].head == a[o].head
  }

  lemma TakeStep(g: Geometry, img: seq<Page>, spans: Spans, mine: set<nat>, homes: Homes, free: seq<nat>, listed: seq<nat>)
    requires PoolOk(g, img, spans, mine, homes, free, listed, 0) && free != []
    ensures free[0] in homes && homes[free[0]].place == Pooled
    ensures var o := free[0];
      && PoolOk(g, img, spans, mine, homes[o := Home(homes[o].head, Held)], free[1..], listed, 0)
      && HeldIn(homes[o := Home(homes[o].head, Held)]) == HeldIn(homes) + {o}
      && homes[o].head in mine && IsObj(g, homes[o].head, o)
  {
    var o := free[0];
    TakePooled(g, img, mine, homes, free);
    assert HomeOk(g, img, mine, homes, free, o);
  }

  /** With nothing pooled and no span listed, every object is held. */
  lemma AllHeld(g: Geometry, img: seq<Page>, spans: Spans, mine: set<nat>, homes: Homes, listed: seq<nat>)
    requires PoolOk(g, img, spans, mine, homes, [], listed, 0) && listed == []
    ensures homes.Keys == HeldIn(homes)
  {
    forall o | o in homes
      ensures homes[o].place == Held
    {
      assert HomeOk(g, img, mine, homes, [], o);
      assert SlabSpan(g, img, spans, listed, 0, homes[o].head);
    }
  }

  /** The objects of the spans kept are still there, and no others. */
  ghost predicate Shrunk(a: Homes, b: Homes, mine: set<nat>) {
    && (forall o :: o in b ==> o in a && b[o].head == a[o].head)
    && (forall o :: o in a ==> (o in b <==> a[o].head in mine))
  }

  /** The page the head of `_free` begins on leads to its span. */
  lemma FreeObject(g: Geometry, img: seq<Page>, spans: Spans, mine: set<nat>, homes: Homes, free: seq<nat>, listed: seq<nat>)
    requires PoolOk(g, img, spans, mine, homes, free, listed, 0) && free != []
    ensures free[0] in homes && homes[free[0]].head in mine && homes[free[0]].head < |img|
    ensures g.mem <= free[0] && (free[0] - g.mem) / PAGE_SIZE < |img|
    ensures var p := (free[0] - g.mem) / PAGE_SIZE; p - img[p].offsetInSpan == homes[free[0]].head
  {
    assert free[0] in free && HomeOk(g, img, mine, homes, free, free[0]);
    PageNamesPool(g, img, mine, homes, free, free[0]);
  }

  /** `l` without its first `n` elements. */
  function Drop(l: seq<nat>, n: int): seq<nat> {
    if 0 <= n <= |l| then l[n..] else []
  }

  lemma DropOne(l: seq<nat>, n: int)
    requires 0 <= n < |l|
    ensures Drop(l, n) != [] && Drop(l, n)[1..] == Drop(l, n + 1)
  {
  }

  lemma ShrunkStart(g: Geometry, img: seq<Page>, mine: set<nat>, homes: Homes, free: seq<nat>)
    requires Conserved(g, img, mine, homes, free)
    ensures Shrunk(homes, homes, mine)
  {
    forall o | o in homes
      ensures homes[o].head in mine
    {
      assert HomeOk(g, img, mine, homes, free, o);
    }
  }

  lemma ShrunkTrans(a: Homes, b: Homes, c: Homes, mine: set<nat>, mine': set<nat>)
    requires Shrunk(a, b, mine) && Shrunk(b, c, mine') && mine' <= mine
    ensures Shrunk(a, c, mine')
  {
  }

  lemma PutBackShrunk(g: Geometry, img: seq<Page>, mine: set<nat>, homes: Homes, free: seq<nat>, o: nat, h: nat)
    requires Conserved(g, img, mine, homes, free) && o in homes && homes[o].head == h
    ensures Shrunk(homes, homes[o := Home(h, InSpan)], mine)
  {
    ShrunkStart(g, img, mine, homes, free);
  }

  lemma ReturnShrunk(g: Geometry, img: seq<Page>, mine: set<nat>, homes: Homes, free: seq<nat>, h: nat)
    requires Conserved(g, img, mine, homes, free) && h in mine
    ensures Shrunk(homes, homes - ObjSet(g, h, PerSpan(g)), mine - {h})
  {
    forall o | o in homes
      ensures homes[o].head in mine && (homes[o].head == h <==> o in ObjSet(g, h, PerSpan(g)))
    {
      assert HomeOk(g, img, mine, homes, free, o) && Slabs.SpanOk(g, img, homes, h);
      if o in ObjSet(g, h, PerSpan(g)) {
        InObjSetIsObj(g, h, PerSpan(g), o);
      } else if homes[o].head == h {
        InObjSet(g, h, o);
      }
    }
  }

  /** An object of span `h` is held or pooled. */
  ghost predicate Busy(g: Geometry, h: nat, held: set<nat>, free: seq<nat>) {
    g.objectSize > 0 && exists o {:trigger IsObj(g, h, o)} :: IsObj(g, h, o) && (o in held || o in free)
  }

  /** Of the spans `a`, those in `b` are the ones with an object held or pooled. */
  ghost predicate BusyKept(g: Geometry, a: set<nat>, b: set<nat>, held: set<nat>, free: seq<nat>) {
    forall h {:trigger Busy(g, h, held, free)} :: h in a ==> (h in b <==> Busy(g, h, held, free))
  }

  lemma NothingHeld(g: Geometry, a: set<nat>, b: set<nat>)
    requires BusyKept(g, a, b, {}, []) && b <= a
    ensures b == {}
  {
    assert forall h {:trigger h in b} :: h in b ==> (h in a && Busy(g, h, {}, [])) || !BusyKept(g, a, b, {}, []);
  }

  /** The spans kept by a trim are exactly those with an object held or pooled. */
  lemma ReturnedIff(g: Geometry, a: seq<Page>, b: seq<Page>, spans: Spans, mine: set<nat>, homes: Homes, free: seq<nat>,
                    mine': set<nat>, homes': Homes, free': seq<nat>, listed: seq<nat>)
    requires Conserved(g, a, mine, homes, free) && PoolOk(g, b, spans, mine', homes', free', listed, 0)
    requires Shrunk(homes, homes', mine')
    ensures BusyKept(g, mine, mine', HeldIn(homes'), free')
  {
    forall h {:trigger Busy(g, h, HeldIn(homes'), free')} | h in mine
      ensures h in mine' <==> Busy(g, h, HeldIn(homes'), free')
    {
      if h in mine' {
        KeptSpansBusy(g, b, spans, mine', homes', free', listed, h);
        var o: nat :| IsObj(g, h, o) && o in homes' && homes'[o].place != InSpan;
        assert HomeOk(g, b, mine', homes', free', o);
      } else {
        assert Slabs.SpanOk(g, a, homes, h);
      }
    }
  }

  lemma PutStep(g: Geometry, img: seq<Page>, spans: Spans, mine: set<nat>, homes: Homes, free: seq<nat>,
                listed: seq<nat>, o: nat)
    requires PoolOk(g, img, spans, mine, homes, free, listed, 0) && o in homes && homes[o].place == Held
    ensures PoolOk(g, img, spans, mine, homes[o := Home(homes[o].head, Pooled)], [o] + free, listed, 0)
    ensures HeldIn(homes[o := Home(homes[o].head, Pooled)]) == HeldIn(homes) - {o}
  {
    PutHeld(g, img, mine, homes, free, o);
  }
}
