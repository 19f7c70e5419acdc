/** Slab spans: where the objects of a pool's spans lie and where each of them is. */
module Slabs {
  import opened Bits
  import opened PageLists
  import opened PageAllocator

  /** What a pool's spans have in common: the address of page 0, the sizes of an object (in
      bytes) and of a span (in pages), and the pool's identity in the page array. */
  datatype Geometry = Geometry(mem: nat, objectSize: nat, spanSize: nat, id: nat)

  /** An object fits in a span; the offset of a page in its span fits in 8 bits and the
      number of objects of a span in 16 bits. */
  predicate GeometryOk(g: Geometry) {
    && 0 < g.objectSize <= g.spanSize * PAGE_SIZE
    && g.spanSize <= 0x100 && g.spanSize * PAGE_SIZE < 0x1_0000 * g.objectSize
    && g.id > 0
  }

  /** How often `m` fits in `x`. */
  function Fits(x: nat, m: nat): nat
    requires m > 0
  {
    if x < m then 0 else Fits(x - m, m) + 1
  }

  lemma {:induction false} FitsBounds(x: nat, m: nat)
    requires m > 0
    ensures Fits(x, m) * m <= x < (Fits(x, m) + 1) * m
  {
    if x >= m {
      FitsBounds(x - m, m);
      assert Fits(x, m) * m == Fits(x - m, m) * m + m;
    }
  }

  function PerSpan(g: Geometry): nat
    requires g.objectSize > 0
  {
    Fits(g.spanSize * PAGE_SIZE, g.objectSize)
  }

  lemma PerSpanBounds(g: Geometry)
    requires g.objectSize > 0
    ensures PerSpan(g) * g.objectSize <= g.spanSize * PAGE_SIZE < (PerSpan(g) + 1) * g.objectSize
  {
    FitsBounds(g.spanSize * PAGE_SIZE, g.objectSize);
  }

  function SpanPtr(g: Geometry, h: nat): nat {
    g.mem + h * PAGE_SIZE
  }

  function ObjAt(g: Geometry, h: nat, k: nat): nat {
    SpanPtr(g, h) + k * g.objectSize
  }

  /** `o` is the address of an object of the span at page `h`. */
  ghost predicate IsObj(g: Geometry, h: nat, o: nat)
    requires g.objectSize > 0
  {
    && SpanPtr(g, h) <= o && o + g.objectSize <= SpanPtr(g, h) + g.spanSize * PAGE_SIZE
    && (o - SpanPtr(g, h)) % g.objectSize == 0
  }

  /** The addresses at multiples of the object size are the objects, `PerSpan` of them. */
  lemma ObjAtIsObj(g: Geometry, h: nat, k: nat)
    requires g.objectSize > 0
    ensures k < PerSpan(g) <==> IsObj(g, h, ObjAt(g, h, k))
  {
    PerSpanBounds(g);
    MulMod(k, g.objectSize);
    if k < PerSpan(g) {
      MultiplesApart(k, PerSpan(g), g.objectSize);
    } else {
      MulMonotonic(PerSpan(g), k, g.objectSize);
      assert (PerSpan(g) + 1) * g.objectSize == PerSpan(g) * g.objectSize + g.objectSize;
    }
  }

  lemma MulMonotonic(a: nat, b: nat, m: nat)
    requires a <= b
    ensures a * m <= b * m
  {
  }

  lemma IsObjHasIndex(g: Geometry, h: nat, o: nat) returns (k: nat)
    requires g.objectSize > 0 && IsObj(g, h, o)
    ensures k < PerSpan(g) && o == ObjAt(g, h, k)
  {
    var d := o - SpanPtr(g, h);
    k := d / g.objectSize;
    assert d == k * g.objectSize;
    ObjAtIsObj(g, h, k);
  }

  /** The page an object begins on belongs to its span. */
  lemma ObjPage(g: Geometry, h: nat, o: nat)
    requires g.objectSize > 0 && IsObj(g, h, o)
    ensures g.mem <= o && h <= (o - g.mem) / PAGE_SIZE < h + g.spanSize
  {
    var d := o - SpanPtr(g, h);
    assert o - g.mem == h * PAGE_SIZE + d;
    assert (h * PAGE_SIZE + d) / PAGE_SIZE == h + d / PAGE_SIZE;
    assert d < g.spanSize * PAGE_SIZE;
    assert d / PAGE_SIZE < g.spanSize;
  }

  datatype Place = Held | Pooled | InSpan

  /** Where an object is, and the head of the span it belongs to. */
  datatype Home = Home(head: nat, place: Place)

  type Homes = map<nat, Home>

  ghost predicate OwnsPages(g: Geometry, img: seq<Page>, h: nat) {
    && h + g.spanSize <= |img|
    && forall p :: h <= p < h + g.spanSize ==> img[p].offsetInSpan == p - h && img[p].pool == g.id
  }

  /** The freelist of the span at `h` holds exactly the objects that are neither held nor
      pooled, and `nrSmallAlloc` counts the others. */
  ghost predicate SpanOk(g: Geometry, img: seq<Page>, homes: Homes, h: nat)
    requires g.objectSize > 0
  {
    && h < |img| && Distinct(img[h].freelist)
    && |img[h].freelist| + img[h].nrSmallAlloc == PerSpan(g)
    && (forall o {:trigger IsObj(g, h, o)} :: IsObj(g, h, o) ==> o in homes && homes[o].head == h)
    && (forall o {:trigger o in img[h].freelist} :: o in img[h].freelist ==> o in homes && homes[o] == Home(h, InSpan))
  }

  /** `o` is an object of one of the pool's spans, and its place is what the lists say. */
  ghost predicate HomeOk(g: Geometry, img: seq<Page>, mine: set<nat>, homes: Homes, free: seq<nat>, o: nat)
    requires g.objectSize > 0 && o in homes
  {
    var h := homes[o].head;
    && h in mine && h < |img| && IsObj(g, h, o)
    && (homes[o].place == Pooled <==> o in free)
    && (homes[o].place == InSpan <==> o in img[h].freelist)
  }

  /** Conservation: every object of the pool's spans is in exactly one place, and the lists
      and counts agree with it. */
  ghost predicate Conserved(g: Geometry, img: seq<Page>, mine: set<nat>, homes: Homes, free: seq<nat>) {
    && GeometryOk(g) && Distinct(free)
    && (forall h {:trigger OwnsPages(g, img, h)} :: h in mine ==> OwnsPages(g, img, h))
    && (forall h {:trigger SpanOk(g, img, homes, h)} :: h in mine ==> SpanOk(g, img, homes, h))
    && (forall o {:trigger HomeOk(g, img, mine, homes, free, o)} :: o in homes ==> HomeOk(g, img, mine, homes, free, o))
    && (forall o :: o in free ==> o in homes)
  }

  // ----- how many objects of a span are on its freelist

  ghost function ObjSet(g: Geometry, h: nat, n: nat): set<nat> {
    if n == 0 then {} else ObjSet(g, h, n - 1) + {ObjAt(g, h, n - 1)}
  }

  lemma {:induction false} ObjSetSize(g: Geometry, h: nat, n: nat)
    requires g.objectSize > 0
    ensures |ObjSet(g, h, n)| == n
    ensures forall k :: 0 <= k < n ==> ObjAt(g, h, k) in ObjSet(g, h, n)
    ensures forall o :: o in ObjSet(g, h, n) ==> o < ObjAt(g, h, n)
  {
    if n > 0 {
      ObjSetSize(g, h, n - 1);
      MultiplesApart(n - 1, n, g.objectSize);
    }
  }

  lemma InObjSet(g: Geometry, h: nat, o: nat)
    requires g.objectSize > 0 && IsObj(g, h, o)
    ensures o in ObjSet(g, h, PerSpan(g))
  {
    var k := IsObjHasIndex(g, h, o);
    ObjSetSize(g, h, PerSpan(g));
  }

  ghost function Elements(l: seq<nat>): set<nat> {
    set x | x in l
  }

  lemma {:induction false} ElementsSize(l: seq<nat>)
    requires Distinct(l)
    ensures |Elements(l)| == |l|
  {
    if l != [] {
      var rest := l[1..];
      forall i, j {:trigger Differ(rest, i, j)} | 0 <= i < |rest| && 0 <= j < |rest|
        ensures Differ(rest, i, j)
      {
        assert Differ(l, i + 1, j + 1);
      }
      ElementsSize(rest);
      forall i | 0 <= i < |rest|
        ensures rest[i] != l[0]
      {
        assert Differ(l, 0, i + 1);
      }
      assert Elements(l) == Elements(rest) + {l[0]};
    }
  }

  /** A subset with as many elements is the whole set. */
  lemma SameSize(a: set<nat>, b: set<nat>)
    requires a <= b
    ensures |a| <= |b|
    ensures |a| == |b| ==> a == b
  {
    assert b == a + (b - a);
  }

  lemma FreelistInSpan(g: Geometry, img: seq<Page>, mine: set<nat>, homes: Homes, free: seq<nat>, h: nat)
    requires Conserved(g, img, mine, homes, free) && h in mine && h < |img|
    ensures Elements(img[h].freelist) <= ObjSet(g, h, PerSpan(g))
  {
    assert SpanOk(g, img, homes, h);
    forall o | o in img[h].freelist
      ensures o in ObjSet(g, h, PerSpan(g))
    {
      assert HomeOk(g, img, mine, homes, free, o);
      InObjSet(g, h, o);
    }
  }

  /** The span counts an object as allocated as long as one of them is off its freelist, and
      as none exactly when all of them are on it. */
  lemma AllInSpanIff(g: Geometry, img: seq<Page>, mine: set<nat>, homes: Homes, free: seq<nat>, h: nat)
    requires Conserved(g, img, mine, homes, free) && h in mine && h < |img|
    ensures img[h].nrSmallAlloc == 0 <==>
            forall o {:trigger IsObj(g, h, o)} :: IsObj(g, h, o) ==> o in homes && homes[o].place == InSpan
  {
    assert SpanOk(g, img, homes, h);
    var s, all := Elements(img[h].freelist), ObjSet(g, h, PerSpan(g));
    FreelistInSpan(g, img, mine, homes, free, h);
    ElementsSize(img[h].freelist);
    ObjSetSize(g, h, PerSpan(g));
    SameSize(s, all);
    if img[h].nrSmallAlloc == 0 {
      forall o {:trigger IsObj(g, h, o)} | IsObj(g, h, o)
        ensures o in homes && homes[o].place == InSpan
      {
        InObjSet(g, h, o);
        assert o in img[h].freelist;
      }
    }
    if forall o {:trigger IsObj(g, h, o)} :: IsObj(g, h, o) ==> o in homes && homes[o].place == InSpan {
      forall o | o in all
        ensures o in s
      {
        InObjSetIsObj(g, h, PerSpan(g), o);
        assert IsObj(g, h, o) && HomeOk(g, img, mine, homes, free, o);
      }
      assert s == all;
    }
  }

  lemma {:induction false} InObjSetIsObj(g: Geometry, h: nat, n: nat, o: nat)
    requires g.objectSize > 0 && n <= PerSpan(g) && o in ObjSet(g, h, n)
    ensures IsObj(g, h, o)
  {
    if o == ObjAt(g, h, n - 1) {
      ObjAtIsObj(g, h, n - 1);
    } else {
      InObjSetIsObj(g, h, n - 1, o);
    }
  }

  // ----- one object moves

  /** `pool._free` loses its head to the caller of `allocate`. */
  lemma TakePooled(g: Geometry, img: seq<Page>, mine: set<nat>, homes: Homes, free: seq<nat>)
    requires Conserved(g, img, mine, homes, free) && free != []
    ensures free[0] in homes && homes[free[0]].place == Pooled
    ensures Conserved(g, img, mine, homes[free[0] := Home(homes[free[0]].head, Held)], free[1..])
  {
    var o := free[0];
    assert o in free && HomeOk(g, img, mine, homes, free, o);
    var homes', free' := homes[o := Home(homes[o].head, Held)], free[1..];
    TailDistinct(free);
    forall h {:trigger SpanOk(g, img, homes', h)} | h in mine
      ensures SpanOk(g, img, homes', h)
    {
      assert SpanOk(g, img, homes, h);
    }
    forall p {:trigger HomeOk(g, img, mine, homes', free', p)} | p in homes'
      ensures HomeOk(g, img, mine, homes', free', p)
    {
      assert HomeOk(g, img, mine, homes, free, p);
      if p != o {
        TailMembers(free, p);
      }
    }
  }

  /** The caller of `deallocate` puts an object it holds on `pool._free`. */
  lemma PutHeld(g: Geometry, img: seq<Page>, mine: set<nat>, homes: Homes, free: seq<nat>, o: nat)
    requires Conserved(g, img, mine, homes, free) && o in homes && homes[o].place == Held
    ensures Conserved(g, img, mine, homes[o := Home(homes[o].head, Pooled)], [o] + free)
  {
    assert HomeOk(g, img, mine, homes, free, o);
    var homes', free' := homes[o := Home(homes[o].head, Pooled)], [o] + free;
    PushDistinct(free, o);
    forall h {:trigger SpanOk(g, img, homes', h)} | h in mine
      ensures SpanOk(g, img, homes', h)
    {
      assert SpanOk(g, img, homes, h);
    }
    forall p {:trigger HomeOk(g, img, mine, homes', free', p)} | p in homes'
      ensures HomeOk(g, img, mine, homes', free', p)
    {
      assert HomeOk(g, img, mine, homes, free, p);
    }
  }

  /** The first object of a span's freelist moves to `pool._free`. */
  lemma DrainOne(g: Geometry, img: seq<Page>, mine: set<nat>, homes: Homes, free: seq<nat>, h: nat)
    requires Conserved(g, img, mine, homes, free) && h in mine && h < |img| && img[h].freelist != []
    ensures img[h].freelist[0] in homes && homes[img[h].freelist[0]] == Home(h, InSpan)
    ensures Conserved(g, Drained(img, h), mine, homes[img[h].freelist[0] := Home(h, Pooled)], [img[h].freelist[0]] + free)
  {
    var o, img' := img[h].freelist[0], Drained(img, h);
    assert SpanOk(g, img, homes, h) && o in img[h].freelist;
    assert HomeOk(g, img, mine, homes, free, o);
    TailDistinct(img[h].freelist);
    PushDistinct(free, o);
    MoveOk(g, img, mine, homes, free, img', o, Home(h, Pooled), [o] + free);
  }

  ghost function Drained(img: seq<Page>, h: nat): seq<Page>
    requires h < |img| && img[h].freelist != []
  {
    img[h := img[h].(freelist := img[h].freelist[1..], nrSmallAlloc := img[h].nrSmallAlloc + 1)]
  }

  /** The head of `pool._free` goes back to the freelist of its span. */
  lemma TrimOne(g: Geometry, img: seq<Page>, mine: set<nat>, homes: Homes, free: seq<nat>)
    requires Conserved(g, img, mine, homes, free) && free != []
    ensures free[0] in homes && homes[free[0]].place == Pooled
    ensures homes[free[0]].head in mine && homes[free[0]].head < |img|
    ensures img[homes[free[0]].head].nrSmallAlloc > 0
    ensures Conserved(g, Trimmed(img, homes[free[0]].head, free[0]), mine,
                      homes[free[0] := Home(homes[free[0]].head, InSpan)], free[1..])
  {
    var o := free[0];
    assert o in free && HomeOk(g, img, mine, homes, free, o);
    var h := homes[o].head;
    assert SpanOk(g, img, homes, h) && o !in img[h].freelist;
    AllInSpanIff(g, img, mine, homes, free, h);
    assert IsObj(g, h, o);
    PushDistinct(img[h].freelist, o);
    TailDistinct(free);
    MoveOk(g, img, mine, homes, free, Trimmed(img, h, o), o, Home(h, InSpan), free[1..]);
  }

  ghost function Trimmed(img: seq<Page>, h: nat, o: nat): seq<Page>
    requires h < |img| && img[h].nrSmallAlloc > 0
  {
    img[h := img[h].(freelist := [o] + img[h].freelist, nrSmallAlloc := img[h].nrSmallAlloc - 1)]
  }

  ghost predicate OnlyCounts(a: seq<Page>, b: seq<Page>, h: nat)
    requires h < |a| == |b|
  {
    b == a[h := a[h].(freelist := b[h].freelist, nrSmallAlloc := b[h].nrSmallAlloc)]
  }

  /** Moving object `o` between `pool._free` and its span's freelist. */
  lemma MoveOk(g: Geometry, img: seq<Page>, mine: set<nat>, homes: Homes, free: seq<nat>,
               img': seq<Page>, o: nat, home: Home, free': seq<nat>)
    requires Conserved(g, img, mine, homes, free) && o in homes && home.head == homes[o].head
    requires home.head < |img| && |img'| == |img| && Distinct(free') && Distinct(img'[home.head].freelist)
    requires OnlyCounts(img, img', home.head)
    requires |img'[home.head].freelist| + img'[home.head].nrSmallAlloc == PerSpan(g)
    requires forall p :: p != o ==> (p in free' <==> p in free)
    requires forall p :: p != o ==> (p in img'[home.head].freelist <==> p in img[home.head].freelist)
    requires home.place == Pooled <==> o in free'
    requires home.place == InSpan <==> o in img'[home.head].freelist
    ensures Conserved(g, img', mine, homes[o := home], free')
  {
    var homes' := homes[o := home];
    assert HomeOk(g, img, mine, homes, free, o);
    forall h {:trigger OwnsPages(g, img', h)} | h in mine
      ensures OwnsPages(g, img', h)
    {
      assert OwnsPages(g, img, h);
    }
    forall h {:trigger SpanOk(g, img', homes', h)} | h in mine
      ensures SpanOk(g, img', homes', h)
    {
      assert SpanOk(g, img, homes, h);
    }
    forall p {:trigger HomeOk(g, img', mine, homes', free', p)} | p in homes'
      ensures HomeOk(g, img', mine, homes', free', p)
    {
      assert HomeOk(g, img, mine, homes, free, p);
    }
  }

  // ----- spans come and go

  /** The slab layer's view of the page array. */
  ghost predicate SameSlabs(a: seq<Page>, b: seq<Page>, g: Geometry, mine: set<nat>) {
    && |a| == |b|
    && forall h, p :: h in mine && h <= p < h + g.spanSize && p < |a| ==>
      b[p].offsetInSpan == a[p].offsetInSpan && b[p].pool == a[p].pool
      && b[p].nrSmallAlloc == a[p].nrSmallAlloc && b[p].freelist == a[p].freelist
  }

  lemma ConservedFrame(g: Geometry, a: seq<Page>, b: seq<Page>, mine: set<nat>, homes: Homes, free: seq<nat>)
    requires Conserved(g, a, mine, homes, free) && SameSlabs(a, b, g, mine)
    ensures Conserved(g, b, mine, homes, free)
  {
    forall h {:trigger OwnsPages(g, b, h)} | h in mine
      ensures OwnsPages(g, b, h)
    {
      assert OwnsPages(g, a, h);
    }
    forall h {:trigger SpanOk(g, b, homes, h)} | h in mine
      ensures SpanOk(g, b, homes, h)
    {
      assert SpanOk(g, a, homes, h) && h <= h < h + g.spanSize;
    }
    forall p {:trigger HomeOk(g, b, mine, homes, free, p)} | p in homes
      ensures HomeOk(g, b, mine, homes, free, p)
    {
      assert HomeOk(g, a, mine, homes, free, p);
      assert homes[p].head <= homes[p].head < homes[p].head + g.spanSize;
    }
  }

  /** The objects of the span at `h`, all of them pooled. */
  ghost function NewHomes(g: Geometry, h: nat): Homes
    requires g.objectSize > 0
  {
    map o | o in ObjSet(g, h, PerSpan(g)) :: Home(h, Pooled)
  }

  ghost predicate ApartFrom(g: Geometry, mine: set<nat>, h: nat)
  {
    forall x :: x in mine ==> x + g.spanSize <= h || h + g.spanSize <= x
  }

  /** Objects of spans that do not overlap have different addresses. */
  lemma ObjectsApart(g: Geometry, h: nat, x: nat, o: nat)
    requires g.objectSize > 0 && IsObj(g, h, o)
    requires x + g.spanSize <= h || h + g.spanSize <= x
    ensures !IsObj(g, x, o)
  {
    ObjPage(g, h, o);
    if IsObj(g, x, o) {
      ObjPage(g, x, o);
    }
  }

  /** A fresh span whose objects all went to `pool._free`. */
  lemma AddSpan(g: Geometry, a: seq<Page>, b: seq<Page>, mine: set<nat>, homes: Homes, free: seq<nat>,
                h: nat, objs: seq<nat>)
    requires Conserved(g, a, mine, homes, free) && SameSlabs(a, b, g, mine)
    requires h !in mine && ApartFrom(g, mine, h)
    requires OwnsPages(g, b, h) && h < |b| && b[h].freelist == [] && b[h].nrSmallAlloc == PerSpan(g)
    requires Distinct(objs) && forall o :: o in objs <==> o in ObjSet(g, h, PerSpan(g))
    ensures Conserved(g, b, mine + {h}, homes + NewHomes(g, h), objs + free)
    ensures homes.Keys !! NewHomes(g, h).Keys
  {
    ConservedFrame(g, a, b, mine, homes, free);
    var more := NewHomes(g, h);
    var homes', mine', free' := homes + more, mine + {h}, objs + free;
    forall o | o in more
      ensures IsObj(g, h, o) && o !in homes && o !in free
    {
      InObjSetIsObj(g, h, PerSpan(g), o);
      if o in homes {
        assert HomeOk(g, b, mine, homes, free, o);
        ObjectsApart(g, h, homes[o].head, o);
      }
    }
    ConcatDistinct(objs, free);
    forall x {:trigger OwnsPages(g, b, x)} | x in mine'
      ensures OwnsPages(g, b, x)
    {
    }
    forall x {:trigger SpanOk(g, b, homes', x)} | x in mine'
      ensures SpanOk(g, b, homes', x)
    {
      if x != h {
        assert SpanOk(g, b, homes, x);
      } else {
        forall o {:trigger IsObj(g, h, o)} | IsObj(g, h, o)
          ensures o in homes' && homes'[o].head == h
        {
          InObjSet(g, h, o);
        }
      }
    }
    forall p {:trigger HomeOk(g, b, mine', homes', free', p)} | p in homes'
      ensures HomeOk(g, b, mine', homes', free', p)
    {
      if p !in more {
        assert HomeOk(g, b, mine, homes, free, p);
      }
    }
  }

  lemma ConcatDistinct(a: seq<nat>, b: seq<nat>)
    requires Distinct(a) && Distinct(b) && forall x :: x in a ==> x !in b
    ensures Distinct(a + b)
  {
    var r := a + b;
    forall i, j {:trigger Differ(r, i, j)} | 0 <= i < |r| && 0 <= j < |r|
      ensures Differ(r, i, j)
    {
      if i < |a| && j < |a| {
        assert Differ(a, i, j);
      } else if i >= |a| && j >= |a| {
        assert Differ(b, i - |a|, j - |a|);
      } else if i < |a| {
        assert r[i] in a && r[j] in b;
      } else {
        assert r[j] in a && r[i] in b;
      }
    }
  }

  /** A span with no object held or pooled leaves the pool. */
  lemma DropSpan(g: Geometry, img: seq<Page>, mine: set<nat>, homes: Homes, free: seq<nat>, h: nat)
    requires Conserved(g, img, mine, homes, free) && h in mine && h < |img| && img[h].nrSmallAlloc == 0
    ensures Conserved(g, img, mine - {h}, homes - ObjSet(g, h, PerSpan(g)), free)
  {
    AllInSpanIff(g, img, mine, homes, free, h);
    var gone := ObjSet(g, h, PerSpan(g));
    var homes', mine' := homes - gone, mine - {h};
    forall o | o in gone
      ensures o in homes && homes[o] == Home(h, InSpan) && o !in free
    {
      InObjSetIsObj(g, h, PerSpan(g), o);
      assert SpanOk(g, img, homes, h);
      assert HomeOk(g, img, mine, homes, free, o);
    }
    forall x {:trigger SpanOk(g, img, homes', x)} | x in mine'
      ensures SpanOk(g, img, homes', x)
    {
      assert SpanOk(g, img, homes, x);
    }
    forall p {:trigger HomeOk(g, img, mine', homes', free, p)} | p in homes'
      ensures HomeOk(g, img, mine', homes', free, p)
    {
      assert HomeOk(g, img, mine, homes, free, p);
      if homes[p].head == h {
        InObjSet(g, h, p);
      }
    }
  }

  lemma TailDistinct(l: seq<nat>)
    requires Distinct(l) && l != []
    ensures Distinct(l[1..]) && l[0] !in l[1..]
  {
    assert l[1..] == Without(l, 0);
    WithoutDistinct(l, 0);
    WithoutMembers(l, 0);
  }

  lemma TailMembers(l: seq<nat>, x: nat)
    requires l != [] && x != l[0]
    ensures x in l <==> x in l[1..]
  {
  }
}
