/** Spans of pages and what the boundary tags in the page array say about them. The ghost
    map gives, for the first page of every span, its size and whether it is free. */
module Tilings {
  import opened PageLists

  datatype Span = Span(size: nat, free: bool)

  type Spans = map<nat, Span>

  /** The head and the tail page of the span at `s` carry its state and size. */
  ghost predicate Tagged(pg: seq<Page>, s: nat, sp: Span) {
    && sp.size > 0
    && s + sp.size <= |pg|
    && pg[s].free == sp.free == pg[s + sp.size - 1].free
    && pg[s].spanSize == sp.size == pg[s + sp.size - 1].spanSize
  }

  /** Page `p` is the first managed page, or the tag on the page before it leads back to
      the head of a span that stops right before `p`. */
  ghost predicate EndsAt(pg: seq<Page>, spans: Spans, base: nat, p: nat) {
    p == base ||
    (base < p <= |pg|
     && base + pg[p - 1].spanSize <= p
     && p - pg[p - 1].spanSize in spans
     && spans[p - pg[p - 1].spanSize].size == pg[p - 1].spanSize)
  }

  ghost predicate BeginsAt(spans: Spans, nr: nat, p: nat) {
    p == nr || p in spans
  }

  /** What the tiling says of one span: it is inside the managed range and outside the hole
      from `lo` to `hi`, its tags are right, another span or the hole ends where it begins
      and begins where it ends, and it is not free next to a free one. */
  ghost predicate SpanOk(pg: seq<Page>, spans: Spans, base: nat, nr: nat, lo: nat, hi: nat, s: nat)
    requires s in spans
  {
    var e := s + spans[s].size;
    && base <= s && e <= nr && nr < |pg|
    && Tagged(pg, s, spans[s])
    && (e <= lo || hi <= s)
    && (e == lo || BeginsAt(spans, nr, e))
    && (s == hi || EndsAt(pg, spans, base, s))
    && (spans[s].free && e in spans ==> !spans[e].free)
  }

  ghost predicate Apart(spans: Spans, s: nat, t: nat)
    requires s in spans && t in spans
  {
    s < t ==> s + spans[s].size <= t
  }

  ghost predicate Disjoint(spans: Spans) {
    forall s, t {:trigger Apart(spans, s, t)} :: s in spans && t in spans ==> Apart(spans, s, t)
  }

  lemma DisjointWithout(spans: Spans, h: nat)
    requires Disjoint(spans)
    ensures Disjoint(spans - {h})
  {
    forall s, t {:trigger Apart(spans - {h}, s, t)} | s in spans - {h} && t in spans - {h}
      ensures Apart(spans - {h}, s, t)
    {
      assert Apart(spans, s, t);
    }
  }

  /** The spans tile the pages from `base` to `nr` except the hole from `lo` to `hi`, the
      tags agree with them, and no two free spans touch. The pages on either side of the
      managed range read as not free. */
  ghost predicate Tiling(pg: seq<Page>, spans: Spans, base: nat, nr: nat, lo: nat, hi: nat) {
    && 1 <= base <= lo <= hi <= nr && |pg| == nr + 1
    && !pg[base - 1].free && !pg[nr].free
    && (forall s {:trigger SpanOk(pg, spans, base, nr, lo, hi, s)} :: s in spans ==> SpanOk(pg, spans, base, nr, lo, hi, s))
    && Disjoint(spans)
    && EndsAt(pg, spans, base, lo)
    && BeginsAt(spans, nr, hi)
    && (base == lo || base in spans)
  }

  lemma SpanFacts(pg: seq<Page>, spans: Spans, base: nat, nr: nat, lo: nat, hi: nat, s: nat)
    requires Tiling(pg, spans, base, nr, lo, hi) && s in spans
    ensures SpanOk(pg, spans, base, nr, lo, hi, s)
  {
  }

  /** `b` is `a` except for the tags of pages `h` and `t`. */
  ghost predicate SameTagsBut(a: seq<Page>, b: seq<Page>, h: nat, t: nat) {
    && |a| == |b|
    && (forall i :: 0 <= i < |a| && i != h && i != t ==> b[i].free == a[i].free && b[i].spanSize == a[i].spanSize)
  }

  ghost predicate SameTags(a: seq<Page>, b: seq<Page>) {
    |a| == |b| && forall i :: 0 <= i < |a| ==> b[i].free == a[i].free && b[i].spanSize == a[i].spanSize
  }

  /** Links and slab fields play no part in the tiling. */
  lemma TilingFrame(a: seq<Page>, b: seq<Page>, spans: Spans, base: nat, nr: nat, lo: nat, hi: nat)
    requires Tiling(a, spans, base, nr, lo, hi)
    requires SameTags(a, b)
    ensures Tiling(b, spans, base, nr, lo, hi)
  {
    forall s {:trigger SpanOk(b, spans, base, nr, lo, hi, s)} | s in spans
      ensures SpanOk(b, spans, base, nr, lo, hi, s)
    {
      assert SpanOk(a, spans, base, nr, lo, hi, s);
    }
  }

  /** With no hole, an empty one may be placed before any span. */
  lemma HoleBefore(pg: seq<Page>, spans: Spans, base: nat, nr: nat, h: nat)
    requires Tiling(pg, spans, base, nr, nr, nr) && h in spans
    ensures Tiling(pg, spans, base, nr, h, h)
  {
    assert SpanOk(pg, spans, base, nr, nr, nr, h);
    forall s {:trigger SpanOk(pg, spans, base, nr, h, h, s)} | s in spans
      ensures SpanOk(pg, spans, base, nr, h, h, s)
    {
      assert SpanOk(pg, spans, base, nr, nr, nr, s) && Apart(spans, s, h) && Apart(spans, h, s);
    }
  }

  /** Following spans upwards from `p` reaches the end of the managed range. */
  lemma {:induction false} LastEnds(pg: seq<Page>, spans: Spans, base: nat, nr: nat, h: nat, p: nat)
    requires Tiling(pg, spans, base, nr, h, h) && BeginsAt(spans, nr, p) && EndsAt(pg, spans, base, p)
    ensures EndsAt(pg, spans, base, nr)
    decreases nr - p
  {
    if p in spans {
      assert SpanOk(pg, spans, base, nr, h, h, p);
      LastEnds(pg, spans, base, nr, h, p + spans[p].size);
    }
  }

  /** An empty hole may be dropped. */
  lemma HoleClosed(pg: seq<Page>, spans: Spans, base: nat, nr: nat, p: nat)
    requires Tiling(pg, spans, base, nr, p, p)
    ensures Tiling(pg, spans, base, nr, nr, nr)
  {
    forall s {:trigger SpanOk(pg, spans, base, nr, nr, nr, s)} | s in spans
      ensures SpanOk(pg, spans, base, nr, nr, nr, s)
    {
      assert SpanOk(pg, spans, base, nr, p, p, s);
    }
    LastEnds(pg, spans, base, nr, p, p);
  }

  /** Taking the span right after the hole out of the tiling. */
  lemma RemoveAfter(pg: seq<Page>, spans: Spans, base: nat, nr: nat, lo: nat, hi: nat)
    requires Tiling(pg, spans, base, nr, lo, hi) && hi in spans
    ensures Tiling(pg, spans - {hi}, base, nr, lo, hi + spans[hi].size)
  {
    assert SpanOk(pg, spans, base, nr, lo, hi, hi);
    DisjointWithout(spans, hi);
    forall s {:trigger SpanOk(pg, spans - {hi}, base, nr, lo, hi + spans[hi].size, s)} | s in spans - {hi}
      ensures SpanOk(pg, spans - {hi}, base, nr, lo, hi + spans[hi].size, s)
    {
      assert SpanOk(pg, spans, base, nr, lo, hi, s) && Apart(spans, s, hi) && Apart(spans, hi, s);
    }
  }

  /** Taking the span right before the hole out of the tiling. */
  lemma RemoveBefore(pg: seq<Page>, spans: Spans, base: nat, nr: nat, lo: nat, hi: nat, h: nat)
    requires Tiling(pg, spans, base, nr, lo, hi) && h in spans && h + spans[h].size == lo
    ensures Tiling(pg, spans - {h}, base, nr, h, hi)
  {
    assert SpanOk(pg, spans, base, nr, lo, hi, h);
    DisjointWithout(spans, h);
    forall s {:trigger SpanOk(pg, spans - {h}, base, nr, h, hi, s)} | s in spans - {h}
      ensures SpanOk(pg, spans - {h}, base, nr, h, hi, s)
    {
      assert SpanOk(pg, spans, base, nr, lo, hi, s) && Apart(spans, s, h) && Apart(spans, h, s);
    }
  }

  /** A span placed inside the hole overlaps no other. */
  lemma FillDisjoint(pg: seq<Page>, spans: Spans, base: nat, nr: nat, lo: nat, hi: nat, at: nat, sp: Span)
    requires Tiling(pg, spans, base, nr, lo, hi) && lo <= at && at + sp.size <= hi && sp.size > 0
    ensures at !in spans && Disjoint(spans[at := sp])
  {
    assert at in spans ==> SpanOk(pg, spans, base, nr, lo, hi, at);
    var spans' := spans[at := sp];
    forall s, t {:trigger Apart(spans', s, t)} | s in spans' && t in spans'
      ensures Apart(spans', s, t)
    {
      assert s != at && t != at ==> Apart(spans, s, t);
      assert s != at ==> SpanOk(pg, spans, base, nr, lo, hi, s);
      assert t != at ==> SpanOk(pg, spans, base, nr, lo, hi, t);
    }
  }

  /** A tag that leads back to a span is outside the hole, so filling keeps it. */
  lemma FillEnds(pg: seq<Page>, spans: Spans, base: nat, nr: nat, lo: nat, hi: nat,
                 at: nat, sp: Span, pg': seq<Page>, p: nat)
    requires Tiling(pg, spans, base, nr, lo, hi) && lo <= at && at + sp.size <= hi && sp.size > 0
    requires SameTagsBut(pg, pg', at, at + sp.size - 1)
    requires EndsAt(pg, spans, base, p)
    ensures EndsAt(pg', spans[at := sp], base, p)
  {
    FillDisjoint(pg, spans, base, nr, lo, hi, at, sp);
    if p != base {
      assert SpanOk(pg, spans, base, nr, lo, hi, p - pg[p - 1].spanSize);
    }
  }

  /** A span outside the hole is as right as before once a span is placed in the hole. */
  lemma FillOther(pg: seq<Page>, spans: Spans, base: nat, nr: nat, lo: nat, hi: nat,
                  at: nat, sp: Span, pg': seq<Page>, s: nat)
    requires Tiling(pg, spans, base, nr, lo, hi) && lo <= at && at + sp.size <= hi && sp.size > 0
    requires SameTagsBut(pg, pg', at, at + sp.size - 1) && s in spans
    ensures at !in spans && (s + spans[s].size <= lo || hi <= s)
    ensures base <= s && s + spans[s].size <= nr && Tagged(pg', s, spans[s])
    ensures s + spans[s].size == lo || BeginsAt(spans, nr, s + spans[s].size)
    ensures s == hi || EndsAt(pg', spans[at := sp], base, s)
    ensures spans[s].free && s + spans[s].size in spans ==> !spans[s + spans[s].size].free
    ensures pg[s].free == spans[s].free == pg[s + spans[s].size - 1].free
  {
    assert SpanOk(pg, spans, base, nr, lo, hi, s);
    FillDisjoint(pg, spans, base, nr, lo, hi, at, sp);
    if s != hi {
      FillEnds(pg, spans, base, nr, lo, hi, at, sp, pg', s);
    }
  }

  /** The hole left once the span of `size` pages at one of its ends is filled. */
  function HoleLo(lo: nat, at: nat, size: nat): nat {
    if at == lo then lo + size else lo
  }

  function HoleHi(lo: nat, hi: nat, at: nat): nat {
    if at == lo then hi else at
  }

  ghost predicate Fillable(pg: seq<Page>, lo: nat, hi: nat, at: nat, sp: Span)
  {
    && 0 < lo <= at && at + sp.size <= hi < |pg| && sp.size > 0
    && (at == lo || at + sp.size == hi)
    && (sp.free && at == lo ==> !pg[lo - 1].free)
    && (sp.free && at + sp.size == hi ==> !pg[hi].free)
  }

  lemma FillSpanOk(pg: seq<Page>, spans: Spans, base: nat, nr: nat, lo: nat, hi: nat,
                   at: nat, sp: Span, pg': seq<Page>, s: nat)
    requires Tiling(pg, spans, base, nr, lo, hi) && Fillable(pg, lo, hi, at, sp)
    requires SameTagsBut(pg, pg', at, at + sp.size - 1) && Tagged(pg', at, sp)
    requires s in spans && s != at
    ensures SpanOk(pg', spans[at := sp], base, nr, HoleLo(lo, at, sp.size), HoleHi(lo, hi, at), s)
  {
    FillOther(pg, spans, base, nr, lo, hi, at, sp, pg', s);
  }

  lemma FillNewSpanOk(pg: seq<Page>, spans: Spans, base: nat, nr: nat, lo: nat, hi: nat,
                      at: nat, sp: Span, pg': seq<Page>)
    requires Tiling(pg, spans, base, nr, lo, hi) && Fillable(pg, lo, hi, at, sp)
    requires SameTagsBut(pg, pg', at, at + sp.size - 1) && Tagged(pg', at, sp)
    ensures SpanOk(pg', spans[at := sp], base, nr, HoleLo(lo, at, sp.size), HoleHi(lo, hi, at), at)
  {
    FillEnds(pg, spans, base, nr, lo, hi, at, sp, pg', lo);
    if at + sp.size in spans {
      FillOther(pg, spans, base, nr, lo, hi, at, sp, pg', at + sp.size);
    }
  }

  /** Filling the low or the high end of the hole. */
  lemma Fill(pg: seq<Page>, spans: Spans, base: nat, nr: nat, lo: nat, hi: nat,
             at: nat, sp: Span, pg': seq<Page>)
    requires Tiling(pg, spans, base, nr, lo, hi) && Fillable(pg, lo, hi, at, sp)
    requires SameTagsBut(pg, pg', at, at + sp.size - 1) && Tagged(pg', at, sp)
    ensures Tiling(pg', spans[at := sp], base, nr, HoleLo(lo, at, sp.size), HoleHi(lo, hi, at))
  {
    var spans' := spans[at := sp];
    var lo', hi' := HoleLo(lo, at, sp.size), HoleHi(lo, hi, at);
    FillDisjoint(pg, spans, base, nr, lo, hi, at, sp);
    FillEnds(pg, spans, base, nr, lo, hi, at, sp, pg', lo);
    FillNewSpanOk(pg, spans, base, nr, lo, hi, at, sp, pg');
    forall s {:trigger SpanOk(pg', spans', base, nr, lo', hi', s)} | s in spans'
      ensures SpanOk(pg', spans', base, nr, lo', hi', s)
    {
      if s != at {
        FillSpanOk(pg, spans, base, nr, lo, hi, at, sp, pg', s);
      }
    }
  }

  /** Pages of the free spans that begin below `n`. */
  ghost function FreeBelow(spans: Spans, n: nat): nat {
    if n == 0 then 0
    else FreeBelow(spans, n - 1) + if n - 1 in spans && spans[n - 1].free then spans[n - 1].size else 0
  }

  /** Giving `at` a span adds its pages when the span is free. */
  lemma {:induction false} FreeBelowFill(spans: Spans, at: nat, sp: Span, n: nat)
    requires at !in spans
    ensures FreeBelow(spans[at := sp], n) == FreeBelow(spans, n) + if at < n && sp.free then sp.size else 0
  {
    if n > 0 {
      FreeBelowFill(spans, at, sp, n - 1);
    }
  }

  lemma FreeBelowRemove(spans: Spans, at: nat, n: nat)
    requires at in spans
    ensures FreeBelow(spans - {at}, n) == FreeBelow(spans, n) - if at < n && spans[at].free then spans[at].size else 0
  {
    FreeBelowFill(spans - {at}, at, spans[at], n);
    assert (spans - {at})[at := spans[at]] == spans;
  }

  ghost predicate Covers(spans: Spans, s: nat, p: nat) {
    s in spans && s <= p < s + spans[s].size
  }

  /** Every managed page from the start of span `from` on belongs to a span. */
  lemma {:induction false} CoveredFrom(pg: seq<Page>, spans: Spans, base: nat, nr: nat, from: nat, p: nat)
    returns (s: nat)
    requires Tiling(pg, spans, base, nr, nr, nr) && from in spans && from <= p < nr
    ensures Covers(spans, s, p)
    decreases nr - from
  {
    assert SpanOk(pg, spans, base, nr, nr, nr, from);
    if p < from + spans[from].size {
      s := from;
    } else {
      s := CoveredFrom(pg, spans, base, nr, from + spans[from].size, p);
    }
  }

  /** The spans tile the managed pages exactly: every page is in one span and in no other,
      and every span lies inside the managed range. */
  lemma TiledExactly(pg: seq<Page>, spans: Spans, base: nat, nr: nat, p: nat)
    requires Tiling(pg, spans, base, nr, nr, nr)
    ensures base <= p < nr ==> exists s :: Covers(spans, s, p)
    ensures p < base || nr <= p ==> !exists s :: Covers(spans, s, p)
    ensures forall s, t :: Covers(spans, s, p) && Covers(spans, t, p) ==> s == t
  {
    forall s, t | Covers(spans, s, p) && Covers(spans, t, p)
      ensures s == t
    {
      assert Apart(spans, s, t) && Apart(spans, t, s);
    }
    if base <= p < nr {
      var s := CoveredFrom(pg, spans, base, nr, base, p);
    } else {
      forall s | Covers(spans, s, p)
        ensures false
      {
        SpanFacts(pg, spans, base, nr, nr, nr, s);
      }
    }
  }

  /** A free span holds no more pages than all free spans together. */
  lemma {:induction false} FreeBelowAtLeast(spans: Spans, at: nat, n: nat)
    requires at in spans && spans[at].free && at < n
    ensures spans[at].size <= FreeBelow(spans, n)
  {
    if at < n - 1 {
      FreeBelowAtLeast(spans, at, n - 1);
    }
  }

  /** Free spans that do not overlap and end by `e` hold at most `e` pages. */
  lemma {:induction false} FreeBelowBound(spans: Spans, n: nat, e: nat)
    requires Disjoint(spans) && n <= e
    requires forall s :: s in spans && s < n ==> s + spans[s].size <= e
    ensures FreeBelow(spans, n) <= e
  {
    if n > 0 {
      if n - 1 in spans {
        forall s | s in spans && s < n - 1
          ensures s + spans[s].size <= n - 1
        {
          assert Apart(spans, s, n - 1);
        }
        FreeBelowBound(spans, n - 1, n - 1);
      } else {
        FreeBelowBound(spans, n - 1, e);
      }
    }
  }

  /** A free tag before the hole is the tail of a free span with nothing free before it. */
  lemma FreeBefore(pg: seq<Page>, spans: Spans, base: nat, nr: nat, lo: nat, hi: nat)
    requires Tiling(pg, spans, base, nr, lo, hi) && pg[lo - 1].free
    ensures var b := pg[lo - 1].spanSize;
      && 0 < b && base + b <= lo && lo - b in spans && spans[lo - b] == Span(b, true)
      && !pg[lo - b - 1].free
  {
    var h := lo - pg[lo - 1].spanSize;
    assert SpanOk(pg, spans, base, nr, lo, hi, h);
    if h != base {
      assert SpanOk(pg, spans, base, nr, lo, hi, h - pg[h - 1].spanSize);
    }
  }

  /** A free tag after the hole is the head of a free span with nothing free after it. */
  lemma FreeAfter(pg: seq<Page>, spans: Spans, base: nat, nr: nat, lo: nat, hi: nat)
    requires Tiling(pg, spans, base, nr, lo, hi) && pg[hi].free
    ensures var a := pg[hi].spanSize;
      && 0 < a && hi + a <= nr && hi in spans && spans[hi] == Span(a, true)
      && !pg[hi + a].free
  {
    assert SpanOk(pg, spans, base, nr, lo, hi, hi);
    if hi + pg[hi].spanSize in spans {
      assert SpanOk(pg, spans, base, nr, lo, hi, hi + pg[hi].spanSize);
    }
  }

  /** Neither the page before the first managed one nor the first page of a hole that begins
      there has a tag that matters, as long as the former reads as not free. */
  lemma TagsBeforeHole(a: seq<Page>, b: seq<Page>, spans: Spans, base: nat, nr: nat, hi: nat)
    requires Tiling(a, spans, base, nr, base, hi) && base < hi
    requires SameTagsBut(a, b, base - 1, base) && !b[base - 1].free
    ensures Tiling(b, spans, base, nr, base, hi)
  {
    forall s {:trigger SpanOk(b, spans, base, nr, base, hi, s)} | s in spans
      ensures SpanOk(b, spans, base, nr, base, hi, s)
    {
      assert SpanOk(a, spans, base, nr, base, hi, s);
    }
  }

  /** The pages around a free span read as not free. */
  lemma FreeNeighbours(pg: seq<Page>, spans: Spans, base: nat, nr: nat, h: nat)
    requires Tiling(pg, spans, base, nr, nr, nr) && h in spans && spans[h].free
    ensures h > 0 && h + spans[h].size < |pg| && !pg[h - 1].free && !pg[h + spans[h].size].free
  {
    assert SpanOk(pg, spans, base, nr, nr, nr, h);
    if h != base {
      assert SpanOk(pg, spans, base, nr, nr, nr, h - pg[h - 1].spanSize);
    }
    if h + spans[h].size in spans {
      assert SpanOk(pg, spans, base, nr, nr, nr, h + spans[h].size);
    }
  }
}
