/** The page allocator of one CPU. Free spans are kept in 32 lists, list `i` holding the
    spans of at least 2^i and fewer than 2^(i+1) pages; allocation trims a span to the
    request, and freeing merges a span with its free neighbours. */
module PageAllocator {
  import opened Bits
  import opened PageLists
  import opened Tilings

  const PAGE_SIZE: nat := 4096
  const SIZE_T: nat := 0x1_0000_0000_0000_0000
  const NR_SPAN_LISTS: nat := 32
  const SIZEOF_PAGE: nat := 32
  const BOOTSTRAP_BYTES: nat := 0x200_0000

  type uint32 = x: int | 0 <= x < 0x1_0000_0000

  /** Free spans are stored in the largest index whose power of two does not exceed the
      number of pages. */
  function IndexOf(pages: uint32): (r: nat)
    requires pages > 0
    ensures r < NR_SPAN_LISTS && Pow2(r) <= pages < 2 * Pow2(r)
  {
    Pow2Words();
    32 - CountLeadingZeros(pages, 32) - 1
  }

  /** The smallest index such that all spans stored there hold at least `pages` pages. */
  function IndexOfConservative(pages: uint32): (r: nat)
    requires pages > 0
    ensures r <= NR_SPAN_LISTS
    ensures pages <= Pow2(r) && (r > 0 ==> Pow2(r - 1) < pages)
  {
    Pow2Words();
    if pages == 1 then 0 else 32 - CountLeadingZeros(pages - 1, 32)
  }

  /** Every span of the conservative list, and of those above it, fits the request. */
  lemma ConservativeFits(pages: uint32, size: uint32)
    requires pages > 0 && size > 0 && IndexOf(size) >= IndexOfConservative(pages)
    ensures size >= pages
  {
    Pow2Monotonic(IndexOfConservative(pages), IndexOf(size));
  }

  /** A span that fits the request is not on a list below the exact one. */
  lemma ExactCovers(pages: uint32, size: uint32)
    requires 0 < pages <= size
    ensures IndexOf(size) >= IndexOf(pages)
  {
    if IndexOf(size) < IndexOf(pages) {
      Pow2Monotonic(IndexOf(size), IndexOf(pages));
    }
  }

  lemma PowerBracket(p: nat, i: nat, c: nat)
    requires Pow2(i) <= p < 2 * Pow2(i)
    requires p <= Pow2(c) && (c > 0 ==> Pow2(c - 1) < p)
    ensures c == if p == Pow2(i) then i else i + 1
  {
    if c < i {
      Pow2Monotonic(c, i);
    } else if i + 1 < c {
      Pow2Monotonic(i + 1, c - 1);
    }
  }

  /** The exact and the conservative list are the same for a power of two, and neighbours
      otherwise. */
  lemma IndexGap(pages: uint32)
    requires pages > 0
    ensures IndexOfConservative(pages) ==
            if pages == Pow2(IndexOf(pages)) then IndexOf(pages) else IndexOf(pages) + 1
  {
    PowerBracket(pages, IndexOf(pages), IndexOfConservative(pages));
  }

  ghost predicate Used(spans: Spans, s: nat) {
    s in spans && !spans[s].free
  }

  /** What an operation on spans leaves of page `i` to the slab layer: its slab fields, and
      its links if it is the head of a span in use before and after. */
  ghost predicate FrameAt(a: seq<Page>, b: seq<Page>, spans: Spans, spans': Spans, i: nat)
    requires i < |a| && i < |b|
  {
    && b[i].offsetInSpan == a[i].offsetInSpan && b[i].nrSmallAlloc == a[i].nrSmallAlloc
    && b[i].freelist == a[i].freelist && b[i].pool == a[i].pool
    && (Used(spans, i) && Used(spans', i) ==> b[i].prev == a[i].prev && b[i].next == a[i].next)
  }

  ghost predicate Frame(a: seq<Page>, b: seq<Page>, spans: Spans, spans': Spans) {
    && |a| == |b|
    && forall i {:trigger FrameAt(a, b, spans, spans', i)} :: 0 <= i < |a| ==> FrameAt(a, b, spans, spans', i)
  }

  /** Work on a list of pages not in use changes no tag, no slab field and no link of a span
      in use. */
  lemma OnlyLinksFacts(a: seq<Page>, b: seq<Page>, touched: seq<nat>, spans: Spans)
    requires OnlyLinks(a, b, touched) && forall x :: x in touched ==> !Used(spans, x)
    ensures SameTags(a, b) && Frame(a, b, spans, spans)
  {
  }

  lemma FrameTrans(a: seq<Page>, b: seq<Page>, c: seq<Page>, s0: Spans, s1: Spans, s2: Spans)
    requires Frame(a, b, s0, s1) && Frame(b, c, s1, s2)
    requires forall i {:trigger Used(s1, i)} :: Used(s0, i) && Used(s2, i) ==> Used(s1, i)
    ensures Frame(a, c, s0, s2)
  {
    forall i {:trigger FrameAt(a, c, s0, s2, i)} | 0 <= i < |a|
      ensures FrameAt(a, c, s0, s2, i)
    {
      assert FrameAt(a, b, s0, s1, i) && FrameAt(b, c, s1, s2, i);
      assert Used(s0, i) && Used(s2, i) ==> Used(s1, i);
    }
  }

  /** The frame depends only on which spans are in use on both sides. */
  lemma FrameFor(a: seq<Page>, b: seq<Page>, s0: Spans, s1: Spans, t0: Spans, t1: Spans)
    requires Frame(a, b, s0, s1)
    requires forall i {:trigger Used(t0, i)} :: Used(t0, i) && Used(t1, i) ==> Used(s0, i) && Used(s1, i)
    ensures Frame(a, b, t0, t1)
  {
    forall i {:trigger FrameAt(a, b, t0, t1, i)} | 0 <= i < |a|
      ensures FrameAt(a, b, t0, t1, i)
    {
      assert FrameAt(a, b, s0, s1, i);
    }
  }

  /** `x` is a free span that belongs on list `i`. */
  ghost predicate Listed(spans: Spans, x: nat, i: nat) {
    && x in spans && spans[x].free
    && 0 < spans[x].size < 0x1_0000_0000 && IndexOf(spans[x].size) == i
  }

  /** `x`, if free, is on the list its size calls for. */
  ghost predicate OnItsList(spans: Spans, lists: seq<seq<nat>>, x: nat)
    requires |lists| == NR_SPAN_LISTS && x in spans
  {
    spans[x].free ==> 0 < spans[x].size < 0x1_0000_0000 && x in lists[IndexOf(spans[x].size)]
  }

  /** The lists hold free spans only, each on the list its size calls for, and hold all of
      them. */
  ghost predicate Indexed(spans: Spans, lists: seq<seq<nat>>) {
    && |lists| == NR_SPAN_LISTS
    && (forall i, x {:trigger Listed(spans, x, i)} :: 0 <= i < |lists| && x in lists[i] ==> Listed(spans, x, i))
    && (forall x {:trigger OnItsList(spans, lists, x)} :: x in spans ==> OnItsList(spans, lists, x))
  }

  lemma IndexedPush(spans: Spans, lists: seq<seq<nat>>, start: nat, n: uint32)
    requires Indexed(spans, lists) && n > 0
    ensures start !in spans ==> Indexed(spans[start := Span(n, true)], lists[IndexOf(n) := [start] + lists[IndexOf(n)]])
  {
    if start in spans {
      return;
    }
    var idx := IndexOf(n);
    var lists', spans' := lists[idx := [start] + lists[idx]], spans[start := Span(n, true)];
    forall i, x {:trigger Listed(spans', x, i)} | 0 <= i < |lists'| && x in lists'[i]
      ensures Listed(spans', x, i)
    {
      assert x in lists[i] ==> Listed(spans, x, i);
    }
    forall x {:trigger OnItsList(spans', lists', x)} | x in spans'
      ensures OnItsList(spans', lists', x)
    {
      assert x != start ==> OnItsList(spans, lists, x);
    }
  }

  lemma IndexedErase(spans: Spans, lists: seq<seq<nat>>, i: nat, k: nat)
    requires Indexed(spans, lists) && i < |lists| && k < |lists[i]| && Distinct(lists[i])
    ensures lists[i][k] in spans
    ensures Indexed(spans - {lists[i][k]}, lists[i := Without(lists[i], k)])
  {
    WithoutMembers(lists[i], k);
    var lists', y := lists[i := Without(lists[i], k)], lists[i][k];
    var spans' := spans - {y};
    assert Listed(spans, y, i);
    forall j, x {:trigger Listed(spans', x, j)} | 0 <= j < |lists'| && x in lists'[j]
      ensures Listed(spans', x, j)
    {
      assert Listed(spans, x, j);
    }
    forall x {:trigger OnItsList(spans', lists', x)} | x in spans'
      ensures OnItsList(spans', lists', x)
    {
      assert OnItsList(spans, lists, x);
    }
  }

  lemma ListedFacts(spans: Spans, lists: seq<seq<nat>>, i: nat, x: nat)
    requires Indexed(spans, lists) && i < |lists| && x in lists[i]
    ensures Listed(spans, x, i)
  {
  }

  /** Work on list `idx` leaves every other list alone: the pages it touches are on no other. */
  lemma OtherListKept(spans: Spans, pg: seq<Page>, pg': seq<Page>, front: nat, back: nat, l: seq<nat>,
                      i: nat, touched: seq<nat>, idx: nat)
    requires Linked(pg, front, back, l) && OnlyLinks(pg, pg', touched) && i != idx
    requires forall x {:trigger Listed(spans, x, i)} :: x in l ==> Listed(spans, x, i)
    requires forall x {:trigger Listed(spans, x, idx)} :: x in touched ==> x !in spans || Listed(spans, x, idx)
    ensures Linked(pg', front, back, l)
  {
    forall k | 0 <= k < |l|
      ensures pg'[l[k]] == pg[l[k]]
    {
      assert Listed(spans, l[k], i);
      assert l[k] in touched ==> Listed(spans, l[k], idx);
    }
    LinkedFrame(pg, pg', front, back, l);
  }

  function WithTags(p: Page, free: bool, n: nat): Page {
    p.(free := free, spanSize := n)
  }

  ghost function Retagged(pg: seq<Page>, start: nat, n: nat, free: bool): (r: seq<Page>)
    requires n > 0 && start + n <= |pg|
    ensures SameTagsBut(pg, r, start, start + n - 1) && Tagged(r, start, Span(n, free))
    ensures forall spans :: Frame(pg, r, spans, spans)
  {
    var head := pg[start := WithTags(pg[start], free, n)];
    head[start + n - 1 := WithTags(head[start + n - 1], free, n)]
  }

  method WriteTags(pages: array<Page>, start: nat, n: uint32, free: bool)
    requires n > 0 && start + n <= pages.Length
    modifies pages
    ensures pages[..] == Retagged(old(pages[..]), start, n, free)
  {
    var end := start + n - 1;
    pages[start] := pages[start].(free := free);
    pages[end] := pages[end].(free := free);
    pages[start] := pages[start].(spanSize := n);
    pages[end] := pages[end].(spanSize := n);
  }

  datatype Ends = Ends(front: nat, back: nat)

  ghost predicate AllLinked(pg: seq<Page>, heads: seq<Ends>, lists: seq<seq<nat>>) {
    && |heads| == |lists| == NR_SPAN_LISTS
    && (forall i :: 0 <= i < NR_SPAN_LISTS ==> Linked(pg, heads[i].front, heads[i].back, lists[i]))
  }

  lemma AllLinkedFrame(pg: seq<Page>, pg': seq<Page>, heads: seq<Ends>, lists: seq<seq<nat>>)
    requires AllLinked(pg, heads, lists) && |pg| == |pg'|
    requires forall i :: 0 <= i < |pg| ==> pg'[i].prev == pg[i].prev && pg'[i].next == pg[i].next
    ensures AllLinked(pg', heads, lists)
  {
    forall i | 0 <= i < NR_SPAN_LISTS
      ensures Linked(pg', heads[i].front, heads[i].back, lists[i])
    {
      LinkedFrame(pg, pg', heads[i].front, heads[i].back, lists[i]);
    }
  }

  /** After work on list `idx` that touched only pages not in use or on that list, all lists
      are linked and the tags and the slab layer's pages are as before. */
  lemma OnListWorked(spans: Spans, pg: seq<Page>, pg': seq<Page>, heads: seq<Ends>, lists: seq<seq<nat>>,
                     idx: nat, touched: seq<nat>, e: Ends, l: seq<nat>)
    requires AllLinked(pg, heads, lists) && Indexed(spans, lists) && idx < NR_SPAN_LISTS
    requires OnlyLinks(pg, pg', touched) && Linked(pg', e.front, e.back, l)
    requires forall x :: x in touched ==> x !in spans || x in lists[idx]
    ensures AllLinked(pg', heads[idx := e], lists[idx := l])
    ensures SameTags(pg, pg') && Frame(pg, pg', spans, spans)
  {
    forall x {:trigger Listed(spans, x, idx)} | x in touched
      ensures x !in spans || Listed(spans, x, idx)
    {
    }
    forall i | 0 <= i < NR_SPAN_LISTS && i != idx
      ensures Linked(pg', heads[i].front, heads[i].back, lists[i])
    {
      OtherListKept(spans, pg, pg', heads[i].front, heads[i].back, lists[i], i, touched, idx);
    }
    ListedUnused(spans, lists, idx);
    OnlyLinksFacts(pg, pg', touched, spans);
  }

  datatype FindResult = Found(span: nat) | NotFound | BadAlloc

  datatype Trim = Trim(offset: nat, nrPages: nat)

  class CpuPages {
    // where page 0 of this CPU's address range is, once mapped
    const memory: nat
    var pages: array<Page>
    var nrPages: uint32
    var nrFreePages: uint32
    const freeSpans: seq<PageList>
    // what the page array and the list objects hold, as values
    ghost var img: seq<Page>
    ghost var heads: seq<Ends>
    ghost var lists: seq<seq<nat>>
    // the spans those values describe
    ghost var spans: Spans
    ghost var base: nat

    /** The ghost values are those of the page array and the list objects. */
    ghost predicate Repr()
      reads this, pages, freeSpans
    {
      && pages[..] == img && |freeSpans| == |heads| == |lists| == NR_SPAN_LISTS
      && (forall i, j :: 0 <= i < j < NR_SPAN_LISTS ==> freeSpans[i] != freeSpans[j])
      && (forall i :: 0 <= i < NR_SPAN_LISTS ==>
        freeSpans[i].front == heads[i].front && freeSpans[i].back == heads[i].back && freeSpans[i].content == lists[i])
    }

    ghost predicate Linked()
      reads this, pages, freeSpans
    {
      Repr() && AllLinked(img, heads, lists)
    }

    ghost predicate ListsValid()
      reads this, pages, freeSpans
    {
      Linked() && Indexed(spans, lists)
    }

    /** The pages from `lo` to `hi` are taken out of the tiling, and of the lists. */
    ghost predicate ValidBut(lo: nat, hi: nat)
      reads this, pages, freeSpans
    {
      && Tiling(img, spans, base, nrPages, lo, hi)
      && ListsValid()
    }

    /** Either the invariant of the managed pages, or the state before the first request. */
    ghost predicate Valid()
      reads this, pages, freeSpans
    {
      if nrPages == 0 then
        ListsValid() && spans == map[] && nrFreePages == 0
      else
        ValidBut(nrPages, nrPages) && nrFreePages == FreeBelow(spans, nrPages)
    }

    constructor (memBase: nat)
      ensures Valid() && nrPages == 0 && memory == memBase
    {
      memory := memBase;
      pages := new Page[1];
      nrPages, nrFreePages := 0, 0;
      spans, base := map[], 0;
      lists := seq(NR_SPAN_LISTS, i => []);
      heads := seq(NR_SPAN_LISTS, i => Ends(0, 0));
      var all: seq<PageList> := [];
      while |all| < NR_SPAN_LISTS
        invariant |all| <= NR_SPAN_LISTS
        invariant forall i, j :: 0 <= i < j < |all| ==> all[i] != all[j]
        invariant forall i :: 0 <= i < |all| ==> all[i].front == 0 && all[i].back == 0 && all[i].content == []
        invariant forall i :: 0 <= i < |all| ==> allocated(all[i])
      {
        var l := new PageList();
        all := all + [l];
      }
      freeSpans := all;
      new;
      img := pages[..];
    }

    /** Sets the state and the size on both ends of a span. */
    method SetTags(start: nat, n: uint32, free: bool)
      requires n > 0 && start + n <= pages.Length && Linked()
      modifies this`img, pages
      ensures Linked() && img == Retagged(old(img), start, n, free)
    {
      WriteTags(pages, start, n, free);
      AllLinkedFrame(img, pages[..], heads, lists);
      img := pages[..];
    }

    /** `span->pool = nullptr`. */
    method ClearPool(idx: nat)
      requires Linked() && idx < pages.Length
      modifies this`img, pages
      ensures Linked() && img == WithoutPool(old(img), idx)
    {
      pages[idx] := pages[idx].(pool := 0);
      AllLinkedFrame(img, pages[..], heads, lists);
      img := pages[..];
    }

    twostate predicate Unchanged()
      reads this, pages
    {
      && pages == old(pages) && nrPages == old(nrPages) && base == old(base)
      && nrFreePages == old(nrFreePages) && spans == old(spans) && img == old(img)
    }

    /** Puts page `span` on list `idx`. */
    method Link(idx: nat, span: nat)
      requires ListsValid() && idx < NR_SPAN_LISTS && span !in spans && 0 < span < pages.Length
      modifies this`lists, this`img, this`heads, pages, freeSpans
      ensures Linked() && lists == old(lists)[idx := [span] + old(lists)[idx]]
      ensures SameTags(old(img), img) && Frame(old(img), img, spans, spans)
    {
      assert span in lists[idx] ==> Listed(spans, span, idx);
      assert PageLists.Linked(img, heads[idx].front, heads[idx].back, lists[idx]);
      freeSpans[idx].PushFront(pages, span);
      OnListWorked(spans, img, pages[..], heads, lists, idx, [span] + lists[idx],
                   Ends(freeSpans[idx].front, freeSpans[idx].back), freeSpans[idx].content);
      img := pages[..];
      lists := lists[idx := [span] + lists[idx]];
      heads := heads[idx := Ends(freeSpans[idx].front, freeSpans[idx].back)];
    }

    /** Takes page `span` off list `idx`, where it is the `k`-th. */
    method Unlink(idx: nat, span: nat, ghost k: nat)
      requires ListsValid() && idx < NR_SPAN_LISTS
      requires k < |lists[idx]| && lists[idx][k] == span
      modifies this`lists, this`img, this`heads, pages, freeSpans
      ensures Linked() && lists == old(lists)[idx := Without(old(lists)[idx], k)]
      ensures SameTags(old(img), img) && Frame(old(img), img, spans, spans)
    {
      assert PageLists.Linked(img, heads[idx].front, heads[idx].back, lists[idx]);
      freeSpans[idx].Erase(pages, span, k);
      OnListWorked(spans, img, pages[..], heads, lists, idx, lists[idx],
                   Ends(freeSpans[idx].front, freeSpans[idx].back), freeSpans[idx].content);
      img := pages[..];
      lists := lists[idx := Without(lists[idx], k)];
      heads := heads[idx := Ends(freeSpans[idx].front, freeSpans[idx].back)];
    }

    /** Counts, tags and lists the pages from `start` as a free span, whatever the tags around
        them say. */
    method ListFree(start: nat, n: uint32)
      requires ListsValid() && start !in spans && n > 0 && 0 < start && start + n <= nrPages < pages.Length
      requires nrFreePages + n <= nrPages
      modifies this`nrFreePages, this`spans, this`lists, this`img, this`heads, pages, freeSpans
      ensures ListsValid() && nrFreePages == old(nrFreePages) + n && spans == old(spans)[start := Span(n, true)]
      ensures SameTags(Retagged(old(img), start, n, true), img) && Frame(old(img), img, old(spans), spans)
    {
      ghost var pg, was := img, spans;
      IndexedPush(spans, lists, start, n);
      nrFreePages := nrFreePages + n;
      SetTags(start, n, true);
      ghost var mid := img;
      Link(IndexOf(n), start);
      spans := spans[start := Span(n, true)];
      FrameTrans(pg, mid, img, was, was, was);
      FrameFor(pg, img, was, was, was, spans);
    }

    /** Gives the pages from `start` to the free spans, without looking at the neighbours. */
    method FreeSpanNoMerge(start: nat, n: uint32, ghost lo: nat, ghost hi: nat)
      requires ValidBut(lo, hi) && nrFreePages == FreeBelow(spans, nrPages)
      requires Fillable(img, lo, hi, start, Span(n, true))
      modifies this`nrFreePages, this`spans, this`lists, this`img, this`heads, pages, freeSpans
      ensures ValidBut(HoleLo(lo, start, n), HoleHi(lo, hi, start))
      ensures start !in old(spans) && spans == old(spans)[start := Span(n, true)]
      ensures nrFreePages == old(nrFreePages) + n == FreeBelow(spans, nrPages)
      ensures Frame(old(img), img, old(spans), spans)
      ensures SameTagsBut(old(img), img, start, start + n - 1)
    {
      ghost var pg, was := img, spans;
      FillCount(pg, was, base, nrPages, lo, hi, start, n);
      ListFree(start, n);
      FreeEffect(pg, img, was, base, nrPages, lo, hi, start, n);
    }

    /** Takes the free span at `h` off its list. */
    method UnlinkSpan(h: nat, size: uint32)
      requires ListsValid() && h in spans && spans[h] == Span(size, true) && size > 0
      modifies this`spans, this`lists, this`img, this`heads, pages, freeSpans
      ensures ListsValid() && spans == old(spans) - {h}
      ensures SameTags(old(img), img) && Frame(old(img), img, old(spans), spans)
    {
      var idx := IndexOf(size);
      assert OnItsList(spans, lists, h);
      ghost var k :| 0 <= k < |lists[idx]| && lists[idx][k] == h;
      IndexedErase(spans, lists, idx, k);
      ghost var pg := img;
      Unlink(idx, h, k);
      spans := spans - {h};
      FrameFor(pg, img, old(spans), old(spans), old(spans), spans);
    }

    /** Absorbs the free span that ends where the hole begins, if there is one. */
    method MergeBefore(spanStart: nat, n: uint32) returns (start: nat, nr: uint32)
      requires n > 0 && ValidBut(spanStart, spanStart + n) && nrFreePages == FreeBelow(spans, nrPages)
      modifies this`nrFreePages, this`spans, this`lists, this`img, this`heads, pages, freeSpans
      ensures start <= spanStart && start + nr == spanStart + n && ValidBut(start, start + nr)
      ensures nrFreePages + nr == old(nrFreePages) + n && nrFreePages == FreeBelow(spans, nrPages)
      ensures !img[start - 1].free && Emptied(old(spans), spans, start, nr)
      ensures Frame(old(img), img, old(spans), spans)
    {
      start, nr := spanStart, n;
      if !pages[start - 1].free {
        return;
      }
      ghost var pg, was := img, spans;
      FreeBefore(pg, spans, base, nrPages, start, start + n);
      var b := pages[start - 1].spanSize;
      FreeBelowRemove(spans, start - b, nrPages);
      RemoveBefore(pg, spans, base, nrPages, start, start + n, start - b);
      start := start - b;
      nr := nr + b;
      nrFreePages := nrFreePages - b;
      UnlinkSpan(start, b);
      TilingFrame(pg, img, spans, base, nrPages, start, start + nr);
      EmptiedOne(was, start, start, nr);
    }

    /** Absorbs the free span that begins where the hole ends, if there is one. */
    method MergeAfter(start: nat, n: uint32) returns (nr: uint32)
      requires n > 0 && ValidBut(start, start + n) && nrFreePages == FreeBelow(spans, nrPages)
      modifies this`nrFreePages, this`spans, this`lists, this`img, this`heads, pages, freeSpans
      ensures n <= nr && ValidBut(start, start + nr)
      ensures nrFreePages + nr == old(nrFreePages) + n && nrFreePages == FreeBelow(spans, nrPages)
      ensures img[start - 1].free == old(img)[start - 1].free
      ensures !img[start + nr].free && Emptied(old(spans), spans, start, nr)
      ensures Frame(old(img), img, old(spans), spans)
    {
      nr := n;
      if !pages[start + nr].free {
        return;
      }
      ghost var pg, was := img, spans;
      FreeAfter(pg, spans, base, nrPages, start, start + n);
      var a := pages[start + n].spanSize;
      FreeBelowRemove(spans, start + n, nrPages);
      RemoveAfter(pg, spans, base, nrPages, start, start + n);
      nr := nr + a;
      nrFreePages := nrFreePages - a;
      UnlinkSpan(start + n, a);
      TilingFrame(pg, img, spans, base, nrPages, start, start + nr);
      EmptiedOne(was, start + n, start, nr);
    }

    /** Absorbs both free neighbours of the hole. */
    method MergeNeighbours(spanStart: nat, n: uint32) returns (start: nat, nr: uint32)
      requires n > 0 && ValidBut(spanStart, spanStart + n) && nrFreePages == FreeBelow(spans, nrPages)
      modifies this`nrFreePages, this`spans, this`lists, this`img, this`heads, pages, freeSpans
      ensures start <= spanStart && spanStart + n <= start + nr && nr > 0 && ValidBut(start, start + nr)
      ensures nrFreePages + nr == old(nrFreePages) + n && nrFreePages == FreeBelow(spans, nrPages)
      ensures !img[start - 1].free && !img[start + nr].free && Emptied(old(spans), spans, start, nr)
      ensures Frame(old(img), img, old(spans), spans)
    {
      ghost var pg, was := img, spans;
      var m;
      start, m := MergeBefore(spanStart, n);
      ghost var pg0, was0 := img, spans;
      nr := MergeAfter(start, m);
      EmptiedBoth(was, was0, spans, start, m, nr);
      FrameTrans(pg, pg0, img, was, was0, spans);
    }

    /** The whole hole becomes a free span; no free span touches it. */
    method CloseHole(start: nat, n: uint32, ghost hi: nat)
      requires n > 0 && start + n == hi && ValidBut(start, hi) && nrFreePages == FreeBelow(spans, nrPages)
      requires !img[start - 1].free && !img[hi].free
      modifies this`nrFreePages, this`spans, this`lists, this`img, this`heads, pages, freeSpans
      ensures ValidBut(nrPages, nrPages)
      ensures start !in old(spans) && spans == old(spans)[start := Span(n, true)]
      ensures nrFreePages == old(nrFreePages) + n == FreeBelow(spans, nrPages)
      ensures Frame(old(img), img, old(spans), spans)
    {
      FreeSpanNoMerge(start, n, start, hi);
      HoleClosed(img, spans, base, nrPages, hi);
    }

    /** Returns a hole of `n` pages to the free spans, merged with its free neighbours: the
        free span at `at` takes the place of the hole and of the free spans it touched. */
    method FreeSpan(spanStart: nat, n: uint32) returns (ghost at: nat, ghost size: nat)
      requires n > 0 && ValidBut(spanStart, spanStart + n) && nrFreePages == FreeBelow(spans, nrPages)
      modifies this`nrFreePages, this`spans, this`lists, this`img, this`heads, pages, freeSpans
      ensures ValidBut(nrPages, nrPages)
      ensures nrFreePages == old(nrFreePages) + n == FreeBelow(spans, nrPages)
      ensures at <= spanStart && spanStart + n <= at + size && Absorbed(old(spans), spans, at, size)
      ensures Frame(old(img), img, old(spans), spans)
    {
      ghost var pg, was := img, spans;
      var start, nr := MergeNeighbours(spanStart, n);
      ghost var pg1, was1 := img, spans;
      CloseHole(start, nr, start + nr);
      FrameTrans(pg, pg1, img, was, was1, spans);
      EmptiedThenFilled(was, was1, start, nr);
      at, size := start, nr;
    }

    /** The span in use at `h` leaves the tiling: its pages become the hole. */
    ghost method Release(h: nat)
      requires nrPages > 0 && Valid() && Used(spans, h)
      modifies this`spans
      ensures spans == old(spans) - {h}
      ensures ValidBut(h, h + old(spans)[h].size) && nrFreePages == FreeBelow(spans, nrPages)
    {
      HoleBefore(img, spans, base, nrPages, h);
      RemoveAfter(img, spans, base, nrPages, h, h);
      FreeBelowRemove(spans, h, nrPages);
      IndexedDropUsed(spans, lists, h);
      spans := spans - {h};
    }

    function ToPage(ptr: nat): nat
      requires ptr >= memory
    {
      (ptr - memory) / PAGE_SIZE
    }

    function ToPtr(idx: nat): nat
    {
      memory + idx * PAGE_SIZE
    }

    /** `free_span` on the span in use at `idx`. */
    method FreeUsed(idx: nat, n: uint32) returns (ghost at: nat, ghost size: nat)
      requires nrPages > 0 && Valid() && Used(spans, idx) && spans[idx].size == n > 0
      modifies this`nrFreePages, this`spans, this`lists, this`img, this`heads, pages, freeSpans
      ensures Valid() && nrFreePages == old(nrFreePages) + n
      ensures at <= idx && idx + n <= at + size
      ensures Absorbed(old(spans) - {idx}, spans, at, size)
      ensures Frame(old(img), img, old(spans), spans)
    {
      ghost var pg, was := img, spans;
      Release(idx);
      at, size := FreeSpan(idx, n);
      FrameFor(pg, img, was - {idx}, spans, was, spans);
    }

    /** Frees the allocation at `ptr`. */
    method FreeLarge(ptr: nat) returns (ghost at: nat, ghost size: nat)
      requires nrPages > 0 && Valid() && ptr >= memory && Used(spans, ToPage(ptr))
      modifies this`nrFreePages, this`spans, this`lists, this`img, this`heads, pages, freeSpans
      ensures Valid()
      ensures nrFreePages == old(nrFreePages) + old(spans)[ToPage(ptr)].size
      ensures at <= ToPage(ptr) && ToPage(ptr) + old(spans)[ToPage(ptr)].size <= at + size
      ensures Absorbed(old(spans) - {ToPage(ptr)}, spans, at, size)
      ensures Frame(old(img), img, old(spans), spans)
    {
      var idx := ToPage(ptr);
      SpanFacts(img, spans, base, nrPages, nrPages, nrPages, idx);
      at, size := FreeUsed(idx, pages[idx].spanSize);
    }

    /** A page array of `nr` pages and the end page, with the reserved ones and the end page
        marked as not free. */
    static method MapPages(nr: nat, reserved: nat) returns (ary: array<Page>)
      requires reserved <= nr
      ensures fresh(ary) && ary.Length == nr + 1
      ensures !ary[nr].free && forall j :: 0 <= j < reserved ==> !ary[j].free
    {
      ary := new Page[nr + 1];
      for i := 0 to reserved
        invariant forall j :: 0 <= j < i ==> !ary[j].free
      {
        ary[i] := ary[i].(free := false);
      }
      ary[nr] := ary[nr].(free := false);
    }

    /** The free pages; before the first use those that it will make free. */
    ghost function PagesFree(): nat
      reads this`nrPages, this`nrFreePages
    {
      if nrPages == 0 then BOOTSTRAP_PAGES - BOOTSTRAP_RESERVED else nrFreePages
    }

    /** Maps the bootstrap memory on first use; false when that was done before. */
    method Initialize() returns (done: bool)
      requires Valid()
      modifies this`nrPages, this`pages, this`base, this`nrFreePages, this`spans, this`lists, this`img, this`heads, freeSpans
      ensures Valid() && done == (old(nrPages) == 0)
      ensures !done ==> Unchanged() && lists == old(lists)
      ensures done ==> nrPages == BOOTSTRAP_PAGES && fresh(pages)
      ensures done ==> base == BOOTSTRAP_RESERVED && spans == map[base := Span(nrPages - base, true)]
    {
      if nrPages != 0 {
        return false;
      }
      NothingListed(lists);
      nrPages := BOOTSTRAP_BYTES / PAGE_SIZE;
      BootstrapLayout();
      var reserved := AlignUp(SIZEOF_PAGE * (nrPages + 1), PAGE_SIZE) / PAGE_SIZE;
      pages := MapPages(nrPages, reserved);
      base := reserved;
      img := pages[..];
      EmptyTiling(img, base, nrPages);
      CloseHole(reserved, nrPages - reserved, nrPages);
      return true;
    }

    /** The first non-empty list from `from` on. */
    method FirstNonEmpty(from: nat) returns (idx: nat)
      requires Linked() && from <= NR_SPAN_LISTS
      ensures from <= idx <= NR_SPAN_LISTS && forall i :: from <= i < idx ==> lists[i] == []
      ensures idx < NR_SPAN_LISTS ==> lists[idx] != []
    {
      idx := from;
      while idx < NR_SPAN_LISTS && freeSpans[idx].Empty()
        invariant from <= idx <= NR_SPAN_LISTS
        invariant forall i :: from <= i < idx ==> lists[i] == []
      {
        assert freeSpans[idx].content == [];
        idx := idx + 1;
      }
    }

    /** The free span at `h` leaves its list and the tiling: its pages become the hole. */
    method TakeOut(h: nat, ghost size: nat)
      requires nrPages > 0 && ValidBut(nrPages, nrPages) && h in spans && spans[h] == Span(size, true)
      modifies this`spans, this`lists, this`img, this`heads, pages, freeSpans
      ensures spans == old(spans) - {h} && ValidBut(h, h + size)
      ensures !img[h - 1].free && !img[h + size].free && img[h].spanSize == size
      ensures Frame(old(img), img, old(spans), spans)
    {
      ghost var pg, was := img, spans;
      FreeNeighbours(pg, was, base, nrPages, h);
      HoleBefore(pg, was, base, nrPages, h);
      RemoveAfter(pg, was, base, nrPages, h, h);
      SpanFacts(pg, was, base, nrPages, nrPages, nrPages, h);
      UnlinkSpan(h, pages[h].spanSize);
      TilingFrame(pg, img, spans, base, nrPages, h, h + size);
    }

    /** First fit on list `idx`, 0 when nothing there fits. */
    method FindOn(idx: nat, nPages: uint32) returns (span: nat)
      requires nrPages > 0 && ValidBut(nrPages, nrPages) && idx < NR_SPAN_LISTS
      ensures span == 0 ==> forall x :: x in lists[idx] ==> !Fits(spans, x, nPages)
      ensures span != 0 ==> Fits(spans, span, nPages) && span in lists[idx]
    {
      assert PageLists.Linked(img, heads[idx].front, heads[idx].back, lists[idx]);
      ListedSpans(img, spans, base, nrPages, lists, idx);
      ghost var k;
      span, k := freeSpans[idx].Find(nPages, pages);
      if span != 0 {
        assert lists[idx][k] in lists[idx];
      }
    }

    /** The rest of a search whose upward scan stopped at `scanned`: first fit on that list, or
        on the exact one when the scan found nothing. */
    method SearchLists(scanned: nat, n: uint32) returns (r: FindResult, ghost size: nat)
      requires nrPages > 0 && ValidBut(nrPages, nrPages) && n > 0
      requires IndexOfConservative(n) <= scanned <= NR_SPAN_LISTS
      requires forall i :: IndexOfConservative(n) <= i < scanned ==> lists[i] == []
      requires scanned < NR_SPAN_LISTS ==> lists[scanned] != []
      modifies this`spans, this`lists, this`img, this`heads, pages, freeSpans
      ensures !r.BadAlloc?
      ensures r.Found? ==> Fits(old(spans), r.span, n) && spans == old(spans) - {r.span}
      ensures r.Found? ==> GoodFit(old(spans), r.span, n)
      ensures r.Found? ==> size == old(spans)[r.span].size && ValidBut(r.span, r.span + size)
      ensures r.NotFound? ==> spans == old(spans) && ValidBut(nrPages, nrPages) && NoneFit(spans, n)
      ensures r.Found? ==> !img[r.span - 1].free && !img[r.span + size].free && img[r.span].spanSize == size
      ensures Frame(old(img), img, old(spans), spans)
    {
      var idx := scanned;
      if idx == NR_SPAN_LISTS {
        idx := IndexOf(n);
        if idx == IndexOfConservative(n) {
          NoneFound(spans, lists, n, idx);
          return NotFound, 0;
        }
      }
      var span := FindOn(idx, n);
      assert ValidBut(nrPages, nrPages) == true;  // the search changed nothing
      if span == 0 {
        NoneFound(spans, lists, n, idx);
        return NotFound, 0;
      }
      FirstIsGood(spans, lists, n, idx, span);
      r, size := Found(span), spans[span].size;
      TakeOut(span, size);
    }

    /** Takes a free span of at least `nPages` pages out of the lists and the tiling; the
        free-page count still includes it. `avail` gives the spans there were to choose
        from: on the first request those of the bootstrap memory. */
    method FindAndUnlinkSpan(nPages: uint32) returns (r: FindResult, ghost avail: Spans, ghost size: nat)
      requires Valid() && 1 <= nPages <= 0x8000_0000
      modifies this`nrPages, this`pages, this`base, this`nrFreePages, this`spans, this`lists, this`img, this`heads, pages, freeSpans
      ensures r.BadAlloc? <==> nPages > 0x4000_0000
      ensures r.BadAlloc? ==> Valid() && Unchanged()
      ensures old(nrPages) > 0 ==> nrPages == old(nrPages) && pages == old(pages) && base == old(base)
      ensures old(nrPages) > 0 ==> avail == old(spans) && nrFreePages == old(nrFreePages)
      ensures old(nrPages) == 0 && !r.BadAlloc? ==>
        fresh(pages) && nrPages == BOOTSTRAP_PAGES && base == BOOTSTRAP_RESERVED && avail == Bootstrap()
      ensures old(nrPages) > 0 ==> Frame(old(img), img, old(spans), spans)
      ensures r.Found? ==> nrPages > 0 && Fits(avail, r.span, nPages) && spans == avail - {r.span}
      ensures r.Found? ==> size == avail[r.span].size && ValidBut(r.span, r.span + size)
      ensures r.Found? ==> !img[r.span - 1].free && !img[r.span + size].free && img[r.span].spanSize == size
      ensures r.Found? ==> nrFreePages == FreeBelow(avail, nrPages) && GoodFit(avail, r.span, nPages)
      ensures r.NotFound? ==> spans == avail && Valid() && NoneFit(avail, nPages)
      decreases nrPages == 0
    {
      avail, size := spans, 0;
      var idx := IndexOfConservative(nPages);
      WrapsAtTop(nPages);
      if nPages >= (2 * Pow2(idx)) % 0x1_0000_0000 {
        return BadAlloc, spans, 0;
      }
      if nrPages == 0 {
        NothingListed(lists);
      }
      idx := FirstNonEmpty(idx);
      if idx == NR_SPAN_LISTS && nrPages == 0 {
        // `initialize()` answers true, and the search starts over
        var done := Initialize();
        r, avail, size := FindAndUnlinkSpan(nPages);
        return;
      }
      r, size := SearchLists(idx, nPages);
    }

    /** The pages of the hole below `lo + k` become a free span. */
    method GiveBackLow(lo: nat, ghost hi: nat, k: uint32)
      requires ValidBut(lo, hi) && nrFreePages == FreeBelow(spans, nrPages)
      requires lo + k < hi && !img[lo - 1].free
      modifies this`nrFreePages, this`spans, this`lists, this`img, this`heads, pages, freeSpans
      ensures ValidBut(lo + k, hi) && nrFreePages == old(nrFreePages) + k == FreeBelow(spans, nrPages)
      ensures spans == WithFree(old(spans), lo, k) && (k > 0 ==> lo !in old(spans))
      ensures img[hi].free == old(img)[hi].free
      ensures Frame(old(img), img, old(spans), spans)
    {
      if k == 0 {
        return;
      }
      FreeSpanNoMerge(lo, k, lo, hi);
    }

    /** The last `k` pages of the hole, from `at` on, become a free span. */
    method GiveBackHigh(lo: nat, at: nat, k: uint32, ghost hi: nat)
      requires ValidBut(lo, hi) && nrFreePages == FreeBelow(spans, nrPages)
      requires lo < at && at + k == hi && !img[hi].free
      modifies this`nrFreePages, this`spans, this`lists, this`img, this`heads, pages, freeSpans
      ensures ValidBut(lo, at) && nrFreePages == old(nrFreePages) + k == FreeBelow(spans, nrPages)
      ensures spans == WithFree(old(spans), at, k)
      ensures Frame(old(img), img, old(spans), spans)
    {
      if k == 0 {
        return;
      }
      FreeSpanNoMerge(at, k, lo, hi);
    }

    /** The pages of the hole become a span in use that belongs to no pool. */
    method MarkUsed(idx: nat, n: uint32)
      requires n > 0 && ValidBut(idx, idx + n) && nrFreePages == FreeBelow(spans, nrPages)
      modifies this`spans, this`img, pages
      ensures ValidBut(nrPages, nrPages) && nrFreePages == FreeBelow(spans, nrPages)
      ensures idx !in old(spans) && spans == old(spans)[idx := Span(n, false)]
      ensures Frame(WithoutPool(old(img), idx), img, old(spans), spans)
    {
      ghost var pg, was, sp := img, spans, Span(n, false);
      UsedEffect(pg, was, lists, base, nrPages, idx, n);
      SetTags(idx, n, false);
      ClearPool(idx);
      spans := spans[idx := sp];
    }

    /** The first `low` and the last `high` pages of the hole become free spans. */
    /** The pages of the span found are no longer counted as free, and its remainders are
        freed. */
    method FreeRest(h: nat, t: Trim, ghost avail: Spans, ghost size: nat)
      requires h in avail && avail[h] == Span(size, true) && spans == avail - {h}
      requires ValidBut(h, h + size) && nrFreePages == FreeBelow(avail, nrPages)
      requires !img[h - 1].free && !img[h + size].free && img[h].spanSize == size
      requires t.nrPages > 0 && t.offset + t.nrPages <= size
      modifies this`nrFreePages, this`spans, this`lists, this`img, this`heads, pages, freeSpans
      ensures ValidBut(h + t.offset, h + t.offset + t.nrPages) && nrFreePages == FreeBelow(spans, nrPages)
      ensures spans == WithFree(WithFree(old(spans), h, t.offset), h + t.offset + t.nrPages, size - t.offset - t.nrPages)
      ensures Frame(old(img), img, old(spans), spans)
    {
      var spanSize := pages[h].spanSize;
      FreeBelowRemove(avail, h, nrPages);
      nrFreePages := nrFreePages - spanSize;
      GiveBackRest(h, h + size, t.offset, h + t.offset + t.nrPages, spanSize - t.offset - t.nrPages);
    }

    method GiveBackRest(lo: nat, ghost hi: nat, low: uint32, at: nat, high: uint32)
      requires ValidBut(lo, hi) && nrFreePages == FreeBelow(spans, nrPages)
      requires lo + low < at && at + high == hi && !img[lo - 1].free && !img[hi].free
      modifies this`nrFreePages, this`spans, this`lists, this`img, this`heads, pages, freeSpans
      ensures ValidBut(lo + low, at) && nrFreePages == FreeBelow(spans, nrPages)
      ensures spans == WithFree(WithFree(old(spans), lo, low), at, high)
      ensures Frame(old(img), img, old(spans), spans)
    {
      ghost var pg, was := img, spans;
      GiveBackLow(lo, hi, low);
      ghost var pg1 := img;
      GiveBackHigh(lo + low, at, high, hi);
      FrameFreed(pg, pg1, img, was, lo, low, at, high);
    }

    /** The invariant cannot be restored by any choice of spans. */
    ghost predicate Broken()
      reads this
    {
      NoSpans(img, lists, base, nrPages)
    }

    /** The rest of an allocation once a span of `size` pages was found at `h`, when the part
        `t` to allocate has pages and lies in the span. */
    method TrimFound(h: nat, t: Trim, ghost avail: Spans, ghost size: nat) returns (r: AllocResult)
      requires nrPages > 0 && h in avail && avail[h] == Span(size, true) && spans == avail - {h}
      requires ValidBut(h, h + size) && nrFreePages == FreeBelow(avail, nrPages)
      requires !img[h - 1].free && !img[h + size].free && img[h].spanSize == size
      requires t.nrPages > 0 && t.offset + t.nrPages <= size
      modifies this`nrFreePages, this`spans, this`lists, this`img, this`heads, pages, freeSpans
      ensures ValidBut(nrPages, nrPages) && nrFreePages == FreeBelow(spans, nrPages)
      ensures Carved(avail, spans, h, t)
      ensures r == Allocated(ToPtr(h + t.offset))
      ensures Frame(WithoutPool(old(img), h + t.offset), img, old(spans), spans)
      ensures NoPool(img, h + t.offset)
    {
      ghost var pg, was := img, spans;
      var at := h + t.offset;
      FreeRest(h, t, avail, size);
      ghost var pg2, was2 := img, spans;
      MarkUsed(at, t.nrPages);
      FrameThenPool(pg, pg2, img, was, was2, spans, at);
      PoolCleared(pg, img, was, spans, at);
      return Allocated(ToPtr(h + t.offset));
    }

    /** The tags of a span of no pages: its head is the page `at`, its tail the one before. */
    method EmptyTags(at: nat)
      requires Linked() && 0 < at < pages.Length
      modifies this`img, pages
      ensures Linked() && |img| == |old(img)| && !img[at].free && !img[at - 1].free
      ensures forall i :: 0 <= i < |img| && i != at && i != at - 1 ==> img[i] == old(img)[i]
    {
      pages[at] := pages[at].(free := false);
      pages[at - 1] := pages[at - 1].(free := false);
      pages[at] := pages[at].(spanSize := 0);
      pages[at - 1] := pages[at - 1].(spanSize := 0);
      pages[at] := pages[at].(pool := 0);
      AllLinkedFrame(img, pages[..], heads, lists);
      img := pages[..];
    }

    /** The pages on either side of the empty part become free spans, without a look at those
        around them. */
    method HollowPieces(h: nat, size: uint32, offset: nat)
      requires ListsValid() && h !in spans && (offset < size ==> h + offset !in spans) && nrFreePages + size <= nrPages
      requires 0 < h && h + size <= nrPages < pages.Length && offset <= size && size > 0
      modifies this`nrFreePages, this`spans, this`lists, this`img, this`heads, pages, freeSpans
      ensures Linked() && HollowListed(img, lists, h, offset, size)
    {
      if offset == size {
        ListFree(h, size);
        assert OnItsList(spans, lists, h);
        return;
      }
      if offset > 0 {
        ListFree(h, offset);
      }
      ListFree(h + offset, size - offset);
      assert OnItsList(spans, lists, h + offset);
    }

    /** The rest of an allocation of no pages: what is left of the span on either side of the
        empty part becomes free spans, one of which then loses a tag to the empty part. */
    method TrimHollow(h: nat, offset: nat, ghost avail: Spans, ghost size: nat) returns (r: AllocResult)
      requires nrPages > 0 && h in avail && avail[h] == Span(size, true) && spans == avail - {h}
      requires ValidBut(h, h + size) && nrFreePages == FreeBelow(avail, nrPages)
      requires !img[h - 1].free && !img[h + size].free && img[h].spanSize == size
      requires offset <= size && size > 0
      modifies this`nrFreePages, this`spans, this`lists, this`img, this`heads, pages, freeSpans
      ensures r == Allocated(ToPtr(h + offset)) && Linked() && Broken()
    {
      var spanSize := pages[h].spanSize;
      FreeBelowRemove(avail, h, nrPages);
      nrFreePages := nrFreePages - spanSize;
      HoleLoose(img, spans, base, nrPages, h, h + size, offset);
      HollowPieces(h, spanSize, offset);
      ghost var pg := img;
      EmptyTags(h + offset);
      HollowBroken(pg, img, lists, base, nrPages, h, offset, spanSize);
      r := Allocated(ToPtr(h + offset));
    }

    /** Allocates the part of a free span of at least `n` pages that `trimmer` picks; what is
        left of the span on either side becomes free spans. With a part of no pages the tags
        and the lists end up in contradiction; a part that reaches beyond the span is not
        carried out here. */
    method AllocateLargeAndTrim(n: uint32, trimmer: (nat, nat) -> Trim)
      returns (r: AllocResult, ghost avail: Spans, ghost span: nat)
      requires Valid() && ShiftDefined(n, nrPages)
      modifies this`nrPages, this`pages, this`base, this`nrFreePages, this`spans, this`lists, this`img, this`heads, pages, freeSpans
      ensures r.Thrown? <==> n > 0x4000_0000 && (old(nrPages) == 0 || n < old(nrPages))
      ensures r.Thrown? ==> Unchanged()
      ensures r.Thrown? || r.NullPtr? ==> Valid()
      ensures !r.Thrown? ==> nrPages > 0
      ensures old(nrPages) > 0 ==> avail == old(spans) && nrPages == old(nrPages) && pages == old(pages) && base == old(base)
      ensures old(nrPages) == 0 && !r.Thrown? ==>
        fresh(pages) && nrPages == BOOTSTRAP_PAGES && base == BOOTSTRAP_RESERVED && avail == Bootstrap()
      ensures r.NullPtr? ==> spans == avail && NoneFit(avail, n)
      ensures r.NullPtr? && old(nrPages) > 0 ==> Frame(old(img), img, spans, spans)
      ensures r.Allocated? || r.Overrun? ==> FoundIn(avail, span, n, nrPages) && n > 0 && GoodFit(avail, span, n)
      ensures r.Overrun? ==> !TrimFits(trimmer(span, nrPages), avail[span].size)
      ensures r.Allocated? ==> TrimFits(trimmer(span, nrPages), avail[span].size)
      ensures r.Allocated? ==> r.ptr == ToPtr(span + trimmer(span, nrPages).offset)
      ensures r.Allocated? ==> Trimmed(avail, span, trimmer(span, nrPages))
      ensures r.Allocated? && trimmer(span, nrPages).nrPages > 0 && old(nrPages) > 0 ==>
        Frame(WithoutPool(old(img), span + trimmer(span, nrPages).offset), img, old(spans), spans)
    {
      avail, span := spans, 0;
      if nrPages > 0 && n >= nrPages {
        TooLarge(img, spans, base, nrPages, n);
        return NullPtr, avail, 0;
      }
      ghost var size;
      var found;
      found, avail, size := FindAndUnlinkSpan(n);
      if found.BadAlloc? {
        return Thrown, avail, 0;
      }
      if found.NotFound? {
        return NullPtr, avail, 0;
      }
      span := found.span;
      ghost var pg, was := if old(nrPages) > 0 then old(img) else img, if old(nrPages) > 0 then old(spans) else spans;
      r := TrimSpan(found.span, n, trimmer(found.span, nrPages), avail, size, pg, was);
    }

    /** The span found is cut. */
    ghost predicate Trimmed(avail: Spans, span: nat, t: Trim)
      reads this, pages, freeSpans
    {
      if t.nrPages > 0 then
        Valid() && Carved(avail, spans, span, t) && NoPool(img, span + t.offset)
      else
        Linked() && Broken()
    }

    /** Cuts the part `t` out of the span found at `h`, unless it reaches beyond it. */
    method TrimSpan(h: nat, n: uint32, t: Trim, ghost avail: Spans, ghost size: nat, ghost pg: seq<Page>, ghost was: Spans)
      returns (r: AllocResult)
      requires nrPages > 0 && h in avail && avail[h] == Span(size, true) && spans == avail - {h} && size >= n > 0
      requires ValidBut(h, h + size) && nrFreePages == FreeBelow(avail, nrPages)
      requires !img[h - 1].free && !img[h + size].free && img[h].spanSize == size
      requires Frame(pg, img, was, spans) && (was == avail || was == spans)
      modifies this`nrFreePages, this`spans, this`lists, this`img, this`heads, pages, freeSpans
      ensures FoundIn(avail, h, n, nrPages)
      ensures if TrimFits(t, size) then r == Allocated(ToPtr(h + t.offset)) && Trimmed(avail, h, t) else r == Overrun
      ensures TrimFits(t, size) && t.nrPages > 0 ==> Frame(WithoutPool(pg, h + t.offset), img, was, spans)
    {
      if t.offset + t.nrPages > pages[h].spanSize {
        return Overrun;
      }
      if t.nrPages == 0 {
        r := TrimHollow(h, t.offset, avail, size);
        return;
      }
      ghost var pg1, was1 := img, spans;
      r := TrimFound(h, t, avail, size);
      FrameThenPool(pg, pg1, img, was, was1, spans, h + t.offset);
    }

    method AllocateLarge(n: uint32) returns (r: AllocResult, ghost avail: Spans, ghost span: nat)
      requires Valid() && ShiftDefined(n, nrPages)
      modifies this`nrPages, this`pages, this`base, this`nrFreePages, this`spans, this`lists, this`img, this`heads, pages, freeSpans
      ensures r.Thrown? <==> n > 0x4000_0000 && (old(nrPages) == 0 || n < old(nrPages))
      ensures r.Thrown? ==> Unchanged()
      ensures Valid() && (!r.Thrown? ==> nrPages > 0) && !r.Overrun?
      ensures old(nrPages) > 0 ==> avail == old(spans) && nrPages == old(nrPages) && pages == old(pages) && base == old(base)
      ensures old(nrPages) == 0 && !r.Thrown? ==>
        fresh(pages) && nrPages == BOOTSTRAP_PAGES && base == BOOTSTRAP_RESERVED && avail == Bootstrap()
      ensures r.NullPtr? ==> spans == avail && NoneFit(avail, n)
      ensures r.NullPtr? && old(nrPages) > 0 ==> Frame(old(img), img, spans, spans)
      ensures r.Allocated? ==> Fits(avail, span, n) && Carved(avail, spans, span, Trim(0, n)) && r.ptr == ToPtr(span)
      ensures r.Allocated? ==> NoPool(img, span) && n > 0 && GoodFit(avail, span, n)
      ensures r.Allocated? && old(nrPages) > 0 ==> Frame(WithoutPool(old(img), span), img, old(spans), spans)
    {
      r, avail, span := AllocateLargeAndTrim(n, (idx: nat, m: nat) => Trim(0, if m < n then m else n));
    }

    /** Allocates `n` pages whose first page index is a multiple of `alignPages`. The invariant
        is kept when there are pages to allocate and the 32-bit sum of the request does not
        wrap. Otherwise, once a span is found, it is beyond repair (no pages), or the pages
        reach beyond the page array (the sum wraps). */
    method AllocateLargeAligned(alignPages: uint32, n: uint32) returns (r: AllocResult, ghost avail: Spans, ghost span: nat)
      requires Valid() && ShiftDefined(AlignedRequest(alignPages, n), nrPages)
      modifies this`nrPages, this`pages, this`base, this`nrFreePages, this`spans, this`lists, this`img, this`heads, pages, freeSpans
      ensures r.Thrown? <==>
        AlignedRequest(alignPages, n) > 0x4000_0000 && (old(nrPages) == 0 || AlignedRequest(alignPages, n) < old(nrPages))
      ensures r.Thrown? ==> Unchanged()
      ensures r.Thrown? || r.NullPtr? ==> Valid()
      ensures !r.Thrown? ==> nrPages > 0
      ensures old(nrPages) > 0 ==> avail == old(spans) && nrPages == old(nrPages) && pages == old(pages) && base == old(base)
      ensures old(nrPages) == 0 && !r.Thrown? ==>
        fresh(pages) && nrPages == BOOTSTRAP_PAGES && base == BOOTSTRAP_RESERVED && avail == Bootstrap()
      ensures r.NullPtr? ==> spans == avail && NoneFit(avail, AlignedRequest(alignPages, n))
      ensures r.NullPtr? && old(nrPages) > 0 ==> Frame(old(img), img, spans, spans)
      ensures r.Allocated? || r.Overrun? ==> FoundIn(avail, span, AlignedRequest(alignPages, n), nrPages)
      ensures r.Allocated? <==> !r.Thrown? && !r.NullPtr? && (n == 0 || Alignable(alignPages, n))
      ensures r.Allocated? ==> alignPages > 0 && r.ptr == ToPtr(AlignUp(span, alignPages))
      ensures r.Allocated? && n > 0 ==>
        && Valid() && Carved(avail, spans, span, Trim(AlignUp(span, alignPages) - span, n))
        && NoPool(img, AlignUp(span, alignPages))
      ensures r.Allocated? && n > 0 && old(nrPages) > 0 ==>
        Frame(WithoutPool(old(img), AlignUp(span, alignPages)), img, old(spans), spans)
      ensures r.Allocated? && n == 0 ==> Linked() && Broken()
      ensures r.Overrun? ==> span + AlignOffset(span, alignPages) + n - 1 > nrPages
    {
      r, avail, span := AllocateLargeAndTrim(AlignedRequest(alignPages, n),
                                              (idx: nat, m: nat) => Trim(AlignOffset(idx, alignPages), n));
      if r.Allocated? || r.Overrun? {
        if n == 0 || Alignable(alignPages, n) {
          AlignedFits(alignPages, n, span, avail[span].size);
        } else {
          WrapOverruns(alignPages, n, span, avail[span].size, nrPages);
        }
      }
    }

    /** The span in use at `idx` keeps its first `n` pages; the rest becomes the hole. */
    method CutUsed(idx: nat, n: uint32)
      requires nrPages > 0 && Valid() && Used(spans, idx) && 0 < n < spans[idx].size
      modifies this`spans, this`img, pages
      ensures spans == old(spans)[idx := Span(n, false)]
      ensures ValidBut(idx + n, idx + old(spans)[idx].size) && nrFreePages == FreeBelow(spans, nrPages)
      ensures Frame(old(img), img, old(spans), spans)
    {
      ghost var pg, was, size := img, spans, spans[idx].size;
      Release(idx);
      CutEffect(pg, spans, lists, base, nrPages, idx, idx + size, n);
      SetTags(idx, n, false);
      spans := spans[idx := Span(n, false)];
      assert spans == was[idx := Span(n, false)];
      FrameFor(pg, img, spans, spans, was, spans);
    }

    /** What `shrink` to no pages writes: neither the head nor the page before it has a size
        any more, and the latter reads as not free. */
    method ClearTags(idx: nat)
      requires Linked() && 0 < idx < pages.Length
      modifies this`img, pages
      ensures Linked() && SameTagsBut(old(img), img, idx - 1, idx) && Frame(old(img), img, spans, spans)
      ensures !img[idx - 1].free && img[idx - 1].spanSize == 0
    {
      pages[idx] := pages[idx].(spanSize := 0);
      pages[idx - 1] := pages[idx - 1].(free := false);
      pages[idx - 1] := pages[idx - 1].(spanSize := 0);
      AllLinkedFrame(img, pages[..], heads, lists);
      img := pages[..];
    }

    /** The span in use at `idx` is given back whole. */
    method Empty(idx: nat, n: uint32) returns (ghost at: nat, ghost size: nat)
      requires nrPages > 0 && Valid() && Used(spans, idx) && spans[idx].size == n > 0
      modifies this`nrFreePages, this`spans, this`lists, this`img, this`heads, pages, freeSpans
      ensures idx == base ==> Valid() && nrFreePages == old(nrFreePages) + n
      ensures idx == base ==> at <= idx && idx + n <= at + size && Absorbed(old(spans) - {idx}, spans, at, size)
      ensures idx == base ==> Frame(old(img), img, old(spans), spans)
      ensures idx != base ==> Linked() && Broken()
    {
      ghost var pg, was := img, spans;
      Loosen(idx, n);
      ghost var pg1 := img;
      size := FreeLoose(idx, n);
      at := idx;
      if idx == base {
        EmptiedFirst(pg, pg1, img, was, spans, idx, nrPages, n);
      } else {
        assert OnItsList(spans, lists, idx);
        NoTilingBehind(img, lists, base, nrPages, IndexOf(size), idx);
      }
    }

    /** The span in use at `idx` and the tag of the page before it are gone. */
    method Loosen(idx: nat, n: uint32)
      requires nrPages > 0 && Valid() && Used(spans, idx) && spans[idx].size == n > 0
      modifies this`spans, this`img, pages
      ensures ListsValid() && spans == old(spans) - {idx} && 0 < base <= idx && idx + n <= nrPages < pages.Length
      ensures nrFreePages + n <= nrPages && LooseAfter(img, spans, nrPages, idx + n, nrFreePages)
      ensures !img[idx - 1].free && img[idx - 1].spanSize == 0
      ensures SameTagsBut(old(img), img, idx - 1, idx) && Frame(old(img), img, spans, spans)
    {
      SpanFacts(img, spans, base, nrPages, nrPages, nrPages, idx);
      Release(idx);
      LooseFacts(img, spans, base, nrPages, idx, n, idx + n);
      ClearTags(idx);
    }

    /** `free_span` behind a page that reads as not free, where the tags before it need not be
        right: there is nothing to merge with but the free span behind the hole. */
    method FreeLoose(idx: nat, n: uint32) returns (nr: uint32)
      requires ListsValid() && idx !in spans && n > 0 && 0 < idx && idx + n <= nrPages < pages.Length
      requires nrFreePages + n <= nrPages && !img[idx - 1].free && LooseAfter(img, spans, nrPages, idx + n, nrFreePages)
      modifies this`nrFreePages, this`spans, this`lists, this`img, this`heads, pages, freeSpans
      ensures ListsValid() && nr == n + FreeAt(old(img), idx + n) && nrFreePages == old(nrFreePages) + n
      ensures spans == LooseSpans(old(spans), idx, n, FreeAt(old(img), idx + n))
      ensures SameTags(Retagged(old(img), idx, nr, true), img) && Frame(old(img), img, old(spans), spans)
    {
      ghost var pg, was := img, spans;
      nr := n;
      if pages[idx + n].free {
        var a := pages[idx + n].spanSize;
        nr := nr + a;
        nrFreePages := nrFreePages - a;
        UnlinkSpan(idx + n, a);
      }
      ghost var pg1, was1 := img, spans;
      ListFree(idx, nr);
      FrameTrans(pg, pg1, img, was, was1, spans);
    }

    /** Gives back the pages of an allocation beyond `newSize` bytes. When none is left, the
        page before the allocation loses its tag, which only the first span can afford. */
    method Shrink(ptr: nat, newSize: nat) returns (ghost at: nat, ghost size: nat)
      requires nrPages > 0 && Valid() && ptr >= memory && Used(spans, ToPage(ptr)) && newSize < SIZE_T
      requires ToPage(ptr) < |img| && img[ToPage(ptr)].pool == 0 ==> PagesKept(newSize) <= spans[ToPage(ptr)].size
      modifies this`nrFreePages, this`spans, this`lists, this`img, this`heads, pages, freeSpans
      ensures ShrinkKeeps(old(img), old(spans), ToPage(ptr), newSize) ==>
        Valid() && Unchanged() && Frame(old(img), img, old(spans), spans)
      ensures !ShrinkKeeps(old(img), old(spans), ToPage(ptr), newSize) && (PagesKept(newSize) > 0 || ToPage(ptr) == base) ==>
        var n := PagesKept(newSize);
        && Valid() && at <= ToPage(ptr) + n && ToPage(ptr) + old(spans)[ToPage(ptr)].size <= at + size
        && Absorbed(CutTo(old(spans), ToPage(ptr), n), spans, at, size)
        && nrFreePages == old(nrFreePages) + old(spans)[ToPage(ptr)].size - n
        && Frame(old(img), img, old(spans), spans)
      ensures !ShrinkKeeps(old(img), old(spans), ToPage(ptr), newSize) && PagesKept(newSize) == 0 && ToPage(ptr) != base ==>
        Linked() && Broken()
    {
      at, size := 0, 0;
      var idx := ToPage(ptr);
      SpanFacts(img, spans, base, nrPages, nrPages, nrPages, idx);
      if pages[idx].pool != 0 {
        return;
      }
      var n := PagesKept(newSize);
      var oldSize := pages[idx].spanSize;
      if n == oldSize {
        return;
      }
      if n > 0 {
        at, size := ShrinkUsed(idx, n, oldSize);
        return;
      }
      at, size := Empty(idx, oldSize);
    }

    /** The span in use at `idx` keeps its first `n` pages. */
    method ShrinkUsed(idx: nat, n: uint32, oldSize: uint32) returns (ghost at: nat, ghost size: nat)
      requires nrPages > 0 && Valid() && Used(spans, idx) && 0 < n < spans[idx].size == oldSize
      modifies this`nrFreePages, this`spans, this`lists, this`img, this`heads, pages, freeSpans
      ensures Valid() && nrFreePages == old(nrFreePages) + oldSize - n
      ensures at <= idx + n && idx + oldSize <= at + size && Absorbed(CutTo(old(spans), idx, n), spans, at, size)
      ensures Frame(old(img), img, old(spans), spans)
    {
      ghost var pg, was := img, spans;
      CutUsed(idx, n);
      ghost var pg1, was1 := img, spans;
      at, size := FreeSpan(idx + n, oldSize - n);
      FrameTrans(pg, pg1, img, was, was1, spans);
    }

    /** The slab layer rewrites its fields of page `i`. */
    method WriteSlab(i: nat, p: Page, ghost list: PageList)
      requires nrPages > 0 && Valid() && UsedList(list) && i < pages.Length && OnlySlab(img[i], p)
      modifies this`img, pages
      ensures Valid() && UsedList(list) && img == old(img)[i := p]
    {
      pages[i] := p;
      LinkedFrame(img, pages[..], list.front, list.back, list.content);
      AllLinkedFrame(img, pages[..], heads, lists);
      TilingFrame(img, pages[..], spans, base, nrPages, nrPages, nrPages);
      img := pages[..];
    }

    /** A list of heads of spans in use, threaded through the same links. */
    ghost predicate UsedList(list: PageList)
      reads this, pages, freeSpans, list
    {
      && list !in freeSpans && list.Valid(pages)
      && forall x :: x in list.content ==> Used(spans, x)
    }

    method PushUsed(list: PageList, span: nat)
      requires nrPages > 0 && Valid() && UsedList(list) && Used(spans, span) && span !in list.content && span > 0
      modifies this`img, pages, list
      ensures Valid() && UsedList(list) && list.content == [span] + old(list.content)
      ensures OnlyLinks(old(img), img, list.content)
    {
      SpanFacts(img, spans, base, nrPages, nrPages, nrPages, span);
      list.PushFront(pages, span);
      UsedListWorked(spans, img, pages[..], base, nrPages, heads, lists, list.content);
      img := pages[..];
    }

    method PopUsed(list: PageList)
      requires nrPages > 0 && Valid() && UsedList(list) && list.content != []
      modifies this`img, pages, list
      ensures Valid() && UsedList(list) && list.content == Without(old(list.content), 0)
      ensures OnlyLinks(old(img), img, old(list.content))
    {
      WithoutMembers(list.content, 0);
      list.PopFront(pages);
      UsedListWorked(spans, img, pages[..], base, nrPages, heads, lists, old(list.content));
      img := pages[..];
    }

    method EraseUsed(list: PageList, span: nat, ghost k: nat)
      requires nrPages > 0 && Valid() && UsedList(list) && k < |list.content| && list.content[k] == span
      modifies this`img, pages, list
      ensures Valid() && UsedList(list) && list.content == Without(old(list.content), k)
      ensures OnlyLinks(old(img), img, old(list.content))
    {
      WithoutMembers(list.content, k);
      list.Erase(pages, span, k);
      UsedListWorked(spans, img, pages[..], base, nrPages, heads, lists, old(list.content));
      img := pages[..];
    }
  }

  /** `b` is `a` except for the slab fields. */
  ghost predicate OnlySlab(a: Page, b: Page) {
    b == a.(offsetInSpan := b.offsetInSpan, nrSmallAlloc := b.nrSmallAlloc, pool := b.pool, freelist := b.freelist)
  }

  /** Relinking heads of spans in use disturbs neither the tiling nor the free lists. */
  lemma UsedListWorked(spans: Spans, pg: seq<Page>, pg': seq<Page>, base: nat, nr: nat,
                       heads: seq<Ends>, lists: seq<seq<nat>>, touched: seq<nat>)
    requires Tiling(pg, spans, base, nr, nr, nr) && AllLinked(pg, heads, lists) && Indexed(spans, lists)
    requires OnlyLinks(pg, pg', touched) && forall x :: x in touched ==> Used(spans, x)
    ensures Tiling(pg', spans, base, nr, nr, nr) && AllLinked(pg', heads, lists)
  {
    TilingFrame(pg, pg', spans, base, nr, nr, nr);
    forall i | 0 <= i < NR_SPAN_LISTS
      ensures Linked(pg', heads[i].front, heads[i].back, lists[i])
    {
      forall k | 0 <= k < |lists[i]|
        ensures pg'[lists[i][k]] == pg[lists[i][k]]
      {
        assert Listed(spans, lists[i][k], i);
      }
      LinkedFrame(pg, pg', heads[i].front, heads[i].back, lists[i]);
    }
  }

  /** The size of the free span that the tag on page `p` shows. */
  function FreeAt(pg: seq<Page>, p: nat): nat {
    if p < |pg| && pg[p].free then pg[p].spanSize else 0
  }

  /** What the tag on page `p` shows as a free span is one. */
  ghost predicate LooseAfter(pg: seq<Page>, spans: Spans, nr: nat, p: nat, count: nat) {
    p < |pg| && pg[p].free ==>
      0 < pg[p].spanSize <= count && p + pg[p].spanSize <= nr && p in spans && spans[p] == Span(pg[p].spanSize, true)
  }

  /** The pages from `idx` on are a free span that took over `a` pages behind them. */
  ghost function LooseSpans(spans: Spans, idx: nat, n: nat, a: nat): Spans {
    (if a > 0 then spans - {idx + n} else spans)[idx := Span(n + a, true)]
  }

  lemma LooseFacts(pg: seq<Page>, spans: Spans, base: nat, nr: nat, idx: nat, n: nat, hi: nat)
    requires Tiling(pg, spans, base, nr, idx, hi) && idx + n == hi && n > 0
    ensures idx !in spans && FreeBelow(spans, nr) + n <= nr && LooseAfter(pg, spans, nr, hi, FreeBelow(spans, nr))
  {
    FillCount(pg, spans, base, nr, idx, hi, idx, n);
    if pg[hi].free {
      FreeAfter(pg, spans, base, nr, idx, hi);
      FreeBelowRemove(spans, hi, nr);
    }
  }

  /** In front of the first span in use there is no tag to lose. */
  lemma EmptiedFirst(a: seq<Page>, b: seq<Page>, c: seq<Page>, s0: Spans, s2: Spans, base: nat, nr: nat, n: nat)
    requires Tiling(a, s0, base, nr, nr, nr) && Used(s0, base) && s0[base].size == n > 0
    requires SameTagsBut(a, b, base - 1, base) && !b[base - 1].free && base + n + FreeAt(b, base + n) <= nr
    requires SameTags(Retagged(b, base, n + FreeAt(b, base + n), true), c)
    requires s2 == LooseSpans(s0 - {base}, base, n, FreeAt(b, base + n))
    requires Frame(a, b, s0 - {base}, s0 - {base}) && Frame(b, c, s0 - {base}, s2)
    ensures Tiling(c, s2, base, nr, nr, nr) && Absorbed(s0 - {base}, s2, base, n + FreeAt(b, base + n))
    ensures FreeBelow(s2, nr) == FreeBelow(s0, nr) + n && Frame(a, c, s0, s2)
  {
    var s1 := s0 - {base};
    HoleBefore(a, s0, base, nr, base);
    RemoveAfter(a, s0, base, nr, base, base);
    FreeBelowRemove(s0, base, nr);
    TagsBeforeHole(a, b, s1, base, nr, base + n);
    LooseClosed(b, c, s1, base, nr, base, n, base + n);
    FrameTrans(a, b, c, s1, s1, s2);
    FrameFor(a, c, s1, s2, s0, s2);
  }

  /** Where the tags are right, that closes the hole. */
  lemma LooseClosed(a: seq<Page>, b: seq<Page>, spans: Spans, base: nat, nr: nat, idx: nat, n: nat, hi: nat)
    requires Tiling(a, spans, base, nr, idx, hi) && idx + n == hi && n > 0 && !a[idx - 1].free
    requires idx + n + FreeAt(a, hi) <= nr && SameTags(Retagged(a, idx, n + FreeAt(a, hi), true), b)
    ensures var s := LooseSpans(spans, idx, n, FreeAt(a, hi));
      && Tiling(b, s, base, nr, nr, nr) && Absorbed(spans, s, idx, n + FreeAt(a, hi))
      && FreeBelow(s, nr) == FreeBelow(spans, nr) + n
  {
    if !a[hi].free {
      HoleFreed(a, b, spans, base, nr, idx, n, hi);
      return;
    }
    FreeAfter(a, spans, base, nr, idx, hi);
    FreeBelowRemove(spans, hi, nr);
    RemoveAfter(a, spans, base, nr, idx, hi);
    HoleFreed(a, b, spans - {hi}, base, nr, idx, n + a[hi].spanSize, hi + a[hi].spanSize);
  }

  /** The whole hole, next to nothing free, becomes a free span. */
  lemma HoleFreed(a: seq<Page>, b: seq<Page>, spans: Spans, base: nat, nr: nat, idx: nat, n: nat, hi: nat)
    requires Tiling(a, spans, base, nr, idx, hi) && idx + n == hi && n > 0 && !a[idx - 1].free && !a[hi].free
    requires SameTags(Retagged(a, idx, n, true), b)
    ensures idx !in spans && Tiling(b, spans[idx := Span(n, true)], base, nr, nr, nr)
    ensures FreeBelow(spans[idx := Span(n, true)], nr) == FreeBelow(spans, nr) + n
  {
    FillCount(a, spans, base, nr, idx, hi, idx, n);
    FreeEffect(a, b, spans, base, nr, idx, hi, idx, n);
    HoleClosed(b, spans[idx := Span(n, true)], base, nr, hi);
  }

  /** Tagging and listing an end of the hole keeps the tiling. */
  lemma FreeEffect(a: seq<Page>, b: seq<Page>, spans: Spans, base: nat, nr: nat, lo: nat, hi: nat, start: nat, n: nat)
    requires Tiling(a, spans, base, nr, lo, hi) && Fillable(a, lo, hi, start, Span(n, true))
    requires SameTags(Retagged(a, start, n, true), b)
    ensures Tiling(b, spans[start := Span(n, true)], base, nr, HoleLo(lo, start, n), HoleHi(lo, hi, start))
    ensures SameTagsBut(a, b, start, start + n - 1)
  {
    Fill(a, spans, base, nr, lo, hi, start, Span(n, true), Retagged(a, start, n, true));
    TilingFrame(Retagged(a, start, n, true), b, spans[start := Span(n, true)], base, nr,
                HoleLo(lo, start, n), HoleHi(lo, hi, start));
  }

  /** The pages that `shrink` leaves: `align_up` works in 64 bits. */
  function PagesKept(newSize: nat): nat {
    AlignUp(newSize, PAGE_SIZE) % SIZE_T / PAGE_SIZE
  }

  /** They hold the bytes, and there is none for no bytes and for the sizes that wrap. */
  lemma PagesKeptHold(newSize: nat)
    requires newSize < SIZE_T
    ensures PagesKept(newSize) == 0 <==> newSize == 0 || newSize > SIZE_T - PAGE_SIZE
    ensures newSize <= SIZE_T - PAGE_SIZE ==>
      newSize <= PagesKept(newSize) * PAGE_SIZE == AlignUp(newSize, PAGE_SIZE) < newSize + PAGE_SIZE
  {
    var k := (newSize + PAGE_SIZE - 1) / PAGE_SIZE;
    var v := AlignUp(newSize, PAGE_SIZE);
    assert v == k * PAGE_SIZE;
    if newSize > SIZE_T - PAGE_SIZE {
      DivModUnique(newSize + PAGE_SIZE - 1, PAGE_SIZE, SIZE_T / PAGE_SIZE, newSize + PAGE_SIZE - 1 - SIZE_T);
      DivModUnique(v, SIZE_T, 1, 0);
    } else {
      DivModUnique(v, SIZE_T, 0, v);
      MulMod(k, PAGE_SIZE);
    }
  }

  /** `shrink` leaves slab spans, and spans that already have the size, alone. */
  ghost predicate ShrinkKeeps(pg: seq<Page>, spans: Spans, idx: nat, newSize: nat)
    requires idx in spans
  {
    (idx < |pg| && pg[idx].pool != 0) || PagesKept(newSize) == spans[idx].size
  }

  /** The span in use at `idx` has `n` pages left, or is gone. */
  ghost function CutTo(spans: Spans, idx: nat, n: nat): Spans {
    if n > 0 then spans[idx := Span(n, false)] else spans - {idx}
  }

  lemma CutEffect(pg: seq<Page>, spans: Spans, lists: seq<seq<nat>>, base: nat, nr: nat, idx: nat, hi: nat, n: nat)
    requires Tiling(pg, spans, base, nr, idx, hi) && Indexed(spans, lists) && 0 < n < hi - idx
    ensures idx !in spans && Indexed(spans[idx := Span(n, false)], lists)
    ensures FreeBelow(spans[idx := Span(n, false)], nr) == FreeBelow(spans, nr)
    ensures Tiling(Retagged(pg, idx, n, false), spans[idx := Span(n, false)], base, nr, idx + n, hi)
  {
    var sp := Span(n, false);
    FillDisjoint(pg, spans, base, nr, idx, hi, idx, sp);
    IndexedAddUsed(spans, lists, idx, n);
    FreeBelowFill(spans, idx, sp, nr);
    Fill(pg, spans, base, nr, idx, hi, idx, sp, Retagged(pg, idx, n, false));
  }

  /** `Overrun`: the part to allocate reaches beyond the span it is cut from. */
  datatype AllocResult = Allocated(ptr: nat) | NullPtr | Thrown | Overrun

  /** A search for `n` pages shifts by less than the width of a word, unless the request is
      turned away before it. */
  predicate ShiftDefined(n: uint32, nrPages: uint32) {
    1 <= n <= 0x8000_0000 || (nrPages > 0 && n >= nrPages)
  }

  /** `n_pages + align_pages - 1` in 32 bits. */
  function AlignedRequest(alignPages: uint32, n: uint32): uint32 {
    (n + alignPages - 1) % 0x1_0000_0000
  }

  /** `align_up(idx, align_pages) - idx` in 32 bits; aligning to zero pages gives zero. */
  function AlignOffset(idx: nat, alignPages: uint32): nat {
    if alignPages == 0 then (0 - idx) % 0x1_0000_0000 else AlignUp(idx, alignPages) - idx
  }

  /** There is something to allocate, and the sum that makes room for aligning does not wrap. */
  predicate Alignable(alignPages: uint32, n: uint32) {
    n > 0 && alignPages > 0 && n + alignPages - 1 < 0x1_0000_0000
  }

  /** When the sum wraps, the pages to allocate reach beyond the page array. */
  lemma WrapOverruns(alignPages: uint32, n: uint32, span: nat, size: nat, nr: uint32)
    requires 0 < span && span + size <= nr && AlignedRequest(alignPages, n) != 0
    requires n > 0 && !Alignable(alignPages, n)
    ensures AlignOffset(span, alignPages) + n > size
    ensures span + AlignOffset(span, alignPages) + n - 1 > nr
  {
    if alignPages == 0 {
      DivModUnique(0 - span, 0x1_0000_0000, -1, 0x1_0000_0000 - span);
    } else {
      AlignedAtLeast(span, alignPages);
    }
  }

  lemma AlignedAtLeast(v: nat, align: nat)
    requires v > 0 && align > 0
    ensures AlignUp(v, align) >= align
  {
    var r := AlignUp(v, align);
    if r < align {
      DivModUnique(r, align, 0, r);
    }
  }

  /** The offset of an aligned part, and the part, fit in a span as large as the request. */
  lemma AlignedFits(alignPages: uint32, n: uint32, span: nat, size: nat)
    requires size >= AlignedRequest(alignPages, n) && alignPages > 0
    requires n == 0 || Alignable(alignPages, n)
    ensures AlignOffset(span, alignPages) + n <= size
  {
    DivModUnique(n + alignPages - 1, 0x1_0000_0000, 0, n + alignPages - 1);
  }

  /** With a page fewer than searched for, the aligned part would not fit in a span that begins
      on page 1. */
  lemma AlignedTight(alignPages: uint32, n: uint32)
    requires Alignable(alignPages, n)
    ensures AlignOffset(1, alignPages) + n == AlignedRequest(alignPages, n)
  {
    DivModUnique(n + alignPages - 1, 0x1_0000_0000, 0, n + alignPages - 1);
    AlignedAtLeast(1, alignPages);
  }

  /** No spans explain the tags and the free lists. */
  ghost predicate NoSpans(pg: seq<Page>, lists: seq<seq<nat>>, base: nat, nr: nat) {
    forall s {:trigger Tiling(pg, s, base, nr, nr, nr)} :: Tiling(pg, s, base, nr, nr, nr) ==> !Indexed(s, lists)
  }

  /** A listed page whose tag, or whose span's tail tag, reads as not free fits no tiling. */
  lemma NoTiling(pg: seq<Page>, lists: seq<seq<nat>>, base: nat, nr: nat, i: nat, x: nat)
    requires |lists| == NR_SPAN_LISTS && i < |lists| && x in lists[i] && x < |pg|
    requires !pg[x].free || (0 < pg[x].spanSize && x + pg[x].spanSize <= |pg| && !pg[x + pg[x].spanSize - 1].free)
    ensures NoSpans(pg, lists, base, nr)
  {
    forall s: Spans | Tiling(pg, s, base, nr, nr, nr)
      ensures !Indexed(s, lists)
    {
      if Indexed(s, lists) {
        ListedFacts(s, lists, i, x);
        SpanFacts(pg, s, base, nr, nr, nr, x);
      }
    }
  }

  /** Nor does a listed page above the first one, when the page before it has no size. */
  lemma NoTilingBehind(pg: seq<Page>, lists: seq<seq<nat>>, base: nat, nr: nat, i: nat, x: nat)
    requires |lists| == NR_SPAN_LISTS && i < |lists| && x in lists[i]
    requires base < x <= |pg| && pg[x - 1].spanSize == 0
    ensures NoSpans(pg, lists, base, nr)
  {
    forall s: Spans | Tiling(pg, s, base, nr, nr, nr)
      ensures !Indexed(s, lists)
    {
      if Indexed(s, lists) {
        ListedFacts(s, lists, i, x);
        SpanFacts(pg, s, base, nr, nr, nr, x);
      }
    }
  }

  /** No span begins in the hole, and there are managed pages enough for it. */
  lemma HoleLoose(pg: seq<Page>, spans: Spans, base: nat, nr: nat, lo: nat, hi: nat, offset: nat)
    requires Tiling(pg, spans, base, nr, lo, hi) && lo < hi && offset <= hi - lo
    ensures lo !in spans && (offset < hi - lo ==> lo + offset !in spans) && FreeBelow(spans, nr) + (hi - lo) <= nr
  {
    FillCount(pg, spans, base, nr, lo, hi, lo, hi - lo);
    if offset < hi - lo {
      FillCount(pg, spans, base, nr, lo, hi, lo + offset, hi - lo - offset);
    }
  }

  /** A piece on either side of the empty part is on its list. */
  ghost predicate HollowListed(pg: seq<Page>, lists: seq<seq<nat>>, h: nat, offset: nat, size: uint32)
    requires |lists| == NR_SPAN_LISTS && offset <= size && size > 0
  {
    if offset < size then h + offset in lists[IndexOf(size - offset)]
    else h in lists[IndexOf(size)] && h < |pg| && pg[h].spanSize == size
  }

  /** The tags of the empty part contradict a free list. */
  lemma HollowBroken(a: seq<Page>, b: seq<Page>, lists: seq<seq<nat>>, base: nat, nr: nat, h: nat, offset: nat, size: uint32)
    requires |lists| == NR_SPAN_LISTS && offset <= size && size > 0 && HollowListed(a, lists, h, offset, size)
    requires 0 < h && h + offset < |a| == |b| && !b[h + offset].free && !b[h + offset - 1].free
    requires forall i :: 0 <= i < |a| && i != h + offset && i != h + offset - 1 ==> b[i] == a[i]
    ensures NoSpans(b, lists, base, nr)
  {
    NoTiling(b, lists, base, nr, IndexOf(if offset < size then size - offset else size), if offset < size then h + offset else h);
  }

  /** A free span of at least `n` pages within the managed pages. */
  ghost predicate FoundIn(avail: Spans, span: nat, n: nat, nr: nat) {
    Fits(avail, span, n) && 0 < span && span + avail[span].size <= nr
  }

  predicate TrimFits(t: Trim, size: nat) {
    t.offset + t.nrPages <= size
  }

  /** The free span at `h` was cut into a free span of `t.offset` pages, a span of `t.nrPages`
      pages in use and a free span of the rest; empty pieces leave no span. */
  ghost predicate Carved(a: Spans, b: Spans, h: nat, t: Trim) {
    && h in a && t.offset + t.nrPages <= a[h].size
    && h + t.offset !in a - {h}
    && b == WithFree(WithFree(a - {h}, h, t.offset), h + t.offset + t.nrPages, a[h].size - t.offset - t.nrPages)
              [h + t.offset := Span(t.nrPages, false)]
  }

  lemma FrameThenPool(a: seq<Page>, b: seq<Page>, c: seq<Page>, s0: Spans, s1: Spans, s2: Spans, idx: nat)
    requires Frame(a, b, s0, s1) && Frame(WithoutPool(b, idx), c, s1, s2)
    requires forall i {:trigger Used(s1, i)} :: Used(s0, i) && Used(s2, i) ==> Used(s1, i)
    ensures Frame(WithoutPool(a, idx), c, s0, s2)
  {
    forall i {:trigger FrameAt(WithoutPool(a, idx), c, s0, s2, i)} | 0 <= i < |a|
      ensures FrameAt(WithoutPool(a, idx), c, s0, s2, i)
    {
      assert FrameAt(a, b, s0, s1, i) && FrameAt(WithoutPool(b, idx), c, s1, s2, i);
      assert Used(s0, i) && Used(s2, i) ==> Used(s1, i);
    }
  }

  ghost predicate NoPool(pg: seq<Page>, idx: nat) {
    idx < |pg| ==> pg[idx].pool == 0
  }

  lemma PoolCleared(a: seq<Page>, b: seq<Page>, s0: Spans, s1: Spans, idx: nat)
    requires Frame(WithoutPool(a, idx), b, s0, s1)
    ensures NoPool(b, idx)
  {
    assert idx < |a| ==> FrameAt(WithoutPool(a, idx), b, s0, s1, idx);
  }

  lemma CarvedUsed(a: Spans, b: Spans, h: nat, t: Trim)
    requires Carved(a, b, h, t) && a[h].free
    ensures forall i :: Used(b, i) && i != h + t.offset ==> Used(a, i) && Used(a - {h}, i) && b[i] == a[i]
    ensures forall i :: Used(a, i) && i in b && !b[i].free ==> i in a - {h}
  {
  }

  /** Carving takes exactly the pages of the span in use out of the free ones. */
  lemma CarvedCount(a: Spans, b: Spans, h: nat, t: Trim, nr: nat)
    requires Carved(a, b, h, t) && a[h].free && t.nrPages > 0 && h + a[h].size <= nr
    requires t.offset + t.nrPages < a[h].size ==> h + t.offset + t.nrPages !in a
    ensures FreeBelow(b, nr) + t.nrPages == FreeBelow(a, nr)
  {
    var rest, low := a - {h}, WithFree(a - {h}, h, t.offset);
    var high := WithFree(low, h + t.offset + t.nrPages, a[h].size - t.offset - t.nrPages);
    FreeBelowRemove(a, h, nr);
    FreeBelowFill(rest, h, Span(t.offset, true), nr);
    if t.offset + t.nrPages < a[h].size {
      FreeBelowFill(low, h + t.offset + t.nrPages, Span(a[h].size - t.offset - t.nrPages, true), nr);
    }
    FreeBelowFill(high, h + t.offset, Span(t.nrPages, false), nr);
  }

  /** A request for as many pages as there are in all cannot be met. */
  lemma TooLarge(pg: seq<Page>, spans: Spans, base: nat, nr: nat, n: nat)
    requires Tiling(pg, spans, base, nr, nr, nr) && n >= nr
    ensures NoneFit(spans, n)
  {
    forall x
      ensures !Fits(spans, x, n)
    {
      if Fits(spans, x, n) {
        SpanFacts(pg, spans, base, nr, nr, nr, x);
      }
    }
  }

  ghost function WithFree(spans: Spans, at: nat, k: nat): Spans {
    if k == 0 then spans else spans[at := Span(k, true)]
  }

  lemma FrameFreed(a: seq<Page>, b: seq<Page>, c: seq<Page>, spans: Spans, x: nat, j: nat, y: nat, k: nat)
    requires Frame(a, b, spans, WithFree(spans, x, j))
    requires Frame(b, c, WithFree(spans, x, j), WithFree(WithFree(spans, x, j), y, k))
    requires j > 0 ==> x !in spans
    ensures Frame(a, c, spans, WithFree(WithFree(spans, x, j), y, k))
  {
    FrameTrans(a, b, c, spans, WithFree(spans, x, j), WithFree(WithFree(spans, x, j), y, k));
  }

  ghost function WithoutPool(pg: seq<Page>, idx: nat): seq<Page> {
    if idx < |pg| then pg[idx := pg[idx].(pool := 0)] else pg
  }

  /** Tagging the whole hole as a span in use, and clearing its pool, completes the tiling. */
  lemma UsedEffect(pg: seq<Page>, spans: Spans, lists: seq<seq<nat>>, base: nat, nr: nat, idx: nat, n: nat)
    requires n > 0 && Tiling(pg, spans, base, nr, idx, idx + n) && Indexed(spans, lists)
    ensures idx !in spans && Indexed(spans[idx := Span(n, false)], lists)
    ensures FreeBelow(spans[idx := Span(n, false)], nr) == FreeBelow(spans, nr)
    ensures var fin := WithoutPool(Retagged(pg, idx, n, false), idx);
      && Tiling(fin, spans[idx := Span(n, false)], base, nr, nr, nr)
      && Frame(WithoutPool(pg, idx), fin, spans, spans[idx := Span(n, false)])
  {
    var mid, sp := Retagged(pg, idx, n, false), Span(n, false);
    FillDisjoint(pg, spans, base, nr, idx, idx + n, idx, sp);
    IndexedAddUsed(spans, lists, idx, n);
    FreeBelowFill(spans, idx, sp, nr);
    Fill(pg, spans, base, nr, idx, idx + n, idx, sp, mid);
    HoleClosed(mid, spans[idx := sp], base, nr, idx + n);
    TilingFrame(mid, WithoutPool(mid, idx), spans[idx := sp], base, nr, nr, nr);
    assert WithoutPool(mid, idx) == Retagged(WithoutPool(pg, idx), idx, n, false);
    FrameFor(WithoutPool(pg, idx), WithoutPool(mid, idx), spans, spans, spans, spans[idx := sp]);
  }

  lemma IndexedAddUsed(spans: Spans, lists: seq<seq<nat>>, h: nat, n: nat)
    requires Indexed(spans, lists) && h !in spans
    ensures Indexed(spans[h := Span(n, false)], lists)
  {
    var spans' := spans[h := Span(n, false)];
    forall i, x {:trigger Listed(spans', x, i)} | 0 <= i < |lists| && x in lists[i]
      ensures Listed(spans', x, i)
    {
      assert Listed(spans, x, i);
    }
    forall x {:trigger OnItsList(spans', lists, x)} | x in spans'
      ensures OnItsList(spans', lists, x)
    {
      assert x != h ==> OnItsList(spans, lists, x);
    }
  }

  lemma ListedSpans(pg: seq<Page>, spans: Spans, base: nat, nr: nat, lists: seq<seq<nat>>, idx: nat)
    requires Tiling(pg, spans, base, nr, nr, nr) && Indexed(spans, lists) && idx < |lists|
    ensures forall x :: x in lists[idx] ==>
      x in spans && x < |pg| && spans[x] == Span(pg[x].spanSize, true)
  {
    forall x | x in lists[idx]
      ensures x in spans && x < |pg| && spans[x] == Span(pg[x].spanSize, true)
    {
      ListedFacts(spans, lists, idx, x);
      SpanFacts(pg, spans, base, nr, nr, nr, x);
    }
  }

  /** A free span that can serve a request for `n` pages. */
  ghost predicate Fits(spans: Spans, x: nat, n: nat) {
    x in spans && spans[x].free && spans[x].size >= n
  }

  ghost predicate NoneFit(spans: Spans, n: nat) {
    forall x :: !Fits(spans, x, n)
  }

  ghost function Bootstrap(): Spans {
    map[BOOTSTRAP_RESERVED := Span(BOOTSTRAP_PAGES - BOOTSTRAP_RESERVED, true)]
  }

  lemma {:induction false} NothingFree(n: nat)
    ensures FreeBelow(map[], n) == 0
  {
    if n > 0 {
      NothingFree(n - 1);
    }
  }

  lemma BootstrapFree()
    ensures FreeBelow(Bootstrap(), BOOTSTRAP_PAGES) == BOOTSTRAP_PAGES - BOOTSTRAP_RESERVED
  {
    var none: Spans := map[];
    NothingFree(BOOTSTRAP_PAGES);
    FreeBelowFill(none, BOOTSTRAP_RESERVED, Span(BOOTSTRAP_PAGES - BOOTSTRAP_RESERVED, true), BOOTSTRAP_PAGES);
    assert Bootstrap() == none[BOOTSTRAP_RESERVED := Span(BOOTSTRAP_PAGES - BOOTSTRAP_RESERVED, true)];
  }

  lemma TopPowers()
    ensures Pow2(30) == 0x4000_0000 && Pow2(31) == 0x8000_0000
  {
    Pow2Words();
  }

  /** The index of the power of two at or above `n`, for the requests that reach the search. */
  lemma ConservativeAtTop(n: uint32, idx: nat)
    requires 1 <= n <= 0x8000_0000 && n <= Pow2(idx) && (idx > 0 ==> Pow2(idx - 1) < n)
    ensures if n <= 0x4000_0000 then idx <= 30 else idx == 31
  {
    TopPowers();
    if n > 0x4000_0000 && idx < 31 {
      Pow2Monotonic(idx, 30);
    } else if n <= 0x4000_0000 && idx > 30 {
      Pow2Monotonic(30, idx - 1);
    } else if idx > 31 {
      Pow2Monotonic(31, idx - 1);
    }
  }

  /** Twice a power of two up to 2^31 is zero in 32 bits for the last one only. */
  lemma TwiceInWord(idx: nat)
    requires idx <= 31
    ensures (2 * Pow2(idx)) % 0x1_0000_0000 == if idx == 31 then 0 else 2 * Pow2(idx)
  {
    TopPowers();
    if idx == 31 {
      DivModUnique(0x1_0000_0000, 0x1_0000_0000, 1, 0);
    } else {
      Pow2Monotonic(idx, 30);
      DivModUnique(2 * Pow2(idx), 0x1_0000_0000, 0, 2 * Pow2(idx));
    }
  }

  /** The 32-bit shift of 2 by the conservative index exceeds the request unless it wraps to
      zero, which it does for requests above 2^30 pages. */
  lemma WrapsAtTop(n: uint32)
    requires 1 <= n <= 0x8000_0000
    ensures var idx := IndexOfConservative(n);
      && (n <= 0x4000_0000 ==> idx < 31 && n < (2 * Pow2(idx)) % 0x1_0000_0000)
      && (n > 0x4000_0000 ==> idx == 31 && (2 * Pow2(idx)) % 0x1_0000_0000 == 0)
  {
    ConservativeAtTop(n, IndexOfConservative(n));
    TwiceInWord(IndexOfConservative(n));
  }

  /** A request for 2^30 + 1 pages is refused whatever is free: twice the power of two above
      it is zero in 32 bits. */
  lemma TopRequestRefused()
    ensures 0x4000_0001 >= (2 * Pow2(IndexOfConservative(0x4000_0001))) % 0x1_0000_0000
  {
    WrapsAtTop(0x4000_0001);
  }

  /** A span that fits is on the exact list or on one from the conservative index up. */
  lemma FitsWhere(n: uint32, size: uint32)
    requires 0 < n <= size
    ensures IndexOf(size) >= IndexOfConservative(n) || IndexOf(size) == IndexOf(n) < IndexOfConservative(n)
  {
    ExactCovers(n, size);
    IndexGap(n);
  }

  /** With the lists from the conservative index up empty, and nothing on the exact list that
      fits, no free span fits. */
  lemma NoneFits(spans: Spans, lists: seq<seq<nat>>, n: uint32, x: nat)
    requires n > 0 && Indexed(spans, lists)
    requires forall i :: IndexOfConservative(n) <= i < NR_SPAN_LISTS ==> lists[i] == []
    requires IndexOf(n) < IndexOfConservative(n) ==> forall x :: x in lists[IndexOf(n)] ==> !Fits(spans, x, n)
    ensures !Fits(spans, x, n)
  {
    if Fits(spans, x, n) {
      assert OnItsList(spans, lists, x);
      FitsWhere(n, spans[x].size);
    }
  }

  /** The list a search for `n` pages settles on: the first non-empty one from the
      conservative index up, or the exact one when those are all empty. */
  ghost predicate Settled(lists: seq<seq<nat>>, n: uint32, idx: nat)
    requires n > 0 && |lists| == NR_SPAN_LISTS
  {
    if IndexOfConservative(n) <= idx < NR_SPAN_LISTS && lists[idx] != [] then
      forall i :: IndexOfConservative(n) <= i < idx ==> lists[i] == []
    else
      idx == IndexOf(n) && forall i :: IndexOfConservative(n) <= i < NR_SPAN_LISTS ==> lists[i] == []
  }

  /** A search that took the first non-empty list from the conservative index up, or the
      exact list when there was none, and found nothing there, missed nothing. */
  lemma NoneFound(spans: Spans, lists: seq<seq<nat>>, n: uint32, idx: nat)
    requires n > 0 && Indexed(spans, lists) && idx < NR_SPAN_LISTS
    requires Settled(lists, n, idx)
    requires forall x :: x in lists[idx] ==> !Fits(spans, x, n)
    ensures NoneFit(spans, n)
  {
    if IndexOfConservative(n) <= idx && lists[idx] != [] {
      var x := lists[idx][0];
      ListedFacts(spans, lists, idx, x);
      ConservativeFits(n, spans[x].size);
      assert false;
    }
    forall x
      ensures !Fits(spans, x, n)
    {
      NoneFits(spans, lists, n, x);
    }
  }

  /** The free span at `x` holds the request rounded up to a power of two. */
  ghost predicate HoldsPower(spans: Spans, x: nat, n: uint32)
    requires n > 0
  {
    x in spans && spans[x].free && spans[x].size >= Pow2(IndexOfConservative(n))
  }

  /** The span at `h` is less than twice as large as any such span. */
  ghost predicate GoodFit(spans: Spans, h: nat, n: uint32)
    requires n > 0
  {
    h in spans && forall x {:trigger HoldsPower(spans, x, n)} :: HoldsPower(spans, x, n) ==> spans[h].size < 2 * spans[x].size
  }

  /** A span from the list that the search looks at is such a span. */
  lemma FirstIsGood(spans: Spans, lists: seq<seq<nat>>, n: uint32, idx: nat, h: nat)
    requires n > 0 && Indexed(spans, lists) && idx < NR_SPAN_LISTS
    requires Settled(lists, n, idx) && h in lists[idx]
    ensures GoodFit(spans, h, n)
  {
    ListedFacts(spans, lists, idx, h);
    forall x {:trigger HoldsPower(spans, x, n)} | HoldsPower(spans, x, n)
      ensures spans[h].size < 2 * spans[x].size
    {
      assert OnItsList(spans, lists, x);
      var i := IndexOf(spans[x].size);
      if i < IndexOfConservative(n) {
        Pow2Monotonic(i + 1, IndexOfConservative(n));
      }
      assert x in lists[i];
      Pow2Monotonic(idx, i);
    }
  }

  lemma NothingListed(lists: seq<seq<nat>>)
    requires Indexed(map[], lists)
    ensures forall i :: 0 <= i < |lists| ==> lists[i] == []
  {
    forall i | 0 <= i < |lists|
      ensures lists[i] == []
    {
      if lists[i] != [] {
        ListedFacts(map[], lists, i, lists[i][0]);
      }
    }
  }

  lemma BootstrapLayout()
    ensures BOOTSTRAP_BYTES / PAGE_SIZE == BOOTSTRAP_PAGES
    ensures AlignUp(SIZEOF_PAGE * (BOOTSTRAP_PAGES + 1), PAGE_SIZE) / PAGE_SIZE == BOOTSTRAP_RESERVED
  {
    assert SIZEOF_PAGE * (BOOTSTRAP_PAGES + 1) + PAGE_SIZE - 1 == 266271;
    assert 266271 / 4096 == 65;
  }

  /** Before the first span is placed, all managed pages are the hole. */
  lemma {:induction false} EmptyTiling(pg: seq<Page>, base: nat, nr: nat)
    requires 1 <= base <= nr && |pg| == nr + 1 && !pg[base - 1].free && !pg[nr].free
    ensures Tiling(pg, map[], base, nr, base, nr)
    ensures FreeBelow(map[], nr) == 0
  {
    for i := 0 to nr
      invariant FreeBelow(map[], i) == 0
    {
    }
  }

  const BOOTSTRAP_PAGES: nat := 8192
  const BOOTSTRAP_RESERVED: nat := 65

  /** A span in use is on no list. */
  lemma IndexedDropUsed(spans: Spans, lists: seq<seq<nat>>, h: nat)
    requires Indexed(spans, lists) && Used(spans, h)
    ensures Indexed(spans - {h}, lists)
  {
    var spans' := spans - {h};
    forall i, x {:trigger Listed(spans', x, i)} | 0 <= i < |lists| && x in lists[i]
      ensures Listed(spans', x, i)
    {
      assert Listed(spans, x, i);
    }
    forall x {:trigger OnItsList(spans', lists, x)} | x in spans'
      ensures OnItsList(spans', lists, x)
    {
      assert OnItsList(spans, lists, x);
    }
  }

  /** The hole of `size` pages at `at` swallowed free spans; nothing else changed. */
  ghost predicate Emptied(a: Spans, b: Spans, at: nat, size: nat) {
    && (forall x :: x in b ==> x in a && b[x] == a[x])
    && (forall x :: x in a && x !in b ==> a[x].free && at <= x && x + a[x].size <= at + size)
  }

  /** The free span at `at` replaces the free spans inside it; nothing else changes. */
  ghost predicate Absorbed(a: Spans, b: Spans, at: nat, size: nat) {
    && at in b && b[at] == Span(size, true)
    && (forall x :: x in b && x != at ==> x in a && b[x] == a[x])
    && (forall x :: x in a ==> (x in b && b[x] == a[x]) || (a[x].free && at <= x && x + a[x].size <= at + size))
  }

  lemma EmptiedOne(a: Spans, h: nat, at: nat, size: nat)
    requires h in a && a[h].free && at <= h && h + a[h].size <= at + size
    ensures Emptied(a, a - {h}, at, size)
  {
  }

  lemma EmptiedBoth(a: Spans, b: Spans, c: Spans, at: nat, size: nat, more: nat)
    requires Emptied(a, b, at, size) && Emptied(b, c, at, more) && size <= more
    ensures Emptied(a, c, at, more)
  {
  }

  lemma EmptiedThenFilled(a: Spans, b: Spans, at: nat, size: nat)
    requires Emptied(a, b, at, size) && at !in b
    ensures Absorbed(a, b[at := Span(size, true)], at, size)
  {
  }

  lemma ListedUnused(spans: Spans, lists: seq<seq<nat>>, i: nat)
    requires Indexed(spans, lists) && i < |lists|
    ensures forall x :: x in lists[i] ==> !Used(spans, x)
  {
    forall x | x in lists[i]
      ensures !Used(spans, x)
    {
      assert Listed(spans, x, i);
    }
  }

  /** Filling part of the hole with a free span of `n` pages adds `n` free pages, and the
      total stays within the managed pages. */
  lemma FillCount(pg: seq<Page>, spans: Spans, base: nat, nr: nat, lo: nat, hi: nat, at: nat, n: nat)
    requires Tiling(pg, spans, base, nr, lo, hi) && lo <= at && at + n <= hi && n > 0
    ensures at !in spans
    ensures FreeBelow(spans[at := Span(n, true)], nr) == FreeBelow(spans, nr) + n <= nr
  {
    var sp := Span(n, true);
    FillDisjoint(pg, spans, base, nr, lo, hi, at, sp);
    FreeBelowFill(spans, at, sp, nr);
    var spans' := spans[at := sp];
    forall s {:trigger spans'[s]} | s in spans'
      ensures s + spans'[s].size <= nr
    {
      if s != at {
        SpanFacts(pg, spans, base, nr, lo, hi, s);
      }
    }
    FreeBelowBound(spans', nr, nr);
  }
}
