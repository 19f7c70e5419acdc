/** The page descriptors of one CPU and the doubly linked lists threaded through them by
    page index, with index 0 standing for "no page". */
module PageLists {

  /** One entry of the page array. `spanSize` is meaningful only on the first and the last
      page of a span; on other pages it, `free` and the slab fields may be stale. */
  datatype Page = Page(
    free: bool,
    offsetInSpan: nat,
    nrSmallAlloc: nat,
    spanSize: nat,
    prev: nat,
    next: nat,
    pool: nat,
    freelist: seq<nat>)

  /** The `i`-th listed page, the null index outside the list. */
  function At(l: seq<nat>, i: int): nat {
    if 0 <= i < |l| then l[i] else 0
  }

  ghost predicate Differ(l: seq<nat>, i: nat, j: nat)
    requires i < |l| && j < |l|
  {
    i != j ==> l[i] != l[j]
  }

  ghost predicate Distinct(l: seq<nat>) {
    forall i, j {:trigger Differ(l, i, j)} :: 0 <= i < |l| && 0 <= j < |l| ==> Differ(l, i, j)
  }

  /** `front`, `back` and the links of `pg` describe exactly the list `l`. */
  ghost predicate Linked(pg: seq<Page>, front: nat, back: nat, l: seq<nat>) {
    && (forall i :: 0 <= i < |l| ==> 0 < l[i] < |pg|)
    && Distinct(l)
    && front == At(l, 0)
    && back == At(l, |l| - 1)
    && (forall i {:trigger pg[l[i]]} :: 0 <= i < |l| ==> pg[l[i]].next == At(l, i + 1))
    && (forall i {:trigger pg[l[i]]} :: 0 <= i < |l| ==> pg[l[i]].prev == At(l, i - 1))
  }

  /** `b` is `a` except for the links of pages in `touched`. */
  ghost predicate OnlyLinks(a: seq<Page>, b: seq<Page>, touched: seq<nat>) {
    && |a| == |b|
    && (forall i :: 0 <= i < |a| && i !in touched ==> b[i] == a[i])
    && (forall i :: 0 <= i < |a| ==> b[i] == a[i].(prev := b[i].prev, next := b[i].next))
  }

  lemma LinkedFrame(a: seq<Page>, b: seq<Page>, front: nat, back: nat, l: seq<nat>)
    requires Linked(a, front, back, l)
    requires |a| == |b|
    requires forall i :: 0 <= i < |l| ==> b[l[i]].prev == a[l[i]].prev && b[l[i]].next == a[l[i]].next
    ensures Linked(b, front, back, l)
  {
  }

  function Without(l: seq<nat>, k: nat): (r: seq<nat>)
    requires k < |l|
    ensures |r| == |l| - 1
    ensures forall i :: 0 <= i < k ==> r[i] == l[i]
    ensures forall i :: k <= i < |r| ==> r[i] == l[i + 1]
  {
    l[..k] + l[k + 1..]
  }

  /** Dropping the element at `k` from a duplicate-free list removes exactly that value. */
  lemma WithoutMembers(l: seq<nat>, k: nat)
    requires k < |l|
    requires Distinct(l)
    ensures l[k] !in Without(l, k)
    ensures forall x :: x in l && x != l[k] ==> x in Without(l, k)
    ensures forall x :: x in Without(l, k) ==> x in l
  {
    var r := Without(l, k);
    forall i | 0 <= i < |r|
      ensures r[i] != l[k]
    {
      assert Differ(l, if i < k then i else i + 1, k);
    }
    forall x | x in l && x != l[k]
      ensures x in r
    {
      var i :| 0 <= i < |l| && l[i] == x;
      assert r[if i < k then i else i - 1] == x;
    }
  }

  lemma WithoutDistinct(l: seq<nat>, k: nat)
    requires k < |l| && Distinct(l)
    ensures Distinct(Without(l, k))
  {
    var r := Without(l, k);
    forall i, j {:trigger Differ(r, i, j)} | 0 <= i < |r| && 0 <= j < |r|
      ensures Differ(r, i, j)
    {
      assert Differ(l, if i < k then i else i + 1, if j < k then j else j + 1);
    }
  }

  lemma PushDistinct(l: seq<nat>, x: nat)
    requires Distinct(l) && x !in l
    ensures Distinct([x] + l)
  {
    var r := [x] + l;
    forall i, j {:trigger Differ(r, i, j)} | 0 <= i < |r| && 0 <= j < |r|
      ensures Differ(r, i, j)
    {
      if i > 0 && j > 0 {
        assert Differ(l, i - 1, j - 1);
      }
    }
  }

  /** The ends of a list of real pages once its `k`-th page is dropped. */
  lemma WithoutEnds(l: seq<nat>, k: nat)
    requires k < |l| && forall i :: 0 <= i < |l| ==> l[i] > 0
    ensures At(Without(l, k), 0) == if At(l, k - 1) == 0 then At(l, k + 1) else At(l, 0)
    ensures At(Without(l, k), |l| - 2) == if At(l, k + 1) == 0 then At(l, k - 1) else At(l, |l| - 1)
  {
  }

  /** `ary[i].link._prev = v`, skipped for the null index. */
  function WithPrev(pg: seq<Page>, i: nat, v: nat): seq<Page>
    requires i < |pg|
  {
    if i == 0 then pg else pg[i := pg[i].(prev := v)]
  }

  /** `ary[i].link._next = v`, skipped for the null index. */
  function WithNext(pg: seq<Page>, i: nat, v: nat): seq<Page>
    requires i < |pg|
  {
    if i == 0 then pg else pg[i := pg[i].(next := v)]
  }

  /** The neighbours of the `k`-th listed page, as its links give them. */
  lemma Neighbours(pg: seq<Page>, front: nat, back: nat, l: seq<nat>, k: nat)
    requires Linked(pg, front, back, l) && k < |l|
    ensures pg[l[k]].next == At(l, k + 1) < |pg|
    ensures pg[l[k]].prev == At(l, k - 1) < |pg|
    ensures pg[l[k]].next == 0 <==> k + 1 == |l|
    ensures pg[l[k]].prev == 0 <==> k == 0
    ensures front < |pg| && back < |pg|
  {
  }

  /** Unlinking the `k`-th page, at one place of the shortened list. */
  lemma EraseLinkAt(pg: seq<Page>, front: nat, back: nat, l: seq<nat>, k: nat, n: nat, p: nat, i: nat)
    requires Linked(pg, front, back, l) && k < |l| && i < |l| - 1
    requires n == pg[l[k]].next < |pg| && p == pg[l[k]].prev < |pg|
    ensures var pg' := WithNext(WithPrev(pg, n, p), p, n);
      && pg'[Without(l, k)[i]].next == At(Without(l, k), i + 1)
      && pg'[Without(l, k)[i]].prev == At(Without(l, k), i - 1)
  {
    var r := Without(l, k);
    var j := if i < k then i else i + 1;
    assert r[i] == l[j];
    assert n == At(l, k + 1) && p == At(l, k - 1);
    assert k + 1 < |l| ==> Differ(l, j, k + 1);
    assert k > 0 ==> Differ(l, j, k - 1);
    assert l[j] == n <==> j == k + 1;
    assert l[j] == p <==> j == k - 1;
    assert At(r, i + 1) == if j == k - 1 then n else At(l, j + 1);
    assert At(r, i - 1) == if j == k + 1 then p else At(l, j - 1);
  }

  /** Unlinking the `k`-th page makes the links describe the list without it. */
  lemma EraseLinked(pg: seq<Page>, front: nat, back: nat, l: seq<nat>, k: nat, n: nat, p: nat)
    requires Linked(pg, front, back, l) && k < |l|
    requires n == pg[l[k]].next < |pg| && p == pg[l[k]].prev < |pg|
    ensures Linked(WithNext(WithPrev(pg, n, p), p, n),
                   if p == 0 then n else front, if n == 0 then p else back, Without(l, k))
  {
    Neighbours(pg, front, back, l, k);
    WithoutDistinct(l, k);
    WithoutEnds(l, k);
    var r := Without(l, k);
    var pg' := WithNext(WithPrev(pg, n, p), p, n);
    assert forall i :: 0 <= i < |r| ==> 0 < r[i] < |pg'|;
    forall i {:trigger pg'[r[i]]} | 0 <= i < |r|
      ensures pg'[r[i]].next == At(r, i + 1)
      ensures pg'[r[i]].prev == At(r, i - 1)
    {
      EraseLinkAt(pg, front, back, l, k, n, p, i);
    }
  }

  lemma EraseOnlyLinks(pg: seq<Page>, front: nat, back: nat, l: seq<nat>, k: nat, n: nat, p: nat)
    requires Linked(pg, front, back, l) && k < |l|
    requires n == pg[l[k]].next < |pg| && p == pg[l[k]].prev < |pg|
    ensures var pg' := WithNext(WithPrev(pg, n, p), p, n);
      OnlyLinks(pg, pg', l) && pg'[l[k]] == pg[l[k]]
  {
    Neighbours(pg, front, back, l, k);
    assert k + 1 < |l| ==> Differ(l, k, k + 1);
    assert k > 0 ==> Differ(l, k, k - 1);
  }

  /** Unlinking the `k`-th page: the list without it, and nobody else's links touched. */
  lemma EraseEffect(pg: seq<Page>, front: nat, back: nat, l: seq<nat>, k: nat, n: nat, p: nat)
    requires Linked(pg, front, back, l) && k < |l|
    requires n == pg[l[k]].next && p == pg[l[k]].prev
    ensures n < |pg| && p < |pg|
    ensures var pg' := WithNext(WithPrev(pg, n, p), p, n);
      && Linked(pg', if p == 0 then n else front, if n == 0 then p else back, Without(l, k))
      && OnlyLinks(pg, pg', l) && pg'[l[k]] == pg[l[k]]
  {
    Neighbours(pg, front, back, l, k);
    EraseLinked(pg, front, back, l, k, n, p);
    EraseOnlyLinks(pg, front, back, l, k, n, p);
  }

  lemma PushFrontLinkAt(pg: seq<Page>, front: nat, back: nat, l: seq<nat>, x: nat, i: nat)
    requires Linked(pg, front, back, l) && 0 < x < |pg| && x !in l && i <= |l|
    requires front < |pg|
    ensures var pg' := WithPrev(WithNext(WithPrev(pg, front, x), x, front), x, 0);
      && pg'[([x] + l)[i]].next == At([x] + l, i + 1)
      && pg'[([x] + l)[i]].prev == At([x] + l, i - 1)
  {
    var r := [x] + l;
    if i > 0 {
      assert r[i] == l[i - 1] != x;
      assert Differ(l, i - 1, 0);
      assert l[i - 1] == front <==> i == 1;
      assert At(r, i + 1) == At(l, i) && (i > 1 ==> At(r, i - 1) == At(l, i - 2));
    } else {
      assert At(r, 1) == At(l, 0);
    }
  }

  lemma PushFrontLinked(pg: seq<Page>, front: nat, back: nat, l: seq<nat>, x: nat)
    requires Linked(pg, front, back, l) && 0 < x < |pg| && x !in l
    requires front < |pg|
    ensures Linked(WithPrev(WithNext(WithPrev(pg, front, x), x, front), x, 0), x,
                   if front != 0 then back else x, [x] + l)
  {
    var pg' := WithPrev(WithNext(WithPrev(pg, front, x), x, front), x, 0);
    var r := [x] + l;
    assert l != [] ==> r[|r| - 1] == l[|l| - 1];
    PushDistinct(l, x);
    forall i {:trigger pg'[r[i]]} | 0 <= i < |r|
      ensures pg'[r[i]].next == At(r, i + 1)
      ensures pg'[r[i]].prev == At(r, i - 1)
    {
      PushFrontLinkAt(pg, front, back, l, x, i);
    }
  }

  lemma PushFrontOnlyLinks(pg: seq<Page>, front: nat, back: nat, l: seq<nat>, x: nat)
    requires Linked(pg, front, back, l) && 0 < x < |pg|
    requires front < |pg|
    ensures OnlyLinks(pg, WithPrev(WithNext(WithPrev(pg, front, x), x, front), x, 0), [x] + l)
  {
    assert front != 0 ==> ([x] + l)[1] == front;
    assert ([x] + l)[0] == x;
  }

  class PageList {
    var front: nat
    var back: nat
    ghost var content: seq<nat>

    ghost predicate Valid(ary: array<Page>)
      reads this, ary
    {
      Linked(ary[..], front, back, content)
    }

    constructor ()
      ensures front == 0 && back == 0 && content == []
    {
      front, back, content := 0, 0, [];
    }

    predicate Empty()
      reads this
    {
      front == 0
    }

    static method SetPrev(ary: array<Page>, i: nat, v: nat)
      requires i < ary.Length
      modifies ary
      ensures ary[..] == WithPrev(old(ary[..]), i, v)
    {
      if i != 0 {
        ary[i] := ary[i].(prev := v);
      }
    }

    static method SetNext(ary: array<Page>, i: nat, v: nat)
      requires i < ary.Length
      modifies ary
      ensures ary[..] == WithNext(old(ary[..]), i, v)
    {
      if i != 0 {
        ary[i] := ary[i].(next := v);
      }
    }

    /** Unlinks `span`, which is the `k`-th page of the list. */
    method Erase(ary: array<Page>, span: nat, ghost k: nat)
      requires Valid(ary) && k < |content| && content[k] == span
      modifies this, ary
      ensures Valid(ary) && content == Without(old(content), k)
      ensures OnlyLinks(old(ary[..]), ary[..], old(content))
      ensures ary[..][span] == old(ary[..])[span]
    {
      ghost var pg := ary[..];
      var n, p := ary[span].next, ary[span].prev;
      EraseEffect(pg, front, back, content, k, n, p);
      Bridge(ary, n, p);
      content := Without(content, k);
    }

    /** The pages before and after one that leaves are linked to each other. */
    method Bridge(ary: array<Page>, n: nat, p: nat)
      requires n < ary.Length && p < ary.Length
      modifies this`front, this`back, ary
      ensures ary[..] == WithNext(WithPrev(old(ary[..]), n, p), p, n)
      ensures front == (if p == 0 then n else old(front)) && back == if n == 0 then p else old(back)
    {
      SetPrev(ary, n, p);
      back := if n == 0 then p else back;
      SetNext(ary, p, n);
      front := if p == 0 then n else front;
    }

    method PushFront(ary: array<Page>, span: nat)
      requires Valid(ary) && 0 < span < ary.Length && span !in content
      modifies this, ary
      ensures Valid(ary) && content == [span] + old(content)
      ensures OnlyLinks(old(ary[..]), ary[..], [span] + old(content))
    {
      ghost var pg := ary[..];
      PushFrontLinked(pg, front, back, content, span);
      PushFrontOnlyLinks(pg, front, back, content, span);
      SetPrev(ary, front, span);
      back := if front == 0 then span else back;
      SetNext(ary, span, front);
      SetPrev(ary, span, 0);
      front := span;
      content := [span] + content;
    }

    method PopFront(ary: array<Page>)
      requires Valid(ary) && content != []
      modifies this, ary
      ensures Valid(ary) && content == Without(old(content), 0)
      ensures OnlyLinks(old(ary[..]), ary[..], old(content))
      ensures ary[..][old(content[0])] == old(ary[..])[old(content[0])]
    {
      ghost var pg := ary[..];
      Neighbours(pg, front, back, content, 0);
      EraseLinked(pg, front, back, content, 0, ary[front].next, 0);
      EraseOnlyLinks(pg, front, back, content, 0, ary[front].next, 0);
      var n := ary[front].next;
      SetPrev(ary, n, 0);
      back := if n == 0 then 0 else back;
      front := n;
      content := Without(content, 0);
    }

    /** First fit: the first listed span of at least `nPages` pages, 0 when there is none. */
    method Find(nPages: nat, ary: array<Page>) returns (n: nat, ghost k: nat)
      requires Valid(ary)
      ensures n == 0 ==> forall x :: x in content ==> ary[x].spanSize < nPages
      ensures n != 0 ==> k < |content| && content[k] == n && ary[n].spanSize >= nPages
      ensures n != 0 ==> forall i :: 0 <= i < k ==> ary[content[i]].spanSize < nPages
    {
      n, k := front, 0;
      while n != 0 && ary[n].spanSize < nPages
        invariant k <= |content| && n == if k < |content| then content[k] else 0
        invariant forall i :: 0 <= i < k ==> ary[content[i]].spanSize < nPages
        decreases |content| - k
      {
        n, k := ary[n].next, k + 1;
      }
    }
  }
}
