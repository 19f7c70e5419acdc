/** How a slab pool chooses the size of its spans and the limits of its free objects. */
module PoolSizing {
  import opened Bits
  import opened PageAllocator
  import opened Slabs
  import opened Utils

  /** The part of a span that its objects leave unused. */
  function Waste(objectSize: nat, spanSize: nat): real
    requires objectSize > 0 && spanSize > 0
  {
    (spanSize * PAGE_SIZE % objectSize) as real / (spanSize * PAGE_SIZE) as real
  }

  /** A span is not large enough; `waste` is what was computed for `Waste`. */
  predicate TooSmall(objectSize: nat, spanSize: nat, waste: real)
    requires objectSize > 0
  {
    || objectSize > spanSize * PAGE_SIZE
    || (spanSize < 32 && waste > 0.05)
    || spanSize * PAGE_SIZE / objectSize < 32
  }

  lemma Quotient(x: nat, m: nat)
    requires m > 0
    ensures x / m * m + x % m == x && x % m < m
  {
  }

  lemma QuotientBelow(x: nat, m: nat, n: nat)
    requires m > 0
    ensures x / m < n <==> x < n * m
  {
    Quotient(x, m);
    if x / m < n {
      assert (x / m + 1) * m <= n * m;
    } else {
      assert n * m <= x / m * m;
    }
  }

  lemma TimesMore(v: real, w: real, b: real)
    requires v < w && 0.0 < b
    ensures v * b < w * b
  {
  }

  lemma SmallPart(w: real, r: real, b: real)
    requires 0.0 <= r && 0.0 < b && 32.0 * r <= b && w * b == r
    ensures 0.0 <= w <= 0.03125
  {
    if w > 0.03125 {
      TimesMore(0.03125, w, b);
    }
    if w < 0.0 {
      TimesMore(w, 0.0, b);
    }
  }

  /** The test of the waste never decides, however its result is rounded: a span is too small
      if and only if it has fewer than 32 objects, and one that is not wastes less than one
      part in 32. */
  lemma WasteNeverDecides(objectSize: nat, spanSize: nat, waste: real)
    requires objectSize > 0 && spanSize > 0
    requires Waste(objectSize, spanSize) - 0.01 <= waste <= Waste(objectSize, spanSize) + 0.01
    ensures TooSmall(objectSize, spanSize, waste) <==> spanSize * PAGE_SIZE < 32 * objectSize
    ensures spanSize * PAGE_SIZE >= 32 * objectSize ==> Waste(objectSize, spanSize) <= 0.03125
  {
    var bytes := spanSize * PAGE_SIZE;
    QuotientBelow(bytes, objectSize, 32);
    Quotient(bytes, objectSize);
    if bytes >= 32 * objectSize {
      assert 32 * (bytes % objectSize) <= bytes;
      SmallPart(Waste(objectSize, spanSize), (bytes % objectSize) as real, bytes as real);
    }
  }

  /** The least power of two of pages with room for 32 objects. */
  ghost predicate SpanFor(objectSize: nat, spanSize: nat, k: nat) {
    spanSize == Pow2(k) && spanSize * PAGE_SIZE >= 32 * objectSize && (k > 0 ==> Pow2(k - 1) * PAGE_SIZE < 32 * objectSize)
  }

  /** There is one such size only. */
  lemma OneSpanSize(objectSize: nat, a: nat, b: nat, j: nat, k: nat)
    requires SpanFor(objectSize, a, j) && SpanFor(objectSize, b, k)
    ensures a == b
  {
    if j < k {
      Pow2Monotonic(j, k - 1);
    } else if k < j {
      Pow2Monotonic(k, j - 1);
    }
  }

  lemma SpanBounds(objectSize: nat, spanSize: nat, k: nat)
    requires SpanFor(objectSize, spanSize, k) && 0 < objectSize <= 4 * PAGE_SIZE
    ensures spanSize <= 0x80 && objectSize <= spanSize * PAGE_SIZE < 0x1_0000 * objectSize
  {
    assert Pow2(7) == 0x80;
    if k > 7 {
      Pow2Monotonic(7, k - 1);
    } else {
      Pow2Monotonic(k, 7);
    }
  }

  /** The upper limit: the objects of two spans, and 100 at least. */
  function MaxFree(objectSize: nat, spanSize: nat): nat
    requires objectSize > 0
  {
    Max(100, spanSize * PAGE_SIZE * 2 / objectSize)
  }

  /** The sizes and limits of a pool as its constructor chooses them. */
  ghost predicate ChosenFor(objectSize: nat, spanSize: nat, minFree: nat, maxFree: nat)
    requires objectSize > 0
  {
    && (exists k: nat :: SpanFor(objectSize, spanSize, k))
    && maxFree == MaxFree(objectSize, spanSize) && minFree == maxFree / 2
  }

  /** The constructor's loop and limits. */
  method Choose(objectSize: nat) returns (spanSize: nat, minFree: nat, maxFree: nat, ghost k: nat)
    requires 0 < objectSize <= 4 * PAGE_SIZE
    ensures SpanFor(objectSize, spanSize, k) && ChosenFor(objectSize, spanSize, minFree, maxFree)
    ensures spanSize <= 0x80 && objectSize <= spanSize * PAGE_SIZE < 0x1_0000 * objectSize
  {
    spanSize, k := 1, 0;
    while TooSmall(objectSize, spanSize, Waste(objectSize, spanSize))
      invariant spanSize == Pow2(k) && (k > 0 ==> Pow2(k - 1) * PAGE_SIZE < 32 * objectSize)
      decreases 32 * objectSize - spanSize
    {
      WasteNeverDecides(objectSize, spanSize, Waste(objectSize, spanSize));
      spanSize, k := 2 * spanSize, k + 1;
    }
    WasteNeverDecides(objectSize, spanSize, Waste(objectSize, spanSize));
    SpanBounds(objectSize, spanSize, k);
    maxFree := MaxFree(objectSize, spanSize);
    minFree := maxFree / 2;
    assert SpanFor(objectSize, spanSize, k);
  }

  /** Half way between the limits are fewer objects than in three spans, and trimming down to
      there leaves less than the upper limit. */
  lemma HalfWay(g: Geometry, minFree: nat, maxFree: nat)
    requires g.objectSize > 0 && ChosenFor(g.objectSize, g.spanSize, minFree, maxFree)
    ensures PerSpan(g) >= 32 && 75 <= (minFree + maxFree) / 2 <= 3 * PerSpan(g) && (minFree + maxFree) / 2 < maxFree
  {
    var k: nat :| SpanFor(g.objectSize, g.spanSize, k);
    PerSpanBounds(g);
    TwoSpans(g.objectSize, g.spanSize * PAGE_SIZE, PerSpan(g));
  }

  /** When `per` objects fit, and 32 do, twice the bytes are those of no more than twice that
      and one. */
  lemma TwoSpans(objectSize: nat, bytes: nat, per: nat)
    requires objectSize > 0 && 32 * objectSize <= bytes < (per + 1) * objectSize
    ensures per >= 32 && bytes * 2 / objectSize <= 2 * per + 1
  {
    QuotientBelow(bytes, objectSize, per + 1);
    QuotientBelow(bytes, objectSize, 32);
    assert (2 * per + 2) * objectSize == 2 * ((per + 1) * objectSize);
    QuotientBelow(bytes * 2, objectSize, 2 * per + 2);
  }
}
