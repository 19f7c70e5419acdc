/** The size classes of the small pools: four classes per power of two. */
module SizeClasses {
  import opened Bits

  const MIN_OBJECT: nat := 8
  const NR_SMALL_POOLS: nat := 57
  const MAX_SMALL: nat := 16384

  /** The object size of class `idx`: `((4 | (idx & 3)) << (idx >> 2)) >> 2`. */
  function IdxToSize(idx: nat): nat {
    (4 + idx % 4) * Pow2(idx / 4) / 4
  }

  /** The class for objects of `size` bytes. */
  function SizeToIdx(size: nat): (r: nat)
    requires size >= 4
  {
    Log2AtLeastTwo(size);
    Log2(size) * 4 - 3 + (size - 1) / Pow2(Log2(size) - 2)
  }

  lemma Log2AtLeastTwo(size: nat)
    requires size >= 4
    ensures Log2(size) >= 2
  {
    assert Pow2(1) == 2 && Pow2(0) == 1;
    Log2Monotonic(4, size);
    Log2Unique(4, 2);
  }

  /** From class 8 on, class `4 * e + f` holds objects of `(4 + f) * 2^(e - 2)` bytes, also
      for `f == 4`, the first class of the next power. */
  lemma ClassSize(e: nat, f: nat)
    requires e >= 2 && f <= 4
    ensures IdxToSize(4 * e + f) == (4 + f) * Pow2(e - 2)
  {
    var p := Pow2(e - 2);
    assert Pow2(e) == 4 * p && Pow2(e + 1) == 8 * p;
    if f < 4 {
      DivModUnique(4 * e + f, 4, e, f);
      MulMod((4 + f) * p, 4);
      assert (4 + f) * Pow2(e) == (4 + f) * p * 4;
    } else {
      DivModUnique(4 * e + f, 4, e + 1, 0);
      MulMod(8 * p, 4);
    }
  }

  /** The classes below 8 hold objects of 1, 2 and 3 bytes. */
  lemma SmallClasses(idx: nat)
    requires idx < 8
    ensures IdxToSize(idx) == if idx < 4 then 1 else if idx < 6 then 2 else 3
  {
    assert Pow2(0) == 1 && Pow2(1) == 2;
    assert idx / 4 == if idx < 4 then 0 else 1;
  }

  lemma IdxToSizeGrows(idx: nat)
    ensures IdxToSize(idx) <= IdxToSize(idx + 1)
    ensures idx >= 7 ==> IdxToSize(idx) < IdxToSize(idx + 1)
  {
    var e, f := idx / 4, idx % 4;
    if e >= 2 {
      var p := Pow2(e - 2);
      ClassSize(e, f);
      ClassSize(e, f + 1);
      assert IdxToSize(idx + 1) == (5 + f) * p == (4 + f) * p + p;
    } else {
      SmallClasses(idx);
      if idx < 7 {
        SmallClasses(idx + 1);
      } else {
        ClassSize(2, 0);
      }
    }
  }

  lemma {:induction false} IdxToSizeMonotonic(i: nat, j: nat)
    requires i <= j
    ensures IdxToSize(i) <= IdxToSize(j)
    ensures 7 <= i < j ==> IdxToSize(i) < IdxToSize(j)
  {
    if i < j {
      IdxToSizeMonotonic(i, j - 1);
      IdxToSizeGrows(j - 1);
    }
  }

  /** The objects of the pools have from 1 byte to four pages. */
  lemma PoolSizes(idx: nat)
    requires idx < NR_SMALL_POOLS
    ensures 1 <= IdxToSize(idx) <= MAX_SMALL
  {
    SmallClasses(0);
    IdxToSizeMonotonic(0, idx);
    IdxToSizeMonotonic(idx, 56);
    ClassSize(14, 0);
    assert Pow2(12) == 4096;
  }

  lemma QuotientRange(size: nat, p: nat, q: nat)
    requires p > 0 && 4 * p <= size < 8 * p && q * p < size <= q * p + p
    ensures 3 <= q <= 7 && (q == 3 ==> size == 4 * p)
  {
    if q < 3 {
      MultiplesApart(q, 3, p);
    } else if q > 7 {
      MultiplesApart(7, q, p);
    }
  }

  /** With `p` a quarter of the power of two below it, a size is in the `q + 1`-th multiple of
      `p`, where `q` runs from 3 to 7. */
  lemma SizeDigits(size: nat) returns (e: nat, p: nat, q: nat)
    requires size >= 4
    ensures e >= 2 && p == Pow2(e - 2) && 3 <= q <= 7
    ensures q * p < size <= q * p + p && (q == 3 ==> size == 4 * p)
    ensures SizeToIdx(size) == 4 * e + (q - 3)
  {
    Log2AtLeastTwo(size);
    e := Log2(size);
    Quarter(e);
    p := Pow2(e - 2);
    q := Quotient(size - 1, p);
    QuotientRange(size, p, q);
  }

  lemma Quotient(x: nat, m: nat) returns (q: nat)
    requires m > 0
    ensures q == x / m && q * m <= x < q * m + m
  {
    q := x / m;
  }

  lemma Quarter(e: nat)
    requires e >= 2
    ensures Pow2(e) == 4 * Pow2(e - 2)
  {
  }

  lemma ClassOf(e: nat, p: nat, q: nat)
    requires e >= 2 && p == Pow2(e - 2) && 3 <= q <= 7
    ensures IdxToSize(4 * e + (q - 3)) == q * p + p
    ensures q > 3 ==> IdxToSize(4 * e + (q - 4)) == q * p
  {
    MultipleOf(e, q + 1);
    if q > 3 {
      MultipleOf(e, q);
    }
    OneMore(q, p);
  }

  lemma MultipleOf(e: nat, k: nat)
    requires e >= 2 && 4 <= k <= 8
    ensures IdxToSize(4 * e + (k - 4)) == k * Pow2(e - 2)
  {
    ClassSize(e, k - 4);
  }

  lemma OneMore(q: nat, p: nat)
    ensures (q + 1) * p == q * p + p
  {
  }

  /** The class picked for a size fits it, and the class below does not. */
  lemma ClassBracket(size: nat)
    requires size >= 4
    ensures SizeToIdx(size) >= 8
    ensures IdxToSize(SizeToIdx(size) - 1) < size <= IdxToSize(SizeToIdx(size))
  {
    var e, p, q := SizeDigits(size);
    ClassOf(e, p, q);
    var idx := SizeToIdx(size);
    if q == 3 {
      IdxToSizeGrows(idx - 1);
    }
  }

  /** `size_to_idx` picks the smallest class that fits: exactly the classes from it up do. */
  lemma SmallestClass(size: nat, idx: nat)
    requires size >= 4
    ensures size <= IdxToSize(idx) <==> SizeToIdx(size) <= idx
  {
    ClassBracket(size);
    if idx < SizeToIdx(size) {
      IdxToSizeMonotonic(idx, SizeToIdx(size) - 1);
    } else {
      IdxToSizeMonotonic(SizeToIdx(size), idx);
    }
  }

  /** `size_to_idx` inverts `idx_to_size`. */
  lemma SizeToIdxInverts(idx: nat)
    requires idx >= 8
    ensures IdxToSize(idx) >= 4 && SizeToIdx(IdxToSize(idx)) == idx
  {
    IdxToSizeMonotonic(8, idx);
    assert Pow2(2) == 4 && IdxToSize(8) == 4;
    var size := IdxToSize(idx);
    SmallestClass(size, idx);
    SmallestClass(size, idx - 1);
    IdxToSizeGrows(idx - 1);
  }

  /** The pools serve exactly the sizes up to `max_small_allocation`. */
  lemma PoolsSuffice(size: nat)
    requires size >= 4
    ensures SizeToIdx(size) < NR_SMALL_POOLS <==> size <= MAX_SMALL
  {
    Pow2Words();
    ClassSize(14, 0);
    assert Pow2(14 - 2) == 4096 by {
      Pow2Add(8, 4);
      assert Pow2(4) == 16;
    }
    SmallestClass(size, 56);
  }

  /** The least power of two not below `n` is `2^Log2Ceil(n)`. */
  function Log2Ceil(n: nat): (r: nat)
    requires n > 0
    ensures n <= Pow2(r) && (r > 0 ==> Pow2(r - 1) < n)
  {
    if n == 1 then 0 else Log2(n - 1) + 1
  }

  /** A power of two of at least the smallest object is the object size of its class. */
  lemma PowerClass(k: nat)
    requires k >= 2
    ensures Pow2(k) >= 4 && IdxToSize(SizeToIdx(Pow2(k))) == Pow2(k)
  {
    var idx := 4 * k;
    PowerIndex(k, idx);
    SizeToIdxInverts(idx);
  }

  lemma PowerIndex(k: nat, idx: nat)
    requires k >= 2 && idx == 4 * k
    ensures IdxToSize(idx) == Pow2(k) >= 4
  {
    assert Pow2(k) == 2 * Pow2(k - 1) == 4 * Pow2(k - 2);
    ClassSize(k, 0);
  }

  /** A power of two divides the larger ones. */
  lemma PowerDivides(a: nat, b: nat)
    requires a <= b
    ensures Pow2(b) % Pow2(a) == 0
  {
    Pow2Add(b - a, a);
    MulMod(Pow2(b - a), Pow2(a));
  }
}
