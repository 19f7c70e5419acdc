/** Machine-word arithmetic the allocator and the timer set rest on: powers of two,
    bit counts, `align_up`, and bitwise exclusive or on non-negative integers. */
module Bits {

  function Pow2(n: nat): (r: nat)
    ensures r >= 1
  {
    if n == 0 then 1 else 2 * Pow2(n - 1)
  }

  lemma {:induction false} Pow2Monotonic(a: nat, b: nat)
    requires a <= b
    ensures Pow2(a) <= Pow2(b)
    ensures a < b ==> 2 * Pow2(a) <= Pow2(b)
    decreases b - a
  {
    if a < b {
      Pow2Monotonic(a + 1, b);
    }
  }

  lemma {:induction false} Pow2Add(a: nat, b: nat)
    ensures Pow2(a + b) == Pow2(a) * Pow2(b)
  {
    if a > 0 {
      Pow2Add(a - 1, b);
      assert Pow2(a + b) == 2 * Pow2(a - 1 + b);
    }
  }

  lemma Pow2Words()
    ensures Pow2(8) == 0x100 && Pow2(16) == 0x1_0000
    ensures Pow2(32) == 0x1_0000_0000 && Pow2(64) == 0x1_0000_0000_0000_0000
  {
    assert Pow2(4) == 16;
    Pow2Add(4, 4);
    Pow2Add(8, 8);
    Pow2Add(16, 16);
    Pow2Add(32, 32);
  }

  /** The position of the highest set bit. */
  function Log2(x: nat): (r: nat)
    requires x > 0
    ensures Pow2(r) <= x < 2 * Pow2(r)
  {
    if x == 1 then 0 else 1 + Log2(x / 2)
  }

  /** `__builtin_clz` family: the number of zero bits above the highest set bit of `x`
      in a word of `digits` bits (the builtins are undefined at zero). */
  function CountLeadingZeros(x: nat, digits: nat): (r: nat)
    requires 0 < x < Pow2(digits)
    ensures r < digits
    ensures Pow2(digits - 1 - r) <= x < Pow2(digits - r)
  {
    Log2Below(x, digits);
    digits - 1 - Log2(x)
  }

  lemma Log2Below(x: nat, digits: nat)
    requires 0 < x < Pow2(digits)
    ensures Log2(x) < digits
  {
    if digits <= Log2(x) {
      Pow2Monotonic(digits, Log2(x));
    }
  }

  /** At most one power-of-two interval contains `x`. */
  lemma Log2Unique(x: nat, k: nat)
    requires Pow2(k) <= x < 2 * Pow2(k)
    ensures x > 0 && Log2(x) == k
  {
    var r := Log2(x);
    if r < k {
      Pow2Monotonic(r, k);
    } else if k < r {
      Pow2Monotonic(k, r);
    }
  }

  lemma Log2Monotonic(x: nat, y: nat)
    requires 0 < x <= y
    ensures Log2(x) <= Log2(y)
  {
    if Log2(y) < Log2(x) {
      Pow2Monotonic(Log2(y), Log2(x));
    }
  }

  /** Bitwise exclusive or. */
  function Xor(a: nat, b: nat): (r: nat)
    ensures r == 0 <==> a == b
    decreases a + b
  {
    if a == 0 && b == 0 then 0
    else 2 * Xor(a / 2, b / 2) + (a % 2 + b % 2) % 2
  }

  lemma {:induction false} XorBound(a: nat, b: nat, n: nat)
    requires a < Pow2(n) && b < Pow2(n)
    ensures Xor(a, b) < Pow2(n)
    decreases a + b
  {
    if n > 0 && a + b > 0 {
      XorBound(a / 2, b / 2, n - 1);
    }
  }

  /** `(v + align - 1) & ~(align - 1)` for a power-of-two `align`: the least multiple of
      `align` that is not below `v`. */
  function AlignUp(v: nat, align: nat): (r: nat)
    requires align > 0
    ensures v <= r < v + align
    ensures r % align == 0
  {
    AlignUpQuotient(v + align - 1, align);
    (v + align - 1) / align * align
  }

  lemma AlignUpQuotient(w: nat, align: nat)
    requires align > 0
    ensures w / align * align <= w < w / align * align + align
    ensures w / align * align % align == 0
  {
    MulMod(w / align, align);
  }

  lemma {:induction false} MulMod(k: nat, m: nat)
    requires m > 0
    ensures (k * m) % m == 0
    ensures (k * m) / m == k
  {
    DivModUnique(k * m, m, k, 0);
  }

  /** A difference of multiples of `m` that is not zero is at least `m`. */
  lemma MultiplesApart(a: int, b: int, m: nat)
    requires a < b
    ensures a * m + m <= b * m
  {
    assert (b - a) * m == b * m - a * m;
    assert (b - a - 1) * m >= 0;
    assert (b - a - 1) * m == (b - a) * m - m;
  }

  /** Euclidean division is determined by its quotient and remainder. */
  lemma DivModUnique(x: int, m: nat, q: int, r: nat)
    requires m > 0 && r < m && x == q * m + r
    ensures x / m == q && x % m == r
  {
    var q2 := x / m;
    if q2 < q {
      MultiplesApart(q2, q, m);
    } else if q < q2 {
      MultiplesApart(q, q2, m);
    }
  }
}
