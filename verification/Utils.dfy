/** What several modules need. */
module Utils {

  function Max(a: int, b: int): int {
    if a < b then b else a
  }

  function Min(a: int, b: int): int {
    if a < b then a else b
  }

  /** What 32 bits keep of a count. */
  function Low32(n: nat): (r: nat)
    ensures r <= n && (r == n <==> n < 0x1_0000_0000)
  {
    n % 0x1_0000_0000
  }

  /** Adding in 32 bits. */
  lemma Low32Sum(a: nat, b: nat)
    ensures Low32(Low32(a) + Low32(b)) == Low32(Low32(a) + b) == Low32(a + b)
  {
    assert Low32(a) + b == a + b - a / 0x1_0000_0000 * 0x1_0000_0000;
    assert Low32(a) + Low32(b) == Low32(a) + b - b / 0x1_0000_0000 * 0x1_0000_0000;
  }

  /** Taking off no more than what 32 bits keep. */
  lemma Low32Less(n: nat, k: nat)
    requires k <= Low32(n)
    ensures Low32(n - k) == Low32(n) - k
  {
    assert n - k == n / 0x1_0000_0000 * 0x1_0000_0000 + (Low32(n) - k);
  }
}
