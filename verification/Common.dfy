/** What several modules need: optional values, bytes, and facts about products and quotients that the
    verifier does not find by itself. */
module Common {
  datatype Option<T> = None | Some(value: T)

  type byte = x: int | 0 <= x < 256

  /** The number of values of a 32-bit word. */
  const WORD := 0x1_0000_0000

  function Max(a: int, b: int): int {
    if a < b then b else a
  }

  function Min(a: int, b: int): int {
    if a < b then a else b
  }

  /** What is left of `n` after taking away `m` as often as possible. */
  function Wrapped(n: nat, m: nat): (r: nat)
    requires m > 0
    ensures r < m && (n < m ==> r == n)
  {
    if n < m then n else Wrapped(n - m, m)
  }

  lemma ScaleLess(d: nat, a: int, b: int)
    ensures a < b ==> d * a + d <= d * b
  {
    if a < b {
      var c: nat := b - a - 1;
      assert d * (a + 1 + c) == d * a + d + d * c;
    }
  }

  lemma TimesMono(a: nat, b: int, c: int)
    requires b <= c
    ensures a * b <= a * c && b * a <= c * a
  {
    var d: nat := c - b;
    assert a * (b + d) == a * b + a * d;
  }

  lemma DivBounds(n: nat, d: nat)
    requires d > 0
    ensures n == d * (n / d) + n % d && 0 <= n % d < d
  {
  }

  /** Quotient and remainder are the only ones of their kind. */
  lemma DivIs(n: nat, d: nat, q: nat, r: nat)
    requires n == d * q + r && r < d
    ensures n / d == q && n % d == r
  {
    DivBounds(n, d);
    ScaleLess(d, n / d, q);
    ScaleLess(d, q, n / d);
  }
}
