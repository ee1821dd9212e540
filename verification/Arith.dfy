/** Division with remainder, where the solver needs a hand. */
module Arith {

  /** How many unsigned 64-bit numbers there are. */
  const WORD := 0x1_0000_0000_0000_0000

  /** A multiple of `m` strictly between -m and m is zero. */
  lemma SmallMultiple(m: int, x: int)
    requires m > 0 && -m < m * x < m
    ensures x == 0
  {
  }

  /** Quotient and remainder are determined by the division equation. */
  lemma DivModUnique(n: int, m: int, q: int, r: int)
    requires m > 0 && n == m * q + r && 0 <= r < m
    ensures n / m == q && n % m == r
  {
    var q', r' := n / m, n % m;
    assert n == m * q' + r' && 0 <= r' < m;
    assert m * (q - q') == m * q - m * q' == r' - r;
    SmallMultiple(m, q - q');
  }

  /** Reduction modulo a multiple of `m` does not change the remainder modulo `m`. */
  lemma ModOfMod(n: nat, m: nat, f: nat)
    requires m > 0 && f > 0 && m * f > 0
    ensures n % (m * f) % m == n % m
  {
    var q, e := n / (m * f), n % (m * f);
    var u, r := e / m, e % m;
    assert n == m * f * q + e;
    assert m * f * q == m * (f * q);
    assert n == m * (f * q + u) + r;
    DivModUnique(n, m, f * q + u, r);
  }
}
