/** Facts about division that the other modules use. */
module Arith {

  /** Quotient and remainder are unique. */
  lemma DivModUnique(x: int, d: int, q: int, r: int)
    requires 0 < d && 0 <= r < d && x == q * d + r
    ensures x / d == q && x % d == r
  {
    var q', r' := x / d, x % d;
    assert x == q' * d + r';
    assert (q - q') * d == r' - r;
    assert q - q' >= 1 ==> (q - q') * d >= d;
    assert q - q' <= -1 ==> (q - q') * d <= -d;
  }

  lemma DivMod(x: int, d: int)
    requires 0 < d
    ensures x == x / d * d + x % d && 0 <= x % d < d
  {
  }

  /** Numbers in distinct blocks of size d are distinct. */
  lemma BlocksApart(d: int, a: int, i: int, b: int, j: int)
    requires 0 <= i < d && 0 <= j < d && a * d + i == b * d + j
    ensures a == b && i == j
  {
    DivModUnique(a * d + i, d, a, i);
    DivModUnique(b * d + j, d, b, j);
  }

  lemma MulSucc(n: int, d: int)
    ensures (n + 1) * d == n * d + d
  {
  }

  lemma MulMono(a: int, b: int, d: int)
    requires a <= b && 0 <= d
    ensures a * d <= b * d
  {
  }

  lemma DivLess(s: nat, n: nat, d: nat)
    requires 0 < d
    ensures s < n * d <==> s / d < n
  {
    DivMod(s, d);
    if s / d < n {
      MulMono(s / d + 1, n, d);
    } else {
      MulMono(n, s / d, d);
    }
  }

  /** Splitting an offset into blocks of m units of d, directly or unit by unit. */
  lemma DivTwice(t: nat, d: nat, m: nat)
    requires 0 < d && 0 < m
    ensures 0 < d * m
    ensures t / (d * m) == t / d / m && t % (d * m) / d == t / d % m
  {
    var q, r := t / d, t % d;
    var a, b := q / m, q % m;
    DivMod(t, d);
    DivMod(q, m);
    assert t == a * (d * m) + (b * d + r) by {
      assert q * d == a * m * d + b * d;
      assert a * m * d == a * (d * m);
    }
    MulMono(b + 1, m, d);
    DivModUnique(t, d * m, a, b * d + r);
    DivModUnique(b * d + r, d, b, r);
  }

  /** The successor of a number, block by block. */
  lemma DivSucc(s: nat, d: nat)
    requires 0 < d
    ensures if s % d + 1 < d then (s + 1) / d == s / d && (s + 1) % d == s % d + 1
            else (s + 1) / d == s / d + 1 && (s + 1) % d == 0
  {
    var q, r := s / d, s % d;
    DivMod(s, d);
    if r + 1 < d {
      DivModUnique(s + 1, d, q, r + 1);
    } else {
      assert (q + 1) * d == q * d + d;
      DivModUnique(s + 1, d, q + 1, 0);
    }
  }
}
