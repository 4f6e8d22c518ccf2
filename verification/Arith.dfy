/** Small facts of non-linear arithmetic, each proved away from any other context. */
module Arith {

  lemma MulAtLeast(d: int, x: int)
    requires d > 0
    ensures x >= 1 ==> d * x >= d
    ensures x <= -1 ==> d * x <= -d
  {}

  /** A multiple of `d` strictly between `-d` and `d` is zero. */
  lemma SmallMultiple(d: int, x: int)
    requires -d < d * x < d
    ensures x == 0
  {
    MulAtLeast(d, x);
  }

  /** A multiple of `d` above `-d` is not negative. */
  lemma MultipleAbove(d: int, x: int)
    requires d > 0 && -d < d * x
    ensures 0 <= x && 0 <= d * x
  {
    MulAtLeast(d, x);
  }

  lemma Distribute(a: int, b: int, c: int)
    ensures a * (b + c) == a * b + a * c
    ensures (b + c) * a == b * a + c * a
    ensures a * (b - c) == a * b - a * c
    ensures (b - c) * a == b * a - c * a
  {}

  lemma Associate(a: int, b: int, c: int)
    ensures a * (b * c) == (a * b) * c
  {}

  lemma Cancel(d: int, x: int, y: int)
    requires d != 0 && d * x == d * y
    ensures x == y
  {}

  lemma MulMonotone(d: int, x: int, y: int)
    requires 0 <= d && x <= y
    ensures d * x <= d * y && x * d <= y * d
  {}

  /** Quotient and remainder are determined by their defining equation. */
  lemma DivModUnique(n: int, d: int, q: int, r: int)
    requires d > 0 && n == d * q + r && 0 <= r < d
    ensures n / d == q && n % d == r
  {
    var q', r' := n / d, n % d;
    DivModDef(n, d);
    Distribute(d, q, q');
    SmallMultiple(d, q - q');
  }

  lemma DivModDef(n: int, d: int)
    requires d > 0
    ensures n == d * (n / d) + n % d && 0 <= n % d < d
  {}

  /** Counting modulo `d` one step at a time. */
  lemma NextModulo(n: nat, d: nat)
    requires d > 0
    ensures (n % d + 1) % d == (n + 1) % d
  {
    DivModDef(n, d);
    NextRemainder(n, d, n / d, n % d);
  }

  lemma NextRemainder(n: int, d: int, q: int, r: int)
    requires 0 <= r < d && n == d * q + r
    ensures (r + 1) % d == (n + 1) % d
  {
    if r + 1 < d {
      DivModUnique(r + 1, d, 0, r + 1);
      DivModUnique(n + 1, d, q, r + 1);
    } else {
      Distribute(d, q, 1);
      DivModUnique(r + 1, d, 1, 0);
      DivModUnique(n + 1, d, q + 1, 0);
    }
  }
}
