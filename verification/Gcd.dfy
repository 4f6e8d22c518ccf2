/** The greatest common divisor that the weighted pickers use to shorten their cycle. */
module Gcd {
  import opened Arith

  predicate Divides(d: nat, n: int) { d > 0 && n % d == 0 }

  lemma DividesFromFactor(d: nat, q: int)
    requires d > 0
    ensures Divides(d, d * q) && d * q / d == q
  {
    DivModUnique(d * q, d, q, 0);
  }

  /** The cofactor of a divisor. */
  lemma Cofactor(d: nat, n: int) returns (q: int)
    requires Divides(d, n)
    ensures n == d * q && q == n / d
  {
    DivModDef(n, d);
    q := n / d;
  }

  lemma DividesSum(d: nat, a: int, b: int)
    requires Divides(d, a) && Divides(d, b)
    ensures Divides(d, a + b) && Divides(d, a - b)
  {
    var p := Cofactor(d, a);
    var q := Cofactor(d, b);
    Distribute(d, p, q);
    DividesFromFactor(d, p + q);
    DividesFromFactor(d, p - q);
  }

  lemma DividesMultiple(d: nat, a: int, m: int)
    requires Divides(d, a)
    ensures Divides(d, m * a) && Divides(d, a * m)
  {
    var q := Cofactor(d, a);
    Associate(d, q, m);
    DividesFromFactor(d, q * m);
  }

  lemma DividesTransitive(d: nat, e: nat, n: int)
    requires Divides(d, e) && Divides(e, n)
    ensures Divides(d, n)
  {
    var q := Cofactor(e, n);
    DividesMultiple(d, e, q);
  }

  lemma DividesEachOther(d: nat, e: nat)
    requires Divides(d, e) && Divides(e, d)
    ensures d == e
  {
    var p := Cofactor(d, e);
    var q := Cofactor(e, d);
    MulAtLeast(d, p);
    MulAtLeast(e, q);
  }

  function Euclid(a: nat, b: nat): nat
    decreases b
  {
    if b == 0 then a else Euclid(b, a % b)
  }

  /** `gcdInt` is a common divisor of its arguments, positive unless both are zero. */
  lemma {:induction false} EuclidDivides(a: nat, b: nat)
    requires a > 0 || b > 0
    ensures Divides(Euclid(a, b), a) && Divides(Euclid(a, b), b)
    decreases b
  {
    if b == 0 {
      DividesFromFactor(a, 1);
      DividesFromFactor(a, 0);
    } else {
      EuclidDivides(b, a % b);
      var g := Euclid(b, a % b);
      DivModDef(a, b);
      DividesMultiple(g, b, a / b);
      DividesSum(g, b * (a / b), a % b);
    }
  }

  /** Whatever divides `k*a` and `k*b` divides `k*gcd(a, b)`: with `k == 1`, `gcdInt` is the greatest. */
  lemma {:induction false} EuclidGreatest(d: nat, k: nat, a: nat, b: nat)
    requires Divides(d, k * a) && Divides(d, k * b)
    ensures Divides(d, k * Euclid(a, b))
    decreases b
  {
    if b != 0 {
      RemainderMultiple(d, k, a, b);
      EuclidGreatest(d, k, b, a % b);
    }
  }

  lemma RemainderMultiple(d: nat, k: nat, a: nat, b: nat)
    requires b > 0 && Divides(d, k * a) && Divides(d, k * b)
    ensures Divides(d, k * (a % b))
  {
    var q, r := a / b, a % b;
    DivModDef(a, b);
    DividesMultiple(d, k * b, q);
    Associate(k, b, q);
    DividesSum(d, k * a, k * b * q);
    Distribute(k, b * q, r);
  }

  method GcdInt(a: nat, b: nat) returns (g: nat)
    ensures g == Euclid(a, b)
  {
    var x, y := a, b;
    while y != 0
      invariant Euclid(x, y) == Euclid(a, b)
      decreases y
    {
      x, y := y, x % y;
    }
    g := x;
  }

  /** The fold the constructors run over the weights, starting from zero. */
  function GcdOf(w: seq<nat>): nat {
    if w == [] then 0 else Euclid(GcdOf(w[..|w| - 1]), w[|w| - 1])
  }

  lemma {:induction false} GcdOfDivides(w: seq<nat>, i: nat)
    requires i < |w| && forall j :: 0 <= j < |w| ==> w[j] > 0
    ensures Divides(GcdOf(w), w[i])
  {
    var init := w[..|w| - 1];
    EuclidDivides(GcdOf(init), w[|w| - 1]);
    if i < |w| - 1 {
      GcdOfDivides(init, i);
      DividesTransitive(GcdOf(w), GcdOf(init), w[i]);
    }
  }

  lemma {:induction false} GcdOfGreatest(d: nat, k: nat, w: seq<nat>)
    requires d > 0 && forall i :: 0 <= i < |w| ==> Divides(d, k * w[i])
    ensures Divides(d, k * GcdOf(w))
  {
    if w == [] {
      DividesFromFactor(d, 0);
    } else {
      var init := w[..|w| - 1];
      forall i | 0 <= i < |init| ensures Divides(d, k * init[i]) { assert Divides(d, k * w[i]); }
      GcdOfGreatest(d, k, init);
      EuclidGreatest(d, k, GcdOf(init), w[|w| - 1]);
    }
  }
}
