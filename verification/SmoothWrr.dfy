/**
The smooth weighted round-robin schedule as an endless algorithm, without the cache that
`WeightedRoundRobinPicker` puts in front of it: fairness of every prefix, of every cycle and
of every window, and the exact length of the cycle.
*/
module SmoothWrr {
  import opened Arith
  import opened Sums
  import opened Gcd

  predicate Positive(w: seq<nat>) {
    |w| > 0 && forall i :: 0 <= i < |w| ==> w[i] > 0
  }

  /** Every node's current weight grows by its own weight. */
  function Bump(cur: seq<int>, w: seq<nat>): (b: seq<int>)
    requires |cur| == |w|
    ensures |b| == |w|
  {
    seq(|w|, i requires 0 <= i < |w| => cur[i] + w[i])
  }

  /** The first position of the largest element. */
  function ArgMax(s: seq<int>): (m: nat)
    requires s != []
    ensures m < |s|
    ensures forall j :: 0 <= j < |s| ==> s[j] <= s[m]
    ensures forall j :: 0 <= j < m ==> s[j] < s[m]
  {
    if |s| == 1 then 0 else
    var m := ArgMax(s[..|s| - 1]);
    if s[|s| - 1] > s[m] then |s| - 1 else m
  }

  /** One call of `nextWrrNode`: the node with the largest bumped weight pays the total weight. */
  function Step(cur: seq<int>, w: seq<nat>): (next: seq<int>)
    requires |cur| == |w| > 0
    ensures |next| == |w|
  {
    var b := Bump(cur, w);
    var m := ArgMax(b);
    b[m := b[m] - Sum(w)]
  }

  function Zeros(n: nat): (z: seq<int>)
    ensures |z| == n
  {
    seq(n, _ => 0)
  }

  /** The current weights after `k` steps from all-zero. */
  function State(w: seq<nat>, k: nat): (cur: seq<int>)
    requires w != []
    ensures |cur| == |w|
  {
    if k == 0 then Zeros(|w|) else Step(State(w, k - 1), w)
  }

  /** The node that step number `k` (counted from 0) selects. */
  function Pick(w: seq<nat>, k: nat): (i: nat)
    requires w != []
    ensures i < |w|
  {
    ArgMax(Bump(State(w, k), w))
  }

  /** How often the first `k` steps select node `i`. */
  function Count(w: seq<nat>, k: nat, i: nat): nat
    requires w != []
  {
    if k == 0 then 0 else Count(w, k - 1, i) + if Pick(w, k - 1) == i then 1 else 0
  }

  // Conservation: a node's current weight is what it earned minus what its picks cost.

  lemma {:induction false} Conservation(w: seq<nat>, k: nat, i: nat)
    requires i < |w|
    ensures State(w, k)[i] == k * w[i] - Sum(w) * Count(w, k, i)
  {
    hide *;
    if k == 0 {
      StartAt(w, i);
    } else {
      Conservation(w, k - 1, i);
      StepAt(w, k - 1, i);
      AccountStep(k - 1, w[i], Sum(w), Count(w, k - 1, i), Count(w, k, i));
    }
  }

  lemma AccountStep(k: int, x: int, W: int, c: int, c': int)
    requires c' == c || c' == c + 1
    ensures k * x - W * c + x - (if c' == c + 1 then W else 0) == (k + 1) * x - W * c'
  {
    Distribute(x, k, 1);
    Distribute(W, c, 1);
  }

  /** What one step does to one node. */
  lemma StepAt(w: seq<nat>, k: nat, i: nat)
    requires i < |w|
    ensures Count(w, k + 1, i) == Count(w, k, i) + if Pick(w, k) == i then 1 else 0
    ensures State(w, k + 1)[i] == State(w, k)[i] + w[i] - if Pick(w, k) == i then Sum(w) else 0
  {
  }

  lemma StartAt(w: seq<nat>, i: nat)
    requires i < |w|
    ensures State(w, 0)[i] == 0 && Count(w, 0, i) == 0
  {
  }

  /** The invariant of every step: the current weights cancel out and none falls to minus the total. */
  ghost predicate Balanced(w: seq<nat>, cur: seq<int>) {
    && |cur| == |w|
    && Sum(cur) == 0
    && forall i :: 0 <= i < |cur| ==> -Sum(w) < cur[i]
  }

  lemma StepKeepsBalance(w: seq<nat>, cur: seq<int>)
    requires Positive(w) && Balanced(w, cur)
    ensures Balanced(w, Step(cur, w))
  {
    hide Sum, ArgMax;
    var b := Bump(cur, w);
    var m := ArgMax(b);
    SumPointwise(cur, w, b);
    SumUpdate(b, m, b[m] - Sum(w));
    SumAtLeast(w, 1);
    if b[m] <= 0 { SumAtMostZero(b); }
  }

  lemma {:induction false} SumAtMostZero(s: seq<int>)
    requires forall i :: 0 <= i < |s| ==> s[i] <= 0
    ensures Sum(s) <= 0
  {
    if s != [] { SumAtMostZero(s[..|s| - 1]); }
  }

  lemma {:induction false} StateBalanced(w: seq<nat>, k: nat)
    requires Positive(w)
    ensures Balanced(w, State(w, k))
  {
    if k == 0 {
      SumZeros(Zeros(|w|));
      SumAtLeast(w, 1);
    } else {
      StateBalanced(w, k - 1);
      StepKeepsBalance(w, State(w, k - 1));
    }
  }

  // Prefix fairness.

  /** After any number of picks no node is a whole pick ahead of its share. */
  lemma NeverAPickAhead(w: seq<nat>, k: nat, i: nat)
    requires Positive(w) && i < |w|
    ensures Sum(w) * Count(w, k, i) < k * w[i] + Sum(w)
  {
    StateBalanced(w, k);
    Conservation(w, k, i);
  }

  /** With at least two nodes, none is ever `n - 1` picks behind its share. */
  lemma NeverFarBehind(w: seq<nat>, k: nat, i: nat)
    requires Positive(w) && |w| >= 2 && i < |w|
    ensures k * w[i] - Sum(w) * Count(w, k, i) < (|w| - 1) * Sum(w)
  {
    StateBalanced(w, k);
    Conservation(w, k, i);
    BalancedAbove(w, State(w, k), i);
  }

  lemma BalancedAbove(w: seq<nat>, cur: seq<int>, i: nat)
    requires Balanced(w, cur) && |w| >= 2 && i < |w|
    ensures cur[i] < (|w| - 1) * Sum(w)
  {
    var W, n := Sum(w), |w|;
    SumUpdate(cur, i, 1 - W);
    SumAtLeast(cur[i := 1 - W], 1 - W);
    Distribute(n, 1, W);
    Distribute(W, n, 1);
  }

  // Cycles.

  /** The number of picks of one full cycle, `vcapacity` in the picker. */
  function Cycle(w: seq<nat>): (n: nat)
    requires Positive(w)
    ensures n > 0
  {
    GcdDividesAll(w);
    Sum(w) / GcdOf(w)
  }

  /** Node `i`'s share of a cycle. */
  function Share(w: seq<nat>, i: nat): (q: nat)
    requires Positive(w) && i < |w|
  {
    GcdOfDivides(w, i);
    assert GcdOf(w) > 0 && w[i] / GcdOf(w) >= 0 by { ShareNonNegative(w[i], GcdOf(w)); }
    w[i] / GcdOf(w)
  }

  lemma ShareNonNegative(x: nat, g: nat)
    requires Divides(g, x)
    ensures x / g >= 0
  {
    var q := Cofactor(g, x);
    MultipleAbove(g, q);
  }

  /** The cycle times the divisor is the total weight, and a share times the divisor is the weight. */
  lemma CycleFactors(w: seq<nat>, i: nat)
    requires Positive(w) && i < |w|
    ensures GcdOf(w) > 0 && Cycle(w) * GcdOf(w) == Sum(w) && w[i] == GcdOf(w) * Share(w, i)
  {
    GcdDividesAll(w);
    GcdOfDivides(w, i);
    var q := Cofactor(GcdOf(w), w[i]);
  }

  lemma GcdDividesAll(w: seq<nat>)
    requires Positive(w)
    ensures GcdOf(w) > 0 && Divides(GcdOf(w), Sum(w))
    ensures Sum(w) / GcdOf(w) > 0 && Sum(w) / GcdOf(w) * GcdOf(w) == Sum(w)
  {
    forall i | 0 <= i < |w| ensures Divides(GcdOf(w), w[i]) { GcdOfDivides(w, i); }
    assert Divides(GcdOf(w), w[0]);
    DividesAllDividesSum(GcdOf(w), w);
    SumAtLeast(w, 1);
    var q := Cofactor(GcdOf(w), Sum(w));
    if q <= 0 { MulMonotone(GcdOf(w), q, 0); }
  }

  lemma {:induction false} DividesAllDividesSum(d: nat, w: seq<nat>)
    requires d > 0 && forall i :: 0 <= i < |w| ==> Divides(d, w[i])
    ensures Divides(d, Sum(w))
  {
    if w == [] {
      DividesFromFactor(d, 0);
    } else {
      DividesAllDividesSum(d, w[..|w| - 1]);
      DividesSum(d, Sum(w[..|w| - 1]), w[|w| - 1]);
    }
  }

  /** A cycle serves node `i` exactly `w[i] / gcd` times and returns every current weight to zero. */
  lemma FullCycle(w: seq<nat>)
    requires Positive(w)
    ensures State(w, Cycle(w)) == Zeros(|w|)
    ensures forall i :: 0 <= i < |w| ==> Count(w, Cycle(w), i) == Share(w, i)
  {
    var cur := State(w, Cycle(w));
    StateBalanced(w, Cycle(w));
    forall i | 0 <= i < |w| ensures 0 <= cur[i] { CycleAt(w, i); }
    ZeroSumOfNonNegatives(cur);
    forall i | 0 <= i < |w| ensures Count(w, Cycle(w), i) == Share(w, i) { CycleAt(w, i); }
  }

  /** At the end of a cycle a current weight is a multiple of the total, and too high to be negative. */
  lemma CycleAt(w: seq<nat>, i: nat)
    requires Positive(w) && i < |w|
    ensures 0 <= State(w, Cycle(w))[i]
    ensures State(w, Cycle(w))[i] == 0 ==> Count(w, Cycle(w), i) == Share(w, i)
  {
    var W, q, c := Sum(w), Share(w, i), Count(w, Cycle(w), i);
    StateBalanced(w, Cycle(w));
    Conservation(w, Cycle(w), i);
    CycleTimesWeight(w, i);
    SumAtLeast(w, 1);
    Distribute(W, q, c);
    MultipleAbove(W, q - c);
    if W * q == W * c { Cancel(W, q, c); }
  }

  lemma CycleTimesWeight(w: seq<nat>, i: nat)
    requires Positive(w) && i < |w|
    ensures Cycle(w) * w[i] == Sum(w) * Share(w, i)
  {
    CycleFactors(w, i);
    Associate(Cycle(w), GcdOf(w), Share(w, i));
  }

  /** The schedule repeats after one cycle. */
  lemma {:induction false} StateRepeats(w: seq<nat>, k: nat)
    requires Positive(w)
    ensures State(w, k + Cycle(w)) == State(w, k)
    ensures Pick(w, k + Cycle(w)) == Pick(w, k)
  {
    if k == 0 {
      FullCycle(w);
    } else {
      StateRepeats(w, k - 1);
      assert State(w, k + Cycle(w)) == Step(State(w, k - 1 + Cycle(w)), w);
    }
  }

  lemma {:induction false} MultipleOfCycle(w: seq<nat>, m: nat, r: nat)
    requires Positive(w)
    ensures 0 <= m * Cycle(w)
    ensures State(w, m * Cycle(w) + r) == State(w, r)
    ensures Pick(w, m * Cycle(w) + r) == Pick(w, r)
  {
    hide *;
    if m > 0 {
      MultipleOfCycle(w, m - 1, r);
      var t := (m - 1) * Cycle(w) + r;
      StateRepeats(w, t);
      assert t + Cycle(w) == m * Cycle(w) + r by { Distribute(Cycle(w), m, 1); }
    }
  }

  /** The table index of a ticket is its remainder by the cycle. */
  lemma PickRepeats(w: seq<nat>, k: nat)
    requires Positive(w)
    ensures Pick(w, k) == Pick(w, k % Cycle(w))
  {
    DivModDef(k, Cycle(w));
    var m, r := k / Cycle(w), k % Cycle(w);
    if m < 0 { MulAtLeast(Cycle(w), m); }
    MultipleOfCycle(w, m, r);
  }

  /** Any window of one cycle length, wherever it starts, is exactly fair. */
  lemma WindowFair(w: seq<nat>, start: nat, i: nat)
    requires Positive(w) && i < |w|
    ensures Count(w, start + Cycle(w), i) - Count(w, start, i) == Share(w, i)
  {
    StateRepeats(w, start);
    Conservation(w, start, i);
    Conservation(w, start + Cycle(w), i);
    CycleTimesWeight(w, i);
    SumAtLeast(w, 1);
    WindowAccount(start, Cycle(w), w[i], Sum(w), Count(w, start, i), Count(w, start + Cycle(w), i), Share(w, i));
  }

  lemma WindowAccount(start: int, P: int, x: int, W: int, c: int, c': int, q: int)
    requires W > 0 && P * x == W * q
    requires start * x - W * c == (start + P) * x - W * c'
    ensures c' - c == q
  {
    Distribute(x, start, P);
    Distribute(W, c', c);
    Cancel(W, c' - c, q);
  }

  /**
  The cycle is exact: the current weights are all zero again after `k` steps if and only if `k`
  is a multiple of the cycle, so no shorter table of virtual nodes would do.
  */
  lemma CycleIsMinimal(w: seq<nat>, k: nat)
    requires Positive(w)
    ensures State(w, k) == Zeros(|w|) <==> Divides(Cycle(w), k)
  {
    if State(w, k) == Zeros(|w|) { ZeroStateAtMultiple(w, k); }
    if Divides(Cycle(w), k) {
      var q := Cofactor(Cycle(w), k);
      if q < 0 { MulAtLeast(Cycle(w), q); }
      MultipleOfCycle(w, q, 0);
    }
  }

  lemma ZeroStateAtMultiple(w: seq<nat>, k: nat)
    requires Positive(w) && State(w, k) == Zeros(|w|)
    ensures Divides(Cycle(w), k)
  {
    CycleFactors(w, 0);
    ZeroStateDivides(w, k);
    DivideBoth(Cycle(w), GcdOf(w), k);
  }

  lemma ZeroStateDivides(w: seq<nat>, k: nat)
    requires Positive(w) && State(w, k) == Zeros(|w|)
    ensures Sum(w) >= 0 && Divides(Sum(w), k * GcdOf(w))
  {
    SumAtLeast(w, 1);
    forall i | 0 <= i < |w| ensures Divides(Sum(w), k * w[i]) {
      Conservation(w, k, i);
      DividesFromFactor(Sum(w), Count(w, k, i));
    }
    GcdOfGreatest(Sum(w), k, w);
  }

  lemma DivideBoth(P: nat, g: nat, k: nat)
    requires P > 0 && g > 0 && P * g >= 0 && Divides(P * g, k * g)
    ensures Divides(P, k)
  {
    var q := Cofactor(P * g, k * g);
    Associate(g, P, q);
    Cancel(g, k, P * q);
    DividesFromFactor(P, q);
  }

  // Equal weights.

  /** The current weights of equal weights in the first cycle: the nodes already picked have paid, the others have not. */
  ghost predicate PaidUpTo(w: seq<nat>, c: nat, k: nat, cur: seq<int>) {
    |cur| == |w| && forall i :: 0 <= i < |w| ==> cur[i] == if i < k then k * c - Sum(w) else k * c
  }

  lemma FirstUnpaid(w: seq<nat>, c: nat, k: nat, cur: seq<int>)
    requires (forall i :: 0 <= i < |w| ==> w[i] == c) && Sum(w) > 0 && k < |w| && PaidUpTo(w, c, k, cur)
    ensures ArgMax(Bump(cur, w)) == k
  {
    hide Sum;
    var b := Bump(cur, w);
    assert forall i :: 0 <= i < |w| ==> b[i] <= b[k];
    assert forall i :: 0 <= i < k ==> b[i] < b[k];
  }

  lemma PaysInTurn(w: seq<nat>, c: nat, k: nat, cur: seq<int>)
    requires (forall i :: 0 <= i < |w| ==> w[i] == c) && k < |w| && PaidUpTo(w, c, k, cur)
    requires ArgMax(Bump(cur, w)) == k
    ensures PaidUpTo(w, c, k + 1, Step(cur, w))
  {
    hide Sum, ArgMax;
    Distribute(c, k, 1);
  }

  lemma {:induction false} EqualWeightsState(w: seq<nat>, c: nat, k: nat)
    requires Positive(w) && (forall i :: 0 <= i < |w| ==> w[i] == c)
    requires k < |w|
    ensures PaidUpTo(w, c, k, State(w, k)) && Pick(w, k) == k
  {
    hide Sum, ArgMax, Bump, Step;
    SumAtLeast(w, 1);
    if k > 0 {
      EqualWeightsState(w, c, k - 1);
      PaysInTurn(w, c, k - 1, State(w, k - 1));
    }
    FirstUnpaid(w, c, k, State(w, k));
  }

  lemma EqualWeightsCycle(w: seq<nat>)
    requires Positive(w) && (forall i, j :: 0 <= i < j < |w| ==> w[i] == w[j])
    ensures Cycle(w) == |w|
  {
    var c := w[0];
    SumConstant(w, c);
    DividesFromFactor(c, 1);
    forall i | 0 <= i < |w| ensures Divides(c, 1 * w[i]) { assert w[0] == w[i]; }
    GcdOfGreatest(c, 1, w);
    GcdOfDivides(w, 0);
    DividesEachOther(GcdOf(w), c);
    CycleFactors(w, 0);
    Cancel(c, Cycle(w), |w|);
  }

  /** For equal weights the smooth schedule is the plain cyclic order. */
  lemma EqualWeightsCyclic(w: seq<nat>, k: nat)
    requires Positive(w) && (forall i, j :: 0 <= i < j < |w| ==> w[i] == w[j])
    ensures Pick(w, k) == k % |w|
  {
    EqualWeightsCycle(w);
    PickRepeats(w, k);
    assert forall i :: 0 <= i < |w| ==> w[i] == w[0];
    EqualWeightsState(w, w[0], k % |w|);
  }
}
