/**
The alias-method table over exact reals: building it conserves every instance's probability
mass, so a uniform index and a uniform real select each instance with its exact weight share.
*/
module AliasMethod {
  import opened Sums

  // Sums of reals.

  function Total(s: seq<real>): real {
    if s == [] then 0.0 else Total(s[..|s| - 1]) + s[|s| - 1]
  }

  lemma {:induction false} TotalUpdate(s: seq<real>, i: nat, x: real)
    requires i < |s|
    ensures Total(s[i := x]) == Total(s) - s[i] + x
  {
    var t := s[i := x];
    if i == |s| - 1 {
      assert t[..|s| - 1] == s[..|s| - 1];
    } else {
      TotalUpdate(s[..|s| - 1], i, x);
      assert t[..|s| - 1] == s[..|s| - 1][i := x];
    }
  }

  lemma {:induction false} TotalNonNegative(s: seq<real>)
    requires forall i :: 0 <= i < |s| ==> s[i] >= 0.0
    ensures Total(s) >= 0.0
  {
    if s != [] { TotalNonNegative(s[..|s| - 1]); }
  }

  lemma {:induction false} TotalZeros(s: seq<real>)
    requires forall i :: 0 <= i < |s| ==> s[i] == 0.0
    ensures Total(s) == 0.0
  {
    if s != [] { TotalZeros(s[..|s| - 1]); }
  }

  /** Terms that are not negative and sum to zero are zero. */
  lemma TermOfZeroTotal(s: seq<real>, i: nat)
    requires i < |s| && Total(s) == 0.0
    requires forall j :: 0 <= j < |s| ==> s[j] >= 0.0
    ensures s[i] == 0.0
  {
    TotalUpdate(s, i, 0.0);
    TotalNonNegative(s[i := 0.0]);
  }

  lemma {:induction false} TotalSum(a: seq<real>, b: seq<real>, c: seq<real>)
    requires |a| == |b| == |c| && forall i :: 0 <= i < |a| ==> c[i] == a[i] + b[i]
    ensures Total(c) == Total(a) + Total(b)
  {
    if a != [] { TotalSum(a[..|a| - 1], b[..|a| - 1], c[..|a| - 1]); }
  }

  lemma {:induction false} TotalNegated(s: seq<real>, t: seq<real>)
    requires |s| == |t| && forall i :: 0 <= i < |s| ==> t[i] == -s[i]
    ensures Total(t) == -Total(s)
  {
    if s != [] { TotalNegated(s[..|s| - 1], t[..|s| - 1]); }
  }

  // The table under construction.

  /** The stacks of indices below and not below their fair share, and the table so far. */
  datatype Work = Work(scaled: seq<real>, alias: seq<nat>, prob: seq<real>, small: seq<nat>, large: seq<nat>)

  ghost predicate Pending(s: Work, i: nat) { i in s.small || i in s.large }

  /** What index `j` hands on to instance `i`. */
  ghost function Handed(s: Work, j: nat, i: nat): real
    requires j < |s.scaled| == |s.alias|
  {
    if !Pending(s, j) && s.alias[j] == i then 1.0 - s.scaled[j] else 0.0
  }

  ghost function Inflow(s: Work, i: nat): (f: seq<real>)
    requires |s.scaled| == |s.alias|
    ensures |f| == |s.scaled| && forall j :: 0 <= j < |f| ==> f[j] == Handed(s, j, i)
  {
    seq(|s.scaled|, j requires 0 <= j < |s.scaled| => Handed(s, j, i))
  }

  /** What the undecided indices are above or below one. */
  ghost function Excess(s: Work): (e: seq<real>)
    ensures |e| == |s.scaled|
    ensures forall j :: 0 <= j < |e| ==> e[j] == if Pending(s, j) then s.scaled[j] - 1.0 else 0.0
  {
    seq(|s.scaled|, j requires 0 <= j < |s.scaled| => if Pending(s, j) then s.scaled[j] - 1.0 else 0.0)
  }

  ghost predicate Distinct(stack: seq<nat>) {
    forall j, k :: 0 <= j < k < |stack| ==> stack[j] != stack[k]
  }

  /** The stacks hold indices, without repetition and apart from each other. */
  ghost predicate Shape(s: Work) {
    var n := |s.scaled|;
    && |s.alias| == |s.prob| == n
    && Distinct(s.small) && Distinct(s.large)
    && (forall i :: i in s.small ==> i < n && i !in s.large)
    && (forall i :: i in s.large ==> i < n)
  }

  ghost predicate Levels(s: Work)
    requires Shape(s)
  {
    && (forall i :: i in s.small ==> 0.0 <= s.scaled[i] < 1.0)
    && (forall i :: i in s.large ==> 1.0 <= s.scaled[i])
  }

  /** Decided indices hold a probability and an alias in range. */
  ghost predicate Decided(s: Work)
    requires Shape(s)
  {
    && (forall j :: 0 <= j < |s.alias| ==> s.alias[j] < |s.alias|)
    && (forall j :: 0 <= j < |s.prob| && !Pending(s, j) ==> s.prob[j] == s.scaled[j] && 0.0 <= s.prob[j] <= 1.0)
  }

  /** Every instance's mass is where it started, and the excess of the undecided ones cancels. */
  ghost predicate Masses(target: seq<real>, s: Work)
    requires Shape(s)
  {
    && |target| == |s.scaled|
    && (forall i :: 0 <= i < |target| ==> s.scaled[i] + Total(Inflow(s, i)) == target[i])
    && Total(Excess(s)) == 0.0
  }

  ghost predicate Valid(target: seq<real>, s: Work) {
    Shape(s) && Levels(s) && Decided(s) && Masses(target, s)
  }

  function Last(stack: seq<nat>): nat
    requires stack != []
  {
    stack[|stack| - 1]
  }

  function Popped(stack: seq<nat>): seq<nat>
    requires stack != []
  {
    stack[..|stack| - 1]
  }

  /** One round of the pairing loop. */
  function Pair(s: Work): Work
    requires s.small != [] && s.large != []
    requires |s.scaled| == |s.alias| == |s.prob|
    requires Last(s.small) < |s.scaled| && Last(s.large) < |s.scaled|
  {
    var l, g := Last(s.small), Last(s.large);
    var rest := s.scaled[g] - (1.0 - s.scaled[l]);
    Work(s.scaled[g := rest], s.alias[l := g], s.prob[l := s.scaled[l]],
         if rest < 1.0 then Popped(s.small) + [g] else Popped(s.small),
         if rest < 1.0 then Popped(s.large) else Popped(s.large) + [g])
  }

  lemma LastOut(stack: seq<nat>)
    requires stack != [] && Distinct(stack)
    ensures Last(stack) in stack && Distinct(Popped(stack)) && Last(stack) !in Popped(stack)
    ensures forall i :: i in stack <==> i == Last(stack) || i in Popped(stack)
  {
    assert stack == Popped(stack) + [Last(stack)];
  }

  /** A round decides exactly one index, and keeps the stacks apart. */
  lemma PairShape(s: Work)
    requires Shape(s) && s.small != [] && s.large != []
    ensures var l, g := Last(s.small), Last(s.large);
            && l < |s.scaled| && g < |s.scaled| && l != g && Pending(s, l) && Pending(s, g)
            && Shape(Pair(s))
            && forall i :: Pending(Pair(s), i) <==> i != l && Pending(s, i)
  {
    hide Last, Popped, Distinct;
    LastOut(s.small);
    LastOut(s.large);
    PushDistinct(Popped(s.small), Last(s.large));
    PushDistinct(Popped(s.large), Last(s.large));
  }

  lemma PushDistinct(stack: seq<nat>, x: nat)
    ensures Distinct(stack) && x !in stack ==> Distinct(stack + [x])
  {
  }

  lemma PairLevels(s: Work)
    requires Shape(s) && Levels(s) && s.small != [] && s.large != []
    ensures Last(s.small) < |s.scaled| && Last(s.large) < |s.scaled| && Shape(Pair(s)) && Levels(Pair(s))
  {
    hide Last, Popped, Distinct;
    PairShape(s);
    LastOut(s.small);
    LastOut(s.large);
  }

  lemma PairDecided(s: Work)
    requires Shape(s) && Levels(s) && Decided(s) && s.small != [] && s.large != []
    ensures Last(s.small) < |s.scaled| && Last(s.large) < |s.scaled| && Shape(Pair(s)) && Decided(Pair(s))
  {
    hide Popped, Distinct;
    PairShape(s);
    assert Last(s.small) in s.small;
    hide Pending;
  }

  lemma PairInflow(s: Work, i: nat)
    requires Shape(s) && s.small != [] && s.large != []
    ensures var l, g := Last(s.small), Last(s.large);
            && l < |s.scaled| && g < |s.scaled| && Shape(Pair(s))
            && Total(Inflow(Pair(s), i)) == Total(Inflow(s, i)) + if i == g then 1.0 - s.scaled[l] else 0.0
  {
    hide Last, Popped, Pending, Total, Inflow;
    var l, g := Last(s.small), Last(s.large);
    PairShape(s);
    var f, x := Inflow(s, i), if i == g then 1.0 - s.scaled[l] else 0.0;
    TotalUpdate(f, l, x);
    assert Inflow(Pair(s), i) == f[l := x];
  }

  lemma PairExcess(s: Work)
    requires Shape(s) && s.small != [] && s.large != []
    ensures Last(s.small) < |s.scaled| && Last(s.large) < |s.scaled|
    ensures Total(Excess(Pair(s))) == Total(Excess(s))
  {
    hide Last, Popped, Pending, Total, Excess;
    var l, g := Last(s.small), Last(s.large);
    PairShape(s);
    var e := Excess(s);
    var e1 := e[l := 0.0];
    TotalUpdate(e, l, 0.0);
    TotalUpdate(e1, g, e[g] + e[l]);
    assert Excess(Pair(s)) == e1[g := e[g] + e[l]];
  }

  lemma PairKeepsValid(target: seq<real>, s: Work)
    requires Valid(target, s) && s.small != [] && s.large != []
    ensures Last(s.small) < |s.scaled| && Last(s.large) < |s.scaled| && Valid(target, Pair(s))
  {
    hide Last, Popped, Total, Inflow, Excess, Pending, Levels, Decided;
    PairLevels(s);
    PairDecided(s);
    PairExcess(s);
    var s' := Pair(s);
    forall i | 0 <= i < |target| ensures s'.scaled[i] + Total(Inflow(s', i)) == target[i] {
      PairInflow(s, i);
    }
  }

  /** When the large stack runs out, so has the small one: the leftover-small loop has nothing to do. */
  lemma SmallRunsOut(target: seq<real>, s: Work)
    requires Valid(target, s) && s.large == []
    ensures s.small == []
  {
    if s.small != [] {
      var e := Excess(s);
      var t := seq(|e|, i requires 0 <= i < |e| => -e[i]);
      TotalNegated(e, t);
      assert s.small[0] in s.small;
      TermOfZeroTotal(t, s.small[0]);
      assert false;
    }
  }

  /** When the small stack has run out, every index left on the large one is exactly at one. */
  lemma LargeAtOne(target: seq<real>, s: Work, g: nat)
    requires Valid(target, s) && s.small == [] && g in s.large
    ensures g < |s.scaled| && s.scaled[g] == 1.0
  {
    hide Inflow, Decided;
    TermOfZeroTotal(Excess(s), g);
  }

  // The finished table.

  /** What index `j` gives to instance `i` in a finished table. */
  function Gift(alias: seq<nat>, prob: seq<real>, j: nat, i: nat): real
    requires j < |alias| == |prob|
  {
    (if j == i then prob[j] else 0.0) + (if alias[j] == i then 1.0 - prob[j] else 0.0)
  }

  ghost function Gifts(alias: seq<nat>, prob: seq<real>, i: nat): (f: seq<real>)
    requires |alias| == |prob|
    ensures |f| == |alias| && forall j :: 0 <= j < |f| ==> f[j] == Gift(alias, prob, j, i)
  {
    seq(|alias|, j requires 0 <= j < |alias| => Gift(alias, prob, j, i))
  }

  /** Probabilities in [0, 1], aliases in range, and every instance's mass equal to its target. */
  ghost predicate Conserves(target: seq<real>, alias: seq<nat>, prob: seq<real>) {
    && |alias| == |prob| == |target|
    && (forall j :: 0 <= j < |alias| ==> alias[j] < |alias| && 0.0 <= prob[j] <= 1.0)
    && (forall i :: 0 <= i < |target| ==> Total(Gifts(alias, prob, i)) == target[i])
  }

  lemma GiftsSplit(alias: seq<nat>, prob: seq<real>, i: nat, s: Work)
    requires i < |alias| == |prob| && s.alias == alias && s.scaled == prob && s.small == [] == s.large
    ensures Total(Gifts(alias, prob, i)) == prob[i] + Total(Inflow(s, i))
  {
    var zeros := seq(|prob|, _ => 0.0);
    var own := zeros[i := prob[i]];
    TotalZeros(zeros);
    TotalUpdate(zeros, i, prob[i]);
    TotalSum(own, Inflow(s, i), Gifts(alias, prob, i));
  }

  /** Setting every index left on the large stack to one finishes the table. */
  lemma FinishConserves(target: seq<real>, s: Work, prob: seq<real>)
    requires Valid(target, s) && s.small == [] && |prob| == |s.prob|
    requires forall j :: 0 <= j < |prob| ==> prob[j] == if j in s.large then 1.0 else s.prob[j]
    ensures Conserves(target, s.alias, prob)
  {
    hide Total, Inflow, Excess, Gifts;
    FinishedProb(target, s, prob);
    var done := s.(small := [], large := []);
    forall i | 0 <= i < |target| ensures Total(Gifts(s.alias, prob, i)) == target[i] {
      GiftsSplit(s.alias, prob, i, done);
      FinishedInflow(target, s, i);
    }
  }

  lemma FinishedProb(target: seq<real>, s: Work, prob: seq<real>)
    requires Valid(target, s) && s.small == [] && |prob| == |s.prob|
    requires forall j :: 0 <= j < |prob| ==> prob[j] == if j in s.large then 1.0 else s.prob[j]
    ensures prob == s.scaled && forall j :: 0 <= j < |prob| ==> 0.0 <= prob[j] <= 1.0
  {
    hide Masses, Levels;
    forall j | 0 <= j < |prob| ensures prob[j] == s.scaled[j] && 0.0 <= prob[j] <= 1.0 {
      if j in s.large { LargeAtOne(target, s, j); }
    }
  }

  /** Indices at exactly one hand nothing on. */
  lemma FinishedInflow(target: seq<real>, s: Work, i: nat)
    requires Valid(target, s) && s.small == []
    ensures Inflow(s.(small := [], large := []), i) == Inflow(s, i)
  {
    hide Masses, Levels, Decided;
    var done := s.(small := [], large := []);
    forall j | 0 <= j < |s.scaled| ensures Handed(done, j, i) == Handed(s, j, i) {
      if j in s.large { LargeAtOne(target, s, j); }
    }
  }

  // Targets: `n * w[i] / W`.

  function Target(w: seq<nat>): (t: seq<real>)
    requires Sum(w) > 0
    ensures |t| == |w|
  {
    seq(|w|, i requires 0 <= i < |w| => w[i] as real * |w| as real / Sum(w) as real)
  }

  lemma {:induction false} ScaledTotal(w: seq<nat>, c: real, e: seq<real>)
    requires |e| == |w| && forall i :: 0 <= i < |w| ==> e[i] == w[i] as real * c - 1.0
    ensures Total(e) == Sum(w) as real * c - |w| as real
  {
    if w != [] {
      ScaledTotal(w[..|w| - 1], c, e[..|w| - 1]);
      DistributeReal(Sum(w[..|w| - 1]), w[|w| - 1], c);
    }
  }

  lemma DistributeReal(a: int, b: int, c: real)
    ensures (a + b) as real * c == a as real * c + b as real * c
  {
  }

  lemma ShareReal(x: real, n: real, W: real)
    requires W > 0.0
    ensures x * n / W == x * (n / W) && W * (n / W) == n
    ensures x >= 0.0 && n >= 0.0 ==> x * n / W >= 0.0
  {
  }

  lemma TargetAt(w: seq<nat>, i: nat)
    requires Sum(w) > 0 && i < |w|
    ensures Target(w)[i] == w[i] as real * (|w| as real / Sum(w) as real) && Target(w)[i] >= 0.0
  {
    hide Sum;
    ShareReal(w[i] as real, |w| as real, Sum(w) as real);
  }

  lemma InitialExcess(w: seq<nat>, e: seq<real>)
    requires Sum(w) > 0 && |e| == |w| && forall i :: 0 <= i < |w| ==> e[i] == Target(w)[i] - 1.0
    ensures Total(e) == 0.0
  {
    hide Sum, Target, Total;
    var W, n := Sum(w) as real, |w| as real;
    var c := n / W;
    forall i | 0 <= i < |w| ensures e[i] == w[i] as real * c - 1.0 { TargetAt(w, i); }
    ScaledTotal(w, c, e);
    ShareReal(1.0, n, W);
  }
}
