/** `AliasMethodPicker` with its table and stacks built in place, against `AliasMethod`. */
module AliasPicker {
  import opened Discovery
  import opened Sums
  import opened AliasMethod

  // The state after the first loop.

  function Below(t: seq<real>, k: nat): seq<nat>
    requires k <= |t|
  {
    if k == 0 then [] else if t[k - 1] < 1.0 then Below(t, k - 1) + [k - 1] else Below(t, k - 1)
  }

  function NotBelow(t: seq<real>, k: nat): seq<nat>
    requires k <= |t|
  {
    if k == 0 then [] else if t[k - 1] < 1.0 then NotBelow(t, k - 1) else NotBelow(t, k - 1) + [k - 1]
  }

  lemma {:induction false} Sorted(t: seq<real>, k: nat)
    requires k <= |t|
    ensures Distinct(Below(t, k)) && forall i: nat :: i in Below(t, k) <==> i < k && t[i] < 1.0
    ensures Distinct(NotBelow(t, k)) && forall i: nat :: i in NotBelow(t, k) <==> i < k && t[i] >= 1.0
  {
    if k > 0 { Sorted(t, k - 1); }
  }

  ghost function Begin(t: seq<real>): Work {
    Work(t, seq(|t|, _ => 0), seq(|t|, _ => 0.0), Below(t, |t|), NotBelow(t, |t|))
  }

  lemma BeginShape(t: seq<real>)
    requires forall i :: 0 <= i < |t| ==> t[i] >= 0.0
    ensures Shape(Begin(t)) && Levels(Begin(t)) && Decided(Begin(t))
    ensures forall i :: 0 <= i < |t| ==> Pending(Begin(t), i)
  {
    Sorted(t, |t|);
  }

  lemma BeginInflow(t: seq<real>, i: nat)
    requires forall j :: 0 <= j < |t| ==> t[j] >= 0.0
    ensures Shape(Begin(t)) && Total(Inflow(Begin(t), i)) == 0.0
  {
    BeginShape(t);
    hide Begin, Pending;
    TotalZeros(Inflow(Begin(t), i));
  }

  lemma BeginValid(w: seq<nat>)
    requires Sum(w) > 0
    ensures Valid(Target(w), Begin(Target(w)))
  {
    var t := Target(w);
    forall i | 0 <= i < |t| ensures t[i] >= 0.0 { TargetAt(w, i); }
    BeginShape(t);
    forall i | 0 <= i < |t| ensures Total(Inflow(Begin(t), i)) == 0.0 { BeginInflow(t, i); }
    InitialExcess(w, Excess(Begin(t)));
  }

  // Picking.

  /** The index `Next` settles on for a uniform index `j` and a uniform real `u` in [0, 1). */
  function NextIndex(alias: seq<nat>, prob: seq<real>, j: nat, u: real): nat
    requires j < |alias| == |prob|
  {
    if u < prob[j] then j else alias[j]
  }

  /** Draws `u` below `low`, or from `mid` up to `high`. */
  datatype Draws = Draws(low: real, mid: real, high: real)

  predicate Contains(d: Draws, u: real) { 0.0 <= u < d.low || d.mid <= u < d.high }

  predicate Ordered(d: Draws) { 0.0 <= d.low <= d.mid <= d.high <= 1.0 }

  function Length(d: Draws): real { d.low + (d.high - d.mid) }

  /** `d` holds exactly the draws of [0, 1) for which index `j` leads to instance `i`. */
  ghost predicate LeadsTo(alias: seq<nat>, prob: seq<real>, j: nat, i: nat, d: Draws)
    requires j < |alias| == |prob|
  {
    Ordered(d) && forall u :: 0.0 <= u < 1.0 ==> (Contains(d, u) <==> NextIndex(alias, prob, j, u) == i)
  }

  /** The draws that lead from index `j` to instance `i` have the length that `Gift` counts. */
  lemma GiftIsLength(alias: seq<nat>, prob: seq<real>, j: nat, i: nat) returns (d: Draws)
    requires j < |alias| == |prob| && 0.0 <= prob[j] <= 1.0
    ensures LeadsTo(alias, prob, j, i, d) && Length(d) == Gift(alias, prob, j, i)
  {
    d := Draws(if j == i then prob[j] else 0.0, prob[j], if alias[j] == i then 1.0 else prob[j]);
  }

  /** Where a set of draws ends when its two parts touch. */
  function Normal(d: Draws): Draws {
    if d.low == d.mid then Draws(d.high, 1.0, 1.0)
    else if d.mid == d.high then Draws(d.low, 1.0, 1.0)
    else d
  }

  lemma NormalSame(d: Draws)
    requires Ordered(d)
    ensures var n := Normal(d);
            && Ordered(n) && Length(n) == Length(d) && (n.low < n.mid || n.low == 1.0)
            && (n.mid < n.high || n.mid == n.high == 1.0)
    ensures forall u :: Contains(Normal(d), u) <==> Contains(d, u)
  {
  }

  /** One end of each part of `d` is a boundary of every set with the same draws. */
  lemma SameEnds(d: Draws, e: Draws)
    requires Ordered(d) && Ordered(e)
    requires d.low < d.mid || d.low == 1.0
    requires d.mid < d.high || d.mid == d.high == 1.0
    requires e.low < e.mid || e.low == 1.0
    requires e.mid < e.high || e.mid == e.high == 1.0
    requires forall u :: 0.0 <= u < 1.0 ==> (Contains(d, u) <==> Contains(e, u))
    ensures d == e
  {
    if d.low < e.low {
      assert !Contains(d, d.low) && Contains(e, d.low);
    }
    if e.low < d.low {
      assert !Contains(e, e.low) && Contains(d, e.low);
    }
    if d.mid < e.mid {
      assert Contains(d, d.mid) && !Contains(e, d.mid);
    }
    if e.mid < d.mid {
      assert Contains(e, e.mid) && !Contains(d, e.mid);
    }
    if d.high < e.high {
      assert !Contains(d, d.high) && Contains(e, d.high);
    }
    if e.high < d.high {
      assert !Contains(e, e.high) && Contains(d, e.high);
    }
  }

  /** The length does not depend on how the draws are written down. */
  lemma LengthUnique(alias: seq<nat>, prob: seq<real>, j: nat, i: nat, d: Draws, e: Draws)
    requires j < |alias| == |prob| && LeadsTo(alias, prob, j, i, d) && LeadsTo(alias, prob, j, i, e)
    ensures Length(d) == Length(e)
  {
    NormalSame(d);
    NormalSame(e);
    SameEnds(Normal(d), Normal(e));
  }

  /** `p` is the chance of instance `i` under `Next`: the average over all indices of the lengths that lead to it. */
  ghost predicate IsChance(alias: seq<nat>, prob: seq<real>, i: nat, p: real)
    requires |alias| == |prob| > 0
  {
    exists ds: seq<Draws> :: AllLead(alias, prob, i, ds) && p == Total(Lengths(ds)) / |alias| as real
  }

  ghost predicate AllLead(alias: seq<nat>, prob: seq<real>, i: nat, ds: seq<Draws>)
    requires |alias| == |prob|
  {
    |ds| == |alias| && forall j :: 0 <= j < |ds| ==> LeadsTo(alias, prob, j, i, ds[j])
  }

  ghost function Lengths(ds: seq<Draws>): (s: seq<real>)
    ensures |s| == |ds| && forall j :: 0 <= j < |ds| ==> s[j] == Length(ds[j])
  {
    seq(|ds|, j requires 0 <= j < |ds| => Length(ds[j]))
  }

  /** Any draws that lead to instance `i` have in all the length that the table's gifts have. */
  lemma LengthsAreGifts(alias: seq<nat>, prob: seq<real>, i: nat, ds: seq<Draws>)
    requires |alias| == |prob| && (forall j :: 0 <= j < |prob| ==> 0.0 <= prob[j] <= 1.0)
    requires AllLead(alias, prob, i, ds)
    ensures Lengths(ds) == Gifts(alias, prob, i)
  {
    hide LeadsTo, Gift, Length;
    forall j | 0 <= j < |ds| ensures Length(ds[j]) == Gift(alias, prob, j, i) {
      var d := GiftIsLength(alias, prob, j, i);
      LengthUnique(alias, prob, j, i, d, ds[j]);
    }
  }

  lemma {:induction false} DrawsExist(alias: seq<nat>, prob: seq<real>, i: nat, n: nat) returns (ds: seq<Draws>)
    requires n <= |alias| == |prob| && (forall j :: 0 <= j < |prob| ==> 0.0 <= prob[j] <= 1.0)
    ensures |ds| == n && forall j :: 0 <= j < n ==> LeadsTo(alias, prob, j, i, ds[j])
  {
    hide LeadsTo;
    if n == 0 {
      ds := [];
    } else {
      ds := DrawsExist(alias, prob, i, n - 1);
      var d := GiftIsLength(alias, prob, n - 1, i);
      ds := ds + [d];
    }
  }

  lemma AssociateReal(a: real, b: real, c: real)
    ensures a * (b * c) == (a * b) * c
  {
  }

  lemma QuotientReal(p: real, n: real, t: real)
    requires n > 0.0 && t == p * n
    ensures t / n == p
  {
  }

  lemma ShareOfTotal(x: real, n: real, W: real, t: real)
    requires n > 0.0 && W > 0.0 && t == x * (n / W)
    ensures t / n == x / W
  {
    var p, q := x / W, n / W;
    assert x == p * W && n == W * q;
    AssociateReal(p, W, q);
    QuotientReal(p, n, t);
  }

  lemma TableShare(w: seq<nat>, alias: seq<nat>, prob: seq<real>, i: nat)
    requires Sum(w) > 0 && i < |w| && Conserves(Target(w), alias, prob)
    ensures |alias| == |prob| == |w| && forall j :: 0 <= j < |prob| ==> 0.0 <= prob[j] <= 1.0
    ensures Total(Gifts(alias, prob, i)) / |alias| as real == w[i] as real / Sum(w) as real
  {
    hide Sum, Target, Total, Gifts;
    var t := Total(Gifts(alias, prob, i));
    assert t == w[i] as real * (|w| as real / Sum(w) as real) by { TargetAt(w, i); }
    ShareOfTotal(w[i] as real, |w| as real, Sum(w) as real, t);
  }

  lemma ChanceOfDraws(alias: seq<nat>, prob: seq<real>, i: nat, ds: seq<Draws>)
    requires |alias| == |prob| > 0 && AllLead(alias, prob, i, ds)
    ensures IsChance(alias, prob, i, Total(Lengths(ds)) / |alias| as real)
  {
  }

  /** The chance is determined by the table: it is the average gift. */
  lemma ChanceIsGift(alias: seq<nat>, prob: seq<real>, i: nat, p: real)
    requires |alias| == |prob| > 0 && forall j :: 0 <= j < |prob| ==> 0.0 <= prob[j] <= 1.0
    ensures IsChance(alias, prob, i, p) <==> p == Total(Gifts(alias, prob, i)) / |alias| as real
  {
    hide LeadsTo, Total, Gifts, Lengths;
    if IsChance(alias, prob, i, p) {
      var ds :| AllLead(alias, prob, i, ds) && p == Total(Lengths(ds)) / |alias| as real;
      LengthsAreGifts(alias, prob, i, ds);
    }
    var ds := DrawsExist(alias, prob, i, |alias|);
    LengthsAreGifts(alias, prob, i, ds);
    ChanceOfDraws(alias, prob, i, ds);
  }

  /** A conserving table makes `Next` select every instance with exactly its share of the total weight. */
  lemma ChanceIsShare(w: seq<nat>, alias: seq<nat>, prob: seq<real>, i: nat, p: real)
    requires Sum(w) > 0 && i < |w| && Conserves(Target(w), alias, prob)
    ensures IsChance(alias, prob, i, p) <==> p == w[i] as real / Sum(w) as real
  {
    hide *;
    TableShare(w, alias, prob, i);
    ChanceIsGift(alias, prob, i, p);
  }

  class AliasMethodPicker {
    var instances: seq<Instance>
    var weightSum: int
    var alias: array<nat>
    var prob: array<real>

    ghost predicate Ready() reads this {
      PositiveWeights(instances) && weightSum == Sum(Weights(instances)) > 0
    }

    ghost predicate Valid() reads this, alias, prob {
      Ready() && Conserves(Target(Weights(instances)), alias[..], prob[..])
    }

    constructor (instances: seq<Instance>, weightSum: int)
      requires PositiveWeights(instances) && weightSum == Sum(Weights(instances)) > 0
      ensures Valid() && this.instances == instances && this.weightSum == weightSum && fresh(alias) && fresh(prob)
    {
      this.instances := instances;
      this.weightSum := weightSum;
      alias := new nat[0];
      prob := new real[0];
      new;
      Init();
    }

    /** Builds the table: every instance ends with exactly its scaled weight. */
    method Init()
      requires Ready()
      modifies this`alias, this`prob
      ensures Valid() && fresh(alias) && fresh(prob)
    {
      hide Sum, Target, Conserves, AliasMethod.Valid;
      var n := |instances|;
      ghost var w := Weights(instances);
      ghost var t := Target(w);
      alias := new nat[n](_ => 0);
      prob := new real[n](_ => 0.0);
      var scaled, small, large := Scale(w);
      BeginValid(w);
      ghost var s := Begin(t);
      assert s == Work(scaled[..], alias[..], prob[..], small, large);
      small, large, s := PairUp(t, s, scaled, small, large);
      ValidLengths(t, s);
      FillOnes(large);
      if large == [] { SmallRunsOut(t, s); }
      FinishConserves(t, s, prob[..]);
      ghost var final := prob[..];
      FillOnes(small);
      assert prob[..] == final && alias[..] == s.alias;
    }

    /** The scaled weights, and the indices sorted onto the two stacks. */
    method Scale(ghost w: seq<nat>) returns (scaled: array<real>, small: seq<nat>, large: seq<nat>)
      requires Ready() && w == Weights(instances)
      ensures fresh(scaled) && scaled[..] == Target(w)
      ensures small == Below(Target(w), |w|) && large == NotBelow(Target(w), |w|)
    {
      hide Sum;
      ghost var t := Target(w);
      scaled := new real[|instances|];
      small, large := [], [];
      for i := 0 to |instances|
        invariant scaled[..i] == t[..i]
        invariant small == Below(t, i) && large == NotBelow(t, i)
      {
        scaled[i] := instances[i].weight as real * |instances| as real / weightSum as real;
        assert scaled[i] == t[i];
        if scaled[i] < 1.0 {
          small := small + [i];
        } else {
          large := large + [i];
        }
      }
    }

    /** The pairing loop. */
    method PairUp(ghost t: seq<real>, ghost s0: Work, scaled: array<real>, small0: seq<nat>, large0: seq<nat>)
        returns (small: seq<nat>, large: seq<nat>, ghost s: Work)
      requires scaled != prob && AliasMethod.Valid(t, s0)
      requires s0 == Work(scaled[..], alias[..], prob[..], small0, large0)
      modifies scaled, alias, prob
      ensures AliasMethod.Valid(t, s) && s == Work(scaled[..], alias[..], prob[..], small, large)
      ensures small == [] || large == []
    {
      hide AliasMethod.Valid;
      small, large, s := small0, large0, s0;
      while |small| > 0 && |large| > 0
        invariant AliasMethod.Valid(t, s) && s == Work(scaled[..], alias[..], prob[..], small, large)
        decreases |small| + |large|
      {
        ValidLengths(t, s);
        PairKeepsValid(t, s);
        var l := small[|small| - 1];
        small := small[..|small| - 1];
        var g := large[|large| - 1];
        large := large[..|large| - 1];
        prob[l] := scaled[l];
        alias[l] := g;
        scaled[g] := scaled[g] - (1.0 - scaled[l]);
        if scaled[g] < 1.0 {
          small := small + [g];
        } else {
          large := large + [g];
        }
        s := Pair(s);
      }
    }

    /** Empties a stack: each of its indices keeps everything. */
    method FillOnes(stack0: seq<nat>)
      requires forall k :: 0 <= k < |stack0| ==> stack0[k] < prob.Length
      modifies prob
      ensures forall j :: 0 <= j < prob.Length ==> prob[j] == if j in stack0 then 1.0 else old(prob[j])
    {
      var stack := stack0;
      while |stack| > 0
        invariant stack <= stack0
        invariant forall j :: 0 <= j < prob.Length ==>
          prob[j] == if j in stack0[|stack|..] then 1.0 else old(prob[j])
      {
        var g := stack[|stack| - 1];
        assert stack0[|stack| - 1..] == [g] + stack0[|stack|..];
        stack := stack[..|stack| - 1];
        prob[g] := 1.0;
      }
      assert stack0[0..] == stack0;
    }

    /** The instance for a uniform index `i` and a uniform real `u`. */
    method Next(i: nat, u: real) returns (ins: Instance)
      requires Valid() && i < |instances| && 0.0 <= u < 1.0
      ensures NextIndex(alias[..], prob[..], i, u) < |instances|
      ensures ins == instances[NextIndex(alias[..], prob[..], i, u)]
    {
      hide Sum, Gifts, Total;
      if u < prob[i] { return instances[i]; }
      assert alias[..][i] < |instances|;
      return instances[alias[i]];
    }
  }

  lemma ValidLengths(t: seq<real>, s: Work)
    requires AliasMethod.Valid(t, s)
    ensures |s.scaled| == |s.alias| == |s.prob| == |t|
    ensures forall k :: 0 <= k < |s.small| ==> s.small[k] < |t|
    ensures forall k :: 0 <= k < |s.large| ==> s.large[k] < |t|
  {
    forall k | 0 <= k < |s.small| ensures s.small[k] < |t| { assert s.small[k] in s.small; }
    forall k | 0 <= k < |s.large| ensures s.large[k] < |t| { assert s.large[k] in s.large; }
  }
}
