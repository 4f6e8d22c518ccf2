/**
Interleaved weighted round robin over two queues: every cycle serves each node its exact share,
and within a cycle the nodes still queued have been served equally often up to one.
*/
module InterleavedWrr {
  import opened Arith
  import opened Sums
  import opened Gcd
  import opened Smooth = SmoothWrr

  /** Node numbers in the current and the next queue, and what each node has left of its weight. */
  datatype Queues = Queues(cur: seq<nat>, nxt: seq<nat>, rem: seq<int>)

  ghost predicate Distinct(s: seq<nat>) {
    forall j, k :: 0 <= j < k < |s| ==> s[j] != s[k]
  }

  ghost predicate Within(s: seq<nat>, n: nat) {
    forall k :: 0 <= k < |s| ==> s[k] < n
  }

  /** Every node is in exactly one place of exactly one queue. */
  ghost predicate Partition(n: nat, q: Queues) {
    && Distinct(q.cur) && Distinct(q.nxt)
    && Within(q.cur, n) && Within(q.nxt, n)
    && (forall i :: 0 <= i < n ==> (i in q.cur) != (i in q.nxt))
  }

  /** Nodes waiting for the next cycle are full; the others have a positive multiple of the divisor left. */
  ghost predicate Valid(w: seq<nat>, q: Queues) {
    && Positive(w) && |q.rem| == |w| && Partition(|w|, q)
    && (forall i :: 0 <= i < |w| ==> 0 < q.rem[i] <= w[i] && Divides(GcdOf(w), q.rem[i]))
    && (forall i :: 0 <= i < |w| && i in q.nxt ==> q.rem[i] == w[i])
  }

  /** An empty current queue is swapped with the next one. */
  function Swapped(q: Queues): Queues {
    if q.cur == [] then Queues(q.nxt, q.cur, q.rem) else q
  }

  lemma SwappedValid(w: seq<nat>, q: Queues)
    requires Valid(w, q)
    ensures Valid(w, Swapped(q)) && Swapped(q).cur != [] && Swapped(q).cur[0] < |w|
  {
    assert (0 in q.cur) != (0 in q.nxt);
  }

  /** Takes the head of a non-empty current queue and puts it back behind one of the queues. */
  function Serve(w: seq<nat>, g: nat, q: Queues): Queues
    requires q.cur != [] && |q.rem| == |w| && q.cur[0] < |w|
  {
    var h := q.cur[0];
    if q.rem[h] - g > 0
    then Queues(q.cur[1..] + [h], q.nxt, q.rem[h := q.rem[h] - g])
    else Queues(q.cur[1..], q.nxt + [h], q.rem[h := w[h]])
  }

  /** One call of `Next`, and the node it returns. */
  ghost function Step(w: seq<nat>, q: Queues): Queues
    requires Valid(w, q)
  {
    SwappedValid(w, q);
    Serve(w, GcdOf(w), Swapped(q))
  }

  ghost function Served(w: seq<nat>, q: Queues): (i: nat)
    requires Valid(w, q)
    ensures i < |w|
  {
    SwappedValid(w, q);
    Swapped(q).cur[0]
  }

  // Dequeue is never called on an empty queue, and every call keeps the partition.

  lemma HeadAndRest(q: Queues)
    requires Distinct(q.cur) && q.cur != []
    ensures Distinct(q.cur[1..]) && q.cur[0] in q.cur && q.cur[0] !in q.cur[1..]
    ensures forall i :: i in q.cur <==> i == q.cur[0] || i in q.cur[1..]
  {
    assert q.cur == [q.cur[0]] + q.cur[1..];
  }

  lemma ServeKeepsPartition(w: seq<nat>, g: nat, q: Queues)
    requires |q.rem| == |w| && Partition(|w|, q) && q.cur != []
    ensures q.cur[0] < |w| && q.cur[0] !in q.nxt && Partition(|w|, Serve(w, g, q))
    ensures forall i :: 0 <= i < |w| && i in Serve(w, g, q).nxt ==> i == q.cur[0] || i in q.nxt
  {
    HeadAndRest(q);
    var h := q.cur[0];
    assert (h in q.cur) != (h in q.nxt);
    forall i | 0 <= i < |w| ensures (i in q.cur) != (i in q.nxt) {}
  }

  lemma RemainderDivides(g: nat, x: int)
    requires Divides(g, x) && x > 0
    ensures Divides(g, x - g) && (x - g > 0 <==> x != g) && x - g >= 0
  {
    DividesFromFactor(g, 1);
    DividesSum(g, x, g);
    var c := Cofactor(g, x - g);
    MultipleAbove(g, c);
  }

  lemma ServeRemainder(w: seq<nat>, q: Queues, i: nat)
    requires Valid(w, q) && q.cur != [] && q.cur[0] < |w| && i < |w|
    ensures var x := Serve(w, GcdOf(w), q).rem[i]; 0 < x <= w[i] && Divides(GcdOf(w), x)
  {
    hide Divides, GcdOf, Partition;
    var g, h := GcdOf(w), q.cur[0];
    assert 0 < q.rem[i] <= w[i] && Divides(g, q.rem[i]);
    assert 0 < q.rem[h] <= w[h] && Divides(g, q.rem[h]);
    RemainderDivides(g, q.rem[h]);
    GcdOfDivides(w, h);
  }

  lemma ServeKeepsValid(w: seq<nat>, q: Queues)
    requires Valid(w, q) && q.cur != []
    ensures q.cur[0] < |w| && Valid(w, Serve(w, GcdOf(w), q))
  {
    hide Divides, GcdOf, Partition;
    ServeKeepsPartition(w, GcdOf(w), q);
    var r := Serve(w, GcdOf(w), q);
    forall i | 0 <= i < |w| ensures 0 < r.rem[i] <= w[i] && Divides(GcdOf(w), r.rem[i]) {
      ServeRemainder(w, q, i);
    }
    forall i | 0 <= i < |w| && i in r.nxt ensures r.rem[i] == w[i] {}
  }

  lemma StepKeepsValid(w: seq<nat>, q: Queues)
    requires Valid(w, q)
    ensures Valid(w, Step(w, q))
  {
    SwappedValid(w, q);
    ServeKeepsValid(w, Swapped(q));
  }

  // Runs.

  ghost function Run(w: seq<nat>, q: Queues, k: nat): (r: Queues)
    requires Valid(w, q)
    ensures Valid(w, r)
  {
    if k == 0 then q else
    StepKeepsValid(w, Run(w, q, k - 1));
    Step(w, Run(w, q, k - 1))
  }

  /** How often the first `k` calls return node `i`. */
  ghost function Count(w: seq<nat>, q: Queues, k: nat, i: nat): nat
    requires Valid(w, q)
  {
    if k == 0 then 0 else Count(w, q, k - 1, i) + if Served(w, Run(w, q, k - 1)) == i then 1 else 0
  }

  /** Between cycles one queue is empty and every node is full. */
  ghost predicate Boundary(w: seq<nat>, q: Queues) {
    Valid(w, q) && q.rem == w && (q.cur == [] || q.nxt == [])
  }

  // One cycle: what is left in the current queue falls by the divisor with every call.

  function Left(cur: seq<nat>, rem: seq<int>): int
    requires Within(cur, |rem|)
  {
    if cur == [] then 0 else rem[cur[0]] + Left(cur[1..], rem)
  }

  lemma {:induction false} LeftAppend(cur: seq<nat>, h: nat, rem: seq<int>)
    requires h < |rem| && Within(cur, |rem|)
    ensures Left(cur + [h], rem) == Left(cur, rem) + rem[h]
  {
    if cur == [] {
      assert cur + [h] == [h];
    } else {
      LeftAppend(cur[1..], h, rem);
      assert (cur + [h])[1..] == cur[1..] + [h];
    }
  }

  lemma {:induction false} LeftFrame(cur: seq<nat>, h: nat, x: int, rem: seq<int>)
    requires h < |rem| && h !in cur && Within(cur, |rem|)
    ensures Left(cur, rem[h := x]) == Left(cur, rem)
  {
    if cur != [] { LeftFrame(cur[1..], h, x, rem); }
  }

  lemma {:induction false} LeftPositive(cur: seq<nat>, rem: seq<int>)
    requires Within(cur, |rem|) && forall i :: 0 <= i < |rem| ==> rem[i] > 0
    ensures Left(cur, rem) >= 0 && (cur != [] ==> Left(cur, rem) > 0)
  {
    if cur != [] { LeftPositive(cur[1..], rem); }
  }

  /** A queue that holds every node once has the total weight left. */
  lemma {:induction false} LeftAll(cur: seq<nat>, rem: seq<int>)
    requires Distinct(cur) && Within(cur, |rem|)
    requires forall i :: 0 <= i < |rem| && i !in cur ==> rem[i] == 0
    ensures Left(cur, rem) == Sum(rem)
  {
    if cur == [] {
      SumZeros(rem);
    } else {
      var h, rest := cur[0], cur[1..];
      HeadAndRest(Queues(cur, [], rem));
      LeftAll(rest, rem[h := 0]);
      LeftFrame(rest, h, 0, rem);
      SumUpdate(rem, h, 0);
    }
  }

  /** What node `i` has left in this cycle: nothing once it waits for the next one. */
  ghost function Owed(q: Queues, i: nat): int
    requires i < |q.rem|
  {
    if i in q.cur then q.rem[i] else 0
  }

  lemma ServeLeft(w: seq<nat>, q: Queues)
    requires Valid(w, q) && q.cur != []
    ensures var r := Serve(w, GcdOf(w), q);
            Within(r.cur, |r.rem|) && Left(r.cur, r.rem) == Left(q.cur, q.rem) - GcdOf(w)
  {
    var g, h, rest := GcdOf(w), q.cur[0], q.cur[1..];
    HeadAndRest(q);
    RemainderDivides(g, q.rem[h]);
    LeftFrame(rest, h, q.rem[h] - g, q.rem);
    LeftFrame(rest, h, w[h], q.rem);
    LeftAppend(rest, h, q.rem[h := q.rem[h] - g]);
  }

  lemma ServeOwed(w: seq<nat>, q: Queues, i: nat)
    requires Valid(w, q) && q.cur != [] && i < |w|
    ensures Owed(Serve(w, GcdOf(w), q), i) == Owed(q, i) - if i == q.cur[0] then GcdOf(w) else 0
  {
    HeadAndRest(q);
    RemainderDivides(GcdOf(w), q.rem[q.cur[0]]);
  }

  /** The whole account of a cycle in which node `i` has been served `c(i)` times in `k` calls. */
  ghost predicate Account(w: seq<nat>, q: Queues, k: nat)
    requires Valid(w, q)
  {
    var r := Run(w, q, k);
    && Left(r.cur, r.rem) == Sum(w) - k * GcdOf(w)
    && forall i :: 0 <= i < |w| ==> GcdOf(w) * Count(w, q, k, i) == w[i] - Owed(r, i)
  }

  /** One more call when the current queue is not empty. */
  lemma RunServe(w: seq<nat>, q: Queues, k: nat)
    requires Valid(w, q) && Run(w, q, k).cur != []
    ensures Run(w, q, k).cur[0] < |w|
    ensures Run(w, q, k + 1) == Serve(w, GcdOf(w), Run(w, q, k))
    ensures forall i :: 0 <= i < |w| ==>
              Count(w, q, k + 1, i) == Count(w, q, k, i) + if i == Run(w, q, k).cur[0] then 1 else 0
  {
    SwappedValid(w, Run(w, q, k));
  }

  lemma AccountStep(w: seq<nat>, q: Queues, k: nat)
    requires Valid(w, q) && Account(w, q, k) && Run(w, q, k).cur != []
    ensures Account(w, q, k + 1)
  {
    hide Run, Count, Serve, Left, Owed, GcdOf, Sum;
    var r := Run(w, q, k);
    RunServe(w, q, k);
    ServeLeft(w, r);
    Distribute(GcdOf(w), k, 1);
    forall i | 0 <= i < |w| ensures GcdOf(w) * Count(w, q, k + 1, i) == w[i] - Owed(Run(w, q, k + 1), i) {
      ServeOwed(w, r, i);
      Distribute(GcdOf(w), Count(w, q, k, i), 1);
    }
  }

  lemma AccountStart(w: seq<nat>, q: Queues)
    requires Boundary(w, q) && q.nxt == []
    ensures Account(w, q, 0)
  {
    hide GcdOf, Divides;
    LeftAll(q.cur, q.rem);
  }

  lemma {:induction false} CycleAccount(w: seq<nat>, q: Queues, k: nat)
    requires Boundary(w, q) && q.nxt == [] && k <= Cycle(w)
    ensures Account(w, q, k)
  {
    hide Account, Run, Valid, Cycle;
    if k == 0 {
      AccountStart(w, q);
    } else {
      CycleAccount(w, q, k - 1);
      MidCycle(w, q, k - 1);
      AccountStep(w, q, k - 1);
    }
  }

  /** Before the end of the cycle the current queue is not empty, at the end it is. */
  lemma MidCycle(w: seq<nat>, q: Queues, k: nat)
    requires Valid(w, q) && Account(w, q, k)
    ensures k < Cycle(w) ==> Run(w, q, k).cur != []
    ensures k == Cycle(w) ==> Run(w, q, k).cur == []
  {
    hide Run, Count, Cycle, GcdOf, Sum;
    var r := Run(w, q, k);
    LeftPositive(r.cur, r.rem);
    CycleFactors(w, 0);
    Distribute(GcdOf(w), Cycle(w), k);
    MulAtLeast(GcdOf(w), Cycle(w) - k);
  }

  // The first call of a cycle may swap the queues; the swap itself is invisible.

  lemma {:induction false} RunSwapped(w: seq<nat>, q: Queues, k: nat)
    requires Valid(w, q)
    ensures Valid(w, Swapped(q))
    ensures k > 0 ==> Run(w, Swapped(q), k) == Run(w, q, k)
    ensures forall i :: 0 <= i < |w| ==> Count(w, Swapped(q), k, i) == Count(w, q, k, i)
  {
    hide Valid, Served, Step, Swapped;
    SwappedValid(w, q);
    if k > 0 {
      RunSwapped(w, q, k - 1);
      SameCall(w, q, Run(w, Swapped(q), k - 1), Run(w, q, k - 1));
    }
  }

  lemma SameCall(w: seq<nat>, q: Queues, a: Queues, b: Queues)
    requires Valid(w, q) && Valid(w, Swapped(q)) && Valid(w, a) && Valid(w, b)
    requires a == b || (a == Swapped(q) && b == q)
    ensures Step(w, a) == Step(w, b) && Served(w, a) == Served(w, b)
  {
    SwappedValid(w, q);
    assert Swapped(Swapped(q)) == Swapped(q);
  }

  /** From any cycle boundary, one cycle serves node `i` exactly its share and ends at a boundary. */
  lemma CycleExact(w: seq<nat>, q: Queues)
    requires Boundary(w, q)
    ensures Boundary(w, Run(w, q, Cycle(w)))
    ensures forall i :: 0 <= i < |w| ==> Count(w, q, Cycle(w), i) == Share(w, i)
  {
    var P, s := Cycle(w), Swapped(q);
    SwappedValid(w, q);
    RunSwapped(w, q, P);
    CycleAccount(w, s, P);
    MidCycle(w, s, P);
    hide Cycle, Run, Count, Share, GcdOf, Sum, Left, Divides;
    var r := Run(w, s, P);
    forall i | 0 <= i < |w| ensures r.rem[i] == w[i] && Count(w, s, P, i) == Share(w, i) {
      assert (i in r.cur) != (i in r.nxt);
      CycleFactors(w, i);
      Cancel(GcdOf(w), Count(w, s, P, i), Share(w, i));
    }
  }

  lemma {:induction false} RunPlus(w: seq<nat>, q: Queues, j: nat, k: nat)
    requires Valid(w, q)
    ensures Run(w, q, j + k) == Run(w, Run(w, q, j), k)
    ensures forall i :: 0 <= i < |w| ==> Count(w, q, j + k, i) == Count(w, q, j, i) + Count(w, Run(w, q, j), k, i)
  {
    hide Served, Step, Valid;
    if k > 0 {
      RunPlus(w, q, j, k - 1);
      assert j + (k - 1) == j + k - 1;
    }
  }

  lemma RunZero(w: seq<nat>, q: Queues)
    requires Valid(w, q)
    ensures Run(w, q, 0) == q && forall i :: 0 <= i < |w| ==> Count(w, q, 0, i) == 0
  {
  }

  /** After any number of full cycles every node has had that many shares. */
  lemma {:induction false} ManyCycles(w: seq<nat>, q: Queues, m: nat)
    requires Boundary(w, q)
    ensures m * Cycle(w) >= 0 && Boundary(w, Run(w, q, m * Cycle(w)))
    ensures forall i :: 0 <= i < |w| ==> Count(w, q, m * Cycle(w), i) == m * Share(w, i)
  {
    hide Run, Count, Valid, Cycle, Share;
    if m == 0 {
      RunZero(w, q);
    } else {
      BoundaryPositive(w, q);
      ManyCycles(w, q, m - 1);
      var j := (m - 1) * Cycle(w);
      RunPlus(w, q, j, Cycle(w));
      CycleExact(w, Run(w, q, j));
      assert j + Cycle(w) == m * Cycle(w) by { Distribute(Cycle(w), m, 1); }
      forall i | 0 <= i < |w| ensures Count(w, q, m * Cycle(w), i) == m * Share(w, i) {
        Distribute(Share(w, i), m, 1);
      }
    }
  }

  // Interleaving: the current queue is a run of nodes that paid `paid`, then of nodes that paid once more.

  ghost predicate Rounds(w: seq<nat>, q: Queues, paid: int, split: nat)
    requires |q.rem| == |w| && Within(q.cur, |w|)
  {
    && split <= |q.cur|
    && (forall k :: 0 <= k < split ==> w[q.cur[k]] - q.rem[q.cur[k]] == paid)
    && (forall k :: split <= k < |q.cur| ==> w[q.cur[k]] - q.rem[q.cur[k]] == paid + GcdOf(w))
  }

  lemma ServeKeepsRounds(w: seq<nat>, q: Queues, paid: int, split: nat) returns (paid': int, split': nat)
    requires Valid(w, q) && q.cur != [] && Rounds(w, q, paid, split)
    ensures var r := Serve(w, GcdOf(w), q); |r.rem| == |w| && Within(r.cur, |w|) && Rounds(w, r, paid', split')
  {
    hide GcdOf, Divides;
    var h, r := q.cur[0], Serve(w, GcdOf(w), q);
    forall k | 0 <= k < |q.cur| - 1 ensures r.cur[k] == q.cur[k + 1] != h {
      assert q.cur[0] != q.cur[k + 1];
    }
    if split == 0 {
      paid', split' := paid + GcdOf(w), |q.cur| - 1;
    } else {
      paid', split' := paid, split - 1;
    }
  }

  lemma RoundsStart(w: seq<nat>, q: Queues)
    requires Boundary(w, q)
    ensures Rounds(w, Run(w, q, 0), 0, |q.cur|)
  {
  }

  lemma {:induction false} CycleRounds(w: seq<nat>, q: Queues, k: nat) returns (paid: int, split: nat)
    requires Boundary(w, q) && q.nxt == [] && k <= Cycle(w)
    ensures Rounds(w, Run(w, q, k), paid, split)
  {
    hide Run, Count, Serve, Account, Rounds, GcdOf, Cycle, Divides;
    if k == 0 {
      RoundsStart(w, q);
      paid, split := 0, |q.cur|;
    } else {
      paid, split := CycleRounds(w, q, k - 1);
      CycleAccount(w, q, k - 1);
      MidCycle(w, q, k - 1);
      RunServe(w, q, k - 1);
      paid, split := ServeKeepsRounds(w, Run(w, q, k - 1), paid, split);
    }
  }

  /**
  Interleaving: at any point of a cycle, two nodes that are both still in the current queue
  have been served counts that differ by at most one.
  */
  lemma Interleaved(w: seq<nat>, q: Queues, k: nat, i: nat, j: nat)
    requires Boundary(w, q) && 0 < k <= Cycle(w)
    requires i in Run(w, q, k).cur && j in Run(w, q, k).cur
    ensures i < |w| && j < |w| && Count(w, q, k, i) <= Count(w, q, k, j) + 1
  {
    var s := Swapped(q);
    SwappedValid(w, q);
    RunSwapped(w, q, k);
    CycleAccount(w, s, k);
    var paid, split := CycleRounds(w, s, k);
    hide Run, Count, Cycle, GcdOf, Sum, Left, Divides;
    var r := Run(w, s, k);
    var a :| 0 <= a < |r.cur| && r.cur[a] == i;
    var b :| 0 <= b < |r.cur| && r.cur[b] == j;
    PaidApart(GcdOf(w), Count(w, s, k, i), Count(w, s, k, j));
  }

  lemma PaidApart(g: nat, x: nat, y: nat)
    requires g > 0 && g * x <= g * y + g
    ensures x <= y + 1
  {
    Distribute(g, x - y, 1);
    Distribute(g, x, y);
    MulAtLeast(g, x - y - 1);
  }

  // Equal weights.

  /** The constructor's state: all nodes in the current queue, in order, full. */
  function Start(w: seq<nat>): Queues {
    Queues(seq(|w|, i => i), [], w)
  }

  lemma StartBoundary(w: seq<nat>)
    requires Positive(w)
    ensures Boundary(w, Start(w)) && Start(w).nxt == []
  {
    var q := Start(w);
    forall i | 0 <= i < |w| ensures Divides(GcdOf(w), w[i]) && i in q.cur {
      GcdOfDivides(w, i);
      assert q.cur[i] == i;
    }
  }

  /** With equal weights each call moves the head to the other queue. */
  lemma {:induction false} EqualWeightsRun(w: seq<nat>, q: Queues, k: nat)
    requires Boundary(w, q) && q.nxt == [] && k <= |q.cur|
    requires forall i, j :: 0 <= i < j < |w| ==> w[i] == w[j]
    ensures Run(w, q, k) == Queues(q.cur[k..], q.cur[..k], w)
  {
    hide GcdOf, Run, Valid, Count;
    if k == 0 {
      RunZero(w, q);
    } else {
      EqualWeightsRun(w, q, k - 1);
      RunServe(w, q, k - 1);
      assert Positive(w) by { BoundaryPositive(w, q); }
      EqualWeightsDivisor(w);
      var h := q.cur[k - 1];
      assert q.cur[k - 1..][0] == h && q.cur[k - 1..][1..] == q.cur[k..] && q.cur[..k - 1] + [h] == q.cur[..k];
      assert w[h := w[h]] == w;
    }
  }

  lemma BoundaryPositive(w: seq<nat>, q: Queues)
    requires Boundary(w, q)
    ensures Positive(w)
  {
  }

  lemma EqualWeightsDivisor(w: seq<nat>)
    requires Positive(w) && forall i, j :: 0 <= i < j < |w| ==> w[i] == w[j]
    ensures forall i :: 0 <= i < |w| ==> w[i] == GcdOf(w)
  {
    DividesFromFactor(w[0], 1);
    forall i | 0 <= i < |w| ensures Divides(w[0], 1 * w[i]) { assert w[0] == w[i]; }
    GcdOfGreatest(w[0], 1, w);
    GcdOfDivides(w, 0);
    DividesEachOther(GcdOf(w), w[0]);
  }
}
