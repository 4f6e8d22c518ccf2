/**
Why plain round robin may stand in for the weighted pickers when all weights are equal: up to
the start all three hand out the instances in cyclic order, except where a 64-bit ticket wraps.
*/
module BalancedShortcut {
  import opened Arith
  import opened Discovery
  import opened Gcd
  import opened WeightedBalancer
  import Smooth = SmoothWrr
  import Interleaved = InterleavedWrr
  import opened WrrCache

  lemma RotateEqual(ins: seq<Instance>, offset: nat)
    requires PositiveWeights(ins) && EqualWeights(ins) && offset < |ins|
    ensures PositiveWeights(Rotate(ins, offset)) && EqualWeights(Rotate(ins, offset))
  {
    var r := Rotate(ins, offset);
    forall i | 0 <= i < |r| ensures r[i].weight == ins[0].weight {
      assert r[i] == RotatedAt(ins, offset, i);
    }
  }

  // Remainders.

  lemma AddMultiple(a: int, q: int, n: nat)
    requires n > 0
    ensures (a + n * q) % n == a % n
  {
    DivModDef(a, n);
    Distribute(n, a / n, q);
    DivModUnique(a + n * q, n, a / n + q, a % n);
  }

  /** A term may be reduced before it is added. */
  lemma ReduceTerm(a: int, b: int, n: nat)
    requires n > 0
    ensures (a + b % n) % n == (a + b) % n
  {
    DivModDef(b, n);
    AddMultiple(a + b % n, b / n, n);
  }

  lemma SameRemainder(a: int, b: int, n: nat)
    requires n > 0 && a % n == b % n
    ensures Divides(n, a - b)
  {
    DivModDef(a, n);
    DivModDef(b, n);
    Distribute(n, a / n, b / n);
    DividesFromFactor(n, a / n - b / n);
  }

  lemma ReduceTwice(x: int, m: nat, n: nat)
    requires m > 0 && Divides(n, m)
    ensures x % m % n == x % n
  {
    DivModDef(x, m);
    DividesMultiple(n, m, x / m);
    var q := Cofactor(n, m * (x / m));
    AddMultiple(x % m, q, n);
  }

  lemma ModMinus(k: nat, n: nat)
    requires 0 < n <= k
    ensures (k - n) % n == k % n
  {
    DivModDef(k - n, n);
    Distribute(n, (k - n) / n, 1);
    DivModUnique(k, n, (k - n) / n + 1, (k - n) % n);
  }

  /** The interleaved schedule of equal weights is the plain cyclic order. */
  lemma {:induction false} InterleavedCyclic(w: seq<nat>, k: nat)
    requires Smooth.Positive(w) && forall i, j :: 0 <= i < j < |w| ==> w[i] == w[j]
    ensures Interleaved.Boundary(w, Interleaved.Start(w))
    ensures Interleaved.Served(w, Interleaved.Run(w, Interleaved.Start(w), k)) == k % |w|
  {
    hide Interleaved.Run, Interleaved.Served, Interleaved.Valid, Interleaved.Start;
    Interleaved.StartBoundary(w);
    if k < |w| {
      FirstRound(w, k);
    } else {
      InterleavedCyclic(w, k - |w|);
      OneRound(w, k - |w|);
      ModMinus(k, |w|);
    }
  }

  lemma FirstRound(w: seq<nat>, k: nat)
    requires Smooth.Positive(w) && k < |w| && forall i, j :: 0 <= i < j < |w| ==> w[i] == w[j]
    requires Interleaved.Boundary(w, Interleaved.Start(w))
    ensures Interleaved.Served(w, Interleaved.Run(w, Interleaved.Start(w), k)) == k % |w|
  {
    hide Interleaved.Run, Interleaved.Served, Interleaved.Valid;
    Interleaved.EqualWeightsRun(w, Interleaved.Start(w), k);
    HeadServed(w, Interleaved.Start(w), k);
  }

  lemma HeadServed(w: seq<nat>, q: Interleaved.Queues, k: nat)
    requires Interleaved.Boundary(w, q) && q == Interleaved.Start(w) && k < |w|
    requires Interleaved.Run(w, q, k) == Interleaved.Queues(q.cur[k..], q.cur[..k], w)
    ensures Interleaved.Served(w, Interleaved.Run(w, q, k)) == k
  {
    hide Interleaved.Run, Interleaved.Valid;
    assert q.cur[k..] != [] && q.cur[k..][0] == q.cur[k] == k;
  }

  /** After one round of equal weights the swapped queues are the initial ones. */
  lemma OneRound(w: seq<nat>, k: nat)
    requires Smooth.Positive(w) && forall i, j :: 0 <= i < j < |w| ==> w[i] == w[j]
    requires Interleaved.Boundary(w, Interleaved.Start(w))
    ensures Interleaved.Served(w, Interleaved.Run(w, Interleaved.Start(w), k + |w|))
            == Interleaved.Served(w, Interleaved.Run(w, Interleaved.Start(w), k))
  {
    hide Interleaved.Run, Interleaved.Valid, Interleaved.Served, Interleaved.Step, Interleaved.Count;
    var q, n := Interleaved.Start(w), |w|;
    Interleaved.EqualWeightsRun(w, q, n);
    Interleaved.RunPlus(w, q, n, k);
    var q' := Interleaved.Run(w, q, n);
    assert q.cur[n..] == [] && q.cur[..n] == q.cur;
    assert Interleaved.Swapped(q') == q;
    Interleaved.RunSwapped(w, q', k);
    Interleaved.RunZero(w, q);
    Interleaved.RunZero(w, q');
    Interleaved.SameCall(w, q', Interleaved.Run(w, q, k), Interleaved.Run(w, q', k));
  }

  // What the three pickers answer to their `k`-th call, counted from one.

  function PlainIndex(start: nat, k: nat, n: nat): (i: nat)
    requires n > 0
    ensures i < n
  {
    (start + k) % TWO_64 % n
  }

  function SmoothIndex(offset: nat, k: nat, n: nat): (i: nat)
    requires n > 0
    ensures i < n
  {
    (k % TWO_64 + offset) % n
  }

  function InterleavedIndex(offset: nat, k: nat, n: nat): (i: nat)
    requires n > 0 && k > 0
    ensures i < n
  {
    (k - 1 + offset) % n
  }

  lemma RotatedIndex(ins: seq<Instance>, offset: nat, j: nat)
    requires offset < |ins|
    ensures 0 <= j % |ins| < |ins| && 0 <= (j + offset) % |ins| < |ins|
    ensures Rotate(ins, offset)[j % |ins|] == ins[(j + offset) % |ins|]
  {
    DivModDef(j, |ins|);
    DivModDef(j + offset, |ins|);
    ReduceTerm(offset, j, |ins|);
  }

  /** Plain round robin's counter stands at the ticket of call `k`; incremented, it gives the answer to the next call. */
  lemma PlainAnswer(start: nat, k: nat, n: nat)
    requires n > 0
    ensures ((start + k) % TWO_64 + 1) % TWO_64 % n == PlainIndex(start, k + 1, n)
  {
    NextModulo(start + k, TWO_64);
  }

  /** Equal weights: the smooth picker answers ticket `k`, as the 64-bit counter gives it, with this instance. */
  lemma SmoothAnswer(ins: seq<Instance>, offset: nat, k: nat)
    requires PositiveWeights(ins) && EqualWeights(ins) && offset < |ins|
    ensures var r := Rotate(ins, offset);
            PositiveWeights(r) && r[Smooth.Pick(Weights(r), k % TWO_64)] == ins[SmoothIndex(offset, k, |ins|)]
  {
    hide Smooth.Pick, RotatedAt, Rotate;
    RotateEqual(ins, offset);
    var r, t := Rotate(ins, offset), k % TWO_64;
    Smooth.EqualWeightsCyclic(Weights(r), t);
    RotatedIndex(ins, offset, t);
  }

  /** Equal weights: the interleaved picker's `k`-th call returns this instance. */
  lemma InterleavedAnswer(ins: seq<Instance>, offset: nat, k: nat)
    requires PositiveWeights(ins) && EqualWeights(ins) && offset < |ins| && k > 0
    ensures var r := Rotate(ins, offset);
            && PositiveWeights(r) && Interleaved.Boundary(Weights(r), Interleaved.Start(Weights(r)))
            && r[Interleaved.Served(Weights(r), Interleaved.Run(Weights(r), Interleaved.Start(Weights(r)), k - 1))]
               == ins[InterleavedIndex(offset, k, |ins|)]
  {
    hide Interleaved.Run, Interleaved.Valid, Interleaved.Served, Interleaved.Start, Interleaved.Boundary, RotatedAt, Rotate;
    RotateEqual(ins, offset);
    InterleavedCyclic(Weights(Rotate(ins, offset)), k - 1);
    RotatedIndex(ins, offset, k - 1);
  }

  // Tickets.

  /** The tickets of calls `first` to `first + count - 1` of a counter started at `start` do not pass 2^64. */
  predicate NoWrap(start: nat, first: nat, count: nat) { (start + first) % TWO_64 + count <= TWO_64 }

  lemma TicketBeforeWrap(x: nat, d: nat)
    requires x % TWO_64 + d < TWO_64
    ensures (x + d) % TWO_64 == x % TWO_64 + d
  {
    DivModDef(x, TWO_64);
    DivModUnique(x + d, TWO_64, x / TWO_64, x % TWO_64 + d);
  }

  /** A window that wraps holds two neighbouring calls with the tickets 2^64 - 1 and 0. */
  lemma TicketsAtWrap(start: nat, first: nat, count: nat) returns (k: nat)
    requires !NoWrap(start, first, count)
    ensures first <= k && k + 1 < first + count
    ensures (start + k) % TWO_64 == TWO_64 - 1 && (start + k + 1) % TWO_64 == 0
  {
    var t := (start + first) % TWO_64;
    k := first + (TWO_64 - 1 - t);
    TicketBeforeWrap(start + first, TWO_64 - 1 - t);
    NextModulo(start + k, TWO_64);
  }

  /** Between two neighbouring calls a ticket grows by one or falls from the last to the first. */
  lemma NextTicket(x: nat)
    ensures (x + 1) % TWO_64 == if x % TWO_64 == TWO_64 - 1 then 0 else x % TWO_64 + 1
  {
    NextModulo(x, TWO_64);
  }

  /** Two answers in a row that agree: the tickets have grown by the same amount, up to a multiple of `n`. */
  lemma AgreeTwice(p: int, p': int, y: int, y': int, o: int, n: nat)
    requires n > 0 && p % n == (y + o) % n && p' % n == (y' + o) % n
    ensures Divides(n, (p' - p) - (y' - y))
  {
    SameRemainder(p, y + o, n);
    SameRemainder(p', y' + o, n);
    DividesSum(n, p' - (y' + o), p - (y + o));
  }

  /** Plain round robin over three instances, at the wrap: the same instance twice in a row. */
  lemma PlainRepeats()
    ensures PlainIndex(TWO_64 - 2, 1, 3) == PlainIndex(TWO_64 - 2, 2, 3) == 0
  {
  }

  // Interleaved and plain.

  ghost predicate PlainAsInterleaved(start: nat, first: nat, count: nat, n: nat, offset: nat)
    requires n > 0 && first > 0
  {
    offset < n && forall k :: first <= k < first + count ==> PlainIndex(start, k, n) == InterleavedIndex(offset, k, n)
  }

  /**
  For some offset the interleaved picker answers a window of calls as plain round robin does,
  exactly when no ticket wraps in the window or the number of instances divides 2^64.
  */
  lemma InterleavedShortcut(start: nat, first: nat, count: nat, n: nat)
    requires n > 0 && first > 0
    ensures (exists offset :: PlainAsInterleaved(start, first, count, n, offset)) <==>
              NoWrap(start, first, count) || Divides(n, TWO_64)
  {
    hide PlainAsInterleaved, NoWrap, Divides;
    if NoWrap(start, first, count) {
      InterleavedBeforeWrap(start, first, count, n);
    } else if Divides(n, TWO_64) {
      InterleavedDivides(start, first, count, n);
    } else {
      forall offset ensures !PlainAsInterleaved(start, first, count, n, offset) {
        if PlainAsInterleaved(start, first, count, n, offset) { InterleavedWraps(start, first, count, n, offset); }
      }
    }
  }

  lemma InterleavedBeforeWrap(start: nat, first: nat, count: nat, n: nat)
    requires n > 0 && first > 0 && NoWrap(start, first, count)
    ensures exists offset :: PlainAsInterleaved(start, first, count, n, offset)
  {
    var t := (start + first) % TWO_64;
    var offset := (t - (first - 1)) % n;
    DivModDef(t - (first - 1), n);
    forall k | first <= k < first + count ensures PlainIndex(start, k, n) == InterleavedIndex(offset, k, n) {
      InterleavedCallBeforeWrap(start, first, k, n, t);
    }
    assert PlainAsInterleaved(start, first, count, n, offset);
  }

  lemma InterleavedCallBeforeWrap(start: nat, first: nat, k: nat, n: nat, t: nat)
    requires n > 0 && 0 < first <= k && t == (start + first) % TWO_64 && t + (k - first) < TWO_64
    ensures (t - (first - 1)) % n >= 0 && PlainIndex(start, k, n) == InterleavedIndex((t - (first - 1)) % n, k, n)
  {
    hide PlainIndex;
    PlainFrom(start, first, k - first, n);
    ReduceTerm(k - 1, t - (first - 1), n);
    DivModDef(t - (first - 1), n);
  }

  lemma InterleavedDivides(start: nat, first: nat, count: nat, n: nat)
    requires n > 0 && first > 0 && Divides(n, TWO_64)
    ensures exists offset :: PlainAsInterleaved(start, first, count, n, offset)
  {
    var offset := (start + 1) % n;
    DivModDef(start + 1, n);
    forall k | first <= k < first + count ensures PlainIndex(start, k, n) == InterleavedIndex(offset, k, n) {
      ReduceTwice(start + k, TWO_64, n);
      ReduceTerm(k - 1, start + 1, n);
    }
    assert PlainAsInterleaved(start, first, count, n, offset);
  }

  lemma InterleavedWraps(start: nat, first: nat, count: nat, n: nat, offset: nat)
    requires n > 0 && first > 0 && !NoWrap(start, first, count) && PlainAsInterleaved(start, first, count, n, offset)
    ensures Divides(n, TWO_64)
  {
    hide Divides;
    var k := TicketsAtWrap(start, first, count);
    assert PlainIndex(start, k, n) == InterleavedIndex(offset, k, n);
    assert PlainIndex(start, k + 1, n) == InterleavedIndex(offset, k + 1, n);
    AgreeTwice(TWO_64 - 1, 0, k - 1, k, offset, n);
    DividesNegated(n, TWO_64);
  }

  lemma DividesNegated(n: nat, m: int)
    requires Divides(n, -m)
    ensures Divides(n, m)
  {
    var q := Cofactor(n, -m);
    Distribute(n, 0, q);
    DividesFromFactor(n, -q);
  }

  // Smooth and plain: both draw 64-bit tickets, the smooth picker's counter from zero.

  ghost predicate PlainAsSmooth(start: nat, first: nat, count: nat, n: nat, offset: nat)
    requires n > 0
  {
    offset < n && forall k :: first <= k < first + count ==> PlainIndex(start, k, n) == SmoothIndex(offset, k, n)
  }

  /**
  For some offset the smooth picker answers a window of calls as plain round robin does, exactly
  when neither counter wraps in the window, or both always wrap together, or the number of
  instances divides 2^64.
  */
  lemma SmoothShortcut(start: nat, first: nat, count: nat, n: nat)
    requires n > 0 && start < TWO_64
    ensures (exists offset :: PlainAsSmooth(start, first, count, n, offset)) <==>
              (NoWrap(start, first, count) && NoWrap(0, first, count)) || start == 0 || Divides(n, TWO_64)
  {
    hide PlainAsSmooth, NoWrap, Divides;
    if NoWrap(start, first, count) && NoWrap(0, first, count) {
      SmoothBeforeWrap(start, first, count, n);
    } else if start == 0 {
      SmoothTogether(first, count, n);
    } else if Divides(n, TWO_64) {
      SmoothDivides(start, first, count, n);
    } else {
      forall offset ensures !PlainAsSmooth(start, first, count, n, offset) {
        if PlainAsSmooth(start, first, count, n, offset) { SmoothWraps(start, first, count, n, offset); }
      }
    }
  }

  lemma SmoothBeforeWrap(start: nat, first: nat, count: nat, n: nat)
    requires n > 0 && NoWrap(start, first, count) && NoWrap(0, first, count)
    ensures exists offset :: PlainAsSmooth(start, first, count, n, offset)
  {
    var t, y := (start + first) % TWO_64, first % TWO_64;
    var offset := (t - y) % n;
    DivModDef(t - y, n);
    forall k | first <= k < first + count ensures PlainIndex(start, k, n) == SmoothIndex(offset, k, n) {
      SmoothCallBeforeWrap(start, first, k, n, t, y);
    }
    assert PlainAsSmooth(start, first, count, n, offset);
  }

  lemma SmoothCallBeforeWrap(start: nat, first: nat, k: nat, n: nat, t: nat, y: nat)
    requires n > 0 && first <= k && t == (start + first) % TWO_64 && y == first % TWO_64
    requires t + (k - first) < TWO_64 && y + (k - first) < TWO_64
    ensures (t - y) % n >= 0 && PlainIndex(start, k, n) == SmoothIndex((t - y) % n, k, n)
  {
    hide PlainIndex, SmoothIndex;
    var d := k - first;
    assert PlainIndex(start, k, n) == (t + d) % n by { PlainFrom(start, first, d, n); }
    assert SmoothIndex((t - y) % n, k, n) == (y + d + (t - y) % n) % n by { SmoothFrom((t - y) % n, first, d, n); }
    ReduceTerm(y + d, t - y, n);
    DivModDef(t - y, n);
  }

  /** The plain answer `d` calls after call `first`, with no wrap in between. */
  lemma PlainFrom(start: nat, first: nat, d: nat, n: nat)
    requires n > 0 && (start + first) % TWO_64 + d < TWO_64
    ensures PlainIndex(start, first + d, n) == ((start + first) % TWO_64 + d) % n
  {
    TicketBeforeWrap(start + first, d);
    assert start + (first + d) == start + first + d;
  }

  lemma SmoothFrom(offset: nat, first: nat, d: nat, n: nat)
    requires n > 0 && first % TWO_64 + d < TWO_64
    ensures SmoothIndex(offset, first + d, n) == (first % TWO_64 + d + offset) % n
  {
    TicketBeforeWrap(first, d);
  }

  lemma SmoothTogether(first: nat, count: nat, n: nat)
    requires n > 0
    ensures exists offset :: PlainAsSmooth(0, first, count, n, offset)
  {
    assert PlainAsSmooth(0, first, count, n, 0);
  }

  lemma SmoothDivides(start: nat, first: nat, count: nat, n: nat)
    requires n > 0 && Divides(n, TWO_64)
    ensures exists offset :: PlainAsSmooth(start, first, count, n, offset)
  {
    var offset := start % n;
    DivModDef(start, n);
    forall k | first <= k < first + count ensures PlainIndex(start, k, n) == SmoothIndex(offset, k, n) {
      ReduceTwice(start + k, TWO_64, n);
      ReduceTwice(k, TWO_64, n);
      ReduceTerm(k % TWO_64, start, n);
      ReduceTerm(start, k % TWO_64, n);
      ReduceTerm(start, k, n);
    }
    assert PlainAsSmooth(start, first, count, n, offset);
  }

  lemma SmoothWraps(start: nat, first: nat, count: nat, n: nat, offset: nat)
    requires n > 0 && 0 < start < TWO_64 && !(NoWrap(start, first, count) && NoWrap(0, first, count))
    requires PlainAsSmooth(start, first, count, n, offset)
    ensures Divides(n, TWO_64)
  {
    hide Divides, NoWrap;
    var plainWraps := !NoWrap(start, first, count);
    var k := TicketsAtWrap(if plainWraps then start else 0, first, count);
    assert PlainIndex(start, k, n) == SmoothIndex(offset, k, n);
    assert PlainIndex(start, k + 1, n) == SmoothIndex(offset, k + 1, n);
    var p, y := (start + k) % TWO_64, k % TWO_64;
    var p', y' := (start + k + 1) % TWO_64, (k + 1) % TWO_64;
    AgreeTwice(p, p', y, y', offset, n);
    NotTogether(start, k);
    NextTicket(start + k);
    NextTicket(k);
    if plainWraps { DividesNegated(n, TWO_64); }
  }

  /** Counters started apart never wrap at the same call. */
  lemma NotTogether(start: nat, k: nat)
    requires 0 < start < TWO_64
    ensures (start + k) % TWO_64 != k % TWO_64
  {
    if (start + k) % TWO_64 == k % TWO_64 {
      SameRemainder(start + k, k, TWO_64);
      DivModUnique(start, TWO_64, 0, start);
    }
  }
}
