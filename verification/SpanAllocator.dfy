/**
The span allocator: a linear allocator behind a try-lock, shared by any number of callers that
fall back to the native allocator when they lose the race. Index arithmetic is 32-bit.
*/
module SpanAllocator {
  import opened Discovery

  const TWO_31 := 0x8000_0000
  const TWO_32 := 0x1_0000_0000

  /** A slice `[lo:hi:cap]` of buffer number `buf`; every native allocation is a buffer of its own. */
  datatype Slice = Slice(buf: nat, lo: int, hi: int, cap: int)

  /** A caller of `Make`. `tries` counts how often it has passed START. */
  datatype Pc =
    | Locked(n: nat, tries: nat)    // about to advance `read`
    | Advanced(n: nat, tries: nat)  // has advanced it
    | Holding(n: nat, slice: Slice) // has its slice, about to unlock
    | Done(n: nat, slice: Slice)
    | Panicked(n: nat)              // the slice bounds were out of range; the lock is never released

  /**
  `buffers` counts the buffers made so far, `holder` is the caller that took the lock, and
  `tails` lists each abandoned tail with the request that abandoned it.
  */
  datatype State = State(
    size: nat, lock: bool, read: nat, buffer: nat, buffers: nat,
    holder: Option<nat>, calls: map<nat, Pc>, tails: seq<(int, int)>)

  datatype Event =
    | Enter(id: nat, n: int) // a call with argument `n`: the size test and the compare-and-swap
    | Advance(id: nat)
    | Cut(id: nat)           // the fast path
    | Rollover(id: nat)      // the slow path
    | Unlock(id: nat)

  function Truncate(n: int): nat { n % TWO_32 }

  predicate Enabled(s: State, e: Event) {
    match e
    case Enter(id, _) => id !in s.calls
    case Advance(id) => id in s.calls && s.calls[id].Locked?
    case Cut(id) => id in s.calls && s.calls[id].Advanced? && s.read <= s.size
    case Rollover(id) => id in s.calls && s.calls[id].Advanced? && s.read > s.size
    case Unlock(id) => id in s.calls && s.calls[id].Holding?
  }

  function Apply(s: State, e: Event): State
    requires Enabled(s, e)
  {
    match e
    case Enter(id, arg) =>
      var n := Truncate(arg);
      if n >= s.size || s.lock
      then s.(buffers := s.buffers + 1, calls := s.calls[id := Done(n, Slice(s.buffers, 0, n, n))])
      else s.(lock := true, holder := Some(id), calls := s.calls[id := Locked(n, 0)])
    case Advance(id) =>
      var pc := s.calls[id];
      s.(read := Truncate(s.read + pc.n), calls := s.calls[id := Advanced(pc.n, pc.tries + 1)])
    case Cut(id) =>
      var n := s.calls[id].n;
      var lo := Truncate(s.read - n);
      s.(calls := s.calls[id := if lo <= s.read then Holding(n, Slice(s.buffer, lo, s.read, s.read)) else Panicked(n)])
    case Rollover(id) =>
      var pc := s.calls[id];
      s.(buffer := s.buffers, buffers := s.buffers + 1, read := 0,
         calls := s.calls[id := Locked(pc.n, pc.tries)],
         tails := s.tails + [(s.size - (s.read - pc.n), pc.n)])
    case Unlock(id) =>
      s.(lock := false, holder := None, calls := s.calls[id := Done(s.calls[id].n, s.calls[id].slice)])
  }

  /** `NewSpan` with any argument: the size is its low 32 bits. */
  function Init(arg: int): State { State(Truncate(arg), false, 0, 0, 1, None, map[], []) }

  // What every interleaving keeps.

  /** The lock holder's place agrees with `read`; a second pass through START begins at zero. */
  ghost predicate HolderInv(s: State, pc: Pc) {
    && pc.n < s.size
    && match pc
       case Locked(n, tries) => s.read <= s.size && tries <= 1 && (tries == 1 ==> s.read == 0)
       case Advanced(n, tries) =>
         n <= s.read <= s.size + n && 1 <= tries <= 2 && (tries == 2 ==> s.read == n)
       case Holding(_, _) => s.read <= s.size
       case Done(_, _) => false
       case Panicked(_) => false
  }

  ghost predicate LockInv(s: State) {
    && s.size <= TWO_31 && s.buffer < s.buffers
    && (s.lock <==> s.holder.Some?)
    && (s.holder.Some? ==> s.holder.value in s.calls && HolderInv(s, s.calls[s.holder.value]))
    && (s.holder.None? ==> s.read <= s.size)
    && (forall i :: i in s.calls && !s.calls[i].Done? ==> s.holder == Some(i))
  }

  predicate HasSlice(pc: Pc) { pc.Holding? || pc.Done? }

  /** Where the free part of the current buffer begins. */
  ghost function Frontier(s: State): int
    requires LockInv(s)
  {
    if s.holder.Some? && s.calls[s.holder.value].Advanced? then s.read - s.calls[s.holder.value].n else s.read
  }

  ghost predicate SliceInv(s: State, pc: Pc)
    requires LockInv(s) && HasSlice(pc)
  {
    && pc.slice.buf < s.buffers && 0 <= pc.slice.lo
    && pc.slice.hi == pc.slice.cap == pc.slice.lo + pc.n
    && (pc.slice.buf == s.buffer ==> pc.slice.hi <= Frontier(s))
  }

  ghost predicate Disjoint(a: Slice, b: Slice) {
    a.buf != b.buf || a.cap <= b.lo || b.cap <= a.lo
  }

  ghost predicate SlicesInv(s: State)
    requires LockInv(s)
  {
    && (forall i :: i in s.calls && HasSlice(s.calls[i]) ==> SliceInv(s, s.calls[i]))
    && (forall i, j :: i in s.calls && j in s.calls && i != j && HasSlice(s.calls[i]) && HasSlice(s.calls[j]) ==>
          Disjoint(s.calls[i].slice, s.calls[j].slice))
  }

  ghost predicate TailsInv(s: State) {
    forall k :: 0 <= k < |s.tails| ==> 0 <= s.tails[k].0 < s.tails[k].1
  }

  ghost predicate Inv(s: State) { LockInv(s) && SlicesInv(s) && TailsInv(s) }

  /** Up to 2^31 the sum never wraps. */
  lemma NoWrap(size: nat, read: nat, n: nat)
    requires size <= TWO_31 && read <= size && n < size
    ensures Truncate(read + n) == read + n
  {
  }

  lemma NoBorrow(read: nat, n: nat)
    requires n <= read < TWO_32
    ensures Truncate(read - n) == read - n
  {
  }

  lemma StepKeepsLock(s: State, e: Event)
    requires LockInv(s) && Enabled(s, e)
    ensures LockInv(Apply(s, e))
  {
    hide Truncate;
    if e.Advance? { NoWrap(s.size, s.read, s.calls[e.id].n); }
    if e.Cut? { NoBorrow(s.read, s.calls[e.id].n); }
  }

  lemma StepKeepsEach(s: State, e: Event, i: nat)
    requires LockInv(s) && SlicesInv(s) && Enabled(s, e) && LockInv(Apply(s, e))
    requires i in Apply(s, e).calls && HasSlice(Apply(s, e).calls[i])
    ensures SliceInv(Apply(s, e), Apply(s, e).calls[i])
  {
    hide Truncate;
    if e.Advance? { NoWrap(s.size, s.read, s.calls[e.id].n); }
    if e.Cut? { NoBorrow(s.read, s.calls[e.id].n); }
    if i != e.id || e.Unlock? { assert SliceInv(s, s.calls[i]); }
  }

  lemma StepKeepsApart(s: State, e: Event, i: nat, j: nat)
    requires LockInv(s) && SlicesInv(s) && Enabled(s, e)
    requires i in Apply(s, e).calls && j in s.calls && i != j && j != e.id
    requires HasSlice(Apply(s, e).calls[i]) && HasSlice(s.calls[j])
    ensures Disjoint(Apply(s, e).calls[i].slice, s.calls[j].slice)
  {
    hide Truncate;
    if e.Cut? { NoBorrow(s.read, s.calls[e.id].n); }
    assert SliceInv(s, s.calls[j]);
  }

  lemma StepKeepsSlices(s: State, e: Event)
    requires LockInv(s) && SlicesInv(s) && Enabled(s, e)
    ensures LockInv(Apply(s, e)) && SlicesInv(Apply(s, e))
  {
    hide LockInv, SliceInv;
    StepKeepsLock(s, e);
    var s' := Apply(s, e);
    forall i | i in s'.calls && HasSlice(s'.calls[i]) ensures SliceInv(s', s'.calls[i]) {
      StepKeepsEach(s, e, i);
    }
    forall i, j | i in s'.calls && j in s'.calls && i != j && HasSlice(s'.calls[i]) && HasSlice(s'.calls[j])
      ensures Disjoint(s'.calls[i].slice, s'.calls[j].slice)
    {
      if j != e.id { StepKeepsApart(s, e, i, j); } else { StepKeepsApart(s, e, j, i); }
    }
  }

  lemma StepKeepsInv(s: State, e: Event)
    requires Inv(s) && Enabled(s, e)
    ensures Inv(Apply(s, e))
  {
    StepKeepsSlices(s, e);
  }

  ghost predicate IsRun(arg: int, run: seq<State>, events: seq<Event>) {
    && |run| == |events| + 1 && run[0] == Init(arg)
    && forall k :: 0 <= k < |events| ==> Enabled(run[k], events[k]) && run[k + 1] == Apply(run[k], events[k])
  }

  lemma {:induction false} RunInv(arg: int, run: seq<State>, events: seq<Event>, k: nat)
    requires Truncate(arg) <= TWO_31 && IsRun(arg, run, events) && k < |run|
    ensures Inv(run[k])
  {
    hide Apply, Enabled, LockInv, SlicesInv;
    if k == 0 {
      InitInv(arg);
    } else {
      RunInv(arg, run, events, k - 1);
      StepKeepsInv(run[k - 1], events[k - 1]);
    }
  }

  lemma InitInv(arg: int)
    requires Truncate(arg) <= TWO_31
    ensures Inv(Init(arg))
  {
  }

  /**
  For spans of a size up to 2^31, whatever the interleaving: any two slices handed out are
  disjoint, up to their capacities.
  */
  lemma SlicesDisjoint(arg: int, run: seq<State>, events: seq<Event>, k: nat, i: nat, j: nat)
    requires Truncate(arg) <= TWO_31 && IsRun(arg, run, events) && k < |run|
    requires i in run[k].calls && j in run[k].calls && i != j
    requires HasSlice(run[k].calls[i]) && HasSlice(run[k].calls[j])
    ensures Disjoint(run[k].calls[i].slice, run[k].calls[j].slice)
  {
    RunInv(arg, run, events, k);
  }

  /**
  A call is given length and capacity as requested, passes START at most twice and never panics,
  and every abandoned tail is smaller than the request that abandoned it.
  */
  lemma CallsServed(arg: int, run: seq<State>, events: seq<Event>, k: nat, i: nat)
    requires Truncate(arg) <= TWO_31 && IsRun(arg, run, events) && k < |run| && i in run[k].calls
    ensures WellServed(run[k].calls[i])
    ensures forall t :: 0 <= t < |run[k].tails| ==> 0 <= run[k].tails[t].0 < run[k].tails[t].1
  {
    RunInv(arg, run, events, k);
    if HasSlice(run[k].calls[i]) { assert SliceInv(run[k], run[k].calls[i]); }
  }

  ghost predicate WellServed(a: Pc) {
    && !a.Panicked?
    && (HasSlice(a) ==> 0 <= a.slice.lo && a.slice.hi - a.slice.lo == a.slice.cap - a.slice.lo == a.n)
    && (a.Locked? || a.Advanced? ==> a.tries <= 2)
  }

  /** Some call has the byte at position `p` of the current buffer. */
  ghost predicate Taken(s: State, p: int) {
    exists i :: i in s.calls && HasSlice(s.calls[i])
                && s.calls[i].slice.buf == s.buffer && s.calls[i].slice.lo <= p < s.calls[i].slice.hi
  }

  /** The buffer is handed out without gaps. */
  ghost predicate NoGaps(s: State)
    requires LockInv(s)
  {
    forall p :: 0 <= p < Frontier(s) ==> Taken(s, p)
  }

  lemma StepKeepsTaken(s: State, e: Event, p: int)
    requires LockInv(s) && Enabled(s, e) && !e.Rollover? && Taken(s, p)
    ensures Taken(Apply(s, e), p)
  {
    hide Truncate, LockInv;
    var i :| i in s.calls && HasSlice(s.calls[i])
             && s.calls[i].slice.buf == s.buffer && s.calls[i].slice.lo <= p < s.calls[i].slice.hi;
    var s' := Apply(s, e);
    assert i in s'.calls && HasSlice(s'.calls[i]) && s'.calls[i].slice == s.calls[i].slice && s'.buffer == s.buffer;
  }

  lemma StepKeepsNoGaps(s: State, e: Event)
    requires LockInv(s) && NoGaps(s) && Enabled(s, e) && LockInv(Apply(s, e))
    ensures NoGaps(Apply(s, e))
  {
    hide Truncate, Taken;
    var s' := Apply(s, e);
    if e.Advance? { NoWrap(s.size, s.read, s.calls[e.id].n); }
    forall p | 0 <= p < Frontier(s') ensures Taken(s', p) {
      if p < Frontier(s) {
        StepKeepsTaken(s, e, p);
      } else {
        CutTakes(s, e, p);
      }
    }
  }

  /** Only the fast path moves the frontier, over exactly the bytes it hands out. */
  lemma CutTakes(s: State, e: Event, p: int)
    requires LockInv(s) && Enabled(s, e) && LockInv(Apply(s, e)) && Frontier(s) <= p < Frontier(Apply(s, e))
    ensures Taken(Apply(s, e), p)
  {
    hide Truncate;
    if e.Advance? { NoWrap(s.size, s.read, s.calls[e.id].n); }
    if e.Cut? { NoBorrow(s.read, s.calls[e.id].n); }
    var s' := Apply(s, e);
    assert e.id in s'.calls && HasSlice(s'.calls[e.id]) && s'.calls[e.id].slice.buf == s'.buffer;
  }

  /** Every byte of the current buffer before the read index has been handed out: nothing but tails is ever lost. */
  lemma {:induction false} NothingSkipped(arg: int, run: seq<State>, events: seq<Event>, k: nat)
    requires Truncate(arg) <= TWO_31 && IsRun(arg, run, events) && k < |run|
    ensures LockInv(run[k]) && NoGaps(run[k])
  {
    hide Apply, Enabled, Truncate, LockInv, SlicesInv, Frontier, Taken;
    RunInv(arg, run, events, k);
    if k == 0 {
      InitNoGaps(arg);
    } else {
      RunInv(arg, run, events, k - 1);
      NothingSkipped(arg, run, events, k - 1);
      StepKeepsNoGaps(run[k - 1], events[k - 1]);
    }
  }

  lemma InitNoGaps(arg: int)
    requires LockInv(Init(arg))
    ensures NoGaps(Init(arg))
  {
  }

  /** A call that has not returned, or panicked, can always take its next step: Make never waits. */
  lemma NeverWaits(s: State, id: nat) returns (e: Event)
    requires id in s.calls && !s.calls[id].Done? && !s.calls[id].Panicked?
    ensures Enabled(s, e) && e.id == id && !e.Enter?
  {
    match s.calls[id]
    case Locked(_, _) => e := Advance(id);
    case Advanced(_, _) => e := if s.read <= s.size then Cut(id) else Rollover(id);
    case Holding(_, _) => e := Unlock(id);
  }

  /** In every span of a larger size two requests in a row wrap the index, and the second one panics. */
  lemma LargerSpansWrap(arg: int) returns (run: seq<State>, events: seq<Event>)
    requires TWO_31 < Truncate(arg)
    ensures IsRun(arg, run, events)
    ensures var last := run[|run| - 1]; 1 in last.calls && last.calls[1].Panicked?
  {
    var size := Truncate(arg);
    var s1, s2, s3, s4 := FirstRequest(arg);
    var s5, s6, s7 := SecondRequest(s4);
    var n := size - 1;
    events := [Enter(0, n), Advance(0), Cut(0), Unlock(0), Enter(1, n), Advance(1), Cut(1)];
    run := [Init(arg), s1, s2, s3, s4, s5, s6, s7];
  }

  /** One byte less than the size, from a new span. */
  lemma FirstRequest(arg: int) returns (s1: State, s2: State, s3: State, s4: State)
    requires TWO_31 < Truncate(arg)
    ensures var s, n := Init(arg), Truncate(arg) - 1;
            && Enabled(s, Enter(0, n)) && s1 == Apply(s, Enter(0, n)) && Enabled(s1, Advance(0)) && s2 == Apply(s1, Advance(0))
            && Enabled(s2, Cut(0)) && s3 == Apply(s2, Cut(0)) && Enabled(s3, Unlock(0)) && s4 == Apply(s3, Unlock(0))
            && s4.size == n + 1 && s4.read == n && !s4.lock && 1 !in s4.calls
  {
    var s, n := Init(arg), Truncate(arg) - 1;
    assert Truncate(n) == n;
    s1 := Apply(s, Enter(0, n));
    s2 := Apply(s1, Advance(0));
    assert s2.read == n;
    s3 := Apply(s2, Cut(0));
    s4 := Apply(s3, Unlock(0));
  }

  /** The same request again. */
  lemma SecondRequest(s: State) returns (s1: State, s2: State, s3: State)
    requires TWO_31 <= s.read < TWO_32 - 1 && s.size == s.read + 1 && !s.lock && 1 !in s.calls
    ensures var n := s.read;
            && Enabled(s, Enter(1, n)) && s1 == Apply(s, Enter(1, n)) && Enabled(s1, Advance(1)) && s2 == Apply(s1, Advance(1))
            && Enabled(s2, Cut(1)) && s3 == Apply(s2, Cut(1)) && 1 in s3.calls && s3.calls[1].Panicked?
  {
    var n := s.read;
    assert Truncate(n) == n;
    s1 := Apply(s, Enter(1, n));
    s2 := Apply(s1, Advance(1));
    assert s2.read == 2 * n - TWO_32;
    assert Truncate(s2.read - n) == n;
    s3 := Apply(s2, Cut(1));
  }

  /** Every call of this state is served as requested, and no two calls share memory. */
  ghost predicate Safe(s: State) {
    && (forall i :: i in s.calls ==> WellServed(s.calls[i]))
    && forall i, j :: i in s.calls && j in s.calls && i != j && HasSlice(s.calls[i]) && HasSlice(s.calls[j]) ==>
         Disjoint(s.calls[i].slice, s.calls[j].slice)
  }

  ghost predicate SafeRun(run: seq<State>) { forall k :: 0 <= k < |run| ==> Safe(run[k]) }

  /** Exactly the spans whose low 32 bits are at most 2^31 are safe in every interleaving. */
  lemma SafeExactly(arg: int)
    ensures Truncate(arg) <= TWO_31 <==> forall run, events :: IsRun(arg, run, events) ==> SafeRun(run)
  {
    hide Apply, Enabled, Truncate, Inv, Disjoint, WellServed, IsRun, HasSlice;
    if Truncate(arg) <= TWO_31 {
      forall run, events | IsRun(arg, run, events) ensures SafeRun(run) {
        forall k | 0 <= k < |run| ensures Safe(run[k]) { RunSafe(arg, run, events, k); }
      }
    } else {
      var run, events := LargerSpansWrap(arg);
      NotSafe(run[|run| - 1]);
    }
  }

  lemma RunSafe(arg: int, run: seq<State>, events: seq<Event>, k: nat)
    requires Truncate(arg) <= TWO_31 && IsRun(arg, run, events) && k < |run|
    ensures Safe(run[k])
  {
    hide Apply, Enabled, Truncate, Inv, Disjoint, WellServed, IsRun;
    var s := run[k];
    forall i | i in s.calls ensures WellServed(s.calls[i]) { CallsServed(arg, run, events, k, i); }
    forall i, j | i in s.calls && j in s.calls && i != j && HasSlice(s.calls[i]) && HasSlice(s.calls[j])
      ensures Disjoint(s.calls[i].slice, s.calls[j].slice)
    {
      SlicesDisjoint(arg, run, events, k, i, j);
    }
  }

  lemma NotSafe(s: State)
    requires 1 in s.calls && s.calls[1].Panicked?
    ensures !Safe(s)
  {
    assert !WellServed(s.calls[1]);
  }

  /** A call gets the length it asked for exactly when the argument survives the conversion to 32 bits. */
  lemma LengthKept(arg: int)
    ensures Truncate(arg) == arg <==> 0 <= arg < TWO_32
  {
  }

  // The object itself.

  class Span {
    var lock: bool
    var read: nat
    var size: nat
    var buffer: array<nat>

    ghost predicate Valid() reads this {
      size <= buffer.Length && size < TWO_32 && read <= size
    }

    constructor (arg: nat)
      ensures Valid() && size == Truncate(arg) && !lock && read == 0 && fresh(buffer) && buffer.Length == arg
    {
      lock, read := false, 0;
      size := Truncate(arg);
      buffer := new nat[arg];
    }

    /**
    The slice `[lo..hi]` of `buf`, or no buffer if its bounds are out of range; `starts` counts
    the passes through START. A panic leaves the lock taken.
    */
    method Make(arg: int) returns (buf: array?<nat>, lo: nat, hi: nat, starts: nat)
      requires Valid()
      modifies this
      ensures Valid() && size == old(size) && starts <= 2
      ensures buf != null ==> lo <= hi <= buf.Length && hi - lo == Truncate(arg) && lock == old(lock)
      ensures buf == null <==> !old(lock) && Truncate(arg) < size && old(read) + Truncate(arg) >= TWO_32
      ensures buf == null ==> lock && size > TWO_31
      ensures Truncate(arg) >= size || old(lock) ==> buf != null && fresh(buf) && starts == 0 && unchanged(this)
      ensures Truncate(arg) < size && !old(lock) && old(read) + Truncate(arg) <= size ==>
                buf == buffer == old(buffer) && lo == old(read) && hi == read && starts == 1
      ensures Truncate(arg) < size < old(read) + Truncate(arg) < TWO_32 && !old(lock) ==>
                buf == buffer && fresh(buf) && lo == 0 && hi == read && size - old(read) < Truncate(arg) && starts == 2
    {
      var n := Truncate(arg);
      starts := 0;
      if n >= size || lock {
        buf := new nat[n];
        return buf, 0, n, 0;
      }
      lock := true;
      while true
        invariant Valid() && size == old(size) && lock && starts <= 1
        invariant starts == 0 ==> read == old(read) && buffer == old(buffer)
        invariant starts == 1 ==> fresh(buffer) && read == 0 && size < old(read) + n < TWO_32
        decreases 2 - starts
      {
        starts := starts + 1;
        Wraps(size, read, n);
        read := Truncate(read + n);
        if read <= size {
          lo, hi := Truncate(read - n), read;
          if lo > hi { return null, 0, 0, starts; }
          lock := false;
          return buffer, lo, hi, starts;
        }
        buffer := new nat[size];
        read := 0;
      }
    }
  }

  /** The 32-bit sum either is the sum, and the old index comes back, or has wrapped below the old index. */
  lemma Wraps(size: nat, read: nat, n: nat)
    requires read <= size < TWO_32 && n < size
    ensures Truncate(Truncate(read + n) - n) == read
    ensures read + n < TWO_32 ==> Truncate(read + n) == read + n
    ensures read + n >= TWO_32 ==> Truncate(read + n) == read + n - TWO_32 < read && size > TWO_31
  {
    assert read + n >= TWO_32 ==> Truncate(read + n) == read + n - TWO_32;
  }

  // Size classes.

  const SPAN_CACHE_SIZE := 10
  const MIN_SPAN_CLASS := 8
  const MIN_SPAN_OBJECT := 128
  const MAX_SPAN_OBJECT := 0x1_FFFF
  const TWO_64 := 0x1_0000_0000_0000_0000

  function BitLen(n: nat): nat { if n == 0 then 0 else 1 + BitLen(n / 2) }

  function Pow2(k: nat): nat { if k == 0 then 1 else 2 * Pow2(k - 1) }

  /** The conversion to an unsigned word comes first, so negative sizes fall in the top classes. */
  function SpanClass(size: int): nat { BitLen(size % TWO_64) }

  lemma {:induction false} BitLenAbove(n: nat, k: nat)
    ensures BitLen(n) > k <==> n >= Pow2(k)
  {
    if k == 0 {
    } else if n == 0 {
      PowPositive(k);
    } else {
      BitLenAbove(n / 2, k - 1);
    }
  }

  lemma {:induction false} PowPositive(k: nat)
    ensures Pow2(k) > 0
  {
    if k > 0 { PowPositive(k - 1); }
  }

  lemma PowStep(k: nat)
    ensures Pow2(k + 5) == 32 * Pow2(k)
  {
    assert Pow2(k + 1) == 2 * Pow2(k) && Pow2(k + 2) == 2 * Pow2(k + 1);
    assert Pow2(k + 3) == 2 * Pow2(k + 2) && Pow2(k + 4) == 2 * Pow2(k + 3);
  }

  /** Class `c` holds exactly the sizes from 2^(c-1) to 2^c - 1, and class 0 only zero. */
  lemma ClassHolds(size: nat, c: nat)
    requires size < TWO_64 / 2
    ensures c > 0 ==> (SpanClass(size) == c <==> Pow2(c - 1) <= size < Pow2(c))
    ensures SpanClass(size) == 0 <==> size == 0
  {
    assert size % TWO_64 == size;
    BitLenAbove(size, 0);
    BitLenAbove(size, c);
    if c > 0 { BitLenAbove(size, c - 1); }
  }

  /** `spanCache.Make` uses one of its spans exactly for sizes from 128 bytes to one byte below 128 KiB. */
  lemma CacheRange(n: int)
    requires -TWO_64 / 2 <= n < TWO_64 / 2
    ensures 0 <= SpanClass(n) - MIN_SPAN_CLASS < SPAN_CACHE_SIZE <==> MIN_SPAN_OBJECT <= n <= MAX_SPAN_OBJECT
  {
    var m := n % TWO_64;
    BitLenAbove(m, 7);
    BitLenAbove(m, 17);
    assert Pow2(2) == 4;
    PowStep(2);
    PowStep(7);
    PowStep(12);
  }
}
