/**
The lazily filled table of virtual nodes in front of smooth weighted round robin, shared by
any number of callers. A call takes a ticket, looks the table up under the read lock and, if
the entry is still empty, fills the table under the write lock.
*/
module WrrCache {
  import opened Arith
  import opened Discovery
  import opened SmoothWrr

  const BATCH_SIZE := 500
  const TWO_64 := 0x1_0000_0000_0000_0000

  /** The node weights, the filled size and the table. */
  datatype Cache = Cache(cur: seq<int>, vsize: nat, vnodes: seq<Option<Instance>>)

  ghost predicate WellFormed(ins: seq<Instance>, c: Cache) {
    PositiveWeights(ins) && |c.cur| == |ins| && c.vsize <= |c.vnodes|
  }

  /** Computes one more virtual node. */
  ghost function FillOne(ins: seq<Instance>, c: Cache): (r: Cache)
    requires WellFormed(ins, c) && c.vsize < |c.vnodes|
    ensures WellFormed(ins, r) && |r.vnodes| == |c.vnodes|
  {
    var w := Weights(ins);
    Cache(Step(c.cur, w), c.vsize + 1, c.vnodes[c.vsize := Some(ins[ArgMax(Bump(c.cur, w))])])
  }

  /** `buildVirtualWrrNodes`: fills up to `target`, but not past the end of the table. */
  ghost function Build(ins: seq<Instance>, c: Cache, target: nat): (r: Cache)
    requires WellFormed(ins, c)
    ensures WellFormed(ins, r) && |r.vnodes| == |c.vnodes|
    decreases |c.vnodes| - c.vsize
  {
    if c.vsize >= target || c.vsize == |c.vnodes| then c else Build(ins, FillOne(ins, c), target)
  }

  /** The target of the slow path, which always lies beyond the missing entry. */
  function Target(vsize: nat, idx: nat): (t: nat)
    ensures idx < t && vsize < t
  {
    if idx >= vsize + BATCH_SIZE then idx + 1 else vsize + BATCH_SIZE
  }

  /** The table holds exactly the first `vsize` picks of the endless schedule. */
  ghost predicate Faithful(ins: seq<Instance>, c: Cache) {
    && WellFormed(ins, c)
    && var w := Weights(ins);
    && |c.vnodes| == Cycle(w)
    && c.cur == State(w, c.vsize)
    && forall i :: 0 <= i < |c.vnodes| ==> c.vnodes[i] == if i < c.vsize then Some(ins[Pick(w, i)]) else None
  }

  lemma {:induction false} BuildFaithful(ins: seq<Instance>, c: Cache, target: nat)
    requires Faithful(ins, c)
    ensures Faithful(ins, Build(ins, c, target))
    ensures var n := Build(ins, c, target).vsize; c.vsize <= n && (target <= |c.vnodes| ==> target <= n)
    decreases |c.vnodes| - c.vsize
  {
    hide Cycle;
    if c.vsize < target && c.vsize < |c.vnodes| {
      BuildFaithful(ins, FillOne(ins, c), target);
    }
  }

  // The protocol of concurrent `Next` calls.

  datatype Pc =
    | Ticketed(ticket: nat)
    | Missed(ticket: nat)
    | Returned(ticket: nat, ins: Option<Instance>)

  /** `holders[m]` is the caller that took ticket number `m + 1`. */
  datatype Shared = Shared(counter: nat, cache: Cache, calls: map<nat, Pc>, holders: seq<nat>)

  datatype Event = TakeTicket(id: nat) | ReadFast(id: nat) | FillSlow(id: nat)

  ghost predicate Enabled(s: Shared, e: Event) {
    match e
    case TakeTicket(id) => id !in s.calls
    case ReadFast(id) => id in s.calls && s.calls[id].Ticketed?
    case FillSlow(id) => id in s.calls && s.calls[id].Missed?
  }

  ghost function Index(s: Shared, id: nat): (i: nat)
    requires id in s.calls && |s.cache.vnodes| > 0
    ensures i < |s.cache.vnodes|
  {
    s.calls[id].ticket % |s.cache.vnodes|
  }

  ghost function Apply(ins: seq<Instance>, s: Shared, e: Event): Shared
    requires WellFormed(ins, s.cache) && |s.cache.vnodes| > 0 && Enabled(s, e)
  {
    match e
    case TakeTicket(id) =>
      var t := (s.counter + 1) % TWO_64;
      s.(counter := t, calls := s.calls[id := Ticketed(t)], holders := s.holders + [id])
    case ReadFast(id) =>
      var t, found := s.calls[id].ticket, s.cache.vnodes[Index(s, id)];
      s.(calls := s.calls[id := if found.Some? then Returned(t, found) else Missed(t)])
    case FillSlow(id) =>
      var t, idx := s.calls[id].ticket, Index(s, id);
      var c := if s.cache.vnodes[idx].Some? then s.cache else Build(ins, s.cache, Target(s.cache.vsize, idx));
      s.(cache := c, calls := s.calls[id := Returned(t, c.vnodes[idx])])
  }

  ghost function EmptyCache(ins: seq<Instance>): (c: Cache)
    requires PositiveWeights(ins)
    ensures WellFormed(ins, c)
  {
    Cache(Zeros(|ins|), 0, seq(Cycle(Weights(ins)), _ => None))
  }

  lemma EmptyFaithful(ins: seq<Instance>)
    requires PositiveWeights(ins)
    ensures Faithful(ins, EmptyCache(ins))
  {
  }

  /** The state the constructor leaves: one batch is computed and no ticket is taken. */
  ghost function Init(ins: seq<Instance>): Shared
    requires PositiveWeights(ins)
  {
    Shared(0, Build(ins, EmptyCache(ins), BATCH_SIZE), map[], [])
  }

  ghost predicate Distinct(s: seq<nat>) {
    forall m, n :: 0 <= m < n < |s| ==> s[m] != s[n]
  }

  /** Each call holds its own ticket, in the order the counter gave them out. */
  ghost predicate TicketsInv(s: Shared) {
    && s.counter == |s.holders| % TWO_64
    && (forall id :: id in s.calls <==> id in s.holders)
    && Distinct(s.holders)
    && forall m :: 0 <= m < |s.holders| ==> s.calls[s.holders[m]].ticket == (m + 1) % TWO_64
  }

  ghost predicate AnswersInv(ins: seq<Instance>, s: Shared)
    requires PositiveWeights(ins)
  {
    forall id :: id in s.calls && s.calls[id].Returned? ==>
      s.calls[id].ins == Some(ins[Pick(Weights(ins), s.calls[id].ticket)])
  }

  ghost predicate Inv(ins: seq<Instance>, s: Shared) {
    Faithful(ins, s.cache) && TicketsInv(s) && AnswersInv(ins, s)
  }

  lemma InitInv(ins: seq<Instance>)
    requires PositiveWeights(ins)
    ensures Inv(ins, Init(ins))
  {
    EmptyFaithful(ins);
    BuildFaithful(ins, EmptyCache(ins), BATCH_SIZE);
  }

  lemma TableAnswers(ins: seq<Instance>, c: Cache, ticket: nat)
    requires Faithful(ins, c)
    ensures |c.vnodes| > 0 && 0 <= ticket % |c.vnodes| < |c.vnodes|
    ensures c.vnodes[ticket % |c.vnodes|].Some? ==>
              c.vnodes[ticket % |c.vnodes|] == Some(ins[Pick(Weights(ins), ticket)])
  {
    PickRepeats(Weights(ins), ticket);
    DivModDef(ticket, |c.vnodes|);
  }

  lemma FillAnswers(ins: seq<Instance>, c: Cache, idx: nat)
    requires Faithful(ins, c) && idx < |c.vnodes|
    ensures Faithful(ins, Build(ins, c, Target(c.vsize, idx)))
    ensures Build(ins, c, Target(c.vsize, idx)).vnodes[idx].Some?
  {
    BuildFaithful(ins, c, Target(c.vsize, idx));
    BuildStops(ins, c, Target(c.vsize, idx));
  }

  /** Filling stops only at the target or at the end of the table. */
  lemma {:induction false} BuildStops(ins: seq<Instance>, c: Cache, target: nat)
    requires WellFormed(ins, c)
    ensures var d := Build(ins, c, target); d.vsize >= target || d.vsize == |c.vnodes|
    decreases |c.vnodes| - c.vsize
  {
    if c.vsize < target && c.vsize < |c.vnodes| { BuildStops(ins, FillOne(ins, c), target); }
  }

  lemma TakeKeepsTickets(s: Shared, s': Shared, id: nat)
    requires TicketsInv(s) && id !in s.calls && s'.counter == (s.counter + 1) % TWO_64
    requires s'.calls == s.calls[id := Ticketed(s'.counter)] && s'.holders == s.holders + [id]
    ensures TicketsInv(s')
  {
    var n := |s.holders|;
    NextModulo(n, TWO_64);
    assert s'.holders[n] == id;
    assert forall m :: 0 <= m < n ==> s'.holders[m] == s.holders[m] && s.holders[m] in s.calls;
  }

  lemma StepKeepsTickets(ins: seq<Instance>, s: Shared, e: Event)
    requires WellFormed(ins, s.cache) && |s.cache.vnodes| > 0 && TicketsInv(s) && Enabled(s, e)
    ensures TicketsInv(Apply(ins, s, e))
  {
    hide Build, FillOne;
    var s' := Apply(ins, s, e);
    if e.TakeTicket? {
      TakeKeepsTickets(s, s', e.id);
    } else {
      assert s'.holders == s.holders && s'.calls[e.id].ticket == s.calls[e.id].ticket;
    }
  }

  lemma StepKeepsInv(ins: seq<Instance>, s: Shared, e: Event)
    requires Inv(ins, s) && Enabled(s, e)
    ensures |s.cache.vnodes| > 0 && Inv(ins, Apply(ins, s, e))
  {
    TableAnswers(ins, s.cache, 0);
    StepKeepsTickets(ins, s, e);
    if !e.TakeTicket? {
      var t := s.calls[e.id].ticket;
      TableAnswers(ins, s.cache, t);
      if e.FillSlow? {
        FillAnswers(ins, s.cache, Index(s, e.id));
        TableAnswers(ins, Apply(ins, s, e).cache, t);
      }
    }
  }

  /** `run` is an execution: consecutive states are related by one event each. */
  ghost predicate IsRun(ins: seq<Instance>, run: seq<Shared>, events: seq<Event>) {
    && PositiveWeights(ins)
    && |run| == |events| + 1
    && run[0] == Init(ins)
    && forall k :: 0 <= k < |events| ==>
         WellFormed(ins, run[k].cache) && |run[k].cache.vnodes| > 0 && Enabled(run[k], events[k])
         && run[k + 1] == Apply(ins, run[k], events[k])
  }

  lemma {:induction false} RunInv(ins: seq<Instance>, run: seq<Shared>, events: seq<Event>, k: nat)
    requires IsRun(ins, run, events) && k < |run|
    ensures Inv(ins, run[k])
  {
    if k == 0 {
      InitInv(ins);
    } else {
      RunInv(ins, run, events, k - 1);
      StepKeepsInv(ins, run[k - 1], events[k - 1]);
    }
  }

  /**
  Refinement: however fast and slow paths interleave, a call that returns with ticket `t`
  returns the `t`-th pick of the endless schedule, and never nil.
  */
  lemma CacheRefinesSchedule(ins: seq<Instance>, run: seq<Shared>, events: seq<Event>, k: nat, id: nat)
    requires IsRun(ins, run, events) && k < |run|
    requires id in run[k].calls && run[k].calls[id].Returned?
    ensures run[k].calls[id].ins == Some(ins[Pick(Weights(ins), run[k].calls[id].ticket)])
  {
    RunInv(ins, run, events, k);
  }

  /** The callers holding tickets `start + 1` to `end` whose ticket selects node `i`. */
  ghost function ServedBy(picks: seq<nat>, holders: seq<nat>, start: nat, end: nat, i: nat): set<nat>
    requires end <= |holders| && end < |picks|
  {
    if end <= start then {}
    else if picks[end] == i then ServedBy(picks, holders, start, end - 1, i) + {holders[end - 1]}
    else ServedBy(picks, holders, start, end - 1, i)
  }

  lemma {:induction false} ServedWitness(picks: seq<nat>, holders: seq<nat>, start: nat, end: nat, i: nat, id: nat)
      returns (t: nat)
    requires end <= |holders| && end < |picks| && id in ServedBy(picks, holders, start, end, i)
    ensures start < t <= end && picks[t] == i && holders[t - 1] == id
  {
    if picks[end] == i && holders[end - 1] == id {
      t := end;
    } else {
      t := ServedWitness(picks, holders, start, end - 1, i, id);
    }
  }

  lemma {:induction false} ServedComplete(picks: seq<nat>, holders: seq<nat>, start: nat, end: nat, t: nat)
    requires end <= |holders| && end < |picks| && start < t <= end
    ensures holders[t - 1] in ServedBy(picks, holders, start, end, picks[t])
  {
    if t < end { ServedComplete(picks, holders, start, end - 1, t); }
  }

  /** How many tickets from `start + 1` to `end` select node `i`. */
  ghost function Hits(picks: seq<nat>, start: nat, end: nat, i: nat): nat
    requires end < |picks|
  {
    if end <= start then 0 else Hits(picks, start, end - 1, i) + if picks[end] == i then 1 else 0
  }

  lemma {:induction false} ServedCount(picks: seq<nat>, holders: seq<nat>, start: nat, end: nat, i: nat)
    requires Distinct(holders) && start <= end <= |holders| && end < |picks|
    ensures |ServedBy(picks, holders, start, end, i)| == Hits(picks, start, end, i)
  {
    if end > start {
      ServedCount(picks, holders, start, end - 1, i);
      var before, h := ServedBy(picks, holders, start, end - 1, i), holders[end - 1];
      if picks[end] == i && h in before {
        var t := ServedWitness(picks, holders, start, end - 1, i, h);
        assert false;
      }
    }
  }

  /** Picks number 0 to `n - 1` of the endless schedule. */
  ghost function Schedule(w: seq<nat>, n: nat): (picks: seq<nat>)
    requires w != []
    ensures |picks| == n
  {
    if n == 0 then [] else Schedule(w, n - 1) + [Pick(w, n - 1)]
  }

  lemma {:induction false} ScheduleAt(w: seq<nat>, n: nat, t: nat)
    requires w != [] && t < n
    ensures Schedule(w, n)[t] == Pick(w, t)
  {
    if t < n - 1 { ScheduleAt(w, n - 1, t); }
  }

  lemma {:induction false} HitsAreCounts(w: seq<nat>, n: nat, start: nat, end: nat, i: nat)
    requires w != [] && start <= end < n
    ensures Hits(Schedule(w, n), start, end, i) == Count(w, end + 1, i) - Count(w, start + 1, i)
  {
    hide State, Pick, Schedule;
    if end > start {
      HitsAreCounts(w, n, start, end - 1, i);
      ScheduleAt(w, n, end);
      CountOne(w, end, i, Schedule(w, n)[end]);
    }
  }

  lemma CountOne(w: seq<nat>, k: nat, i: nat, p: nat)
    requires w != [] && p == Pick(w, k)
    ensures Count(w, k + 1, i) == Count(w, k, i) + if p == i then 1 else 0
  {
  }

  /**
  Fairness of tickets: until the 64-bit counter wraps, of any `vcapacity` consecutive tickets
  exactly `weight / gcd` belong to a given node: their callers, and no others in the window, are
  answered with it.
  */
  lemma TicketsFair(ins: seq<Instance>, run: seq<Shared>, events: seq<Event>, k: nat, start: nat, i: nat)
    requires IsRun(ins, run, events) && k < |run| && i < |ins|
    requires start + Cycle(Weights(ins)) <= |run[k].holders| < TWO_64
    ensures ServesExactly(ins, run[k], start, start + Cycle(Weights(ins)), i)
  {
    hide *;
    assert PositiveWeights(ins) by { RunPositive(ins, run, events); }
    RunInv(ins, run, events, k);
    ServedExactly(ins, run[k], start, i);
  }

  lemma RunPositive(ins: seq<Instance>, run: seq<Shared>, events: seq<Event>)
    requires IsRun(ins, run, events)
    ensures PositiveWeights(ins)
  {
  }

  lemma ServedExactly(ins: seq<Instance>, s: Shared, start: nat, i: nat)
    requires Inv(ins, s) && i < |ins| && start + Cycle(Weights(ins)) <= |s.holders| < TWO_64
    ensures ServesExactly(ins, s, start, start + Cycle(Weights(ins)), i)
  {
    hide Pick, State, Cycle, Share, Schedule, ServedBy;
    WindowServed(Weights(ins), s.holders, start, i);
    var w, end := Weights(ins), start + Cycle(Weights(ins));
    var served := ServedBy(Schedule(w, |s.holders| + 1), s.holders, start, end, i);
    forall id ensures id in served <==> InWindow(s, id, start, end) && Pick(w, s.calls[id].ticket) == i {
      WindowMember(ins, s, start, end, i, id);
    }
  }

  /**
  Node `i`'s share of callers is served in the window of tickets `start + 1` to `end`: they are
  exactly those whose ticket picks it, and every one that has returned was given it.
  */
  ghost predicate ServesExactly(ins: seq<Instance>, s: Shared, start: nat, end: nat, i: nat)
    requires PositiveWeights(ins) && i < |ins| && end <= |s.holders|
  {
    var w := Weights(ins);
    var served := ServedBy(Schedule(w, |s.holders| + 1), s.holders, start, end, i);
    && |served| == Share(w, i)
    && (forall id :: id in served <==> InWindow(s, id, start, end) && Pick(w, s.calls[id].ticket) == i)
    && (forall id :: id in served && s.calls[id].Returned? ==> s.calls[id].ins == Some(ins[i]))
  }

  ghost predicate InWindow(s: Shared, id: nat, start: nat, end: nat) {
    id in s.calls && start < s.calls[id].ticket <= end
  }

  lemma WindowHits(w: seq<nat>, n: nat, start: nat, i: nat)
    requires Positive(w) && i < |w| && start + Cycle(w) < n
    ensures Hits(Schedule(w, n), start, start + Cycle(w), i) == Share(w, i)
  {
    hide *;
    HitsAreCounts(w, n, start, start + Cycle(w), i);
    WindowFair(w, start + 1, i);
    assert start + 1 + Cycle(w) == start + Cycle(w) + 1;
  }

  lemma WindowServed(w: seq<nat>, holders: seq<nat>, start: nat, i: nat)
    requires Positive(w) && i < |w| && Distinct(holders) && start + Cycle(w) <= |holders|
    ensures |ServedBy(Schedule(w, |holders| + 1), holders, start, start + Cycle(w), i)| == Share(w, i)
  {
    hide *;
    WindowHits(w, |holders| + 1, start, i);
    ServedCount(Schedule(w, |holders| + 1), holders, start, start + Cycle(w), i);
  }

  /** The served callers are exactly those of the window whose ticket picks the node. */
  lemma WindowMember(ins: seq<Instance>, s: Shared, start: nat, end: nat, i: nat, id: nat)
    requires Inv(ins, s) && end <= |s.holders| < TWO_64 && i < |ins|
    ensures id in ServedBy(Schedule(Weights(ins), |s.holders| + 1), s.holders, start, end, i) <==>
              InWindow(s, id, start, end) && Pick(Weights(ins), s.calls[id].ticket) == i
  {
    hide Pick, State, Schedule, ServedBy, Cycle, AnswersInv;
    var w, n := Weights(ins), |s.holders| + 1;
    var picks := Schedule(w, n);
    if id in ServedBy(picks, s.holders, start, end, i) {
      var t := ServedWitness(picks, s.holders, start, end, i, id);
      ScheduleAt(w, n, t);
      TicketHeld(s, t);
    }
    if InWindow(s, id, start, end) && Pick(w, s.calls[id].ticket) == i {
      var t := HolderOf(s, id);
      ScheduleAt(w, n, t);
      ServedComplete(picks, s.holders, start, end, t);
    }
  }

  lemma TicketHeld(s: Shared, t: nat)
    requires TicketsInv(s) && 0 < t <= |s.holders| < TWO_64
    ensures s.holders[t - 1] in s.calls && s.calls[s.holders[t - 1]].ticket == t
  {
    assert s.holders[t - 1] in s.calls;
  }

  /** Before the wrap a call's ticket is its place among the holders. */
  lemma HolderOf(s: Shared, id: nat) returns (t: nat)
    requires TicketsInv(s) && id in s.calls && |s.holders| < TWO_64
    ensures 0 < t <= |s.holders| && s.holders[t - 1] == id && s.calls[id].ticket == t
  {
    var m :| 0 <= m < |s.holders| && s.holders[m] == id;
    t := m + 1;
    TicketHeld(s, t);
  }

  /** The first caller is given pick number 1, not pick number 0: the counter is read after it is incremented. */
  lemma FirstTicketIsOne(ins: seq<Instance>, id: nat)
    requires PositiveWeights(ins)
    ensures WellFormed(ins, Init(ins).cache) && |Init(ins).cache.vnodes| > 0
    ensures Apply(ins, Init(ins), TakeTicket(id)).calls[id] == Ticketed(1)
  {
    InitInv(ins);
  }
}
