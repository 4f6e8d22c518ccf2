/**
The retry-rate gate under the percentage limit: any number of failure-retry calls share one
panel of counters, and every call records itself before it is made.
*/
module RetryBudget {

  const MIN_SAMPLE := 10

  /** The counters of one key: first calls count as success, retries as failure. */
  datatype Panel = Panel(succeeded: nat, failed: nat)

  function Samples(p: Panel): nat { p.succeeded + p.failed }

  function ErrorRate(p: Panel): real {
    if Samples(p) == 0 then 0.0 else p.failed as real / Samples(p) as real
  }

  function RecordRetryStat(p: Panel, callTimes: nat): Panel {
    if callTimes > 1 then p.(failed := p.failed + 1) else p.(succeeded := p.succeeded + 1)
  }

  /** `circuitBreakerStop`: stops a retry once there are enough samples and the rate is reached. */
  predicate Stops(p: Panel, rate: real) {
    !(Samples(p) < MIN_SAMPLE || ErrorRate(p) < rate)
  }

  /** A caller of `failureRetryer.Do` in its loop. */
  datatype Caller =
    | Idle
    | Calling(times: nat)  // call number `times` is recorded and being made
    | Passed(times: nat)   // the gate has let the next call through, which is not recorded yet

  datatype State = State(panel: Panel, callers: seq<Caller>)

  datatype Event =
    | Begin(j: nat)   // a first call
    | Check(j: nat)   // a retryable result: the gate is asked
    | Retry(j: nat)   // the retry is recorded and made
    | Leave(j: nat)   // the loop ends

  predicate Enabled(retryTimes: nat, s: State, e: Event) {
    e.j < |s.callers| &&
    match e
    case Begin(j) => s.callers[j].Idle?
    case Check(j) => s.callers[j].Calling? && s.callers[j].times <= retryTimes
    case Retry(j) => s.callers[j].Passed?
    case Leave(j) => !s.callers[j].Idle?
  }

  function Apply(rate: real, s: State, e: Event): State
    requires e.j < |s.callers|
    requires e.Check? ==> s.callers[e.j].Calling?
    requires e.Retry? ==> s.callers[e.j].Passed?
  {
    match e
    case Begin(j) => State(RecordRetryStat(s.panel, 1), s.callers[j := Calling(1)])
    case Check(j) =>
      s.(callers := s.callers[j := if Stops(s.panel, rate) then Idle else Passed(s.callers[j].times)])
    case Retry(j) =>
      var times := s.callers[j].times + 1;
      State(RecordRetryStat(s.panel, times), s.callers[j := Calling(times)])
    case Leave(j) => s.(callers := s.callers[j := Idle])
  }

  /** Retries the gate has let through but that are not recorded yet. */
  function Pending(callers: seq<Caller>): nat {
    if callers == [] then 0 else
    Pending(callers[..|callers| - 1]) + if callers[|callers| - 1].Passed? then 1 else 0
  }

  lemma {:induction false} PendingUpdate(callers: seq<Caller>, j: nat, c: Caller)
    requires j < |callers|
    ensures Pending(callers[j := c]) ==
              Pending(callers) - (if callers[j].Passed? then 1 else 0) + (if c.Passed? then 1 else 0)
  {
    var d := callers[j := c];
    if j == |callers| - 1 {
      assert d[..|callers| - 1] == callers[..|callers| - 1];
    } else {
      PendingUpdate(callers[..|callers| - 1], j, c);
      assert d[..|callers| - 1] == callers[..|callers| - 1][j := c];
    }
  }

  lemma {:induction false} PendingAtMost(callers: seq<Caller>)
    ensures Pending(callers) <= |callers|
  {
    if callers != [] { PendingAtMost(callers[..|callers| - 1]); }
  }

  /** Callers in their loop. */
  function Active(callers: seq<Caller>): nat {
    if callers == [] then 0 else
    Active(callers[..|callers| - 1]) + if callers[|callers| - 1].Idle? then 0 else 1
  }

  lemma {:induction false} ActiveUpdate(callers: seq<Caller>, j: nat, c: Caller)
    requires j < |callers|
    ensures Active(callers[j := c]) ==
              Active(callers) - (if callers[j].Idle? then 0 else 1) + (if c.Idle? then 0 else 1)
  {
    var d := callers[j := c];
    if j == |callers| - 1 {
      assert d[..|callers| - 1] == callers[..|callers| - 1];
    } else {
      ActiveUpdate(callers[..|callers| - 1], j, c);
      assert d[..|callers| - 1] == callers[..|callers| - 1][j := c];
    }
  }

  lemma {:induction false} PendingAreActive(callers: seq<Caller>)
    ensures Pending(callers) <= Active(callers)
  {
    if callers != [] { PendingAreActive(callers[..|callers| - 1]); }
  }

  /** Every active caller has recorded its first call, and call numbers go from one to `retryTimes + 1`. */
  ghost predicate CallersInv(retryTimes: nat, s: State) {
    && (forall j :: 0 <= j < |s.callers| ==>
          (s.callers[j].Calling? ==> 1 <= s.callers[j].times <= retryTimes + 1)
          && (s.callers[j].Passed? ==> 1 <= s.callers[j].times <= retryTimes))
    && Active(s.callers) <= s.panel.succeeded
  }

  /** Recorded and pending retries together stay within the budget. */
  ghost predicate BudgetInv(rate: real, s: State) {
    var used := s.panel.failed + Pending(s.callers);
    || used <= MIN_SAMPLE - 1
    || used as real < rate * Samples(s.panel) as real + |s.callers| as real
  }

  /** More samples allow more retries. */
  lemma RateGrows(rate: real, n: nat)
    requires rate >= 0.0
    ensures rate * (n + 1) as real >= rate * n as real
  {
  }

  /** The gate lets a retry through exactly while samples are few or retries are below the rate's part of them. */
  lemma GateExactly(p: Panel, rate: real)
    requires rate >= 0.0
    ensures Stops(p, rate) <==>
              p.succeeded + p.failed >= 10 && p.failed as real >= rate * (p.succeeded + p.failed) as real
  {
    var n := p.succeeded + p.failed;
    if n >= 10 { RateExactly(p.failed as real, n as real, rate); }
  }

  lemma RateExactly(failed: real, samples: real, rate: real)
    requires samples > 0.0
    ensures failed / samples < rate <==> failed < rate * samples
  {
    var q := failed / samples;
    assert failed == q * samples;
    if q < rate { MulReal(samples, q, rate); } else { MulReal(samples, rate, q); }
  }

  lemma MulReal(d: real, x: real, y: real)
    requires d > 0.0 && x <= y
    ensures x * d <= y * d && (x < y ==> x * d < y * d)
  {
  }

  lemma CheckKeepsBudget(rate: real, retryTimes: nat, s: State, j: nat)
    requires rate >= 0.0 && CallersInv(retryTimes, s) && BudgetInv(rate, s)
    requires j < |s.callers| && s.callers[j].Calling?
    ensures BudgetInv(rate, Apply(rate, s, Check(j)))
  {
    hide Pending, Active, Stops;
    PendingUpdate(s.callers, j, Idle);
    var passed := s.callers[j := Passed(s.callers[j].times)];
    PendingUpdate(s.callers, j, Passed(s.callers[j].times));
    ActiveUpdate(s.callers, j, Passed(s.callers[j].times));
    PendingAtMost(passed);
    PendingAreActive(passed);
    GateExactly(s.panel, rate);
  }

  lemma StepKeepsInv(rate: real, retryTimes: nat, s: State, e: Event)
    requires rate >= 0.0 && CallersInv(retryTimes, s) && BudgetInv(rate, s) && Enabled(retryTimes, s, e)
    ensures CallersInv(retryTimes, Apply(rate, s, e)) && BudgetInv(rate, Apply(rate, s, e))
  {
    hide Pending, Active, Stops;
    RateGrows(rate, Samples(s.panel));
    var c := Apply(rate, s, e).callers[e.j];
    PendingUpdate(s.callers, e.j, c);
    ActiveUpdate(s.callers, e.j, c);
    if e.Check? { CheckKeepsBudget(rate, retryTimes, s, e.j); }
  }

  /** `callers` concurrent callers and an empty panel. */
  function Init(callers: nat): State { State(Panel(0, 0), seq(callers, _ => Idle)) }

  lemma {:induction false} PendingIdle(callers: seq<Caller>)
    requires forall j :: 0 <= j < |callers| ==> callers[j].Idle?
    ensures Pending(callers) == 0 == Active(callers)
  {
    if callers != [] { PendingIdle(callers[..|callers| - 1]); }
  }

  ghost predicate IsRun(rate: real, retryTimes: nat, callers: nat, run: seq<State>, es: seq<Event>) {
    && |run| == |es| + 1 && run[0] == Init(callers)
    && forall k :: 0 <= k < |es| ==>
         Enabled(retryTimes, run[k], es[k]) && run[k + 1] == Apply(rate, run[k], es[k])
  }

  lemma InitInv(rate: real, retryTimes: nat, callers: nat)
    ensures CallersInv(retryTimes, Init(callers)) && BudgetInv(rate, Init(callers))
  {
    PendingIdle(Init(callers).callers);
  }

  lemma {:induction false} RunInv(rate: real, retryTimes: nat, callers: nat, run: seq<State>, es: seq<Event>, k: nat)
    requires rate >= 0.0 && callers > 0 && IsRun(rate, retryTimes, callers, run, es) && k < |run|
    ensures |run[k].callers| == callers && CallersInv(retryTimes, run[k]) && BudgetInv(rate, run[k])
  {
    hide Pending, Active, Stops, CallersInv, BudgetInv;
    if k == 0 {
      InitInv(rate, retryTimes, callers);
    } else {
      RunInv(rate, retryTimes, callers, run, es, k - 1);
      StepKeepsInv(rate, retryTimes, run[k - 1], es[k - 1]);
    }
  }

  /**
  The retry budget: with `K` interleaved callers, in every reachable state the recorded retries
  are at most nine, or fewer than the rate's part of all samples plus `K`. No caller makes more
  than `retryTimes + 1` calls.
  */
  lemma RetriesWithinBudget(rate: real, retryTimes: nat, K: nat, run: seq<State>, es: seq<Event>, k: nat)
    requires rate >= 0.0 && K > 0 && IsRun(rate, retryTimes, K, run, es) && k < |run|
    ensures var p := run[k].panel;
            p.failed <= 9 || p.failed as real < rate * Samples(p) as real + K as real
    ensures forall j :: 0 <= j < |run[k].callers| && run[k].callers[j].Calling? ==> run[k].callers[j].times <= retryTimes + 1
  {
    RunInv(rate, retryTimes, K, run, es, k);
  }

  /** How many of the events are first calls, and how many are retries. */
  ghost function Begins(es: seq<Event>): nat {
    if es == [] then 0 else Begins(es[..|es| - 1]) + if es[|es| - 1].Begin? then 1 else 0
  }

  ghost function Retries(es: seq<Event>): nat {
    if es == [] then 0 else Retries(es[..|es| - 1]) + if es[|es| - 1].Retry? then 1 else 0
  }

  /** The panel counts first calls as successes and retries as failures, each exactly once. */
  lemma {:induction false} PanelCounts(rate: real, retryTimes: nat, K: nat, run: seq<State>, es: seq<Event>, k: nat)
    requires rate >= 0.0 && K > 0 && IsRun(rate, retryTimes, K, run, es) && k < |run|
    ensures run[k].panel == Panel(Begins(es[..k]), Retries(es[..k]))
  {
    hide Active, Pending, Stops;
    if k > 0 {
      PanelCounts(rate, retryTimes, K, run, es, k - 1);
      RunInv(rate, retryTimes, K, run, es, k - 1);
      assert es[..k][..k - 1] == es[..k - 1];
    }
  }

  /** The nine is exact: one caller alone gets there at any rate, as the gate needs ten samples to stop it. */
  lemma {:induction false} NineAttained(rate: real, retryTimes: nat, n: nat) returns (run: seq<State>, es: seq<Event>)
    requires n <= 9 && n <= retryTimes
    ensures IsRun(rate, retryTimes, 1, run, es)
    ensures run[|es|] == State(Panel(1, n), [Calling(n + 1)])
  {
    if n == 0 {
      assert Init(1).callers == [Idle];
      run, es := [Init(1), State(Panel(1, 0), [Calling(1)])], [Begin(0)];
    } else {
      run, es := NineAttained(rate, retryTimes, n - 1);
      var s1, s2 := State(Panel(1, n - 1), [Passed(n)]), State(Panel(1, n), [Calling(n + 1)]);
      assert s1 == Apply(rate, run[|es|], Check(0)) && s2 == Apply(rate, s1, Retry(0));
      run, es := run + [s1, s2], es + [Check(0), Retry(0)];
    }
  }
}
