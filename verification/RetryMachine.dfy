/**
The select loops of the mixed and the backup retryer as step machines: launched calls run in
their own goroutines and send their results on a buffered channel, a timer delivers ticks, and
the loop wakes for one or the other.
*/
module RetryMachine {
  import opened Discovery

  datatype Error = CallError(e: nat) | PanicError(info: nat)

  /**
  What a call leaves behind; `retry` is the answer of `isRetryResult` for it. A call that panics
  has no RPC info and the panic for its error, but its fresh response is still there.
  */
  datatype CallResult =
    | Returned(info: nat, resp: nat, e: Option<nat>, retry: bool)
    | Panicked(panic: nat, resp: nat, retry: bool)
  {
    function Ri(): Option<nat> { if Returned? then Some(info) else None }

    function Err(): Option<Error> {
      if Panicked? then Some(PanicError(panic)) else if e.Some? then Some(CallError(e.value)) else None
    }
  }

  datatype Goroutine = Spawned | Running | Sent | Skipped

  datatype Return = Exceeded | Of(res: CallResult)

  /**
  The variables of `Do`, its goroutines by launch order, the channel and the timer. `taken`,
  `written`, `ticks` and `resets` record what the loop has done so far.
  */
  datatype State = State(
    doCall: bool, ret: Option<Return>, abort: bool,
    calls: seq<Goroutine>, chan: seq<CallResult>,
    armed: bool, tick: bool,
    taken: seq<CallResult>, written: seq<nat>, ticks: nat, resets: nat)

  datatype Event =
    | Launch(exceeded: bool)             // the top of the loop, with the answer of isExceedMaxDuration
    | Start(i: nat)                      // goroutine i looks at the abort flag
    | Send(i: nat, res: CallResult)      // its call returns or panics, and it sends the result
    | Fire                               // the timer expires
    | TakeTick(ok: bool)                 // the loop takes a tick; ok is the answer of ShouldRetry
    | TakeResult(ok: bool, stale: bool)  // the loop takes a result; a pending tick may survive a timer reset

  /** `limit` is `retryTimes + 1`: the most calls, and the capacity of the channel. */
  predicate Enabled(limit: nat, s: State, e: Event) {
    match e
    case Launch(_) => s.ret.None? && s.doCall
    case Start(i) => i < |s.calls| && s.calls[i].Spawned?
    case Send(i, _) => i < |s.calls| && s.calls[i].Running? && |s.chan| < limit
    case Fire => s.armed
    case TakeTick(_) => s.ret.None? && !s.doCall && s.tick
    case TakeResult(_, _) => s.ret.None? && !s.doCall && s.chan != []
  }

  /** What the two loops have in common: goroutines, timer, and the reaction to a tick. */
  function Common(limit: nat, s: State, e: Event): State
    requires Enabled(limit, s, e) && !e.Launch? && !e.TakeResult?
  {
    match e
    case Start(i) =>
      if s.abort then s.(calls := s.calls[i := Skipped])
      else s.(calls := s.calls[i := Running])
    case Send(i, res) => s.(calls := s.calls[i := Sent], chan := s.chan + [res])
    case Fire => s.(armed := false, tick := true)
    case TakeTick(ok) =>
      var s' := s.(tick := false, ticks := s.ticks + 1);
      if ok && |s.calls| < limit then s'.(doCall := true, armed := true, resets := s.resets + 1) else s'
  }

  function Spawn(s: State): State { s.(doCall := false, calls := s.calls + [Spawned]) }

  /** Takes the head of the channel. */
  function Receive(s: State): State
    requires s.chan != []
  {
    s.(chan := s.chan[1..], taken := s.taken + [s.chan[0]])
  }

  /** The loop returns with a result. */
  function Finish(s: State, res: CallResult): State {
    s.(abort := true, written := s.written + [res.resp], ret := Some(Of(res)))
  }

  function Mixed(limit: nat, s: State, e: Event): State
    requires Enabled(limit, s, e)
  {
    match e
    case Launch(exceeded) =>
      if |s.calls| > 0 && exceeded then s.(doCall := false, ret := Some(Exceeded)) else Spawn(s)
    case TakeResult(ok, stale) =>
      var res, r := s.chan[0], Receive(s);
      if |r.taken| < limit then
        if |s.calls| < limit then
          if res.retry && ok
          then r.(doCall := true, armed := true, tick := s.tick && stale, resets := s.resets + 1)
          else Finish(r, res)
        else if res.retry then r
        else Finish(r, res)
      else Finish(r, res)
    case _ => Common(limit, s, e)
  }

  function Backup(limit: nat, s: State, e: Event): State
    requires Enabled(limit, s, e)
  {
    match e
    case Launch(_) => Spawn(s)
    case TakeResult(_, _) => Finish(Receive(s), s.chan[0])
    case _ => Common(limit, s, e)
  }

  function Init(): State {
    State(true, None, false, [], [], true, false, [], [], 0, 0)
  }

  datatype Engine = MixedEngine | BackupEngine

  function Apply(engine: Engine, limit: nat, s: State, e: Event): State
    requires Enabled(limit, s, e)
  {
    match engine
    case MixedEngine => Mixed(limit, s, e)
    case BackupEngine => Backup(limit, s, e)
  }

  /** An execution of one of the engines. */
  ghost predicate IsRun(engine: Engine, limit: nat, run: seq<State>, es: seq<Event>) {
    && |run| == |es| + 1 && run[0] == Init()
    && forall k :: 0 <= k < |es| ==> Enabled(limit, run[k], es[k]) && run[k + 1] == Apply(engine, limit, run[k], es[k])
  }

  // Counting goroutines.

  function SentCount(calls: seq<Goroutine>): nat {
    if calls == [] then 0 else
    SentCount(calls[..|calls| - 1]) + if calls[|calls| - 1].Sent? then 1 else 0
  }

  lemma {:induction false} SentUpdate(calls: seq<Goroutine>, i: nat, g: Goroutine)
    requires i < |calls|
    ensures SentCount(calls[i := g]) ==
              SentCount(calls) - (if calls[i].Sent? then 1 else 0) + (if g.Sent? then 1 else 0)
  {
    var c := calls[i := g];
    if i == |calls| - 1 {
      assert c[..|calls| - 1] == calls[..|calls| - 1];
    } else {
      SentUpdate(calls[..|calls| - 1], i, g);
      assert c[..|calls| - 1] == calls[..|calls| - 1][i := g];
    }
  }

  lemma SentSpawn(calls: seq<Goroutine>)
    ensures SentCount(calls + [Spawned]) == SentCount(calls)
  {
    assert (calls + [Spawned])[..|calls|] == calls;
  }

  lemma {:induction false} SentAtMost(calls: seq<Goroutine>)
    ensures SentCount(calls) <= |calls|
    ensures (exists i :: 0 <= i < |calls| && !calls[i].Sent?) <==> SentCount(calls) < |calls|
  {
    if calls != [] {
      var init := calls[..|calls| - 1];
      SentAtMost(init);
      if i :| 0 <= i < |calls| && !calls[i].Sent? {
        if i < |init| { assert !init[i].Sent?; }
      }
      if SentCount(calls) < |calls| {
        if calls[|calls| - 1].Sent? {
          var i :| 0 <= i < |init| && !init[i].Sent?;
          assert !calls[i].Sent?;
        }
      }
    }
  }

  // The invariant of both engines.

  ghost predicate CallsInv(limit: nat, s: State) {
    && |s.calls| <= limit && (s.doCall ==> |s.calls| < limit)
    && SentCount(s.calls) == |s.chan| + |s.taken|
    && (s.ret.None? ==> !s.abort && forall i :: 0 <= i < |s.calls| ==> !s.calls[i].Skipped?)
  }

  /** At the select something is outstanding; a pending launch is the only other case. */
  ghost predicate SelectInv(s: State) {
    s.ret.None? && !s.doCall ==> |s.taken| < |s.calls|
  }

  /** Every tick stems from the timer's creation or one of its resets, and every reset led to a launch. */
  ghost predicate TimerInv(limit: nat, s: State) {
    && s.ticks + (if s.tick then 1 else 0) + (if s.armed then 1 else 0) <= 1 + s.resets
    && s.resets < limit
    && (s.ret.None? ==> s.resets + 1 == |s.calls| + if s.doCall then 1 else 0)
  }

  ghost predicate AllRetry(rs: seq<CallResult>) {
    forall k :: 0 <= k < |rs| ==> rs[k].retry
  }

  /** Only retryable results are passed over, and the response is written once, from the returned result. */
  ghost predicate ResultInv(s: State) {
    match s.ret
    case None => AllRetry(s.taken) && s.written == []
    case Some(Exceeded) => AllRetry(s.taken) && s.written == []
    case Some(Of(res)) =>
      && s.taken != [] && s.taken[|s.taken| - 1] == res
      && AllRetry(s.taken[..|s.taken| - 1]) && s.written == [res.resp]
  }

  ghost predicate Inv(limit: nat, s: State) {
    CallsInv(limit, s) && SelectInv(s) && TimerInv(limit, s) && ResultInv(s)
  }

  lemma InitInv(limit: nat)
    requires limit > 0
    ensures Inv(limit, Init())
  {
  }

  lemma StepKeepsCalls(engine: Engine, limit: nat, s: State, e: Event)
    requires CallsInv(limit, s) && Enabled(limit, s, e)
    ensures CallsInv(limit, Apply(engine, limit, s, e))
  {
    hide SentCount;
    match e
    case Launch(_) => SentSpawn(s.calls);
    case Start(i) => SentUpdate(s.calls, i, if s.abort then Skipped else Running);
    case Send(i, _) => SentUpdate(s.calls, i, Sent);
    case _ =>
  }

  /** With the channel's accounts right, a result that is passed over leaves another one outstanding. */
  lemma StepKeepsSelect(engine: Engine, limit: nat, s: State, e: Event)
    requires CallsInv(limit, s) && SelectInv(s) && Enabled(limit, s, e)
    ensures SelectInv(Apply(engine, limit, s, e))
  {
    SentAtMost(s.calls);
  }

  lemma StepKeepsTimer(engine: Engine, limit: nat, s: State, e: Event)
    requires CallsInv(limit, s) && TimerInv(limit, s) && Enabled(limit, s, e)
    ensures TimerInv(limit, Apply(engine, limit, s, e))
  {
    hide SentCount;
  }

  lemma FinishResult(s: State, res: CallResult)
    requires s.ret.None? && s.taken != [] && s.taken[|s.taken| - 1] == res
    requires AllRetry(s.taken[..|s.taken| - 1]) && s.written == []
    ensures ResultInv(Finish(s, res))
  {
  }

  lemma ReceiveResult(s: State)
    requires s.ret.None? && ResultInv(s) && s.chan != []
    ensures var r := Receive(s);
            && AllRetry(r.taken[..|r.taken| - 1]) && r.taken[|r.taken| - 1] == s.chan[0]
            && (s.chan[0].retry ==> AllRetry(r.taken))
  {
    assert (s.taken + [s.chan[0]])[..|s.taken|] == s.taken;
  }

  lemma StepKeepsResult(engine: Engine, limit: nat, s: State, e: Event)
    requires ResultInv(s) && Enabled(limit, s, e)
    ensures ResultInv(Apply(engine, limit, s, e))
  {
    hide AllRetry, Finish, Receive;
    if e.TakeResult? {
      ReceiveResult(s);
      ReceiveFrame(s);
      FinishResult(Receive(s), s.chan[0]);
    }
  }

  lemma ReceiveFrame(s: State)
    requires s.chan != []
    ensures var r := Receive(s); r.ret == s.ret && r.written == s.written && |r.taken| == |s.taken| + 1
  {
  }

  lemma StepKeepsInv(engine: Engine, limit: nat, s: State, e: Event)
    requires Inv(limit, s) && Enabled(limit, s, e)
    ensures Inv(limit, Apply(engine, limit, s, e))
  {
    hide Apply, CallsInv, SelectInv, TimerInv, ResultInv;
    StepKeepsCalls(engine, limit, s, e);
    StepKeepsSelect(engine, limit, s, e);
    StepKeepsTimer(engine, limit, s, e);
    StepKeepsResult(engine, limit, s, e);
  }

  lemma {:induction false} RunInv(engine: Engine, limit: nat, run: seq<State>, es: seq<Event>, k: nat)
    requires limit > 0 && IsRun(engine, limit, run, es) && k < |run|
    ensures Inv(limit, run[k])
  {
    hide Inv, Apply, Enabled;
    if k == 0 {
      InitInv(limit);
    } else {
      RunInv(engine, limit, run, es, k - 1);
      StepKeepsInv(engine, limit, run[k - 1], es[k - 1]);
    }
  }

  // What every run of either engine guarantees.

  /** Calls never exceed `retryTimes + 1`, and the loop wakes at most twice that often. */
  lemma CallsAndWakesBounded(engine: Engine, limit: nat, run: seq<State>, es: seq<Event>, k: nat)
    requires limit > 0 && IsRun(engine, limit, run, es) && k < |run|
    ensures |run[k].calls| <= limit
    ensures run[k].ticks + |run[k].taken| <= 2 * limit
  {
    RunInv(engine, limit, run, es, k);
    SentAtMost(run[k].calls);
  }

  /** A goroutine with a result never finds the channel full, not even after `Do` has returned. */
  lemma SendersNeverBlock(engine: Engine, limit: nat, run: seq<State>, es: seq<Event>, k: nat, i: nat, res: CallResult)
    requires limit > 0 && IsRun(engine, limit, run, es) && k < |run|
    requires i < |run[k].calls| && run[k].calls[i].Running?
    ensures Enabled(limit, run[k], Send(i, res))
  {
    RunInv(engine, limit, run, es, k);
    assert !run[k].calls[i].Sent?;
    SentAtMost(run[k].calls);
  }

  /** The select is never entered for nothing: a result is there, or a goroutine is on its way to send one. */
  lemma SelectWillWake(engine: Engine, limit: nat, run: seq<State>, es: seq<Event>, k: nat)
    requires limit > 0 && IsRun(engine, limit, run, es) && k < |run|
    requires run[k].ret.None? && !run[k].doCall
    ensures run[k].chan != [] || exists i :: 0 <= i < |run[k].calls| && (run[k].calls[i].Spawned? || run[k].calls[i].Running?)
  {
    RunInv(engine, limit, run, es, k);
    SentAtMost(run[k].calls);
    var s := run[k];
    if s.chan == [] {
      var i :| 0 <= i < |s.calls| && !s.calls[i].Sent?;
      assert s.calls[i].Spawned? || s.calls[i].Running?;
    }
  }

  /**
  The first result that needs no retry is the one returned: everything taken before the returned
  result was retryable, and the caller's response is written exactly once, from that result.
  */
  lemma FirstGoodResultReturned(engine: Engine, limit: nat, run: seq<State>, es: seq<Event>, k: nat)
    requires limit > 0 && IsRun(engine, limit, run, es) && k < |run|
    ensures var s := run[k];
            match s.ret
            case Some(Of(res)) =>
              && s.taken != [] && s.taken[|s.taken| - 1] == res && s.written == [res.resp]
              && forall m :: 0 <= m < |s.taken| - 1 ==> s.taken[m].retry
            case _ => s.written == [] && forall m :: 0 <= m < |s.taken| ==> s.taken[m].retry
  {
    RunInv(engine, limit, run, es, k);
    var s := run[k];
    if s.ret.Some? && s.ret.value.Of? {
      forall m | 0 <= m < |s.taken| - 1 ensures s.taken[m].retry { assert s.taken[..|s.taken| - 1][m].retry; }
    }
  }

  // Every run is finite, and one that cannot go on has returned.

  function Steps(g: Goroutine): nat {
    match g
    case Spawned => 3  // start, send, be taken
    case Running => 2
    case _ => 0
  }

  function StepsOf(calls: seq<Goroutine>): nat {
    if calls == [] then 0 else StepsOf(calls[..|calls| - 1]) + Steps(calls[|calls| - 1])
  }

  lemma {:induction false} StepsUpdate(calls: seq<Goroutine>, i: nat, g: Goroutine)
    requires i < |calls|
    ensures StepsOf(calls[i := g]) == StepsOf(calls) - Steps(calls[i]) + Steps(g)
  {
    var c := calls[i := g];
    if i == |calls| - 1 {
      assert c[..|calls| - 1] == calls[..|calls| - 1];
    } else {
      StepsUpdate(calls[..|calls| - 1], i, g);
      assert c[..|calls| - 1] == calls[..|calls| - 1][i := g];
    }
  }

  lemma StepsSpawn(calls: seq<Goroutine>)
    ensures StepsOf(calls + [Spawned]) == StepsOf(calls) + 3
  {
    assert (calls + [Spawned])[..|calls|] == calls;
  }

  /** What the timer may still do: expire and be taken. */
  function TimerBudget(s: State): nat { (if s.armed then 2 else 0) + (if s.tick then 1 else 0) }

  /** Calls not launched yet, each with the timer reset that comes with it unless that has happened. */
  function LaunchBudget(limit: nat, s: State): int {
    if s.ret.Some? then 0
    else 6 * (limit - |s.calls|) - if s.doCall && |s.calls| > 0 then 2 else 0
  }

  function Budget(limit: nat, s: State): int {
    LaunchBudget(limit, s) + StepsOf(s.calls) + |s.chan| + TimerBudget(s)
  }

  lemma BudgetFalls(engine: Engine, limit: nat, s: State, e: Event)
    requires CallsInv(limit, s) && SelectInv(s) && Enabled(limit, s, e)
    ensures Budget(limit, Apply(engine, limit, s, e)) < Budget(limit, s)
  {
    hide StepsOf, SentCount;
    match e
    case Launch(_) => StepsSpawn(s.calls);
    case Start(i) => StepsUpdate(s.calls, i, if s.abort then Skipped else Running);
    case Send(i, _) => StepsUpdate(s.calls, i, Sent);
    case _ =>
  }

  /** No run has more than `6 * (retryTimes + 1) + 2` steps. */
  lemma {:induction false} RunsFinite(engine: Engine, limit: nat, run: seq<State>, es: seq<Event>, k: nat)
    requires limit > 0 && IsRun(engine, limit, run, es) && k < |run|
    ensures k + Budget(limit, run[k]) <= 6 * limit + 2 && Budget(limit, run[k]) >= 0
  {
    RunInv(engine, limit, run, es, k);
    if k > 0 {
      hide Budget, Apply, Enabled, SentCount;
      RunsFinite(engine, limit, run, es, k - 1);
      RunInv(engine, limit, run, es, k - 1);
      BudgetFalls(engine, limit, run[k - 1], es[k - 1]);
    }
  }

  /** Until `Do` has returned there is always a step to take. */
  lemma NeverStuck(engine: Engine, limit: nat, run: seq<State>, es: seq<Event>, k: nat) returns (e: Event)
    requires limit > 0 && IsRun(engine, limit, run, es) && k < |run| && run[k].ret.None?
    ensures Enabled(limit, run[k], e) && !e.Fire?
  {
    var s := run[k];
    if s.doCall {
      e := Launch(false);
    } else if s.chan != [] {
      e := TakeResult(false, false);
    } else {
      SelectWillWake(engine, limit, run, es, k);
      var i :| 0 <= i < |s.calls| && (s.calls[i].Spawned? || s.calls[i].Running?);
      var res := Returned(0, 0, None, false);
      e := if s.calls[i].Spawned? then Start(i) else Send(i, res);
      if s.calls[i].Running? { SendersNeverBlock(engine, limit, run, es, k, i, res); }
    }
  }
}
