/**
What the two retry loops do, told without their code: which result `Do` returns, how many calls
it launches, and what happens to calls once it has returned.
*/
module RetryOutcome {
  import opened Discovery
  import opened RetryMachine

  // Which result is returned.

  /**
  The mixed loop returns a result as soon as it takes one that needs no retry, one that is the
  last of all calls, or one whose retry is still possible but refused; any other is passed over.
  */
  lemma MixedReturnsExactly(limit: nat, run: seq<State>, es: seq<Event>, k: nat)
    requires limit > 0 && IsRun(MixedEngine, limit, run, es) && k < |es| && es[k].TakeResult?
    ensures var s, s' := run[k], run[k + 1];
            && s.chan != [] && s'.taken == s.taken + [s.chan[0]]
            && (s'.ret.None? || s'.ret == Some(Of(s.chan[0])))
            && (s'.ret.Some? <==>
                  || !s.chan[0].retry
                  || |s.taken| + 1 == limit
                  || (|s.calls| < limit && !es[k].ok))
  {
    RunInv(MixedEngine, limit, run, es, k);
    SentAtMost(run[k].calls);
  }

  /** A retryable result is returned only if all results are in or another call was still possible. */
  ghost predicate LastResort(limit: nat, s: State) {
    match s.ret
    case Some(Of(res)) => res.retry ==> |s.taken| == limit || |s.calls| < limit
    case _ => true
  }

  lemma StepKeepsLastResort(limit: nat, s: State, e: Event)
    requires CallsInv(limit, s) && LastResort(limit, s) && Enabled(limit, s, e)
    ensures LastResort(limit, Mixed(limit, s, e))
  {
    SentAtMost(s.calls);
  }

  lemma {:induction false} RunLastResort(limit: nat, run: seq<State>, es: seq<Event>, k: nat)
    requires limit > 0 && IsRun(MixedEngine, limit, run, es) && k < |run|
    ensures LastResort(limit, run[k])
  {
    hide Mixed, Enabled, CallsInv, SelectInv, TimerInv, ResultInv;
    if k == 0 {
      NothingReturned(limit);
    } else {
      RunLastResort(limit, run, es, k - 1);
      RunInv(MixedEngine, limit, run, es, k - 1);
      StepKeepsLastResort(limit, run[k - 1], es[k - 1]);
    }
  }

  lemma NothingReturned(limit: nat)
    ensures LastResort(limit, Init())
  {
  }

  /**
  In every state of a mixed run: a result that needs no retry has been returned at once, and a
  retryable one is returned only when the results of all calls are in or a call was left to make.
  */
  lemma MixedWaitsForTheRest(limit: nat, run: seq<State>, es: seq<Event>, k: nat, m: nat)
    requires limit > 0 && IsRun(MixedEngine, limit, run, es) && k < |run| && m < |run[k].taken|
    ensures var s := run[k];
            && (!s.taken[m].retry ==> m == |s.taken| - 1 && s.ret == Some(Of(s.taken[m])))
            && (s.ret.Some? && s.ret.value.Of? && s.ret.value.res.retry ==> |s.taken| == limit || |s.calls| < limit)
  {
    FirstGoodResultReturned(MixedEngine, limit, run, es, k);
    RunLastResort(limit, run, es, k);
  }

  /** The backup loop returns the first result it takes, whatever it is. */
  lemma {:induction false} BackupReturnsFirst(limit: nat, run: seq<State>, es: seq<Event>, k: nat)
    requires limit > 0 && IsRun(BackupEngine, limit, run, es) && k < |run|
    ensures run[k].ret == if run[k].taken == [] then None else Some(Of(run[k].taken[0]))
    ensures |run[k].taken| <= 1
  {
    if k > 0 { BackupReturnsFirst(limit, run, es, k - 1); }
  }

  /** Only the mixed loop gives up on the duration, and only when it is about to launch another call. */
  lemma GivesUpExactly(engine: Engine, limit: nat, run: seq<State>, es: seq<Event>, k: nat)
    requires IsRun(engine, limit, run, es) && k < |es|
    ensures run[k].ret.None? && run[k + 1].ret == Some(Exceeded) <==>
              engine.MixedEngine? && es[k] == Launch(true) && |run[k].calls| > 0
  {
  }

  // Results pass through the channel in order, and none is lost or made up.

  ghost function SentResults(es: seq<Event>): seq<CallResult> {
    if es == [] then [] else
    var init, last := SentResults(es[..|es| - 1]), es[|es| - 1];
    if last.Send? then init + [last.res] else init
  }

  /** Only a send lengthens the channel, and only a receive shortens it. */
  lemma ChannelStep(engine: Engine, limit: nat, s: State, e: Event)
    requires Enabled(limit, s, e)
    ensures var s' := Apply(engine, limit, s, e);
            && (e.Send? ==> s'.taken == s.taken && s'.chan == s.chan + [e.res])
            && (e.TakeResult? ==> s'.taken == s.taken + [s.chan[0]] && s'.chan == s.chan[1..])
            && (!e.Send? && !e.TakeResult? ==> s'.taken == s.taken && s'.chan == s.chan)
  {
  }

  lemma HeadMoves(taken: seq<CallResult>, chan: seq<CallResult>)
    requires chan != []
    ensures taken + [chan[0]] + chan[1..] == taken + chan
  {
  }

  lemma TailGrows(taken: seq<CallResult>, chan: seq<CallResult>, res: CallResult)
    ensures taken + (chan + [res]) == taken + chan + [res]
  {
  }

  lemma StepKeepsOrder(engine: Engine, limit: nat, s: State, e: Event)
    requires Enabled(limit, s, e)
    ensures var s' := Apply(engine, limit, s, e);
            s'.taken + s'.chan == if e.Send? then s.taken + s.chan + [e.res] else s.taken + s.chan
  {
    hide Apply;
    ChannelStep(engine, limit, s, e);
    if e.TakeResult? { HeadMoves(s.taken, s.chan); }
    if e.Send? { TailGrows(s.taken, s.chan, e.res); }
  }

  /** What the loop has taken, followed by what waits in the channel, is what the calls have sent, in order. */
  lemma {:induction false} ResultsInOrder(engine: Engine, limit: nat, run: seq<State>, es: seq<Event>, k: nat)
    requires IsRun(engine, limit, run, es) && k < |run|
    ensures run[k].taken + run[k].chan == SentResults(es[..k])
  {
    hide Apply, Enabled;
    if k == 0 {
      assert run[0].taken == [] && run[0].chan == [];
    } else {
      ResultsInOrder(engine, limit, run, es, k - 1);
      StepKeepsOrder(engine, limit, run[k - 1], es[k - 1]);
      assert es[..k][..k - 1] == es[..k - 1];
    }
  }

  // How many calls are launched.

  /** A tick, or in the mixed loop a retryable result, asks for another call, is allowed one, and there is room. */
  predicate Granted(engine: Engine, limit: nat, s: State, e: Event) {
    && |s.calls| < limit
    && match e
       case TakeTick(ok) => ok
       case TakeResult(ok, _) => engine.MixedEngine? && s.chan != [] && s.chan[0].retry && ok
       case _ => false
  }

  ghost function Grants(engine: Engine, limit: nat, run: seq<State>, es: seq<Event>, k: nat): nat
    requires k <= |es| < |run|
  {
    if k == 0 then 0
    else Grants(engine, limit, run, es, k - 1) + if Granted(engine, limit, run[k - 1], es[k - 1]) then 1 else 0
  }

  /** Calls launched, and the one about to be launched or given up on. */
  function Asked(s: State): nat {
    |s.calls| + if s.doCall || s.ret == Some(Exceeded) then 1 else 0
  }

  lemma StepAsks(engine: Engine, limit: nat, s: State, e: Event)
    requires Inv(limit, s) && Enabled(limit, s, e) && (s.ret.Some? ==> !s.doCall)
    ensures var s' := Apply(engine, limit, s, e);
            && Asked(s') == Asked(s) + (if Granted(engine, limit, s, e) then 1 else 0)
            && (s'.ret.Some? ==> !s'.doCall)
  {
    SentAtMost(s.calls);
  }

  /** Every launch is the first call or was granted, and every grant leads to a launch: the two accounts agree. */
  lemma {:induction false} CallsAreGranted(engine: Engine, limit: nat, run: seq<State>, es: seq<Event>, k: nat)
    requires limit > 0 && IsRun(engine, limit, run, es) && k < |run|
    ensures Asked(run[k]) == 1 + Grants(engine, limit, run, es, k)
    ensures run[k].ret.Some? ==> !run[k].doCall
  {
    hide Apply, Enabled, Inv, Granted, Asked;
    if k == 0 {
      FirstAsked();
    } else {
      CallsAreGranted(engine, limit, run, es, k - 1);
      RunInv(engine, limit, run, es, k - 1);
      StepAsks(engine, limit, run[k - 1], es[k - 1]);
    }
  }

  lemma FirstAsked()
    ensures Asked(Init()) == 1 && Init().ret.None?
  {
  }

  /** A grant makes the next launch possible and sets the timer again. */
  lemma GrantLaunches(engine: Engine, limit: nat, run: seq<State>, es: seq<Event>, k: nat)
    requires limit > 0 && IsRun(engine, limit, run, es) && k < |es| && Granted(engine, limit, run[k], es[k])
    ensures run[k + 1].armed && run[k + 1].calls == run[k].calls && Enabled(limit, run[k + 1], Launch(false))
  {
    RunInv(engine, limit, run, es, k);
    SentAtMost(run[k].calls);
  }

  lemma Extended(engine: Engine, limit: nat, run: seq<State>, es: seq<Event>, e: Event)
      returns (longer: seq<State>, more: seq<Event>)
    requires IsRun(engine, limit, run, es) && Enabled(limit, run[|es|], e)
    ensures IsRun(engine, limit, longer, more) && longer[|more|] == Apply(engine, limit, run[|es|], e)
  {
    hide Apply, Enabled;
    longer, more := run + [Apply(engine, limit, run[|es|], e)], es + [e];
  }

  /** The timer alone can drive either loop to any number of calls up to `retryTimes + 1`. */
  lemma {:induction false} CallsAttained(engine: Engine, limit: nat, n: nat) returns (run: seq<State>, es: seq<Event>)
    requires 0 < n <= limit
    ensures IsRun(engine, limit, run, es)
    ensures var s := run[|es|]; |s.calls| == n && s.ret.None? && !s.doCall && s.armed && !s.tick
  {
    if n == 1 {
      run, es := [Init()], [];
    } else {
      run, es := CallsAttained(engine, limit, n - 1);
      run, es := Extended(engine, limit, run, es, Fire);
      run, es := Extended(engine, limit, run, es, TakeTick(true));
    }
    run, es := Extended(engine, limit, run, es, Launch(false));
  }

  // Calls after the return.

  predicate NotMade(g: Goroutine) { g.Spawned? || g.Skipped? }

  ghost predicate AbortInv(s: State) { s.ret.Some? && s.ret.value.Of? ==> s.abort }

  lemma StepAborts(engine: Engine, limit: nat, s: State, e: Event, i: nat)
    requires AbortInv(s) && Enabled(limit, s, e) && i < |s.calls|
    ensures var s' := Apply(engine, limit, s, e);
            && AbortInv(s') && i < |s'.calls|
            && (s.ret.Some? && s.ret.value.Of? ==> s'.ret == s.ret && (NotMade(s.calls[i]) ==> NotMade(s'.calls[i])))
  {
  }

  lemma {:induction false} RunAborts(engine: Engine, limit: nat, run: seq<State>, es: seq<Event>, k: nat)
    requires IsRun(engine, limit, run, es) && k < |run|
    ensures AbortInv(run[k])
  {
    if k > 0 { RunAborts(engine, limit, run, es, k - 1); }
  }

  /** A call whose goroutine has not begun when `Do` returns a result is never made. */
  lemma {:induction false} NoCallAfterReturn(engine: Engine, limit: nat, run: seq<State>, es: seq<Event>, j: nat, k: nat, i: nat)
    requires IsRun(engine, limit, run, es) && j <= k < |run|
    requires run[j].ret.Some? && run[j].ret.value.Of? && i < |run[j].calls| && NotMade(run[j].calls[i])
    ensures run[k].ret == run[j].ret && i < |run[k].calls| && NotMade(run[k].calls[i])
  {
    hide Apply, Enabled, NotMade;
    if j < k {
      NoCallAfterReturn(engine, limit, run, es, j, k - 1, i);
      RunAborts(engine, limit, run, es, k - 1);
      StepAborts(engine, limit, run[k - 1], es[k - 1], i);
    }
  }
}
