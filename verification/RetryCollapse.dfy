/**
Mixed retry collapses to its two parts: to backup retry when no result is retryable, and to
failure retry when the timer never fires.
*/
module RetryCollapse {
  import opened Discovery
  import opened RetryMachine

  // Collapse to the backup retryer.

  /** No call's result asks for a retry, and the maximum duration is never exceeded. */
  ghost predicate NothingRetryable(es: seq<Event>) {
    forall k :: 0 <= k < |es| ==>
      (es[k].Send? ==> !es[k].res.retry) && (es[k].Launch? ==> !es[k].exceeded)
  }

  ghost predicate NoneRetryable(rs: seq<CallResult>) {
    forall k :: 0 <= k < |rs| ==> !rs[k].retry
  }

  lemma StepNotRetryable(engine: Engine, limit: nat, s: State, e: Event)
    requires Enabled(limit, s, e) && NoneRetryable(s.chan) && (e.Send? ==> !e.res.retry)
    ensures NoneRetryable(Apply(engine, limit, s, e).chan)
  {
  }

  lemma {:induction false} ChannelNotRetryable(engine: Engine, limit: nat, run: seq<State>, es: seq<Event>, k: nat)
    requires IsRun(engine, limit, run, es) && NothingRetryable(es) && k < |run|
    ensures NoneRetryable(run[k].chan)
  {
    hide Apply, Enabled, NoneRetryable;
    if k == 0 {
      StartNotRetryable();
    } else {
      ChannelNotRetryable(engine, limit, run, es, k - 1);
      StepNotRetryable(engine, limit, run[k - 1], es[k - 1]);
    }
  }

  lemma StartNotRetryable()
    ensures NoneRetryable(Init().chan)
  {
  }

  lemma SameStep(limit: nat, s: State, e: Event)
    requires Enabled(limit, s, e) && NoneRetryable(s.chan) && (e.Launch? ==> !e.exceeded)
    ensures Mixed(limit, s, e) == Backup(limit, s, e)
  {
  }

  /** When nothing is retryable, the runs of the mixed retryer are exactly those of the backup retryer. */
  lemma CollapsesToBackup(limit: nat, run: seq<State>, es: seq<Event>)
    requires NothingRetryable(es)
    ensures IsRun(MixedEngine, limit, run, es) <==> IsRun(BackupEngine, limit, run, es)
  {
    hide Mixed, Backup, Enabled;
    if IsRun(MixedEngine, limit, run, es) {
      forall k | 0 <= k < |es| ensures run[k + 1] == Apply(BackupEngine, limit, run[k], es[k]) {
        ChannelNotRetryable(MixedEngine, limit, run, es, k);
        SameStep(limit, run[k], es[k]);
      }
    }
    if IsRun(BackupEngine, limit, run, es) {
      forall k | 0 <= k < |es| ensures run[k + 1] == Apply(MixedEngine, limit, run[k], es[k]) {
        ChannelNotRetryable(BackupEngine, limit, run, es, k);
        SameStep(limit, run[k], es[k]);
      }
    }
  }

  // The failure retryer.

  /** Oracle answers: the result of call `i`, and what ShouldRetry and isExceedMaxDuration say before it. */
  datatype Oracle = Oracle(results: seq<CallResult>, answers: seq<bool>, exceeded: seq<bool>)

  ghost predicate Covers(limit: nat, o: Oracle) {
    limit > 0 && |o.results| == |o.answers| == |o.exceeded| == limit
  }

  /** After call `i` a loop makes another call; a panic that is not turned into a result ends the loop. */
  predicate GoesOn(limit: nat, o: Oracle, panicEnds: bool, i: nat)
    requires i < limit == |o.results| == |o.answers| == |o.exceeded|
  {
    && !(panicEnds && o.results[i].Panicked?)
    && o.results[i].retry && i + 1 < limit && !o.exceeded[i + 1] && o.answers[i + 1]
  }

  /** The last call a loop makes: the first, from call `i` on, after which it does not go on. */
  function LastCall(limit: nat, o: Oracle, panicEnds: bool, i: nat): (last: nat)
    requires i < limit == |o.results| == |o.answers| == |o.exceeded|
    ensures i <= last < limit && !GoesOn(limit, o, panicEnds, last)
    ensures forall m :: i <= m < last ==> GoesOn(limit, o, panicEnds, m)
    decreases limit - i
  {
    if GoesOn(limit, o, panicEnds, i) then LastCall(limit, o, panicEnds, i + 1) else i
  }

  datatype FailureReturn =
    FailureReturn(calls: nat, ri: Option<nat>, err: Option<Error>, written: seq<nat>, exceeded: bool)

  /**
  The outcome, told by the last call: a panic leaves the caller's response alone, and giving up
  on the duration replaces the error.
  */
  ghost predicate FailureOutcome(limit: nat, o: Oracle, r: FailureReturn)
    requires Covers(limit, o)
  {
    var last := LastCall(limit, o, true, 0);
    var res := o.results[last];
    && r.calls == last + 1
    && (r.exceeded <==> res.Returned? && res.retry && last + 1 < limit && o.exceeded[last + 1])
    && match res
       case Panicked(info, _, _) => r.ri == None && r.written == [] && r.err == Some(PanicError(info))
       case Returned(info, resp, e, _) =>
         && r.ri == Some(info) && r.written == [resp]
         && (!r.exceeded && e.None? ==> r.err == None)
         && (!r.exceeded && e.Some? ==> r.err == Some(CallError(e.value)))
  }

  /** The loop of `failureRetryer.Do`; its deferred recovery is the exit for a panicking call. */
  method FailureDo(limit: nat, o: Oracle) returns (r: FailureReturn)
    requires Covers(limit, o)
    ensures FailureOutcome(limit, o, r)
  {
    var callTimes, res, exceeded := 0, o.results[0], false;
    var i := 0;
    while i < limit
      invariant 0 <= i <= limit && callTimes == i && !exceeded
      invariant i > 0 ==> res == o.results[i - 1] && res.Returned? && res.retry && LastCall(limit, o, true, 0) >= i - 1
      invariant i == 0 ==> res == o.results[0]
      decreases limit - i
    {
      assert i > 0 ==> (GoesOn(limit, o, true, i - 1) <==> !o.exceeded[i] && o.answers[i]);
      if i > 0 {
        if o.exceeded[i] {
          exceeded := true;
          break;
        }
        if !o.answers[i] { break; }
      }
      callTimes := callTimes + 1;
      res := o.results[i];
      if res.Panicked? {
        assert !GoesOn(limit, o, true, i);
        return FailureReturn(callTimes, None, Some(PanicError(res.panic)), [], false);
      }
      if !res.retry {
        assert !GoesOn(limit, o, true, i);
        break;
      }
      i := i + 1;
    }
    r := FailureReturn(callTimes, res.Ri(), res.Err(), [res.resp], exceeded);
  }

  // Collapse to the failure retryer.

  /** Event `e` in state `s` agrees with the oracle, the timer does not fire and no duration is exceeded. */
  predicate Agrees(limit: nat, o: Oracle, s: State, e: Event)
    requires limit == |o.results| == |o.answers|
  {
    match e
    case Launch(exceeded) => !exceeded
    case Send(i, res) => i < limit && res == o.results[i]
    case Fire => false
    case TakeResult(ok, _) => |s.calls| < limit ==> ok == o.answers[|s.calls|]
    case _ => true
  }

  ghost predicate AgreeingRun(limit: nat, o: Oracle, run: seq<State>, es: seq<Event>) {
    && Covers(limit, o) && (forall i :: 0 <= i < limit ==> !o.exceeded[i])
    && IsRun(MixedEngine, limit, run, es)
    && forall k :: 0 <= k < |es| ==> Agrees(limit, o, run[k], es[k])
  }

  /** All calls but the last have been answered. */
  ghost predicate EarlierSent(calls: seq<Goroutine>) {
    forall i :: 0 <= i < |calls| - 1 ==> calls[i].Sent?
  }

  /** Without ticks the mixed loop makes one call at a time, and is where the failure loop would be. */
  ghost predicate SequentialInv(limit: nat, o: Oracle, s: State)
    requires Covers(limit, o)
  {
    var n := |s.calls|;
    && !s.tick && n <= limit && EarlierSent(s.calls) && (s.ret.None? ==> !s.abort)
    && match s.ret
       case None =>
         if s.doCall then
           && n < limit && (n > 0 ==> s.calls[n - 1].Sent?) && s.chan == [] && |s.taken| == n
           && LastCall(limit, o, false, 0) == LastCall(limit, o, false, n)
         else
           && n > 0 && |s.taken| == n - 1 && !s.calls[n - 1].Skipped?
           && s.chan == (if s.calls[n - 1].Sent? then [o.results[n - 1]] else [])
           && LastCall(limit, o, false, 0) == LastCall(limit, o, false, n - 1)
       case Some(Exceeded) => false
       case Some(Of(res)) =>
         && n == LastCall(limit, o, false, 0) + 1 && res == o.results[n - 1] && s.chan == []
         && s.calls[n - 1].Sent?
  }

  lemma SequentialStep(limit: nat, o: Oracle, s: State, e: Event)
    requires Covers(limit, o) && (forall i :: 0 <= i < limit ==> !o.exceeded[i])
    requires SequentialInv(limit, o, s) && Enabled(limit, s, e) && Agrees(limit, o, s, e)
    ensures SequentialInv(limit, o, Mixed(limit, s, e))
  {
    match e
    case Launch(_) =>
    case Start(i) =>
    case Send(i, _) =>
    case TakeResult(_, _) =>
      var n := |s.calls|;
      assert n < limit ==> (GoesOn(limit, o, false, n - 1) <==> o.results[n - 1].retry && o.answers[n]);
    case TakeTick(_) =>
  }

  lemma {:induction false} SequentialRun(limit: nat, o: Oracle, run: seq<State>, es: seq<Event>, k: nat)
    requires AgreeingRun(limit, o, run, es) && k < |run|
    ensures SequentialInv(limit, o, run[k])
  {
    hide SequentialInv, Mixed, Enabled, Agrees;
    if k == 0 {
      SequentialStart(limit, o);
    } else {
      SequentialRun(limit, o, run, es, k - 1);
      SequentialStep(limit, o, run[k - 1], es[k - 1]);
    }
  }

  lemma SequentialStart(limit: nat, o: Oracle)
    requires Covers(limit, o)
    ensures SequentialInv(limit, o, Init())
  {
  }

  ghost predicate NoPanic(o: Oracle, n: nat) {
    forall m :: 0 <= m < n && m < |o.results| ==> o.results[m].Returned?
  }

  /** A panicking call is the failure loop's last; without one the two loops stop at the same call. */
  lemma {:induction false} FirstPanicEnds(limit: nat, o: Oracle, i: nat)
    requires Covers(limit, o) && i < limit && NoPanic(o, i)
    ensures var mixed, failure := LastCall(limit, o, false, i), LastCall(limit, o, true, i);
            && failure <= mixed && (failure == mixed <==> NoPanic(o, mixed))
            && (failure < mixed ==> o.results[failure].Panicked?)
    decreases limit - i
  {
    if o.results[i].Returned? && GoesOn(limit, o, false, i) { FirstPanicEnds(limit, o, i + 1); }
  }

  /**
  If the timer never fires, a mixed run that has returned made the failure retryer's calls and
  gives back its RPC info and error exactly when no call before the last one panicked; and it
  also leaves the caller's response as the failure retryer does exactly when none panicked at all.
  */
  lemma CollapsesToFailure(limit: nat, o: Oracle, run: seq<State>, es: seq<Event>, k: nat, r: FailureReturn)
    requires AgreeingRun(limit, o, run, es) && k < |run| && run[k].ret.Some?
    requires FailureOutcome(limit, o, r)
    ensures !r.exceeded && run[k].ret.value.Of?
    ensures var s, res, last := run[k], run[k].ret.value.res, LastCall(limit, o, false, 0);
            && (NoPanic(o, last) <==> |s.calls| == r.calls && res.Ri() == r.ri && res.Err() == r.err)
            && (NoPanic(o, last + 1) <==>
                  |s.calls| == r.calls && res.Ri() == r.ri && res.Err() == r.err && s.written == r.written)
  {
    SequentialRun(limit, o, run, es, k);
    RunInv(MixedEngine, limit, run, es, k);
    FirstPanicEnds(limit, o, 0);
  }

  /** The three steps of a call when no other is outstanding. */
  lemma OneCall(limit: nat, s: State, res: CallResult) returns (s1: State, s2: State, s3: State)
    requires s.ret.None? && s.doCall && !s.abort && s.chan == [] && |s.calls| < limit
    ensures var i := |s.calls|;
            && Enabled(limit, s, Launch(false)) && s1 == Mixed(limit, s, Launch(false))
            && Enabled(limit, s1, Start(i)) && s2 == Mixed(limit, s1, Start(i))
            && Enabled(limit, s2, Send(i, res)) && s3 == Mixed(limit, s2, Send(i, res))
    ensures s3 == s.(doCall := false, calls := s.calls + [Sent], chan := [res])
  {
    var i := |s.calls|;
    s1 := Mixed(limit, s, Launch(false));
    s2 := Mixed(limit, s1, Start(i));
    s3 := Mixed(limit, s2, Send(i, res));
  }

  /** A first call that panics with a retryable error: one call for the failure retryer, two for the mixed one. */
  lemma PanicIsRetried() returns (o: Oracle, run: seq<State>, es: seq<Event>, r: FailureReturn)
    ensures AgreeingRun(2, o, run, es) && FailureOutcome(2, o, r)
    ensures var s := run[|es|];
            && s.ret.Some? && s.ret.value.Of? && |s.calls| == 2 && s.ret.value.res.Err() == None && s.written == [1]
            && r.calls == 1 && r.err == Some(PanicError(0)) && r.written == []
  {
    var bad, good := Panicked(0, 0, true), Returned(1, 1, None, false);
    o := Oracle([bad, good], [true, true], [false, false]);
    r := FailureReturn(1, None, Some(PanicError(0)), [], false);
    assert !GoesOn(2, o, true, 0);
    var s1, s2, s3 := OneCall(2, Init(), bad);
    var s4 := Mixed(2, s3, TakeResult(true, false));
    var s5, s6, s7 := OneCall(2, s4, good);
    var s8 := Mixed(2, s7, TakeResult(false, false));
    es := [Launch(false), Start(0), Send(0, bad), TakeResult(true, false),
           Launch(false), Start(1), Send(1, good), TakeResult(false, false)];
    run := [Init(), s1, s2, s3, s4, s5, s6, s7, s8];
  }

  // The collapse is not vacuous: such runs always go on until they return, and soon do.

  ghost predicate CanStep(limit: nat, o: Oracle, s: State)
    requires Covers(limit, o)
  {
    exists e :: Enabled(limit, s, e) && Agrees(limit, o, s, e)
  }

  lemma SequentialProgress(limit: nat, o: Oracle, s: State)
    requires Covers(limit, o) && SequentialInv(limit, o, s)
    ensures CanStep(limit, o, s) <==> s.ret.None?
  {
    hide LastCall;
    var n := |s.calls|;
    if s.ret.None? {
      var e :=
        if s.doCall then Launch(false)
        else if s.calls[n - 1].Spawned? then Start(n - 1)
        else if s.calls[n - 1].Running? then Send(n - 1, o.results[n - 1])
        else TakeResult(n < limit && o.answers[n], false);
      assert Enabled(limit, s, e) && Agrees(limit, o, s, e);
    } else {
      assert forall i :: 0 <= i < n ==> s.calls[i].Sent?;
    }
  }

  /** How many steps a run without ticks may still make. */
  ghost function StepsLeft(limit: nat, s: State): int {
    var n := |s.calls|;
    if s.ret.Some? then 0
    else if s.doCall || n == 0 then 4 * (limit - n)
    else 4 * (limit - n) + (match s.calls[n - 1]
                            case Spawned => 3
                            case Running => 2
                            case _ => 1)
  }

  lemma StepsLeftFall(limit: nat, o: Oracle, s: State, e: Event)
    requires Covers(limit, o)
    requires SequentialInv(limit, o, s) && Enabled(limit, s, e) && Agrees(limit, o, s, e)
    ensures 0 <= StepsLeft(limit, Mixed(limit, s, e)) < StepsLeft(limit, s)
  {
    hide LastCall;
    if e.Start? || e.Send? { assert e.i == |s.calls| - 1; }
  }

  /** A run without ticks has at most `4 * (retryTimes + 1)` steps, and can stop only by returning. */
  lemma {:induction false} SequentialRunsReturn(limit: nat, o: Oracle, run: seq<State>, es: seq<Event>, k: nat)
    requires AgreeingRun(limit, o, run, es) && k < |run|
    ensures k + StepsLeft(limit, run[k]) <= 4 * limit && StepsLeft(limit, run[k]) >= 0
    ensures CanStep(limit, o, run[k]) <==> run[k].ret.None?
  {
    hide SequentialInv, Enabled, Agrees, CanStep, Mixed;
    SequentialRun(limit, o, run, es, k);
    SequentialProgress(limit, o, run[k]);
    if k > 0 {
      SequentialRunsReturn(limit, o, run, es, k - 1);
      SequentialRun(limit, o, run, es, k - 1);
      StepsLeftFall(limit, o, run[k - 1], es[k - 1]);
    }
  }
}
