/**
The timeout worker pool as interleaved steps: submitters take task objects from an object pool,
hand them to an idle worker, a new worker or a plain goroutine, and wait; runners call the
endpoint, store its error, cancel the context and recycle the object.
*/
module TimeoutPool {
  import opened Discovery

  datatype Err = Canceled | DeadlineExceeded | ParentErr(p: nat) | EndpointErr(e: nat) | PanicErr(i: nat)

  /** How the endpoint call of a task ended. */
  datatype Outcome = ReturnedNil | Failed(e: nat) | Panicked(i: nat)

  function ErrOf(o: Outcome): Option<Err> {
    match o
    case ReturnedNil => None
    case Failed(e) => Some(EndpointErr(e))
    case Panicked(i) => Some(PanicErr(i))
  }

  /** A timeout context, never reused: the stored reason, how often its channel was closed, every reason given. */
  datatype Context = Context(err: Option<Err>, closes: nat, reasons: seq<Err>)

  function Cancel(c: Context, reason: Err): Context {
    if c.err.None? then Context(Some(reason), c.closes + 1, c.reasons + [reason])
    else c.(reasons := c.reasons + [reason])
  }

  /** Where a submitter is: in RunTask before its task has a runner, or in Wait. */
  datatype WaitPc =
    | Submitting
    | Backing                       // has raised the size too high and must lower it again
    | Overflowed                    // about to start a goroutine of its own
    | Waiting
    | SawDone                       // its select took the context's done channel
    | Stopped                       // it has cancelled the context itself
    | Returning(r: Option<Err>)
    | Done(r: Option<Err>)          // has called wg.Done and returned

  /** A submission with its own context. `live` until its object is recycled; `runner` once it has one. */
  datatype Sub = Sub(
    obj: nat, pc: WaitPc, ctx: Context, hasDeadline: bool,
    outcome: Option<Outcome>, endpointCalls: nat, runner: Option<nat>, live: bool)

  /** A task object: whether it is in the object pool, whose fields it holds, its wait group and stored error. */
  datatype Obj = Obj(pooled: bool, sub: Option<nat>, wg: int, err: Option<Err>)

  datatype RunPc =
    | Idle
    | Ready(o: nat)
    | Called(o: nat, out: Outcome)
    | Stored(o: nat)
    | Cancelled(o: nat)
    | WgPassed(o: nat)
    | Exited

  datatype State = State(
    subs: map<nat, Sub>, objs: map<nat, Obj>, runners: map<nat, RunPc>,
    size: int, workers: set<nat>, backing: set<nat>)

  datatype Event =
    | Submit(k: nat, o: nat, hasDeadline: bool)
    | HandOver(k: nat, r: nat)
    | CreateWorker(k: nat, r: nat)
    | GiveUp(k: nat)
    | SpawnRun(k: nat, r: nat)
    | CallEndpoint(r: nat, out: Outcome)
    | StoreErr(r: nat)
    | RunCancel(r: nat)
    | WgWait(r: nat)
    | Recycle(r: nat)
    | WorkerExit(r: nat)
    | SeeDone(k: nat)
    | LoadErr(k: nat)
    | Expire(k: nat)
    | ParentDone(k: nat, p: nat)
    | ReadCtxErr(k: nat)
    | WgDone(k: nat)

  predicate Active(pc: RunPc) { !pc.Idle? && !pc.Exited? }

  /** The submission whose fields the object holds. */
  predicate Holds(s: State, o: nat) {
    o in s.objs && s.objs[o].sub.Some? && s.objs[o].sub.value in s.subs
  }

  predicate SubAt(s: State, k: nat, pc: WaitPc) { k in s.subs && s.subs[k].pc == pc }

  predicate RunnerEvent(e: Event) {
    e.CallEndpoint? || e.StoreErr? || e.RunCancel? || e.WgWait? || e.Recycle? || e.WorkerExit?
  }

  predicate WaiterEvent(e: Event) {
    e.SeeDone? || e.LoadErr? || e.Expire? || e.ParentDone? || e.ReadCtxErr? || e.WgDone?
  }

  predicate RunnerEnabled(s: State, e: Event)
    requires RunnerEvent(e)
  {
    e.r in s.runners &&
    var pc := s.runners[e.r];
    match e
    case CallEndpoint(_, _) => pc.Ready? && Holds(s, pc.o)
    case StoreErr(_) => pc.Called? && Holds(s, pc.o)
    case RunCancel(_) => pc.Stored? && Holds(s, pc.o)
    case WgWait(_) => pc.Cancelled? && Holds(s, pc.o) && s.objs[pc.o].wg == 0
    case Recycle(_) => pc.WgPassed? && Holds(s, pc.o)
    case WorkerExit(_) => pc.Idle?
  }

  predicate WaiterEnabled(s: State, e: Event)
    requires WaiterEvent(e)
  {
    e.k in s.subs && Holds(s, s.subs[e.k].obj) &&
    var pc := s.subs[e.k].pc;
    match e
    case SeeDone(k) => pc.Waiting? && s.subs[s.objs[s.subs[k].obj].sub.value].ctx.err.Some?
    case LoadErr(_) => pc.SawDone?
    case Expire(k) => pc.Waiting? && s.subs[k].hasDeadline
    case ParentDone(_, _) => pc.Waiting?
    case ReadCtxErr(_) => pc.Stopped?
    case WgDone(_) => pc.Returning?
  }

  predicate Enabled(s: State, e: Event) {
    if RunnerEvent(e) then RunnerEnabled(s, e)
    else if WaiterEvent(e) then WaiterEnabled(s, e)
    else match e
         case Submit(k, o, _) => k !in s.subs && (o in s.objs ==> s.objs[o].pooled)
         case HandOver(k, r) => SubAt(s, k, Submitting) && r in s.runners && s.runners[r].Idle?
         case CreateWorker(k, r) => SubAt(s, k, Submitting) && r !in s.runners
         case GiveUp(k) => SubAt(s, k, Backing)
         case SpawnRun(k, r) => SubAt(s, k, Overflowed) && r !in s.runners
  }

  // State updates, one submission, object or runner at a time.

  function SetSub(s: State, k: nat, t: Sub): State { s.(subs := s.subs[k := t]) }

  function SetObj(s: State, o: nat, x: Obj): State { s.(objs := s.objs[o := x]) }

  function SetRunner(s: State, r: nat, pc: RunPc): State { s.(runners := s.runners[r := pc]) }

  function WithPc(s: State, k: nat, pc: WaitPc): State
    requires k in s.subs
  {
    SetSub(s, k, s.subs[k].(pc := pc))
  }

  /** The submission gets a runner, and its submitter goes on to Wait. */
  function Assign(s: State, k: nat, r: nat): State
    requires k in s.subs
  {
    SetRunner(SetSub(s, k, s.subs[k].(pc := Waiting, runner := Some(r))), r, Ready(s.subs[k].obj))
  }

  /** Cancels the context that object `o` holds. */
  function CancelVia(s: State, o: nat, reason: Err): State
    requires Holds(s, o)
  {
    var c := s.objs[o].sub.value;
    SetSub(s, c, s.subs[c].(ctx := Cancel(s.subs[c].ctx, reason)))
  }

  function Apply(maxIdle: int, s: State, e: Event): State
    requires Enabled(s, e)
  {
    match e
    case Submit(k, o, hasDeadline) =>
      var wg := if o in s.objs then s.objs[o].wg else 0;
      SetObj(SetSub(s, k, Sub(o, Submitting, Context(None, 0, []), hasDeadline, None, 0, None, true)),
             o, Obj(false, Some(k), wg + 1, None))
    case HandOver(k, r) => Assign(s, k, r)
    case CreateWorker(k, r) =>
      if s.size + 1 < maxIdle
      then Assign(s, k, r).(size := s.size + 1, workers := s.workers + {r})
      else WithPc(s, k, Backing).(size := s.size + 1, backing := s.backing + {k})
    case GiveUp(k) => WithPc(s, k, Overflowed).(size := s.size - 1, backing := s.backing - {k})
    case SpawnRun(k, r) => Assign(s, k, r)
    case CallEndpoint(r, out) =>
      var o := s.runners[r].o;
      var k := s.objs[o].sub.value;
      SetRunner(SetSub(s, k, s.subs[k].(outcome := Some(out), endpointCalls := s.subs[k].endpointCalls + 1)),
                r, Called(o, out))
    case StoreErr(r) =>
      var o, err := s.runners[r].o, ErrOf(s.runners[r].out);
      SetRunner(SetObj(s, o, s.objs[o].(err := if err.Some? then err else s.objs[o].err)), r, Stored(o))
    case RunCancel(r) =>
      var o := s.runners[r].o;
      SetRunner(CancelVia(s, o, Canceled), r, Cancelled(o))
    case WgWait(r) => SetRunner(s, r, WgPassed(s.runners[r].o))
    case Recycle(r) =>
      var o := s.runners[r].o;
      var k := s.objs[o].sub.value;
      SetRunner(SetObj(SetSub(s, k, s.subs[k].(live := false)), o, Obj(true, None, s.objs[o].wg, None)),
                r, if r in s.workers then Idle else Exited)
    case WorkerExit(r) => SetRunner(s, r, Exited).(size := s.size - 1, workers := s.workers - {r})
    case SeeDone(k) => WithPc(s, k, SawDone)
    case LoadErr(k) => WithPc(s, k, Returning(s.objs[s.subs[k].obj].err))
    case Expire(k) => Stop(s, k, DeadlineExceeded)
    case ParentDone(k, p) => Stop(s, k, ParentErr(p))
    case ReadCtxErr(k) => WithPc(s, k, Returning(s.subs[s.objs[s.subs[k].obj].sub.value].ctx.err))
    case WgDone(k) =>
      var o := s.subs[k].obj;
      SetObj(WithPc(s, k, Done(s.subs[k].pc.r)), o, s.objs[o].(wg := s.objs[o].wg - 1))
  }

  /** Wait cancels the context its object holds. */
  function Stop(s: State, k: nat, reason: Err): State
    requires k in s.subs && Holds(s, s.subs[k].obj)
  {
    WithPc(CancelVia(s, s.subs[k].obj, reason), k, Stopped)
  }

  function Init(): State { State(map[], map[], map[], 0, {}, {}) }

  // The invariant of one submission.

  ghost predicate CtxInv(c: Context) {
    && c.closes == (if c.err.Some? then 1 else 0)
    && (c.err.Some? <==> c.reasons != [])
    && (c.err.Some? ==> c.err.value == c.reasons[0])
  }

  predicate BeforeRunner(pc: WaitPc) { pc.Submitting? || pc.Backing? || pc.Overflowed? }

  /** Nobody but the runner, which gives `Canceled`, has cancelled the context. */
  ghost predicate OnlyRunner(c: Context) {
    forall m :: 0 <= m < |c.reasons| ==> c.reasons[m] == Canceled
  }

  lemma CancelReasons(c: Context, reason: Err)
    ensures OnlyRunner(Cancel(c, reason)) <==> OnlyRunner(c) && reason == Canceled
  {
    var d := Cancel(c, reason);
    assert d.reasons[|c.reasons|] == reason;
    assert forall m :: 0 <= m < |c.reasons| ==> d.reasons[m] == c.reasons[m];
  }

  /** The error of the endpoint call itself. */
  predicate OwnError(out: Outcome, r: Option<Err>) {
    match out
    case ReturnedNil => r == None
    case Failed(e) => r == Some(EndpointErr(e))
    case Panicked(i) => r == Some(PanicErr(i))
  }

  /**
  What Wait gives back: the endpoint's own error or nil if only the runner has cancelled the
  context, otherwise the stored reason. Either way the context is cancelled by then.
  */
  ghost predicate Answer(t: Sub, r: Option<Err>) {
    && t.ctx.err.Some?
    && (OnlyRunner(t.ctx) ==> t.outcome.Some? && OwnError(t.outcome.value, r))
    && (!OnlyRunner(t.ctx) ==> r == t.ctx.err)
  }

  /** How far the runner is, and what the submission and its object know by then. */
  ghost predicate StageInv(t: Sub, x: Obj, pc: RunPc) {
    match pc
    case Ready(_) => t.endpointCalls == 0 && t.outcome.None? && x.err.None?
    case Called(_, out) => t.endpointCalls == 1 && t.outcome == Some(out) && x.err.None?
    case Stored(_) => t.endpointCalls == 1 && t.outcome.Some? && x.err == ErrOf(t.outcome.value)
    case Cancelled(_) => t.endpointCalls == 1 && t.outcome.Some? && x.err == ErrOf(t.outcome.value) && t.ctx.err.Some?
    case WgPassed(_) => t.endpointCalls == 1 && t.outcome.Some? && t.pc.Done?
    case _ => false
  }

  /** Until Wait stops it itself, only its runner cancels the context, and only after storing the error. */
  ghost predicate WaitInv(t: Sub, pc: RunPc) {
    && (t.pc.Waiting? ==> OnlyRunner(t.ctx) && (t.ctx.err.Some? ==> pc.Cancelled?))
    && (t.pc.SawDone? ==> OnlyRunner(t.ctx) && pc.Cancelled?)
    && (t.pc.Stopped? ==> !OnlyRunner(t.ctx) && t.ctx.err.Some?)
    && (t.pc.Returning? || t.pc.Done? ==> Answer(t, t.pc.r))
  }

  /** Before it has a runner nothing has happened to a task. */
  ghost predicate Untouched(t: Sub, x: Obj) {
    t.endpointCalls == 0 && t.outcome.None? && x.err.None? && t.ctx == Context(None, 0, [])
  }

  /** A live submission has its object to itself; once handed over, it has one runner at work on it. */
  ghost predicate LiveInv(s: State, k: nat, t: Sub) {
    && t.obj in s.objs
    && !s.objs[t.obj].pooled && s.objs[t.obj].sub == Some(k)
    && s.objs[t.obj].wg == (if t.pc.Done? then 0 else 1)
    && (BeforeRunner(t.pc) <==> t.runner.None?)
    && (t.runner.None? ==> Untouched(t, s.objs[t.obj]))
    && (t.runner.Some? ==> WorkInv(s, t, t.runner.value))
  }

  ghost predicate WorkInv(s: State, t: Sub, r: nat) {
    && r in s.runners && Active(s.runners[r]) && s.runners[r].o == t.obj && t.obj in s.objs
    && StageInv(t, s.objs[t.obj], s.runners[r]) && WaitInv(t, s.runners[r])
  }

  ghost predicate SubInv(s: State, k: nat)
    requires k in s.subs
  {
    var t := s.subs[k];
    && CtxInv(t.ctx)
    && (t.live ==> LiveInv(s, k, t))
    && (!t.live ==> t.pc.Done? && t.endpointCalls == 1 && Answer(t, t.pc.r))
  }

  /** A runner at work has the object of exactly the submission that names it. */
  ghost predicate RunnerInv(s: State, r: nat)
    requires r in s.runners
  {
    var pc := s.runners[r];
    Active(pc) ==>
      Holds(s, pc.o) && var k := s.objs[pc.o].sub.value;
                        s.subs[k].live && s.subs[k].runner == Some(r) && s.subs[k].obj == pc.o
  }

  ghost predicate ObjInv(s: State, o: nat)
    requires o in s.objs
  {
    var x := s.objs[o];
    && (x.pooled ==> x.sub.None? && x.wg == 0)
    && (!x.pooled ==> Holds(s, o) && s.subs[x.sub.value].live && s.subs[x.sub.value].obj == o)
  }

  /** The size counts the live pooled workers and the submitters that must lower it again. */
  ghost predicate PoolInv(maxIdle: int, s: State) {
    && s.size == |s.workers| + |s.backing|
    && (s.workers != {} ==> |s.workers| < maxIdle)
    && (forall k :: k in s.backing <==> SubAt(s, k, Backing))
    && (forall r :: r in s.workers ==> r in s.runners && !s.runners[r].Exited?)
    && (forall r :: r in s.runners && s.runners[r].Idle? ==> r in s.workers)
  }

  ghost predicate TasksInv(s: State) {
    && (forall k :: k in s.subs ==> SubInv(s, k))
    && (forall r :: r in s.runners ==> RunnerInv(s, r))
    && (forall o :: o in s.objs ==> ObjInv(s, o))
  }

  ghost predicate Inv(maxIdle: int, s: State) { TasksInv(s) && PoolInv(maxIdle, s) }

  // Steps touch one submission, its object and its runner, and nothing else.

  ghost predicate SameBut<T(!new)>(a: map<nat, T>, b: map<nat, T>, k: nat) {
    forall j :: j != k ==> (j in a <==> j in b) && (j in a ==> a[j] == b[j])
  }

  /** `o` and `r` belong to submission `k` or to nobody. */
  ghost predicate Own(s: State, k: nat, o: nat, r: nat) {
    && (k in s.subs ==> s.subs[k].live && s.subs[k].obj == o)
    && (k !in s.subs ==> o in s.objs ==> s.objs[o].pooled)
    && (r in s.runners && Active(s.runners[r]) ==> k in s.subs && s.subs[k].runner == Some(r))
    && (k in s.subs && s.subs[k].runner.Some? ==> s.subs[k].runner == Some(r))
  }

  /** Two live submissions share neither an object nor a runner. */
  lemma Exclusive(s: State, j: nat, k: nat)
    requires TasksInv(s) && j in s.subs && k in s.subs && s.subs[j].live && s.subs[k].live
    ensures s.subs[j].obj == s.subs[k].obj ==> j == k
    ensures s.subs[j].runner.Some? && s.subs[j].runner == s.subs[k].runner ==> j == k
  {
    assert SubInv(s, j) && SubInv(s, k);
  }

  lemma LiveFacts(s: State, j: nat)
    requires TasksInv(s) && j in s.subs && s.subs[j].live
    ensures LiveInv(s, j, s.subs[j])
  {
    assert SubInv(s, j);
  }

  lemma FrameSub(s: State, s': State, k: nat, o: nat, r: nat, j: nat)
    requires TasksInv(s) && Own(s, k, o, r) && j in s.subs && j != k
    requires SameBut(s.subs, s'.subs, k) && SameBut(s.objs, s'.objs, o) && SameBut(s.runners, s'.runners, r)
    ensures j in s'.subs && SubInv(s', j)
  {
    hide StageInv, WaitInv, Answer, CtxInv;
    var t := s.subs[j];
    assert SubInv(s, j);
    if t.live {
      if k in s.subs { Exclusive(s, j, k); }
      assert t.obj != o;
      assert t.runner.Some? ==> t.runner.value != r;
    }
  }

  lemma FrameRunner(s: State, s': State, k: nat, o: nat, r: nat, q: nat)
    requires TasksInv(s) && Own(s, k, o, r) && q in s.runners && q != r
    requires SameBut(s.subs, s'.subs, k) && SameBut(s.objs, s'.objs, o) && SameBut(s.runners, s'.runners, r)
    ensures q in s'.runners && RunnerInv(s', q)
  {
    hide SubInv, ObjInv;
    assert RunnerInv(s, q);
    if Active(s.runners[q]) {
      var j := s.objs[s.runners[q].o].sub.value;
      LiveFacts(s, j);
      if k in s.subs { Exclusive(s, j, k); }
    }
  }

  lemma FrameObj(s: State, s': State, k: nat, o: nat, r: nat, p: nat)
    requires TasksInv(s) && Own(s, k, o, r) && p in s.objs && p != o
    requires SameBut(s.subs, s'.subs, k) && SameBut(s.objs, s'.objs, o) && SameBut(s.runners, s'.runners, r)
    ensures p in s'.objs && ObjInv(s', p)
  {
    assert ObjInv(s, p);
  }

  /** What is left to show for a step: its own submission, object and runner. */
  lemma Framed(s: State, s': State, k: nat, o: nat, r: nat)
    requires TasksInv(s) && Own(s, k, o, r)
    requires SameBut(s.subs, s'.subs, k) && SameBut(s.objs, s'.objs, o) && SameBut(s.runners, s'.runners, r)
    requires k in s'.subs && SubInv(s', k)
    requires o in s'.objs && ObjInv(s', o)
    requires r in s'.runners ==> RunnerInv(s', r)
    ensures TasksInv(s')
  {
    hide SubInv, RunnerInv, ObjInv, Own;
    forall j | j in s'.subs ensures SubInv(s', j) { if j != k { FrameSub(s, s', k, o, r, j); } }
    forall q | q in s'.runners ensures RunnerInv(s', q) { if q != r { FrameRunner(s, s', k, o, r, q); } }
    forall p | p in s'.objs ensures ObjInv(s', p) { if p != o { FrameObj(s, s', k, o, r, p); } }
  }

  // Submitters before their task has a runner.

  lemma KeepSubmit(maxIdle: int, s: State, k: nat, o: nat, d: bool)
    requires TasksInv(s) && Enabled(s, Submit(k, o, d))
    ensures TasksInv(Apply(maxIdle, s, Submit(k, o, d)))
  {
    var s' := Apply(maxIdle, s, Submit(k, o, d));
    assert o in s.objs ==> ObjInv(s, o);
    var r := Unused(s);
    Framed(s, s', k, o, r);
  }

  /** A runner number that is not in use. */
  lemma Unused(s: State) returns (r: nat)
    ensures r !in s.runners
  {
    r := Above(s.runners.Keys);
  }

  lemma Above(ns: set<nat>) returns (r: nat)
    ensures forall n :: n in ns ==> n < r
    decreases |ns|
  {
    if ns == {} {
      r := 0;
    } else {
      var n :| n in ns;
      var m := Above(ns - {n});
      r := if m > n then m else n + 1;
      forall x | x in ns ensures x < r { assert x != n ==> x in ns - {n}; }
    }
  }

  /** A submitter before its task has a runner keeps its submission untouched. */
  lemma KeepWaitingForRunner(s: State, k: nat, pc: WaitPc)
    requires TasksInv(s) && k in s.subs && BeforeRunner(s.subs[k].pc) && BeforeRunner(pc)
    ensures TasksInv(WithPc(s, k, pc))
  {
    assert SubInv(s, k);
    var o := s.subs[k].obj;
    assert ObjInv(s, o);
    var r := Unused(s);
    Framed(s, WithPc(s, k, pc), k, o, r);
  }

  lemma KeepAssign(s: State, k: nat, r: nat)
    requires TasksInv(s) && k in s.subs && BeforeRunner(s.subs[k].pc)
    requires r in s.runners ==> !Active(s.runners[r])
    ensures TasksInv(Assign(s, k, r))
  {
    assert SubInv(s, k);
    var o := s.subs[k].obj;
    assert ObjInv(s, o);
    Framed(s, Assign(s, k, r), k, o, r);
  }

  // Runners.

  /** What a runner at work may rely on: its object holds a live submission's own context, never nil. */
  lemma RunnerFacts(s: State, r: nat) returns (k: nat)
    requires TasksInv(s) && r in s.runners && Active(s.runners[r])
    ensures Holds(s, s.runners[r].o) && s.objs[s.runners[r].o].sub == Some(k)
    ensures s.subs[k].live && s.subs[k].obj == s.runners[r].o && s.subs[k].runner == Some(r)
    ensures LiveInv(s, k, s.subs[k]) && ObjInv(s, s.runners[r].o) && Own(s, k, s.runners[r].o, r) && CtxInv(s.subs[k].ctx)
  {
    assert RunnerInv(s, r);
    k := s.objs[s.runners[r].o].sub.value;
    assert SubInv(s, k) && ObjInv(s, s.runners[r].o);
  }

  lemma KeepCallEndpoint(maxIdle: int, s: State, r: nat, out: Outcome)
    requires TasksInv(s) && Enabled(s, CallEndpoint(r, out))
    ensures TasksInv(Apply(maxIdle, s, CallEndpoint(r, out)))
  {
    var k := RunnerFacts(s, r);
    Framed(s, Apply(maxIdle, s, CallEndpoint(r, out)), k, s.runners[r].o, r);
  }

  lemma KeepStoreErr(maxIdle: int, s: State, r: nat)
    requires TasksInv(s) && Enabled(s, StoreErr(r))
    ensures TasksInv(Apply(maxIdle, s, StoreErr(r)))
  {
    var k := RunnerFacts(s, r);
    Framed(s, Apply(maxIdle, s, StoreErr(r)), k, s.runners[r].o, r);
  }

  lemma KeepRunCancel(maxIdle: int, s: State, r: nat)
    requires TasksInv(s) && Enabled(s, RunCancel(r))
    ensures TasksInv(Apply(maxIdle, s, RunCancel(r)))
  {
    hide OnlyRunner;
    var k := RunnerFacts(s, r);
    CancelReasons(s.subs[k].ctx, Canceled);
    Framed(s, Apply(maxIdle, s, RunCancel(r)), k, s.runners[r].o, r);
  }

  lemma KeepWgWait(maxIdle: int, s: State, r: nat)
    requires TasksInv(s) && Enabled(s, WgWait(r))
    ensures TasksInv(Apply(maxIdle, s, WgWait(r)))
  {
    var k := RunnerFacts(s, r);
    Framed(s, Apply(maxIdle, s, WgWait(r)), k, s.runners[r].o, r);
  }

  lemma KeepRecycle(maxIdle: int, s: State, r: nat)
    requires TasksInv(s) && Enabled(s, Recycle(r))
    ensures TasksInv(Apply(maxIdle, s, Recycle(r)))
  {
    var k := RunnerFacts(s, r);
    Framed(s, Apply(maxIdle, s, Recycle(r)), k, s.runners[r].o, r);
  }

  lemma KeepExit(s: State, r: nat)
    requires TasksInv(s) && r in s.runners && s.runners[r].Idle?
    ensures TasksInv(SetRunner(s, r, Exited))
  {
    var s' := SetRunner(s, r, Exited);
    forall j | j in s'.subs ensures SubInv(s', j) { assert SubInv(s, j); }
    forall q | q in s'.runners ensures RunnerInv(s', q) { assert RunnerInv(s, q); }
    forall p | p in s'.objs ensures ObjInv(s', p) { assert ObjInv(s, p); }
  }

  // Waiters.

  /** What a waiter may rely on: until it calls wg.Done its object is still its own. */
  lemma WaiterFacts(s: State, k: nat)
    requires TasksInv(s) && k in s.subs && !s.subs[k].pc.Done? && !BeforeRunner(s.subs[k].pc)
    ensures var t := s.subs[k];
            && t.live && LiveInv(s, k, t) && ObjInv(s, t.obj) && Holds(s, t.obj) && s.objs[t.obj].sub == Some(k)
            && t.runner.Some? && Own(s, k, t.obj, t.runner.value) && RunnerInv(s, t.runner.value) && CtxInv(t.ctx)
  {
    assert SubInv(s, k);
    assert ObjInv(s, s.subs[k].obj);
    assert RunnerInv(s, s.subs[k].runner.value);
  }

  /** A waiter moves on without touching its context or its object. */
  lemma KeepWaiterPc(s: State, k: nat, pc: WaitPc)
    requires TasksInv(s) && k in s.subs && !s.subs[k].pc.Done? && !BeforeRunner(s.subs[k].pc)
    requires pc.SawDone? || pc.Returning?
    requires pc.SawDone? ==> s.subs[k].pc.Waiting? && s.subs[k].ctx.err.Some?
    requires pc.Returning? ==> Answer(s.subs[k], pc.r)
    ensures TasksInv(WithPc(s, k, pc))
  {
    WaiterFacts(s, k);
    Framed(s, WithPc(s, k, pc), k, s.subs[k].obj, s.subs[k].runner.value);
  }

  lemma KeepStop(s: State, k: nat, reason: Err)
    requires TasksInv(s) && k in s.subs && s.subs[k].pc.Waiting? && Holds(s, s.subs[k].obj) && reason != Canceled
    ensures TasksInv(Stop(s, k, reason))
  {
    hide OnlyRunner;
    WaiterFacts(s, k);
    CancelReasons(s.subs[k].ctx, reason);
    Framed(s, Stop(s, k, reason), k, s.subs[k].obj, s.subs[k].runner.value);
  }

  lemma KeepWgDone(maxIdle: int, s: State, k: nat)
    requires TasksInv(s) && Enabled(s, WgDone(k))
    ensures TasksInv(Apply(maxIdle, s, WgDone(k)))
  {
    WaiterFacts(s, k);
    Framed(s, Apply(maxIdle, s, WgDone(k)), k, s.subs[k].obj, s.subs[k].runner.value);
  }

  lemma KeepWaiter(maxIdle: int, s: State, e: Event)
    requires TasksInv(s) && WaiterEvent(e) && Enabled(s, e)
    ensures TasksInv(Apply(maxIdle, s, e))
  {
    hide TasksInv;
    var k := e.k;
    WaiterFacts(s, k);
    match e
    case SeeDone(_) => KeepWaiterPc(s, k, SawDone);
    case LoadErr(_) => KeepWaiterPc(s, k, Returning(s.objs[s.subs[k].obj].err));
    case ReadCtxErr(_) => KeepWaiterPc(s, k, Returning(s.subs[k].ctx.err));
    case Expire(_) => KeepStop(s, k, DeadlineExceeded);
    case ParentDone(_, p) => KeepStop(s, k, ParentErr(p));
    case WgDone(_) => KeepWgDone(maxIdle, s, k);
  }

  lemma KeepRunner(maxIdle: int, s: State, e: Event)
    requires TasksInv(s) && RunnerEvent(e) && Enabled(s, e)
    ensures TasksInv(Apply(maxIdle, s, e))
  {
    hide TasksInv, Enabled, Apply;
    match e
    case CallEndpoint(r, out) => KeepCallEndpoint(maxIdle, s, r, out);
    case StoreErr(r) => KeepStoreErr(maxIdle, s, r);
    case RunCancel(r) => KeepRunCancel(maxIdle, s, r);
    case WgWait(r) => KeepWgWait(maxIdle, s, r);
    case Recycle(r) => KeepRecycle(maxIdle, s, r);
    case WorkerExit(r) => KeepWorkerExit(maxIdle, s, r);
  }

  lemma KeepSubmitter(maxIdle: int, s: State, e: Event)
    requires TasksInv(s) && !RunnerEvent(e) && !WaiterEvent(e) && Enabled(s, e)
    ensures TasksInv(Apply(maxIdle, s, e))
  {
    hide TasksInv;
    match e
    case Submit(k, o, d) => KeepSubmit(maxIdle, s, k, o, d);
    case HandOver(k, r) => KeepAssign(s, k, r);
    case CreateWorker(k, r) =>
      KeepAssign(s, k, r);
      KeepWaitingForRunner(s, k, Backing);
      SizeFrame(if s.size + 1 < maxIdle then Assign(s, k, r) else WithPc(s, k, Backing), Apply(maxIdle, s, e));
    case GiveUp(k) =>
      KeepWaitingForRunner(s, k, Overflowed);
      SizeFrame(WithPc(s, k, Overflowed), Apply(maxIdle, s, e));
    case SpawnRun(k, r) => KeepAssign(s, k, r);
  }

  lemma SizeFrame(s: State, s': State)
    requires TasksInv(s) && s'.subs == s.subs && s'.objs == s.objs && s'.runners == s.runners
    ensures TasksInv(s')
  {
    forall j | j in s'.subs ensures SubInv(s', j) { assert SubInv(s, j); }
    forall q | q in s'.runners ensures RunnerInv(s', q) { assert RunnerInv(s, q); }
    forall p | p in s'.objs ensures ObjInv(s', p) { assert ObjInv(s, p); }
  }

  lemma StepKeepsTasks(maxIdle: int, s: State, e: Event)
    requires TasksInv(s) && Enabled(s, e)
    ensures TasksInv(Apply(maxIdle, s, e))
  {
    hide *;
    if RunnerEvent(e) { KeepRunner(maxIdle, s, e); }
    else if WaiterEvent(e) { KeepWaiter(maxIdle, s, e); }
    else { KeepSubmitter(maxIdle, s, e); }
  }

  lemma KeepWorkerExit(maxIdle: int, s: State, r: nat)
    requires TasksInv(s) && Enabled(s, WorkerExit(r))
    ensures TasksInv(Apply(maxIdle, s, WorkerExit(r)))
  {
    KeepExit(s, r);
    SizeFrame(SetRunner(s, r, Exited), Apply(maxIdle, s, WorkerExit(r)));
  }

  // The size counter.

  /** The counters stay right when nobody enters or leaves `Backing`, starts a worker or ends one. */
  lemma PoolFrame(maxIdle: int, s: State, s': State)
    requires PoolInv(maxIdle, s)
    requires s'.size == s.size && s'.workers == s.workers && s'.backing == s.backing
    requires forall k :: SubAt(s', k, Backing) <==> SubAt(s, k, Backing)
    requires forall r :: r in s.workers ==> r in s'.runners && !s'.runners[r].Exited?
    requires forall r :: r in s'.runners && s'.runners[r].Idle? ==> r in s.workers
    ensures PoolInv(maxIdle, s')
  {
  }

  lemma KeepPoolGrow(maxIdle: int, s: State, s': State, k: nat, r: nat)
    requires PoolInv(maxIdle, s) && SubAt(s, k, Submitting) && r !in s.runners && s.size + 1 < maxIdle
    requires s' == Assign(s, k, r).(size := s.size + 1, workers := s.workers + {r})
    ensures PoolInv(maxIdle, s')
  {
    assert r !in s.workers;
    assert forall j :: SubAt(s', j, Backing) <==> SubAt(s, j, Backing);
  }

  lemma KeepPoolBack(maxIdle: int, s: State, s': State, k: nat)
    requires PoolInv(maxIdle, s) && SubAt(s, k, Submitting)
    requires s' == WithPc(s, k, Backing).(size := s.size + 1, backing := s.backing + {k})
    ensures PoolInv(maxIdle, s')
  {
    assert !SubAt(s, k, Backing) && k !in s.backing;
    assert forall j :: j != k ==> (SubAt(s', j, Backing) <==> SubAt(s, j, Backing));
  }

  lemma KeepPoolCreate(maxIdle: int, s: State, k: nat, r: nat)
    requires PoolInv(maxIdle, s) && Enabled(s, CreateWorker(k, r))
    ensures PoolInv(maxIdle, Apply(maxIdle, s, CreateWorker(k, r)))
  {
    hide PoolInv;
    var s' := Apply(maxIdle, s, CreateWorker(k, r));
    if s.size + 1 < maxIdle { KeepPoolGrow(maxIdle, s, s', k, r); } else { KeepPoolBack(maxIdle, s, s', k); }
  }

  lemma KeepPoolGiveUp(maxIdle: int, s: State, k: nat)
    requires PoolInv(maxIdle, s) && Enabled(s, GiveUp(k))
    ensures PoolInv(maxIdle, Apply(maxIdle, s, GiveUp(k)))
  {
    assert k in s.backing;
  }

  lemma KeepPoolRunner(maxIdle: int, s: State, e: Event)
    requires PoolInv(maxIdle, s) && RunnerEvent(e) && Enabled(s, e)
    ensures PoolInv(maxIdle, Apply(maxIdle, s, e))
  {
    var s' := Apply(maxIdle, s, e);
    if e.WorkerExit? {
      assert e.r in s.workers;
      assert forall k :: SubAt(s', k, Backing) <==> SubAt(s, k, Backing);
    } else {
      PoolFrame(maxIdle, s, s');
    }
  }

  lemma KeepPoolSubmitter(maxIdle: int, s: State, e: Event)
    requires PoolInv(maxIdle, s) && !RunnerEvent(e) && !WaiterEvent(e) && Enabled(s, e)
    ensures PoolInv(maxIdle, Apply(maxIdle, s, e))
  {
    if e.CreateWorker? { KeepPoolCreate(maxIdle, s, e.k, e.r); }
    else if e.GiveUp? { KeepPoolGiveUp(maxIdle, s, e.k); }
    else { PoolFrame(maxIdle, s, Apply(maxIdle, s, e)); }
  }

  lemma KeepPoolWaiter(maxIdle: int, s: State, e: Event)
    requires PoolInv(maxIdle, s) && WaiterEvent(e) && Enabled(s, e)
    ensures PoolInv(maxIdle, Apply(maxIdle, s, e))
  {
    PoolFrame(maxIdle, s, Apply(maxIdle, s, e));
  }

  lemma StepKeepsPool(maxIdle: int, s: State, e: Event)
    requires PoolInv(maxIdle, s) && Enabled(s, e)
    ensures PoolInv(maxIdle, Apply(maxIdle, s, e))
  {
    hide *;
    if RunnerEvent(e) { KeepPoolRunner(maxIdle, s, e); }
    else if WaiterEvent(e) { KeepPoolWaiter(maxIdle, s, e); }
    else { KeepPoolSubmitter(maxIdle, s, e); }
  }

  // Runs.

  ghost predicate IsRun(maxIdle: int, run: seq<State>, es: seq<Event>) {
    && |run| == |es| + 1 && run[0] == Init()
    && forall i :: 0 <= i < |es| ==> Enabled(run[i], es[i]) && run[i + 1] == Apply(maxIdle, run[i], es[i])
  }

  lemma {:induction false} RunInv(maxIdle: int, run: seq<State>, es: seq<Event>, i: nat)
    requires IsRun(maxIdle, run, es) && i < |run|
    ensures Inv(maxIdle, run[i])
  {
    hide Apply, Enabled, TasksInv, PoolInv;
    if i == 0 {
      InitInv(maxIdle);
    } else {
      RunInv(maxIdle, run, es, i - 1);
      StepKeepsTasks(maxIdle, run[i - 1], es[i - 1]);
      StepKeepsPool(maxIdle, run[i - 1], es[i - 1]);
    }
  }

  lemma InitInv(maxIdle: int)
    ensures Inv(maxIdle, Init())
  {
  }

  // What every interleaving guarantees.

  /**
  Each submitted task is run exactly once: its endpoint is never called twice, and has been called
  once when the task is recycled; while at work, its runner is the only one with its object.
  */
  lemma RunExactlyOnce(maxIdle: int, run: seq<State>, es: seq<Event>, i: nat, k: nat)
    requires IsRun(maxIdle, run, es) && i < |run| && k in run[i].subs
    ensures var s, t := run[i], run[i].subs[k];
            && t.endpointCalls <= 1 && (!t.live ==> t.endpointCalls == 1)
            && (t.live && !BeforeRunner(t.pc) ==>
                  t.runner.Some?
                  && forall r :: r in s.runners && Active(s.runners[r]) ==>
                                   (s.runners[r].o == t.obj <==> t.runner == Some(r)))
  {
    RunInv(maxIdle, run, es, i);
    var s := run[i];
    assert SubInv(s, k);
    forall r | r in s.runners && Active(s.runners[r]) && s.subs[k].live && s.subs[k].runner.Some?
      ensures s.runners[r].o == s.subs[k].obj <==> s.subs[k].runner == Some(r)
    {
      assert RunnerInv(s, r);
    }
  }

  /**
  A task object is in the pool only when nobody touches it any more: no runner at work has it, and
  every submission that used it has returned from Wait. When a runner is about to recycle it, Wait
  has returned; and until then no runner ever meets a cleared object.
  */
  lemma RecycledOnlyWhenUnused(maxIdle: int, run: seq<State>, es: seq<Event>, i: nat)
    requires IsRun(maxIdle, run, es) && i < |run|
    ensures forall o, r :: o in run[i].objs && run[i].objs[o].pooled && r in run[i].runners && Active(run[i].runners[r]) ==>
              run[i].runners[r].o != o
    ensures forall o, k :: o in run[i].objs && run[i].objs[o].pooled && k in run[i].subs && run[i].subs[k].obj == o ==>
              run[i].subs[k].pc.Done?
    ensures forall r :: r in run[i].runners && Active(run[i].runners[r]) ==> Holds(run[i], run[i].runners[r].o)
    ensures forall r :: r in run[i].runners && run[i].runners[r].WgPassed? ==>
              Holds(run[i], run[i].runners[r].o) && run[i].subs[run[i].objs[run[i].runners[r].o].sub.value].pc.Done?
  {
    RunInv(maxIdle, run, es, i);
    var s := run[i];
    forall r | r in s.runners && Active(s.runners[r])
      ensures Holds(s, s.runners[r].o) && !s.objs[s.runners[r].o].pooled
      ensures s.runners[r].WgPassed? ==> s.subs[s.objs[s.runners[r].o].sub.value].pc.Done?
    {
      var k := RunnerFacts(s, r);
    }
    forall o, k | o in s.objs && s.objs[o].pooled && k in s.subs && s.subs[k].obj == o ensures s.subs[k].pc.Done? {
      assert SubInv(s, k);
    }
  }

  /** Live pooled workers never exceed `maxIdle - 1`. */
  lemma WorkersBounded(maxIdle: int, run: seq<State>, es: seq<Event>, i: nat)
    requires IsRun(maxIdle, run, es) && i < |run|
    ensures |run[i].workers| <= (if maxIdle > 1 then maxIdle - 1 else 0)
    ensures |run[i].workers| <= run[i].size
  {
    RunInv(maxIdle, run, es, i);
  }

  /** The bound is exact: tasks that arrive while all workers are busy grow the pool up to it. */
  lemma {:induction false} WorkersAttained(maxIdle: nat, n: nat) returns (run: seq<State>, es: seq<Event>)
    requires n < maxIdle
    ensures IsRun(maxIdle, run, es)
    ensures var s := run[|run| - 1]; |s.workers| == n && Fresh(s, n)
  {
    if n == 0 {
      run, es := [Init()], [];
    } else {
      run, es := WorkersAttained(maxIdle, n - 1);
      RunInv(maxIdle, run, es, |run| - 1);
      var s, k := run[|run| - 1], n - 1;
      var t := Apply(maxIdle, s, Submit(k, k, false));
      var u := Apply(maxIdle, t, CreateWorker(k, k));
      GrownPool(maxIdle, s, t, u, k);
      Extended(maxIdle, run, es, Submit(k, k, false), t);
      Extended(maxIdle, run + [t], es + [Submit(k, k, false)], CreateWorker(k, k), u);
      run, es := run + [t] + [u], es + [Submit(k, k, false)] + [CreateWorker(k, k)];
    }
  }

  /** No submission, object or runner has a number from `n` on, and nobody is backing out. */
  ghost predicate Fresh(s: State, n: nat) {
    && s.backing == {}
    && forall k :: n <= k ==> k !in s.subs && k !in s.objs && k !in s.runners
  }

  lemma GrownPool(maxIdle: nat, s: State, t: State, u: State, k: nat)
    requires PoolInv(maxIdle, s) && Fresh(s, k) && |s.workers| == k && k + 1 < maxIdle
    requires t == Apply(maxIdle, s, Submit(k, k, false)) && Enabled(t, CreateWorker(k, k))
    requires u == Apply(maxIdle, t, CreateWorker(k, k))
    ensures |u.workers| == k + 1 && Fresh(u, k + 1)
  {
    assert k !in s.workers;
  }

  lemma Extended(maxIdle: int, run: seq<State>, es: seq<Event>, e: Event, s': State)
    requires IsRun(maxIdle, run, es) && Enabled(run[|es|], e) && s' == Apply(maxIdle, run[|es|], e)
    ensures IsRun(maxIdle, run + [s'], es + [e])
  {
    hide Apply, Enabled;
  }

  /**
  If only the runner has cancelled the context, Wait returns nil for an endpoint that returned nil
  without panicking, the endpoint's error for one that failed and the panic's for one that
  panicked, and the context is `Canceled`. Otherwise it returns the reason stored in its context.
  */
  lemma WaitAnswers(maxIdle: int, run: seq<State>, es: seq<Event>, i: nat, k: nat)
    requires IsRun(maxIdle, run, es) && i < |run| && k in run[i].subs
    requires run[i].subs[k].pc.Returning? || run[i].subs[k].pc.Done?
    ensures var t := run[i].subs[k];
            && t.ctx.err.Some?
            && (OnlyRunner(t.ctx) ==> t.ctx.err == Some(Canceled) && t.outcome.Some?
                                      && t.pc.r == match t.outcome.value
                                                   case ReturnedNil => None
                                                   case Failed(e) => Some(EndpointErr(e))
                                                   case Panicked(p) => Some(PanicErr(p)))
            && (!OnlyRunner(t.ctx) ==> t.pc.r == t.ctx.err)
  {
    RunInv(maxIdle, run, es, i);
    assert SubInv(run[i], k);
  }

  /** Wait returns nil only if the endpoint returned nil. */
  lemma NilMeansReturnedNil(maxIdle: int, run: seq<State>, es: seq<Event>, i: nat, k: nat)
    requires IsRun(maxIdle, run, es) && i < |run| && k in run[i].subs
    requires run[i].subs[k].pc == Returning(None) || run[i].subs[k].pc == Done(None)
    ensures run[i].subs[k].outcome == Some(ReturnedNil) && run[i].subs[k].ctx.err == Some(Canceled)
  {
    WaitAnswers(maxIdle, run, es, i, k);
  }

  /** The stored cancel reason is the first one given, and the done channel is closed exactly with it, once. */
  lemma FirstReasonStored(maxIdle: int, run: seq<State>, es: seq<Event>, i: nat, k: nat)
    requires IsRun(maxIdle, run, es) && i < |run| && k in run[i].subs
    ensures var c := run[i].subs[k].ctx;
            && c.closes == (if c.err.Some? then 1 else 0)
            && (c.reasons == [] ==> c.err.None?) && (c.reasons != [] ==> c.err == Some(c.reasons[0]))
  {
    RunInv(maxIdle, run, es, i);
    assert SubInv(run[i], k);
  }

  lemma StepKeepsReason(maxIdle: int, s: State, e: Event, k: nat)
    requires Enabled(s, e) && k in s.subs
    ensures k in Apply(maxIdle, s, e).subs
    ensures s.subs[k].ctx.reasons <= Apply(maxIdle, s, e).subs[k].ctx.reasons
    ensures s.subs[k].ctx.err.Some? ==> Apply(maxIdle, s, e).subs[k].ctx.err == s.subs[k].ctx.err
  {
  }

  /** Once stored, a reason never changes. */
  lemma {:induction false} ReasonNeverChanges(maxIdle: int, run: seq<State>, es: seq<Event>, i: nat, j: nat, k: nat)
    requires IsRun(maxIdle, run, es) && i <= j < |run| && k in run[i].subs && run[i].subs[k].ctx.err.Some?
    ensures k in run[j].subs && run[j].subs[k].ctx.err == run[i].subs[k].ctx.err
  {
    hide Apply, Enabled;
    if i < j {
      ReasonNeverChanges(maxIdle, run, es, i, j - 1, k);
      StepKeepsReason(maxIdle, run[j - 1], es[j - 1], k);
    }
  }

  /** Only the runner's call sets an outcome, and its task has none before. */
  lemma StepKeepsOutcome(maxIdle: int, s: State, e: Event, k: nat)
    requires TasksInv(s) && Enabled(s, e) && k in s.subs && s.subs[k].outcome.Some?
    ensures k in Apply(maxIdle, s, e).subs && Apply(maxIdle, s, e).subs[k].outcome == s.subs[k].outcome
  {
    hide TasksInv;
    if e.CallEndpoint? { var j := CallStep(maxIdle, s, e); }
  }

  lemma {:induction false} OutcomeNeverChanges(maxIdle: int, run: seq<State>, es: seq<Event>, i: nat, j: nat, k: nat)
    requires IsRun(maxIdle, run, es) && i <= j < |run| && k in run[i].subs && run[i].subs[k].outcome.Some?
    ensures k in run[j].subs && run[j].subs[k].outcome == run[i].subs[k].outcome
  {
    hide Apply, Enabled, TasksInv, PoolInv;
    if i < j {
      OutcomeNeverChanges(maxIdle, run, es, i, j - 1, k);
      RunInv(maxIdle, run, es, j - 1);
      StepKeepsOutcome(maxIdle, run[j - 1], es[j - 1], k);
    }
  }

  lemma CallStep(maxIdle: int, s: State, e: Event) returns (k: nat)
    requires TasksInv(s) && Enabled(s, e) && e.CallEndpoint?
    ensures k in s.subs && s.subs[k].live && s.subs[k].runner == Some(e.r) && s.subs[k].outcome.None?
    ensures k in Apply(maxIdle, s, e).subs && Apply(maxIdle, s, e).subs[k].outcome == Some(e.out)
    ensures SameBut(s.subs, Apply(maxIdle, s, e).subs, k)
  {
    hide WaitInv, Answer, CtxInv, Own, TasksInv;
    k := RunnerFacts(s, e.r);
  }

  lemma StepKeepsDeadline(maxIdle: int, s: State, e: Event, k: nat)
    requires Enabled(s, e) && k in s.subs
    ensures k in Apply(maxIdle, s, e).subs && Apply(maxIdle, s, e).subs[k].hasDeadline == s.subs[k].hasDeadline
  {
  }

  /** A task has a deadline exactly if it was submitted with one. */
  lemma {:induction false} DeadlineAsSubmitted(maxIdle: int, run: seq<State>, es: seq<Event>, i: nat, j: nat)
    requires IsRun(maxIdle, run, es) && i < j < |run| && es[i].Submit?
    ensures es[i].k in run[j].subs && run[j].subs[es[i].k].hasDeadline == es[i].hasDeadline
  {
    if i + 1 < j {
      hide Apply, Enabled;
      DeadlineAsSubmitted(maxIdle, run, es, i, j - 1);
      StepKeepsDeadline(maxIdle, run[j - 1], es[j - 1], es[i].k);
    } else {
      assert run[j] == Apply(maxIdle, run[i], es[i]);
    }
  }

  /** What the endpoint answers is the outcome of the task its runner holds, from then on. */
  lemma OutcomeIsTheEndpoints(maxIdle: int, run: seq<State>, es: seq<Event>, i: nat, j: nat) returns (k: nat)
    requires IsRun(maxIdle, run, es) && i < j < |run| && es[i].CallEndpoint?
    ensures k in run[i].subs && run[i].subs[k].runner == Some(es[i].r) && run[i].subs[k].outcome.None?
    ensures k in run[j].subs && run[j].subs[k].outcome == Some(es[i].out)
  {
    hide Apply, TasksInv, PoolInv;
    RunInv(maxIdle, run, es, i);
    k := CallStep(maxIdle, run[i], es[i]);
    OutcomeNeverChanges(maxIdle, run, es, i + 1, j, k);
  }

  lemma {:induction false} ReasonsGrow(maxIdle: int, run: seq<State>, es: seq<Event>, i: nat, j: nat, k: nat)
    requires IsRun(maxIdle, run, es) && i <= j < |run| && k in run[i].subs
    ensures k in run[j].subs && run[i].subs[k].ctx.reasons <= run[j].subs[k].ctx.reasons
  {
    hide Apply, Enabled;
    if i < j {
      ReasonsGrow(maxIdle, run, es, i, j - 1, k);
      StepKeepsReason(maxIdle, run[j - 1], es[j - 1], k);
    }
  }

  /** The reason with which Wait itself cancels: its deadline has passed, or its parent is done with an error. */
  function StopReason(e: Event): Err
    requires e.Expire? || e.ParentDone?
  {
    if e.Expire? then DeadlineExceeded else ParentErr(e.p)
  }

  lemma StopStep(maxIdle: int, s: State, e: Event)
    requires TasksInv(s) && Enabled(s, e) && (e.Expire? || e.ParentDone?)
    ensures e.k in Apply(maxIdle, s, e).subs
    ensures var t, t' := s.subs[e.k], Apply(maxIdle, s, e).subs[e.k];
            && t.pc.Waiting? && (e.Expire? ==> t.hasDeadline) && (t.ctx.err.Some? ==> t.ctx.err == Some(Canceled))
            && t'.ctx.reasons == t.ctx.reasons + [StopReason(e)]
            && t'.ctx.err == if t.ctx.err.None? then Some(StopReason(e)) else t.ctx.err
  {
    WaiterFacts(s, e.k);
  }

  /**
  A Wait whose deadline passes returns `DeadlineExceeded`, and one whose parent is done returns
  the parent's error, unless the runner had cancelled the context before: then it returns `Canceled`.
  */
  lemma StopAnswers(maxIdle: int, run: seq<State>, es: seq<Event>, i: nat, j: nat)
    requires IsRun(maxIdle, run, es) && i < j < |run| && (es[i].Expire? || es[i].ParentDone?)
    ensures es[i].k in run[i].subs && es[i].k in run[j].subs && (es[i].Expire? ==> run[i].subs[es[i].k].hasDeadline)
    ensures var before, t := run[i].subs[es[i].k], run[j].subs[es[i].k];
            (t.pc.Returning? || t.pc.Done?) ==>
              t.pc.r == Some(if before.ctx.err.Some? then Canceled
                             else if es[i].Expire? then DeadlineExceeded
                             else ParentErr(es[i].p))
  {
    hide Apply, TasksInv, PoolInv;
    var k := es[i].k;
    RunInv(maxIdle, run, es, i);
    StopStep(maxIdle, run[i], es[i]);
    ReasonsGrow(maxIdle, run, es, i + 1, j, k);
    ReasonNeverChanges(maxIdle, run, es, i + 1, j, k);
    var t := run[j].subs[k];
    assert t.ctx.reasons[|run[i].subs[k].ctx.reasons|] == StopReason(es[i]);
    if t.pc.Returning? || t.pc.Done? { WaitAnswers(maxIdle, run, es, j, k); }
  }

  // Progress: no task is stranded, and each takes a bounded number of steps.

  /** A step of task `k`: of its submitter, or of its runner while it is live. */
  predicate Concerns(s: State, e: Event, k: nat)
    requires k in s.subs
  {
    if RunnerEvent(e) then !e.WorkerExit? && s.subs[k].live && s.subs[k].runner == Some(e.r)
    else e.k == k
  }

  function WaiterLeft(pc: WaitPc): nat {
    match pc
    case Submitting => 6
    case Backing => 5
    case Overflowed => 4
    case Waiting => 3
    case SawDone => 2
    case Stopped => 2
    case Returning(_) => 1
    case Done(_) => 0
  }

  function RunnerLeft(s: State, t: Sub): nat {
    if !t.live then 0
    else if t.runner.None? then 5
    else if t.runner.value !in s.runners then 0
    else match s.runners[t.runner.value]
         case Ready(_) => 5
         case Called(_, _) => 4
         case Stored(_) => 3
         case Cancelled(_) => 2
         case WgPassed(_) => 1
         case _ => 0
  }

  /** The steps task `k` still has to take. */
  function Left(s: State, k: nat): nat
    requires k in s.subs
  {
    WaiterLeft(s.subs[k].pc) + RunnerLeft(s, s.subs[k])
  }

  /** A step that leaves task `k` and its runner alone leaves its remaining steps alone. */
  lemma LeftFrame(s: State, s': State, k: nat, j: nat, r: nat)
    requires TasksInv(s) && k in s.subs && j != k && SameBut(s.subs, s'.subs, j) && SameBut(s.runners, s'.runners, r)
    requires s.subs[k].live ==> s.subs[k].runner != Some(r)
    ensures k in s'.subs && Left(s', k) == Left(s, k)
  {
    assert SubInv(s, k);
  }

  lemma RunnerStepLeft(maxIdle: int, s: State, e: Event, k: nat)
    requires TasksInv(s) && RunnerEvent(e) && Enabled(s, e) && k in s.subs
    ensures k in Apply(maxIdle, s, e).subs
    ensures Left(Apply(maxIdle, s, e), k) <= Left(s, k) - (if Concerns(s, e, k) then 1 else 0)
  {
    hide StageInv, WaitInv, Answer, CtxInv, Untouched, ObjInv, Own, RunnerInv;
    var s' := Apply(maxIdle, s, e);
    assert SubInv(s, k);
    if !e.WorkerExit? {
      var j := RunnerFacts(s, e.r);
      if j != k {
        if s.subs[k].live { Exclusive(s, j, k); }
        LeftFrame(s, s', k, j, e.r);
      }
    }
  }

  lemma WaiterOwnLeft(maxIdle: int, s: State, e: Event)
    requires TasksInv(s) && WaiterEvent(e) && Enabled(s, e)
    ensures e.k in Apply(maxIdle, s, e).subs && Left(Apply(maxIdle, s, e), e.k) < Left(s, e.k)
  {
    hide StageInv, WaitInv, Answer, CtxInv, Untouched, ObjInv, Own, RunnerInv, TasksInv;
    WaiterFacts(s, e.k);
  }

  lemma WaiterStepLeft(maxIdle: int, s: State, e: Event, k: nat)
    requires TasksInv(s) && WaiterEvent(e) && Enabled(s, e) && k in s.subs
    ensures k in Apply(maxIdle, s, e).subs
    ensures Left(Apply(maxIdle, s, e), k) <= Left(s, k) - (if Concerns(s, e, k) then 1 else 0)
  {
    hide StageInv, WaitInv, Answer, CtxInv, Untouched, ObjInv, Own, RunnerInv, Left;
    if e.k == k {
      WaiterOwnLeft(maxIdle, s, e);
    } else {
      WaiterFacts(s, e.k);
      var r := Unused(s);
      assert SubInv(s, k);
      LeftFrame(s, Apply(maxIdle, s, e), k, e.k, r);
    }
  }

  lemma SubmitterStepLeft(maxIdle: int, s: State, e: Event, k: nat)
    requires TasksInv(s) && !RunnerEvent(e) && !WaiterEvent(e) && Enabled(s, e) && k in s.subs
    ensures k in Apply(maxIdle, s, e).subs
    ensures Left(Apply(maxIdle, s, e), k) <= Left(s, k) - (if Concerns(s, e, k) then 1 else 0)
  {
    hide StageInv, WaitInv, Answer, CtxInv, Untouched, ObjInv, Own, RunnerInv;
    assert SubInv(s, k);
    if e.k != k {
      var u := Unused(s);
      LeftFrame(s, Apply(maxIdle, s, e), k, e.k, if e.Submit? || e.GiveUp? then u else e.r);
    }
  }

  /** Every step of a task brings it nearer its end, and nobody else's step moves it away. */
  lemma StepLowersLeft(maxIdle: int, s: State, e: Event, k: nat)
    requires TasksInv(s) && Enabled(s, e) && k in s.subs
    ensures k in Apply(maxIdle, s, e).subs
    ensures Left(Apply(maxIdle, s, e), k) <= Left(s, k) - (if Concerns(s, e, k) then 1 else 0)
  {
    hide *;
    if RunnerEvent(e) { RunnerStepLeft(maxIdle, s, e, k); }
    else if WaiterEvent(e) { WaiterStepLeft(maxIdle, s, e, k); }
    else { SubmitterStepLeft(maxIdle, s, e, k); }
  }

  /** How many of the steps `i` to `j` of a run were task `k`'s. */
  ghost function OwnSteps(run: seq<State>, es: seq<Event>, i: nat, j: nat, k: nat): nat
    requires i <= j <= |es| < |run|
  {
    if i == j then 0
    else OwnSteps(run, es, i, j - 1, k) + (if k in run[j - 1].subs && Concerns(run[j - 1], es[j - 1], k) then 1 else 0)
  }

  lemma {:induction false} OwnStepsLeft(maxIdle: int, run: seq<State>, es: seq<Event>, i: nat, j: nat, k: nat)
    requires IsRun(maxIdle, run, es) && i <= j <= |es| && k in run[i].subs
    ensures k in run[j].subs && OwnSteps(run, es, i, j, k) + Left(run[j], k) <= Left(run[i], k)
  {
    hide Apply, Enabled, Concerns, Left, PoolInv, TasksInv;
    if i < j {
      OwnStepsLeft(maxIdle, run, es, i, j - 1, k);
      RunInv(maxIdle, run, es, j - 1);
      StepLowersLeft(maxIdle, run[j - 1], es[j - 1], k);
    }
  }

  /** From its submission to its recycling a task takes at most eleven steps, however the others interleave. */
  lemma TaskStepsBounded(maxIdle: int, run: seq<State>, es: seq<Event>, i: nat, j: nat, k: nat)
    requires IsRun(maxIdle, run, es) && i <= j <= |es| && k in run[i].subs
    ensures OwnSteps(run, es, i, j, k) <= 11
  {
    hide Apply, Enabled, Concerns, PoolInv, TasksInv;
    OwnStepsLeft(maxIdle, run, es, i, j, k);
  }

  /**
  No task is ever stranded: until it is recycled one of its own steps is possible, whatever the
  others do. In particular a runner in recycle never waits for a Wait that cannot finish.
  */
  lemma NeverStranded(maxIdle: int, run: seq<State>, es: seq<Event>, i: nat, k: nat) returns (e: Event)
    requires IsRun(maxIdle, run, es) && i < |run| && k in run[i].subs && run[i].subs[k].live
    ensures Enabled(run[i], e) && Concerns(run[i], e, k)
  {
    RunInv(maxIdle, run, es, i);
    e := NextStep(run[i], k);
  }

  lemma NextStep(s: State, k: nat) returns (e: Event)
    requires TasksInv(s) && k in s.subs && s.subs[k].live
    ensures Enabled(s, e) && Concerns(s, e, k)
  {
    var t := s.subs[k];
    assert SubInv(s, k);
    if t.runner.None? {
      var r := Unused(s);
      e := if t.pc.Submitting? then CreateWorker(k, r) else if t.pc.Backing? then GiveUp(k) else SpawnRun(k, r);
    } else {
      var r := t.runner.value;
      match s.runners[r] {
        case Ready(_) => e := CallEndpoint(r, ReturnedNil);
        case Called(_, _) => e := StoreErr(r);
        case Stored(_) => e := RunCancel(r);
        case WgPassed(_) => e := Recycle(r);
        case Cancelled(_) =>
          e := match t.pc
          case Waiting => SeeDone(k)
          case SawDone => LoadErr(k)
          case Stopped => ReadCtxErr(k)
          case Returning(_) => WgDone(k)
          case _ => WgWait(r);
      }
    }
  }
}
