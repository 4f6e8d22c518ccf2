/**
The QPS limiter's token accounting. `Acquire` and `updateToken` are made of separate atomic
loads, adds and stores, and any number of acquirers interleave with the one refilling ticker.
*/
module QpsLimiter {
  import opened Arith

  // How many tokens one tick is worth, over exact arithmetic.

  const SECOND := 1_000_000_000

  function CalcOnce(interval: nat, limit: int): (once: nat)
    requires interval > 0
    ensures limit >= 0 ==> once <= limit
    ensures limit < 0 ==> once == 0
  {
    var i := if interval > SECOND then SECOND else interval;
    if limit < 0 then 0 else
    OnceAtMostLimit(i, limit);
    limit * i / SECOND
  }

  lemma OnceAtMostLimit(i: nat, limit: nat)
    requires i <= SECOND
    ensures 0 <= limit * i / SECOND <= limit
  {
    MulMonotone(limit, i, SECOND);
    MulMonotone(limit, 0, i);
  }

  /**
  The limit is per second: ticks that fit in a second together refill at most the limit, a tick
  loses less than one token to rounding, and a tick of a second or more refills the whole limit.
  */
  lemma RefillsPerSecond(interval: nat, limit: nat, ticks: nat)
    requires interval > 0
    ensures ticks * interval <= SECOND ==> ticks * CalcOnce(interval, limit) <= limit
    ensures interval <= SECOND ==> limit * interval < (CalcOnce(interval, limit) + 1) * SECOND
    ensures interval >= SECOND ==> CalcOnce(interval, limit) == limit
  {
    hide CalcOnce;
    var i := if interval > SECOND then SECOND else interval;
    var once := CalcOnce(interval, limit);
    assert once == limit * i / SECOND by { OnceValue(interval, limit); }
    DivModDef(limit * i, SECOND);
    if ticks * interval <= SECOND { TicksInASecond(interval, limit, ticks, once); }
  }

  lemma OnceValue(interval: nat, limit: nat)
    requires interval > 0
    ensures CalcOnce(interval, limit) == limit * (if interval > SECOND then SECOND else interval) / SECOND
  {
  }

  lemma TicksInASecond(interval: nat, limit: nat, ticks: nat, once: nat)
    requires interval > 0 && ticks * interval <= SECOND && once <= limit
    requires interval <= SECOND ==> once * SECOND <= limit * interval
    ensures ticks * once <= limit
  {
    if ticks > 0 {
      MulAtLeast(interval, ticks);
      MulMonotone(ticks, once * SECOND, limit * interval);
      Associate(ticks, once, SECOND);
      Associate(limit, ticks, interval);
      Associate(ticks, limit, interval);
      MulMonotone(limit, ticks * interval, SECOND);
      if ticks * once > limit { MulMonotone(SECOND, limit + 1, ticks * once); }
    }
  }

  // The interleaving.

  /** Where the ticker is in `updateToken`. */
  datatype Ticker =
    | Waiting
    | Checked            // the limit was not exceeded
    | Loaded(delta: int) // the increment is decided
    | Added(sum: int)    // the increment is added, giving `sum`

  /** The limiter, the number of acquirers between their load and their decrement, and what was granted. */
  datatype State = State(tokens: int, ticker: Ticker, passed: nat, granted: nat, refills: nat)

  datatype Config = Config(limit: int, once: int)

  ghost predicate Configured(c: Config) { 0 <= c.once <= c.limit && c.limit > 0 }

  datatype Event =
    | LoadTokens    // an acquirer loads the tokens and finds some, or gives up
    | Decrement     // an acquirer that found some takes one
    | TickCheck     // the ticker compares limit and tokens
    | TickLoad      // the ticker loads the tokens again and decides the increment
    | TickAdd
    | TickStore     // the ticker raises the tokens to `once` if the sum was below it

  predicate Enabled(s: State, e: Event) {
    match e
    case LoadTokens => true
    case Decrement => s.passed > 0
    case TickCheck => s.ticker.Waiting?
    case TickLoad => s.ticker.Checked?
    case TickAdd => s.ticker.Loaded?
    case TickStore => s.ticker.Added?
  }

  function Delta(c: Config, tokens: int): int {
    var delta := c.limit - tokens;
    if delta > c.once || delta < 0 then c.once else delta
  }

  function Apply(c: Config, s: State, e: Event): State
    requires Enabled(s, e)
  {
    match e
    case LoadTokens => if s.tokens <= 0 then s else s.(passed := s.passed + 1)
    case Decrement =>
      var left := s.tokens - 1;
      s.(tokens := left, passed := s.passed - 1, granted := s.granted + if left >= 0 then 1 else 0)
    case TickCheck => if c.limit < s.tokens then s else s.(ticker := Checked)
    case TickLoad => s.(ticker := Loaded(Delta(c, s.tokens)))
    case TickAdd =>
      var sum := s.tokens + s.ticker.delta;
      s.(tokens := sum, ticker := Added(sum), refills := s.refills + 1)
    case TickStore => s.(tokens := if s.ticker.sum < c.once then c.once else s.tokens, ticker := Waiting)
  }

  function Init(c: Config): State { State(c.once, Waiting, 0, 0, 0) }

  function Run(c: Config, s: State, es: seq<Event>): (r: (State, bool))
    decreases |es|
  {
    if es == [] then (s, true)
    else if Enabled(s, es[0]) then Run(c, Apply(c, s, es[0]), es[1..])
    else (s, false)
  }

  // Safety.

  function Positive(x: int): nat { if x > 0 then x else 0 }

  /** The ticker's increment never lifts the tokens over the limit: acquirers only lower them meanwhile. */
  ghost predicate TokensInv(c: Config, s: State) {
    && s.tokens <= c.limit
    && (s.ticker.Loaded? ==> 0 <= s.ticker.delta <= c.once && s.tokens + s.ticker.delta <= c.limit)
    && (s.ticker.Added? ==> s.tokens <= s.ticker.sum)
  }

  /** What one refill may add: `2*once - 1`, as a raise to `once` only follows a sum below `once`. */
  function PerRefill(c: Config): int { if c.once == 0 then 0 else 2 * c.once - 1 }

  /** Grants so far plus tokens left, plus what a refill in progress may still add. */
  ghost predicate GrantInv(c: Config, s: State) {
    var pending := if s.ticker.Added? && s.ticker.sum < c.once then c.once else 0;
    s.granted + Positive(s.tokens) + pending <= c.once + PerRefill(c) * s.refills
  }

  ghost predicate Inv(c: Config, s: State) { TokensInv(c, s) && GrantInv(c, s) }

  lemma StepKeepsInv(c: Config, s: State, e: Event)
    requires Configured(c) && Inv(c, s) && Enabled(s, e)
    ensures Inv(c, Apply(c, s, e))
  {
    Distribute(PerRefill(c), s.refills, 1);
  }

  lemma {:induction false} RunKeepsInv(c: Config, s: State, es: seq<Event>)
    requires Configured(c) && Inv(c, s)
    ensures Inv(c, Run(c, s, es).0)
    decreases |es|
  {
    if es != [] && Enabled(s, es[0]) {
      StepKeepsInv(c, s, es[0]);
      RunKeepsInv(c, Apply(c, s, es[0]), es[1..]);
    }
  }

  /**
  Over any interleaving with `k` refills the tokens stay within the limit and at most
  `once + (2*once - 1)*k` acquires are granted.
  */
  lemma GrantsBounded(c: Config, es: seq<Event>)
    requires Configured(c)
    ensures var s := Run(c, Init(c), es).0;
            s.tokens <= c.limit && s.granted <= c.once + PerRefill(c) * s.refills
  {
    RunKeepsInv(c, Init(c), es);
  }

  // A refill that no acquirer interrupts adds at most `once`.

  const REFILL: seq<Event> := [TickCheck, TickLoad, TickAdd, TickStore]

  datatype Block = Acquirer(e: Event) | Refill

  function Events(b: Block): seq<Event> {
    match b
    case Acquirer(e) => if e.LoadTokens? || e.Decrement? then [e] else []
    case Refill => REFILL
  }

  function Flatten(bs: seq<Block>): seq<Event> {
    if bs == [] then [] else Events(bs[0]) + Flatten(bs[1..])
  }

  ghost predicate AtomicInv(c: Config, s: State) {
    && s.ticker.Waiting? && s.tokens <= c.limit
    && s.granted + Positive(s.tokens) <= c.once + c.once * s.refills
  }

  lemma {:induction false} RunConcat(c: Config, s: State, a: seq<Event>, b: seq<Event>)
    requires Run(c, s, a).1
    ensures Run(c, s, a + b) == Run(c, Run(c, s, a).0, b)
    decreases |a|
  {
    if a == [] {
      assert a + b == b;
    } else {
      assert (a + b)[0] == a[0] && (a + b)[1..] == a[1..] + b;
      RunConcat(c, Apply(c, s, a[0]), a[1..], b);
    }
  }

  function Min(a: int, b: int): int { if a < b then a else b }

  function Max(a: int, b: int): int { if a > b then a else b }

  /** An uninterrupted refill adds `once` up to the limit, and never leaves less than `once`. */
  lemma RefillEffect(c: Config, s: State)
    requires s.ticker.Waiting? && s.tokens <= c.limit
    ensures Run(c, s, REFILL).1
    ensures Run(c, s, REFILL).0 ==
              s.(tokens := Max(c.once, Min(c.limit, s.tokens + c.once)), refills := s.refills + 1)
  {
    var s1 := Apply(c, s, TickCheck);
    var s2 := Apply(c, s1, TickLoad);
    var s3 := Apply(c, s2, TickAdd);
    var s4 := Apply(c, s3, TickStore);
    assert Run(c, s4, []) == (s4, true);
    assert Run(c, s3, REFILL[3..]) == Run(c, s4, REFILL[3..][1..]);
    assert REFILL[3..][1..] == [] && REFILL[2..][1..] == REFILL[3..] && REFILL[1..][1..] == REFILL[2..];
    assert Run(c, s2, REFILL[2..]) == Run(c, s3, REFILL[3..]);
    assert Run(c, s1, REFILL[1..]) == Run(c, s2, REFILL[2..]);
  }

  function RefillTimes(k: nat): seq<Event> { if k == 0 then [] else RefillTimes(k - 1) + REFILL }

  /** Refills that nobody draws on fill an empty limiter by `once` each, up to the limit. */
  lemma {:induction false} FillsUp(c: Config, s: State, k: nat)
    requires Configured(c) && s.ticker.Waiting? && s.tokens == 0
    ensures Run(c, s, RefillTimes(k)).1 && c.once * k >= 0
    ensures Run(c, s, RefillTimes(k)).0 == s.(tokens := Min(c.limit, c.once * k), refills := s.refills + k)
  {
    hide Run;
    if k == 0 {
      NoEvents(c, s);
    } else {
      FillsUp(c, s, k - 1);
      var t := s.(tokens := Min(c.limit, c.once * (k - 1)), refills := s.refills + (k - 1));
      RefillEffect(c, t);
      RunConcat(c, s, RefillTimes(k - 1), REFILL);
      Distribute(c.once, k, 1);
    }
  }

  lemma NoEvents(c: Config, s: State)
    ensures Run(c, s, []) == (s, true)
  {
  }

  lemma {:induction false} AtomicRefills(c: Config, s: State, bs: seq<Block>)
    requires Configured(c) && AtomicInv(c, s) && Run(c, s, Flatten(bs)).1
    ensures AtomicInv(c, Run(c, s, Flatten(bs)).0)
    decreases |bs|
  {
    if bs != [] {
      match bs[0]
      case Refill =>
        RefillEffect(c, s);
        RunConcat(c, s, REFILL, Flatten(bs[1..]));
        Distribute(c.once, s.refills, 1);
        AtomicRefills(c, Run(c, s, REFILL).0, bs[1..]);
      case Acquirer(e) =>
        if e.LoadTokens? || e.Decrement? {
          assert Flatten(bs)[0] == e && Flatten(bs)[1..] == Flatten(bs[1..]);
          AtomicRefills(c, Apply(c, s, e), bs[1..]);
        } else {
          assert Flatten(bs) == Flatten(bs[1..]);
          AtomicRefills(c, s, bs[1..]);
        }
    }
  }

  /** When each refill runs atomically, `k` of them allow at most `once * (k + 1)` grants. */
  lemma AtomicGrantsBounded(c: Config, bs: seq<Block>)
    requires Configured(c) && Run(c, Init(c), Flatten(bs)).1
    ensures var s := Run(c, Init(c), Flatten(bs)).0; s.granted <= c.once * (s.refills + 1)
  {
    AtomicRefills(c, Init(c), bs);
    Distribute(c.once, Run(c, Init(c), Flatten(bs)).0.refills, 1);
  }

  // The bound of `GrantsBounded` is exact.

  /** `es` leads from `s` to `r`. */
  predicate Leads(c: Config, s: State, es: seq<Event>, r: State) { Run(c, s, es) == (r, true) }

  lemma LeadsTransitive(c: Config, s: State, a: seq<Event>, m: State, b: seq<Event>, r: State)
    requires Leads(c, s, a, m) && Leads(c, m, b, r)
    ensures Leads(c, s, a + b, r)
  {
    RunConcat(c, s, a, b);
  }

  /** Undisturbed acquirers are granted one token each. */
  lemma {:induction false} TakeAll(c: Config, s: State, n: nat) returns (es: seq<Event>)
    requires n <= s.tokens
    ensures Leads(c, s, es, s.(tokens := s.tokens - n, granted := s.granted + n))
    decreases n
  {
    if n == 0 {
      es := [];
    } else {
      var s1 := s.(tokens := s.tokens - 1, granted := s.granted + 1);
      assert Apply(c, Apply(c, s, LoadTokens), Decrement) == s1;
      var two := [LoadTokens, Decrement];
      assert two[1..] == [Decrement] && two[1..][1..] == [];
      assert Leads(c, s, two, s1);
      var rest := TakeAll(c, s1, n - 1);
      es := two + rest;
      LeadsTransitive(c, s, two, s1, rest, s1.(tokens := s1.tokens - (n - 1), granted := s1.granted + (n - 1)));
    }
  }

  /** Two acquirers race for the last token: one is granted, and the tokens drop below zero. */
  lemma Race(c: Config, s: State) returns (es: seq<Event>)
    requires s.tokens == 1
    ensures Leads(c, s, es, s.(tokens := -1, granted := s.granted + 1))
  {
    es := [LoadTokens, LoadTokens, Decrement, Decrement];
    var s1 := Apply(c, s, LoadTokens);
    var s2 := Apply(c, s1, LoadTokens);
    var s3 := Apply(c, s2, Decrement);
    var s4 := Apply(c, s3, Decrement);
    assert es[1..][1..] == es[2..] && es[2..][1..] == es[3..] && es[3..][1..] == [];
    assert Run(c, s3, es[3..]) == (s4, true);
    assert Run(c, s2, es[2..]) == (s4, true);
    assert Run(c, s1, es[1..]) == (s4, true);
  }

  /** One interrupted refill from tokens at -1: all of `once - 1` and then all of `once` is granted. */
  lemma InterruptedRefill(c: Config, s: State) returns (es: seq<Event>)
    requires Configured(c) && c.once > 0 && s.ticker.Waiting? && s.tokens == -1
    ensures Leads(c, s, es, s.(tokens := c.once, granted := s.granted + (c.once - 1), refills := s.refills + 1))
  {
    var up := [TickCheck, TickLoad, TickAdd];
    var s1 := Apply(c, s, TickCheck);
    var s2 := Apply(c, s1, TickLoad);
    var s3 := Apply(c, s2, TickAdd);
    assert s3 == s.(tokens := c.once - 1, ticker := Added(c.once - 1), refills := s.refills + 1);
    assert up[1..][1..] == up[2..] && up[2..][1..] == [];
    assert Run(c, s2, up[2..]) == (s3, true);
    assert Run(c, s1, up[1..]) == (s3, true);
    var take := TakeAll(c, s3, c.once - 1);
    var s4 := s3.(tokens := 0, granted := s.granted + (c.once - 1));
    LeadsTransitive(c, s, up, s3, take, s4);
    var s5 := Apply(c, s4, TickStore);
    assert [TickStore][1..] == [];
    LeadsTransitive(c, s, up + take, s4, [TickStore], s5);
    es := up + take + [TickStore];
  }

  /** A full round: `2*once - 1` more grants, one more refill, tokens back at `once`. */
  lemma WorstRound(c: Config, s: State) returns (es: seq<Event>)
    requires Configured(c) && c.once > 0 && s.ticker.Waiting? && s.tokens == c.once
    ensures Leads(c, s, es, s.(granted := s.granted + 2 * c.once - 1, refills := s.refills + 1))
  {
    var a := TakeAll(c, s, c.once - 1);
    var s1 := s.(tokens := 1, granted := s.granted + (c.once - 1));
    var b := Race(c, s1);
    var s2 := s1.(tokens := -1, granted := s1.granted + 1);
    LeadsTransitive(c, s, a, s1, b, s2);
    var d := InterruptedRefill(c, s2);
    LeadsTransitive(c, s, a + b, s2, d, s.(granted := s.granted + 2 * c.once - 1, refills := s.refills + 1));
    es := a + b + d;
  }

  lemma {:induction false} WorstRounds(c: Config, k: nat) returns (es: seq<Event>)
    requires Configured(c) && c.once > 0
    ensures PerRefill(c) * k >= 0 && Leads(c, Init(c), es, Init(c).(granted := PerRefill(c) * k, refills := k))
  {
    if k == 0 {
      es := [];
    } else {
      var a := WorstRounds(c, k - 1);
      Distribute(PerRefill(c), k, 1);
      var s := Init(c).(granted := PerRefill(c) * (k - 1), refills := k - 1);
      var b := WorstRound(c, s);
      es := a + b;
      LeadsTransitive(c, Init(c), a, s, b, Init(c).(granted := PerRefill(c) * k, refills := k));
    }
  }

  /** For every configuration and every `k`, some interleaving with `k` refills attains the bound. */
  lemma BoundAttained(c: Config, k: nat) returns (es: seq<Event>)
    requires Configured(c) && c.once > 0
    ensures Run(c, Init(c), es).1
    ensures var s := Run(c, Init(c), es).0; s.refills == k && s.granted == c.once + PerRefill(c) * k
  {
    var a := WorstRounds(c, k);
    var s := Init(c).(granted := PerRefill(c) * k, refills := k);
    var b := TakeAll(c, s, c.once);
    es := a + b;
    LeadsTransitive(c, Init(c), a, s, b, s.(tokens := 0, granted := s.granted + c.once));
  }

  // The limiter object, when nothing interferes.

  class Limiter {
    var limit: int
    var tokens: int
    var once: int

    ghost function Abstract(granted: nat, refills: nat): State
      reads this
    {
      State(tokens, Waiting, 0, granted, refills)
    }

    constructor (interval: nat, limit: int)
      requires interval > 0
      ensures this.limit == limit && once == tokens == CalcOnce(interval, limit)
    {
      this.limit := limit;
      once := CalcOnce(interval, limit);
      tokens := CalcOnce(interval, limit);
    }

    /** Grants everything without a limit, otherwise exactly while tokens are left. */
    method Acquire() returns (ok: bool)
      modifies this`tokens
      ensures ok <==> limit <= 0 || old(tokens) > 0
      ensures tokens == if limit > 0 && old(tokens) > 0 then old(tokens) - 1 else old(tokens)
    {
      if limit <= 0 { return true; }
      if tokens <= 0 { return false; }
      tokens := tokens - 1;
      return tokens >= 0;
    }

    /** One uninterrupted refill, as the four ticker events do it; above the limit nothing changes. */
    method UpdateToken()
      modifies this`tokens
      ensures old(tokens) > limit ==> tokens == old(tokens)
      ensures old(tokens) <= limit ==>
                Abstract(0, 1) == Run(Config(limit, once), old(Abstract(0, 0)), REFILL).0
      ensures old(tokens) <= limit ==> tokens == Max(once, Min(limit, old(tokens) + once))
      ensures Configured(Config(limit, once)) && old(tokens) <= limit ==> once <= tokens <= limit
    {
      if limit < tokens { return; }
      RefillEffect(Config(limit, once), Abstract(0, 0));
      var delta := limit - tokens;
      if delta > once || delta < 0 { delta := once; }
      tokens := tokens + delta;
      if tokens < once { tokens := once; }
    }
  }
}
