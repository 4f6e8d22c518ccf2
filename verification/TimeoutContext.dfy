/** The context of one timeout task, updated in place under its mutex. */
module TimeoutContexts {
  import opened Discovery
  import opened TimeoutPool

  class TimeoutContext {
    var err: Option<Err>
    var closed: bool
    ghost var reasons: seq<Err>

    ghost predicate Valid()
      reads this
    {
      CtxInv(Value())
    }

    /** The context as the pool's steps see it. */
    ghost function Value(): Context
      reads this
    {
      Context(err, if closed then 1 else 0, reasons)
    }

    constructor ()
      ensures Valid() && Value() == Context(None, 0, [])
    {
      err, closed, reasons := None, false, [];
    }

    /** A nil reason changes nothing; any other takes the pool's `Cancel` step, and never closes a closed channel. */
    method Cancel(reason: Option<Err>)
      requires Valid()
      modifies this
      ensures Valid()
      ensures reason.None? ==> Value() == old(Value())
      ensures reason.Some? ==> Value() == TimeoutPool.Cancel(old(Value()), reason.value)
    {
      if reason.Some? && err.None? {
        err := reason;
        assert !closed;
        closed := true;
      }
      if reason.Some? { reasons := reasons + [reason.value]; }
    }

    /** The first reason given; before any, whatever the parent context says. */
    method GetErr(parent: Option<Err>) returns (e: Option<Err>)
      requires Valid()
      ensures e == if reasons != [] then Some(reasons[0]) else parent
    {
      if err.Some? { return err; }
      e := parent;
    }
  }
}
