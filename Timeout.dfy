/** `withTimeout` (src/index.ts): `withAbort` plus a timer that rejects the
    new promise when it fires, and an abort function that clears the timer
    before rejecting. The host's timer is reduced to whether it is armed. */
module Timeout {
  import opened ValueChain
  import opened Cancellation

  /** The reason the timer rejects with: `new Error("Context timed out")`. */
  const TIMED_OUT: Reason := Error("Context timed out")

  /** The timer scheduled by one `withTimeout` call, for promise `cell`. */
  class Timer {
    const promises: Promises
    const cell: nat
    /** Scheduled and neither fired nor cleared. */
    var armed: bool

    ghost predicate Valid()
      reads this, promises
    {
      promises.Valid() && cell < |promises.reason| && promises.rejectable[cell]
    }

    /** `setTimeout(cancel, ms, ...)`: the timer starts armed. */
    constructor (promises: Promises, cell: nat)
      requires promises.Valid() && cell < |promises.reason| && promises.rejectable[cell]
      ensures Valid() && armed
      ensures this.promises == promises && this.cell == cell
    {
      this.promises := promises;
      this.cell := cell;
      armed := true;
    }

    /** The host runs the timer's callback: only an armed timer acts; it
        rejects its promise with the timeout reason and is spent. */
    method Fire()
      requires Valid()
      modifies this, promises
      ensures Valid() && !armed
      ensures promises.dependents == old(promises.dependents) && promises.rejectable == old(promises.rejectable)
      ensures promises.parent == old(promises.parent)
      ensures promises.reason ==
        if old(armed) then Cancelled(promises.parent, old(promises.reason), cell, TIMED_OUT) else old(promises.reason)
    {
      if armed {
        armed := false;
        promises.Abort(cell, TIMED_OUT);
      }
    }

    /** The abort function `withTimeout` returns: `clearTimeout` first, so
        the timer can no longer fire, then the promise's own abort. */
    method Abort(r: Reason)
      requires Valid()
      modifies this, promises
      ensures Valid() && !armed
      ensures promises.dependents == old(promises.dependents) && promises.rejectable == old(promises.rejectable)
      ensures promises.parent == old(promises.parent)
      ensures promises.reason == Cancelled(promises.parent, old(promises.reason), cell, r)
    {
      armed := false;
      promises.Abort(cell, r);
    }
  }

  /** `withTimeout(parent, ms)`: the context and promise of `withAbort`,
      with an armed timer on that promise. */
  method WithTimeout<K(==, !new), V>(promises: Promises, ctx: Chain<K, V>) returns (child: Chain<K, V>, timer: Timer)
    requires promises.Valid() && Wired(ctx, promises.rejectable, promises.parent)
    modifies promises
    ensures fresh(timer) && timer.Valid() && timer.armed && timer.promises == promises
    ensures timer.cell == old(|promises.reason|) && child == WithValue(ctx, AbortKey, Signal(timer.cell))
    ensures Nearest(child) == Some(timer.cell) && Wired(child, promises.rejectable, promises.parent)
    ensures promises.parent == old(promises.parent) + [Nearest(ctx)]
    ensures promises.rejectable == old(promises.rejectable) + [true]
    ensures Nearest(ctx).None? ==> promises.reason == old(promises.reason) + [None]
    ensures Nearest(ctx).Some? ==>
      Nearest(ctx).value < old(|promises.reason|) &&
      promises.reason == old(promises.reason) + [old(promises.reason)[Nearest(ctx).value]]
  {
    var cell;
    child, cell := promises.WithAbort(ctx);
    timer := new Timer(promises, cell);
  }
}
