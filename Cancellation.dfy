/** The cancellation core: the private `abortKey`, `withAbort` and
    `useAbort` (src/index.ts). Every abort promise is a cell of one
    `Promises` store, named by its creation index; a context refers to a
    cell by that index, as a JavaScript context refers to a promise. */
module Cancellation {
  import opened ValueChain

  /** The rejection value of an abort promise (an `Error`). */
  datatype Reason = Error(message: string)

  /** Keys of a context: the application's own keys, and the module-private
      `abortKey` symbol, which no application key can equal. */
  datatype Key<K> = User(name: K) | AbortKey

  /** Values of a context: application data, or the abort promise that
      `withAbort` binds under `abortKey`. */
  datatype Val<V> = Data(v: V) | Signal(cell: nat)

  type Chain<K, V> = Ctx<Key<K>, Val<V>>

  /** The nearest abort promise bound on the chain, if any: the truthy
      left operand of `ctx.value(abortKey) || ...`. */
  function Nearest<K(==), V>(ctx: Chain<K, V>): Option<nat>
  {
    var found := Lookup(ctx, AbortKey);
    if found.Some? && found.value.Signal? then Some(found.value.cell) else None
  }

  /** Every `abortKey` binding on the chain holds a promise of the store
      whose reject function was handed out by `withAbort`, and that
      promise is wired to the nearest promise of the binding's parent, as
      `prev.catch(abort)` wires it. */
  ghost predicate Wired<K, V>(ctx: Chain<K, V>, rejectable: seq<bool>, parent: seq<Option<nat>>)
  {
    match ctx
    case Background => true
    case Bind(p, k, v) =>
      (k.AbortKey? ==>
        v.Signal? && v.cell < |rejectable| && v.cell < |parent| && rejectable[v.cell] && parent[v.cell] == Nearest(p)) &&
      Wired(p, rejectable, parent)
  }

  /** The abort promise `useAbort` finds is bound exactly when the chain
      binds `abortKey`, and it is one that `withAbort` created. */
  lemma {:induction false} NearestIsLive<K, V>(ctx: Chain<K, V>, rejectable: seq<bool>, parent: seq<Option<nat>>)
    requires Wired(ctx, rejectable, parent)
    ensures Nearest(ctx).Some? <==> AbortKey in Keys(ctx)
    ensures Nearest(ctx).Some? ==> Nearest(ctx).value < |rejectable| && rejectable[Nearest(ctx).value]
  {
    match ctx
    case Background =>
    case Bind(p, k, v) =>
      if !k.AbortKey? {
        NearestIsLive(p, rejectable, parent);
      }
  }

  /** A chain stays wired while the store only grows. */
  lemma {:induction false} WiredGrows<K, V>(ctx: Chain<K, V>, rejectable: seq<bool>, parent: seq<Option<nat>>,
                                            more: seq<bool>, moreParents: seq<Option<nat>>)
    requires Wired(ctx, rejectable, parent)
    ensures Wired(ctx, rejectable + more, parent + moreParents)
  {
    match ctx
    case Background =>
    case Bind(p, k, v) =>
      WiredGrows(p, rejectable, parent, more, moreParents);
      if k.AbortKey? {
        assert (rejectable + more)[v.cell] == rejectable[v.cell];
        assert (parent + moreParents)[v.cell] == parent[v.cell];
      }
  }

  /* ---------------------------------------------------------------------
     The promise forest. `parent[j] == Some(i)` when promise `j` was
     wired to promise `i` by `prev.catch(abort)`; a promise is created
     after the one it is wired to, so parents have smaller indices.
     --------------------------------------------------------------------- */

  ghost predicate ParentsBelow(parent: seq<Option<nat>>)
  {
    forall j :: 0 <= j < |parent| && parent[j].Some? ==> parent[j].value < j
  }

  /** Promise `j` is promise `i` or is wired, through zero or more
      promises, to promise `i`. */
  ghost predicate Descends(parent: seq<Option<nat>>, j: nat, i: nat)
    requires ParentsBelow(parent) && j < |parent|
    decreases j
  {
    j == i || (parent[j].Some? && Descends(parent, parent[j].value, i))
  }

  /** A promise never descends from a later one. */
  lemma {:induction false} DescendsBelow(parent: seq<Option<nat>>, j: nat, i: nat)
    requires ParentsBelow(parent) && j < |parent| && Descends(parent, j, i)
    ensures i <= j
    decreases j
  {
    if j != i {
      DescendsBelow(parent, parent[j].value, i);
    }
  }

  lemma {:induction false} DescendsTrans(parent: seq<Option<nat>>, j: nat, c: nat, d: nat)
    requires ParentsBelow(parent) && j < |parent| && c < |parent|
    requires Descends(parent, j, c) && Descends(parent, c, d)
    ensures Descends(parent, j, d)
    decreases j
  {
    if j != c {
      DescendsTrans(parent, parent[j].value, c, d);
    }
  }

  /** The ancestors of a promise form a line: two of them are ordered. */
  lemma {:induction false} DescendsLinear(parent: seq<Option<nat>>, j: nat, a: nat, b: nat)
    requires ParentsBelow(parent) && j < |parent| && a < |parent| && b < |parent|
    requires Descends(parent, j, a) && Descends(parent, j, b)
    ensures Descends(parent, a, b) || Descends(parent, b, a)
    decreases j
  {
    if j != a && j != b {
      DescendsLinear(parent, parent[j].value, a, b);
    }
  }

  /** Two distinct promises wired to the same promise have no common descendant. */
  lemma SiblingsDisjoint(parent: seq<Option<nat>>, x: nat, c1: nat, c2: nat)
    requires ParentsBelow(parent) && x < |parent| && c1 < |parent| && c2 < |parent|
    requires c1 != c2 && parent[c1].Some? && parent[c1] == parent[c2]
    requires Descends(parent, x, c1)
    ensures !Descends(parent, x, c2)
  {
    if Descends(parent, x, c2) {
      DescendsLinear(parent, x, c1, c2);
      if Descends(parent, c1, c2) {
        DescendsBelow(parent, parent[c1].value, c2);
      } else {
        DescendsBelow(parent, parent[c2].value, c1);
      }
    }
  }

  /** Settlement has reached every promise wired to a settled one. */
  ghost predicate Consistent(parent: seq<Option<nat>>, rs: seq<Option<Reason>>)
    requires |rs| == |parent| && ParentsBelow(parent)
  {
    forall j :: 0 <= j < |parent| && parent[j].Some? && rs[parent[j].value].Some? ==> rs[j].Some?
  }

  /** Consistent, restricted to the promises that descend from `d`. */
  ghost predicate ConsistentBelow(parent: seq<Option<nat>>, rs: seq<Option<Reason>>, d: nat)
    requires |rs| == |parent| && ParentsBelow(parent)
  {
    forall j :: 0 <= j < |parent| && parent[j].Some? && Descends(parent, parent[j].value, d) && rs[parent[j].value].Some? ==> rs[j].Some?
  }

  /** The settlement state after promise `i` is rejected with `r`: every
      promise that descends from `i` and is still pending settles with
      `r`; every other promise keeps its state. */
  ghost function Cancelled(parent: seq<Option<nat>>, rs: seq<Option<Reason>>, i: nat, r: Reason): seq<Option<Reason>>
    requires |rs| == |parent| && ParentsBelow(parent)
  {
    seq(|rs|, j requires 0 <= j < |rs| => if Descends(parent, j, i) && rs[j].None? then Some(r) else rs[j])
  }

  /** Once promise `d` has settled, so has every promise that descends
      from it. */
  lemma {:induction false} SettledBelow(parent: seq<Option<nat>>, rs: seq<Option<Reason>>, d: nat, j: nat)
    requires |rs| == |parent| && ParentsBelow(parent) && d < |rs| && j < |rs|
    requires ConsistentBelow(parent, rs, d) && rs[d].Some? && Descends(parent, j, d)
    ensures rs[j].Some?
    decreases j
  {
    if j != d {
      SettledBelow(parent, rs, d, parent[j].value);
    }
  }

  /** First settlement wins: rejecting a settled promise changes nothing,
      neither its own reason nor any descendant's. */
  lemma FirstSettlementWins(parent: seq<Option<nat>>, rs: seq<Option<Reason>>, i: nat, r: Reason)
    requires |rs| == |parent| && ParentsBelow(parent) && i < |rs|
    requires Consistent(parent, rs) && rs[i].Some?
    ensures Cancelled(parent, rs, i, r) == rs
  {
    forall j | 0 <= j < |rs| && Descends(parent, j, i)
      ensures rs[j].Some?
    {
      SettledBelow(parent, rs, i, j);
    }
  }

  /** The nearest promise of a context derived from `ctx` descends from
      the nearest promise of `ctx`: every `withAbort` on the way wired its
      promise to the one it found. */
  lemma {:induction false} NearestDescends<K(!new), V>(ctx: Chain<K, V>, es: seq<(Key<K>, Val<V>)>,
                                                        rejectable: seq<bool>, parent: seq<Option<nat>>, a: nat)
    requires ParentsBelow(parent) && a < |parent|
    requires Wired(Extend(ctx, es), rejectable, parent) && Nearest(ctx) == Some(a)
    ensures Nearest(Extend(ctx, es)).Some? && Nearest(Extend(ctx, es)).value < |parent|
    ensures Descends(parent, Nearest(Extend(ctx, es)).value, a)
    decreases |es|
  {
    if es != [] {
      var init, e := es[..|es| - 1], es[|es| - 1];
      assert es == init + [e];
      ExtendSnoc(ctx, init, e.0, e.1);
      var mid := Extend(ctx, init);
      NearestDescends(ctx, init, rejectable, parent, a);
      if e.0.AbortKey? {
        var c := e.1.cell;
        assert parent[c] == Some(Nearest(mid).value);
        assert Descends(parent, c, a);
      } else {
        assert Lookup(Bind(mid, e.0, e.1), AbortKey) == Lookup(mid, AbortKey);
      }
    }
  }

  /** A context is cancelled when any ancestor is: once the nearest
      promise of `ctx` has settled, the nearest promise of every context
      derived from it, by `withValue`, `withAbort` or `withTimeout`, has
      settled too. */
  lemma AncestorCancelsContext<K(!new), V>(reason: seq<Option<Reason>>, dependents: seq<seq<nat>>, rejectable: seq<bool>,
                                           parent: seq<Option<nat>>, ctx: Chain<K, V>, es: seq<(Key<K>, Val<V>)>)
    requires Sound(reason, dependents, rejectable, parent) && Wired(Extend(ctx, es), rejectable, parent)
    requires Nearest(ctx).Some? && Nearest(ctx).value < |reason| && reason[Nearest(ctx).value].Some?
    ensures Nearest(Extend(ctx, es)).Some? && Nearest(Extend(ctx, es)).value < |reason|
    ensures reason[Nearest(Extend(ctx, es)).value].Some?
  {
    NearestDescends(ctx, es, rejectable, parent, Nearest(ctx).value);
    SettledBelow(parent, reason, Nearest(ctx).value, Nearest(Extend(ctx, es)).value);
  }

  /** Cancellation goes down only: rejecting a promise never settles a
      promise it was wired to, directly or through others. */
  lemma CancelSparesAncestors(parent: seq<Option<nat>>, rs: seq<Option<Reason>>, i: nat, r: Reason, a: nat)
    requires |rs| == |parent| && ParentsBelow(parent) && i < |rs| && a < |rs|
    requires a != i && Descends(parent, i, a)
    ensures Cancelled(parent, rs, i, r)[a] == rs[a]
  {
    DescendsBelow(parent, i, a);
    if Descends(parent, a, i) {
      DescendsBelow(parent, a, i);
    }
  }

  /** Rejection leaves every promise settled below a settled one. */
  lemma CancelledConsistent(parent: seq<Option<nat>>, rs: seq<Option<Reason>>, i: nat, r: Reason)
    requires |rs| == |parent| && ParentsBelow(parent) && i < |rs|
    requires Consistent(parent, rs)
    ensures Consistent(parent, Cancelled(parent, rs, i, r))
  {
  }

  /** Rejecting a promise a second time, with any reason, is a no-op. */
  lemma CancelIdempotent(parent: seq<Option<nat>>, rs: seq<Option<Reason>>, i: nat, r: Reason, r': Reason)
    requires |rs| == |parent| && ParentsBelow(parent) && i < |rs|
    requires Consistent(parent, rs)
    ensures Cancelled(parent, Cancelled(parent, rs, i, r), i, r') == Cancelled(parent, rs, i, r)
  {
  }

  /** Parents come first, and `dependents` lists exactly the promises
      wired to each promise, in creation order. */
  ghost predicate Forest(parent: seq<Option<nat>>, dependents: seq<seq<nat>>)
  {
    |dependents| == |parent| &&
    ParentsBelow(parent) &&
    (forall p, m :: 0 <= p < |dependents| && 0 <= m < |dependents[p]| ==>
      dependents[p][m] < |parent| && parent[dependents[p][m]] == Some(p)) &&
    (forall p, a, b :: 0 <= p < |dependents| && 0 <= a < b < |dependents[p]| ==>
      dependents[p][a] < dependents[p][b]) &&
    (forall j :: 0 <= j < |parent| && parent[j].Some? ==> j in dependents[parent[j].value])
  }

  /** The store invariant: a forest, propagation is complete, and a
      promise whose reject function never escaped stays pending with
      nothing wired to it. */
  ghost predicate Sound(reason: seq<Option<Reason>>, dependents: seq<seq<nat>>, rejectable: seq<bool>, parent: seq<Option<nat>>)
  {
    |reason| == |parent| == |rejectable| && Forest(parent, dependents) &&
    Consistent(parent, reason) &&
    (forall i :: 0 <= i < |rejectable| && !rejectable[i] ==>
      reason[i] == None && dependents[i] == [] && parent[i] == None)
  }

  /** `withAbort` keeps the store sound: the new promise comes last,
      wired to `prev` and holding its settlement. */
  lemma WireKeepsSound(reason: seq<Option<Reason>>, dependents: seq<seq<nat>>, rejectable: seq<bool>, parent: seq<Option<nat>>, p: nat)
    requires Sound(reason, dependents, rejectable, parent) && p < |reason| && rejectable[p]
    ensures Sound(reason + [reason[p]], dependents[p := dependents[p] + [|reason|]] + [[]], rejectable + [true], parent + [Some(p)])
  {
  }

  /** The fallback of `useAbort` keeps the store sound. */
  lemma FallbackKeepsSound(reason: seq<Option<Reason>>, dependents: seq<seq<nat>>, rejectable: seq<bool>, parent: seq<Option<nat>>)
    requires Sound(reason, dependents, rejectable, parent)
    ensures Sound(reason + [None], dependents + [[]], rejectable + [false], parent + [None])
  {
  }

  /** The store of every abort promise created so far. */
  class Promises {
    /** The settlement of each promise: `None` while pending. */
    var reason: seq<Option<Reason>>
    /** The `catch(abort)` continuations registered on each promise, as
        the promises they reject, in registration order. */
    var dependents: seq<seq<nat>>
    /** Whether the promise's reject function escaped to a caller:
        true for `withAbort`, false for the fallback of `useAbort`. */
    var rejectable: seq<bool>
    /** The promise each promise was wired to by `withAbort`. */
    ghost var parent: seq<Option<nat>>

    /** The sizes agree, the promises form a forest, and only promises
        whose reject function escaped are wired to another. */
    ghost predicate Linked()
      reads this
    {
      |reason| == |parent| == |rejectable| && Forest(parent, dependents) &&
      (forall j :: 0 <= j < |parent| && parent[j].Some? ==> rejectable[j])
    }

    ghost predicate Valid()
      reads this
    {
      Sound(reason, dependents, rejectable, parent)
    }

    constructor ()
      ensures Valid() && reason == [] && rejectable == []
    {
      reason, dependents, rejectable, parent := [], [], [], [];
    }

    /** `withAbort(parent)`: a new pending promise, wired to the nearest
        promise of `ctx` when there is one (settled at once with that
        promise's reason if it has already settled), bound under
        `abortKey`; `abort` names the promise whose reject function is
        returned. */
    method WithAbort<K(==, !new), V>(ctx: Chain<K, V>) returns (child: Chain<K, V>, abort: nat)
      requires Valid() && Wired(ctx, rejectable, parent)
      modifies this
      ensures Valid()
      ensures abort == old(|reason|) && child == WithValue(ctx, AbortKey, Signal(abort))
      ensures Nearest(child) == Some(abort) && Wired(child, rejectable, parent)
      ensures forall k :: Lookup(child, User(k)) == Lookup(ctx, User(k))
      ensures parent == old(parent) + [Nearest(ctx)]
      ensures rejectable == old(rejectable) + [true]
      ensures Nearest(ctx).None? ==> reason == old(reason) + [None]
      ensures Nearest(ctx).Some? ==>
        Nearest(ctx).value < old(|reason|) && reason == old(reason) + [old(reason)[Nearest(ctx).value]]
    {
      var prev := Nearest(ctx);
      NearestIsLive(ctx, rejectable, parent);
      var n := |reason|;
      if prev.Some? {
        var p := prev.value;
        WireKeepsSound(reason, dependents, rejectable, parent, p);
        reason := reason + [reason[p]];
        dependents := dependents[p := dependents[p] + [n]] + [[]];
      } else {
        reason := reason + [None];
        dependents := dependents + [[]];
      }
      rejectable := rejectable + [true];
      parent := parent + [prev];
      WiredGrows(ctx, old(rejectable), old(parent), [true], [prev]);
      child := WithValue(ctx, AbortKey, Signal(n));
      abort := n;
    }

    /** `useAbort(ctx)`: the nearest promise bound on the chain, or a
        fresh promise whose reject function is dropped, so that it never
        settles. */
    method UseAbort<K(==), V>(ctx: Chain<K, V>) returns (promise: nat)
      requires Valid() && Wired(ctx, rejectable, parent)
      modifies this
      ensures Valid()
      ensures Nearest(ctx).Some? ==>
        promise == Nearest(ctx).value && reason == old(reason) && rejectable == old(rejectable) &&
        dependents == old(dependents) && parent == old(parent)
      ensures Nearest(ctx).None? ==>
        promise == old(|reason|) && reason == old(reason) + [None] && rejectable == old(rejectable) + [false] &&
        dependents == old(dependents) + [[]] && parent == old(parent) + [None]
    {
      var found := Nearest(ctx);
      if found.Some? {
        promise := found.value;
      } else {
        FallbackKeepsSound(reason, dependents, rejectable, parent);
        promise := |reason|;
        reason := reason + [None];
        dependents := dependents + [[]];
        rejectable := rejectable + [false];
        parent := parent + [None];
      }
    }

    /** Calling the `AbortFn` of promise `cell` with `r`. */
    method Abort(cell: nat, r: Reason)
      requires Valid() && cell < |reason| && rejectable[cell]
      modifies this
      ensures Valid()
      ensures dependents == old(dependents) && rejectable == old(rejectable) && parent == old(parent)
      ensures reason == Cancelled(parent, old(reason), cell, r)
    {
      Reject(cell, r);
      CancelledConsistent(parent, old(reason), cell, r);
      forall i | 0 <= i < |rejectable| && !rejectable[i]
        ensures reason[i] == None
      {
        assert !Descends(parent, i, cell);
      }
    }

    /** The promise's `reject`: the first call settles it and runs the
        `catch` continuations registered on it, each rejecting its own
        promise with the same reason; a later call does nothing. */
    method Reject(d: nat, r: Reason)
      requires Linked() && d < |reason| && rejectable[d] && ConsistentBelow(parent, reason, d)
      modifies this
      ensures dependents == old(dependents) && rejectable == old(rejectable) && parent == old(parent)
      ensures reason == Cancelled(parent, old(reason), d, r)
      decreases |reason| - d
    {
      if reason[d].Some? {
        forall j | 0 <= j < |reason| && Descends(parent, j, d)
          ensures reason[j].Some?
        {
          SettledBelow(parent, reason, d, j);
        }
        return;
      }
      ghost var before := reason;
      reason := reason[d := Some(r)];
      var deps := dependents[d];
      var k := 0;
      while k < |deps|
        invariant 0 <= k <= |deps|
        invariant dependents == old(dependents) && rejectable == old(rejectable) && parent == old(parent)
        invariant |reason| == |before|
        invariant forall j :: 0 <= j < |reason| ==>
          reason[j] == if (j == d || InSubtrees(parent, j, deps, k)) && before[j].None? then Some(r) else before[j]
      {
        var c := deps[k];
        SubtreeUntouched(parent, deps, d, k);
        forall j | 0 <= j < |parent| && parent[j].Some? && Descends(parent, parent[j].value, c) && reason[parent[j].value].Some?
          ensures reason[j].Some?
        {
          var p := parent[j].value;
          assert Descends(parent, j, c);
          DescendsTrans(parent, p, c, d);
        }
        Reject(c, r);
        forall j | 0 <= j < |reason|
          ensures InSubtrees(parent, j, deps, k + 1) <==> InSubtrees(parent, j, deps, k) || Descends(parent, j, c)
        {
          if Descends(parent, j, c) {
            assert InSubtrees(parent, j, deps, k + 1) by { assert Descends(parent, j, deps[k]); }
          }
        }
        k := k + 1;
      }
      forall j | 0 <= j < |reason|
        ensures (j == d || InSubtrees(parent, j, deps, k)) <==> Descends(parent, j, d)
      {
        SubtreeSplit(parent, dependents, d, j);
      }
    }
  }

  /** Promise `j` descends from one of the first `k` promises of `deps`. */
  ghost predicate InSubtrees(parent: seq<Option<nat>>, j: nat, deps: seq<nat>, k: nat)
    requires ParentsBelow(parent) && j < |parent|
  {
    exists m :: 0 <= m < k && m < |deps| && Descends(parent, j, deps[m])
  }

  /** While the continuations of `d` run in order, the promises below the
      next one have not been touched by the earlier ones. */
  lemma SubtreeUntouched(parent: seq<Option<nat>>, deps: seq<nat>, d: nat, k: nat)
    requires ParentsBelow(parent) && d < |parent| && k < |deps|
    requires forall m :: 0 <= m < |deps| ==> deps[m] < |parent| && parent[deps[m]] == Some(d)
    requires forall a, b :: 0 <= a < b < |deps| ==> deps[a] < deps[b]
    ensures forall x :: 0 <= x < |parent| && Descends(parent, x, deps[k]) ==>
      x != d && !InSubtrees(parent, x, deps, k) && Descends(parent, x, d)
  {
    forall x | 0 <= x < |parent| && Descends(parent, x, deps[k])
      ensures x != d && !InSubtrees(parent, x, deps, k) && Descends(parent, x, d)
    {
      DescendsBelow(parent, x, deps[k]);
      assert Descends(parent, deps[k], d);
      DescendsTrans(parent, x, deps[k], d);
      forall m | 0 <= m < k
        ensures !Descends(parent, x, deps[m])
      {
        SiblingsDisjoint(parent, x, deps[k], deps[m]);
      }
    }
  }

  /** The promises below `d` are `d` and those below its dependents. */
  lemma {:induction false} SubtreeSplit(parent: seq<Option<nat>>, dependents: seq<seq<nat>>, d: nat, j: nat)
    requires ParentsBelow(parent) && |dependents| == |parent| && d < |parent| && j < |parent|
    requires forall m :: 0 <= m < |dependents[d]| ==> dependents[d][m] < |parent| && parent[dependents[d][m]] == Some(d)
    requires forall x :: 0 <= x < |parent| && parent[x].Some? ==> x in dependents[parent[x].value]
    ensures (j == d || InSubtrees(parent, j, dependents[d], |dependents[d]|)) <==> Descends(parent, j, d)
    decreases j
  {
    var deps := dependents[d];
    if InSubtrees(parent, j, deps, |deps|) {
      var m :| 0 <= m < |deps| && Descends(parent, j, deps[m]);
      DescendsTrans(parent, j, deps[m], d);
    }
    if j != d && Descends(parent, j, d) {
      var p := parent[j].value;
      if p == d {
        var m :| 0 <= m < |deps| && deps[m] == j;
        assert Descends(parent, j, deps[m]);
      } else {
        SubtreeSplit(parent, dependents, d, p);
        var m :| 0 <= m < |deps| && Descends(parent, p, deps[m]);
        assert Descends(parent, j, deps[m]);
      }
    }
  }
}
