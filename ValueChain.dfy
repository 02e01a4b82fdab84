/** The immutable value chain: `background`, `withValue` and the `value`
    lookup of `BackgroundContext` and `ValueContext` (src/index.ts). */
module ValueChain {

  datatype Option<T> = None | Some(value: T)

  /** A context is the terminal background node or a binding node that
      wraps its parent with one key and one value. Derivation only wraps
      an existing node, so every chain is finite and acyclic. */
  datatype Ctx<K, V> = Background | Bind(parent: Ctx<K, V>, key: K, val: V)

  /** Every key bound somewhere between `c` and the background node. */
  ghost function Keys<K, V>(c: Ctx<K, V>): set<K>
  {
    set i | 0 <= i < |Entries(c)| :: Entries(c)[i].0
  }

  /** A binding node binds its parent's keys and its own. */
  lemma KeysOfBind<K, V>(p: Ctx<K, V>, k: K, v: V)
    ensures Keys(Bind(p, k, v)) == Keys(p) + {k}
  {
    var es := Entries(Bind(p, k, v));
    assert es == Entries(p) + [(k, v)];
    assert es[|Entries(p)|].0 == k;
    assert forall i :: 0 <= i < |Entries(p)| ==> es[i] == Entries(p)[i];
  }

  /** `value(key)`: the background node answers absent (`undefined`);
      a binding node answers its own value when the key is its own and
      otherwise asks its parent. */
  function Lookup<K(==), V>(c: Ctx<K, V>, k: K): (r: Option<V>)
    ensures r.Some? <==> k in Keys(c)
  {
    match c
    case Background => None
    case Bind(p, key, v) =>
      KeysOfBind(p, key, v);
      if k == key then Some(v) else Lookup(p, k)
  }

  /** `withValue(parent, key, value)`: a new node; the parent is not touched. */
  function WithValue<K(==, !new), V>(parent: Ctx<K, V>, k: K, v: V): (c: Ctx<K, V>)
    ensures Lookup(c, k) == Some(v)
    ensures forall k' :: k' != k ==> Lookup(c, k') == Lookup(parent, k')
    ensures Keys(c) == Keys(parent) + {k}
  {
    KeysOfBind(parent, k, v);
    Bind(parent, k, v)
  }

  /** The bindings of a chain in derivation order, oldest first. */
  function Entries<K, V>(c: Ctx<K, V>): seq<(K, V)>
  {
    match c
    case Background => []
    case Bind(p, k, v) => Entries(p) + [(k, v)]
  }

  /** The context obtained by deriving from `c` with `withValue` once per
      entry of `es`, in order. */
  function Extend<K(==, !new), V>(c: Ctx<K, V>, es: seq<(K, V)>): Ctx<K, V>
    decreases |es|
  {
    if es == [] then c else Extend(WithValue(c, es[0].0, es[0].1), es[1..])
  }

  /** No entry after position `i` binds `k`. */
  ghost predicate UnboundAfter<K, V>(es: seq<(K, V)>, k: K, i: int)
  {
    forall j :: 0 <= i < j < |es| ==> es[j].0 != k
  }

  /** Deriving appends exactly the derived bindings to the chain's entries. */
  lemma {:induction false} ExtendEntries<K(!new), V>(c: Ctx<K, V>, es: seq<(K, V)>)
    ensures Entries(Extend(c, es)) == Entries(c) + es
    decreases |es|
  {
    if es != [] {
      ExtendEntries(WithValue(c, es[0].0, es[0].1), es[1..]);
      assert [es[0]] + es[1..] == es;
    }
  }

  lemma {:induction false} ExtendSnoc<K(!new), V>(c: Ctx<K, V>, es: seq<(K, V)>, k: K, v: V)
    ensures Extend(c, es + [(k, v)]) == Bind(Extend(c, es), k, v)
    decreases |es|
  {
    if es == [] {
      assert es + [(k, v)] == [(k, v)];
    } else {
      assert (es + [(k, v)])[1..] == es[1..] + [(k, v)];
      ExtendSnoc(WithValue(c, es[0].0, es[0].1), es[1..], k, v);
    }
  }

  /** Every context is the background node derived by its own entries:
      together with ExtendEntries, entries and derivation are inverse. */
  lemma {:induction false} EntriesRebuild<K(!new), V>(c: Ctx<K, V>)
    ensures Extend(Background, Entries(c)) == c
  {
    match c
    case Background =>
    case Bind(p, k, v) =>
      EntriesRebuild(p);
      ExtendSnoc(Background, Entries(p), k, v);
  }

  /** Entry `i` of `es` binds `k` to `v`, and no later entry binds `k`. */
  ghost predicate DeepestAt<K, V>(es: seq<(K, V)>, k: K, v: V, i: int)
  {
    0 <= i < |es| && es[i] == (k, v) && UnboundAfter(es, k, i)
  }

  /** Appending an entry for another key does not change where `k` is
      bound deepest. */
  lemma DeepestAtSnoc<K, V>(es: seq<(K, V)>, e: (K, V), k: K, v: V, i: int)
    requires e.0 != k
    ensures DeepestAt(es + [e], k, v, i) <==> DeepestAt(es, k, v, i)
  {
    var xs := es + [e];
    if DeepestAt(xs, k, v, i) {
      assert i != |es| && xs[i] == es[i];
      forall j | 0 <= i < j < |es| ensures es[j].0 != k {
        assert xs[j] == es[j];
      }
    }
    if DeepestAt(es, k, v, i) {
      assert xs[i] == es[i];
      forall j | 0 <= i < j < |xs| ensures xs[j].0 != k {
        if j < |es| { assert xs[j] == es[j]; }
      }
      assert UnboundAfter(xs, k, i);
    }
  }

  /** Shadowing: a lookup yields `v` exactly when the deepest binding of
      the key on the chain holds `v`. */
  lemma {:induction false} LookupIsDeepest<K, V>(c: Ctx<K, V>, k: K, v: V)
    ensures Lookup(c, k) == Some(v) ==> exists i :: DeepestAt(Entries(c), k, v, i)
    ensures (exists i :: DeepestAt(Entries(c), k, v, i)) ==> Lookup(c, k) == Some(v)
  {
    match c
    case Background =>
    case Bind(p, key, w) =>
      var ps := Entries(p);
      var es := Entries(c);
      assert es == ps + [(key, w)];
      var last := |ps|;
      assert Lookup(c, k) == if k == key then Some(w) else Lookup(p, k);
      if k == key {
        assert es[last] == (key, w);
        if v == w {
          assert DeepestAt(es, k, v, last);
        }
      } else {
        LookupIsDeepest(p, k, v);
        assert Lookup(c, k) == Lookup(p, k);
        if Lookup(p, k) == Some(v) {
          var i :| DeepestAt(ps, k, v, i);
          DeepestAtSnoc(ps, (key, w), k, v, i);
          assert DeepestAt(Entries(c), k, v, i);
        } else {
          forall i | DeepestAt(es, k, v, i)
            ensures false
          {
            DeepestAtSnoc(ps, (key, w), k, v, i);
          }
        }
      }
  }

  /** Deriving never hides an ancestor binding of a key that the
      derivations do not bind themselves: the ancestor's answer stays
      visible from every descendant. */
  lemma {:induction false} ExtendPreserves<K(!new), V>(c: Ctx<K, V>, es: seq<(K, V)>, k: K)
    requires forall i :: 0 <= i < |es| ==> es[i].0 != k
    ensures Lookup(Extend(c, es), k) == Lookup(c, k)
    decreases |es|
  {
    if es != [] {
      ExtendPreserves(WithValue(c, es[0].0, es[0].1), es[1..], k);
    }
  }
}
