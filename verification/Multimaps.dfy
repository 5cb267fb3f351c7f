/** Hash maps of lists, filled by `entry(k).or_default().push(v)`, against the log of what was pushed. */
module Multimaps {
  import opened Basics

  function GetAll<K(==), V>(m: map<K, seq<V>>, k: K): seq<V> {
    if k in m then m[k] else []
  }

  function Push<K(==), V>(m: map<K, seq<V>>, k: K, v: V): map<K, seq<V>> {
    m[k := GetAll(m, k) + [v]]
  }

  /** The values logged under `k`, oldest first. */
  function Group<E, V>(log: seq<E>, key: E -> string, val: E -> V, k: string): seq<V> {
    if log == [] then []
    else if key(log[|log| - 1]) == k then Group(log[..|log| - 1], key, val, k) + [val(log[|log| - 1])]
    else Group(log[..|log| - 1], key, val, k)
  }

  /** The table holds every logged value under its key, in order, and no empty list. */
  ghost predicate Grouped<E, V>(m: map<string, seq<V>>, log: seq<E>, key: E -> string, val: E -> V) {
    && (forall k :: GetAll(m, k) == Group(log, key, val, k))
    && (forall k :: k in m ==> m[k] != [])
  }

  lemma GroupStep<E, V>(log: seq<E>, e: E, key: E -> string, val: E -> V, k: string)
    ensures Group(log + [e], key, val, k) ==
      if key(e) == k then Group(log, key, val, k) + [val(e)] else Group(log, key, val, k)
  {
    assert (log + [e])[..|log|] == log;
  }

  lemma PushGrouped<E, V>(m: map<string, seq<V>>, log: seq<E>, e: E, key: E -> string, val: E -> V)
    requires Grouped(m, log, key, val)
    ensures Grouped(Push(m, key(e), val(e)), log + [e], key, val)
  {
    var longer, n := log + [e], Push(m, key(e), val(e));
    forall k ensures GetAll(n, k) == Group(longer, key, val, k) {
      assert GetAll(m, k) == Group(log, key, val, k);
      GroupStep(log, e, key, val, k);
    }
  }

  function Count<T(==)>(s: seq<T>, x: T): nat {
    multiset(s)[x]
  }

  lemma PushCount<K, V>(m: map<K, seq<V>>, k: K, v: V, x: K, y: V)
    ensures Count(GetAll(Push(m, k, v), x), y) == Count(GetAll(m, x), y) + if x == k && y == v then 1 else 0
  {
  }

  /** Grouping one log both ways gives converse relations with equal multiplicities. */
  lemma {:induction false} GroupConverse<E>(log: seq<E>, a: E -> string, b: E -> string, x: string, y: string)
    ensures Count(Group(log, a, b, x), y) == Count(Group(log, b, a, y), x)
  {
    if log != [] {
      GroupConverse(log[..|log| - 1], a, b, x, y);
    }
  }

  // ----- emitting by key -----

  /** What the entries emit, one after the other. */
  function Flat<E, X>(log: seq<E>, emit: E -> seq<X>): seq<X> {
    if log == [] then [] else Flat(log[..|log| - 1], emit) + emit(log[|log| - 1])
  }

  lemma {:induction false} FlatAppend<E, X>(a: seq<E>, b: seq<E>, emit: E -> seq<X>)
    ensures Flat(a + b, emit) == Flat(a, emit) + Flat(b, emit)
  {
    if b == [] {
      assert a + b == a;
      assert Flat(a, emit) + [] == Flat(a, emit);
    } else {
      var init, e := b[..|b| - 1], b[|b| - 1];
      FlatAppend(a, init, emit);
      Snoc(b);
      Assoc(a, init, [e]);
      FlatStep(a + init, e, emit);
      Assoc(Flat(a, emit), Flat(init, emit), emit(e));
    }
  }

  lemma {:induction false} FlatSilent<E, X>(log: seq<E>, emit: E -> seq<X>)
    requires forall e :: e in log ==> emit(e) == []
    ensures Flat(log, emit) == []
  {
    if log != [] {
      FlatSilent(log[..|log| - 1], emit);
    }
  }

  lemma FlatStep<E, X>(log: seq<E>, e: E, emit: E -> seq<X>)
    ensures Flat(log + [e], emit) == Flat(log, emit) + emit(e)
  {
    assert (log + [e])[..|log|] == log;
  }

  /** What the entries whose key is in `keys` emit, in log order. */
  ghost function Emitted<E, X>(log: seq<E>, key: E -> string, emit: E -> seq<X>, keys: set<string>): seq<X> {
    if log == [] then []
    else if key(log[|log| - 1]) in keys then Emitted(log[..|log| - 1], key, emit, keys) + emit(log[|log| - 1])
    else Emitted(log[..|log| - 1], key, emit, keys)
  }

  lemma {:induction false} EmittedStep<E, X>(log: seq<E>, key: E -> string, emit: E -> seq<X>, keys: set<string>,
          k: string)
    requires k !in keys
    ensures multiset(Emitted(log, key, emit, keys + {k})) ==
      multiset(Emitted(log, key, emit, keys)) + multiset(Emitted(log, key, emit, {k}))
  {
    if log != [] {
      EmittedStep(log[..|log| - 1], key, emit, keys, k);
    }
  }

  lemma {:induction false} EmittedNone<E, X>(log: seq<E>, key: E -> string, emit: E -> seq<X>, keys: set<string>)
    requires forall e :: e in log ==> key(e) !in keys
    ensures Emitted(log, key, emit, keys) == []
  {
    if log != [] {
      EmittedNone(log[..|log| - 1], key, emit, keys);
    }
  }

  lemma EmittedStart<E, X>(log: seq<E>, key: E -> string, emit: E -> seq<X>, order: seq<string>)
    ensures Emitted(log, key, emit, Elements(order[..0])) == []
  {
    EmittedNone(log, key, emit, Elements(order[..0]));
  }

  /** Taking the keys one at a time. */
  lemma EmittedNext<E, X>(log: seq<E>, key: E -> string, emit: E -> seq<X>, order: seq<string>, i: nat)
    requires NoDup(order) && i < |order|
    ensures multiset(Emitted(log, key, emit, Elements(order[..i + 1]))) ==
      multiset(Emitted(log, key, emit, Elements(order[..i]))) + multiset(Emitted(log, key, emit, {order[i]}))
  {
    assert Elements(order[..i + 1]) == Elements(order[..i]) + {order[i]};
    EmittedStep(log, key, emit, Elements(order[..i]), order[i]);
  }

  lemma {:induction false} EmittedAll<E, X>(log: seq<E>, key: E -> string, emit: E -> seq<X>, keys: set<string>)
    requires forall e :: e in log ==> key(e) in keys
    ensures Emitted(log, key, emit, keys) == Flat(log, emit)
  {
    if log != [] {
      EmittedAll(log[..|log| - 1], key, emit, keys);
    }
  }

  /** One key emits what its group emits. */
  lemma {:induction false} EmittedGroup<E, X>(log: seq<E>, key: E -> string, val: E -> E, emit: E -> seq<X>, k: string)
    requires forall e :: val(e) == e
    ensures Emitted(log, key, emit, {k}) == Flat(Group(log, key, val, k), emit)
  {
    if log != [] {
      var init, e := log[..|log| - 1], log[|log| - 1];
      EmittedGroup(init, key, val, emit, k);
      var g := Group(init, key, val, k);
      assert val(e) == e;
      if key(e) == k {
        FlatStep(g, e, emit);
        assert Group(log, key, val, k) == g + [e];
      } else {
        assert Group(log, key, val, k) == g;
      }
    }
  }
}
