/** The call graph an audit is planned on and its transitive-caller search
    (gridseak-cli/src/audit.rs, `Graph::closure`). */
module CallGraph {
  import opened Basics

  type Id = string

  datatype Node = Node(file: string, line: nat, name: string, callable: bool)

  /** `callers` maps a callee to its direct static callers, in load order and with repeats. */
  datatype Graph = Graph(nodes: map<Id, Node>, callers: map<Id, seq<Id>>)

  function CallersOf(g: Graph, id: Id): seq<Id> {
    if id in g.callers then g.callers[id] else []
  }

  predicate Callable(g: Graph, id: Id) {
    id in g.nodes && g.nodes[id].callable
  }

  /** `c` is a function or method that calls `id` directly. */
  predicate Calls(g: Graph, c: Id, id: Id) {
    c in CallersOf(g, id) && Callable(g, c)
  }

  /** `c` reaches `seed` by exactly `n` direct calls, every caller on the way being callable. */
  ghost predicate Walk(g: Graph, seed: Id, c: Id, n: nat)
    decreases n
  {
    if n == 0 then c == seed else exists m :: Walk(g, seed, m, n - 1) && Calls(g, c, m)
  }

  ghost predicate Reaches(g: Graph, seed: Id, c: Id) {
    exists n: nat :: Walk(g, seed, c, n)
  }

  /** The fewest calls by which `c` reaches `seed` is `n`. */
  ghost predicate AtDistance(g: Graph, seed: Id, c: Id, n: nat) {
    Walk(g, seed, c, n) && forall m: nat :: m < n ==> !Walk(g, seed, c, m)
  }

  /** The answer key of a target: everything that transitively calls it. */
  ghost function TransitiveCallers(g: Graph, seed: Id): set<Id> {
    set c | c in g.nodes.Keys && c != seed && Reaches(g, seed, c)
  }

  lemma {:induction false} WalkEndsCallable(g: Graph, seed: Id, c: Id)
    requires Reaches(g, seed, c) && c != seed
    ensures Callable(g, c) && c in TransitiveCallers(g, seed)
  {
    var n: nat :| Walk(g, seed, c, n);
  }

  lemma {:induction false} DistanceUnique(g: Graph, seed: Id, c: Id, m: nat, n: nat)
    requires AtDistance(g, seed, c, m) && AtDistance(g, seed, c, n)
    ensures m == n
  {
  }

  lemma {:induction false} WalkCompose(g: Graph, a: Id, b: Id, c: Id, m: nat, n: nat)
    requires Walk(g, a, b, m) && Walk(g, b, c, n)
    ensures Walk(g, a, c, m + n)
    decreases n
  {
    if n > 0 {
      var p :| Walk(g, b, p, n - 1) && Calls(g, c, p);
      WalkCompose(g, a, b, p, m, n - 1);
      assert m + n - 1 == m + (n - 1);
    }
  }

  /** Calling is transitive, so the callers of a caller of `a` are callers of `a`. */
  lemma CallersOfCaller(g: Graph, a: Id, b: Id)
    requires b in TransitiveCallers(g, a)
    ensures TransitiveCallers(g, b) <= TransitiveCallers(g, a) + {a}
  {
    var m: nat :| Walk(g, a, b, m);
    forall c | c in TransitiveCallers(g, b) ensures c in TransitiveCallers(g, a) + {a} {
      var n: nat :| Walk(g, b, c, n);
      WalkCompose(g, a, b, c, m, n);
    }
  }

  // ----- breadth-first search -----

  /** Everything discovered so far, seed first, with its distance; the first `head` are expanded. */
  ghost predicate Discovered(g: Graph, seed: Id, order: seq<Id>, ds: seq<nat>, head: nat) {
    && |order| == |ds| && 0 < |order| && head <= |order|
    && order[0] == seed && NoDup(order)
    && (forall k :: 0 <= k < |order| ==> AtDistance(g, seed, order[k], ds[k]))
    && (forall j, k :: 0 <= j < k < |ds| ==> ds[j] <= ds[k])
    && (forall k, c :: 0 <= k < head && Calls(g, c, order[k]) ==> c in order)
  }

  /** While node `h` is expanded, everything no farther than it has been discovered. */
  lemma {:induction false} NearIsDiscovered(g: Graph, seed: Id, order: seq<Id>, ds: seq<nat>, h: nat, c: Id, k: nat)
    requires Discovered(g, seed, order, ds, h) && h < |order|
    requires k <= ds[h] && Walk(g, seed, c, k)
    ensures c in order
    decreases k
  {
    if k > 0 {
      var p :| Walk(g, seed, p, k - 1) && Calls(g, c, p);
      NearIsDiscovered(g, seed, order, ds, h, p, k - 1);
      var j :| 0 <= j < |order| && order[j] == p;
      assert ds[j] <= k - 1;
    }
  }

  lemma {:induction false} AllDiscovered(g: Graph, seed: Id, order: seq<Id>, ds: seq<nat>, c: Id, k: nat)
    requires Discovered(g, seed, order, ds, |order|) && Walk(g, seed, c, k)
    ensures c in order
    decreases k
  {
    if k > 0 {
      var p :| Walk(g, seed, p, k - 1) && Calls(g, c, p);
      AllDiscovered(g, seed, order, ds, p, k - 1);
      var j :| 0 <= j < |order| && order[j] == p;
    }
  }

  /** A fresh caller of the node being expanded is one call farther than it. */
  lemma {:induction false} NewDistance(g: Graph, seed: Id, order: seq<Id>, ds: seq<nat>, h: nat, c: Id)
    requires Discovered(g, seed, order, ds, h) && h < |order|
    requires Calls(g, c, order[h]) && c !in order
    ensures AtDistance(g, seed, c, ds[h] + 1)
  {
    assert Walk(g, seed, order[h], ds[h]);
    assert Walk(g, seed, c, ds[h] + 1);
    forall m: nat | m < ds[h] + 1 ensures !Walk(g, seed, c, m) {
      if Walk(g, seed, c, m) {
        NearIsDiscovered(g, seed, order, ds, h, c, m);
        assert false;
      }
    }
  }

  lemma {:induction false} DiscoverOne(g: Graph, seed: Id, order: seq<Id>, ds: seq<nat>, h: nat, c: Id)
    requires Discovered(g, seed, order, ds, h) && h < |order|
    requires Calls(g, c, order[h]) && c !in order && ds[|ds| - 1] <= ds[h] + 1
    ensures Discovered(g, seed, order + [c], ds + [ds[h] + 1], h)
  {
    NewDistance(g, seed, order, ds, h, c);
    hide AtDistance, Calls;
  }

  /** `out` lists genuine transitive callers, nearest first, none twice; `dist` are their distances. */
  ghost predicate NearestFirst(g: Graph, seed: Id, out: seq<Id>, dist: seq<nat>, maxDepth: nat) {
    && |out| == |dist| && NoDup(out)
    && (forall i :: 0 <= i < |out| ==> out[i] in TransitiveCallers(g, seed) && AtDistance(g, seed, out[i], dist[i]))
    && (forall i, j :: 0 <= i < j < |dist| ==> dist[i] <= dist[j])
    && maxDepth == (if out == [] then 0 else dist[|dist| - 1])
  }

  lemma {:induction false} DiscoveredIsNearestFirst(g: Graph, seed: Id, order: seq<Id>, ds: seq<nat>, head: nat)
    requires Discovered(g, seed, order, ds, head)
    ensures NearestFirst(g, seed, order[1..], ds[1..], if |order| == 1 then 0 else ds[|ds| - 1])
  {
    forall i | 1 <= i < |order| ensures order[i] in TransitiveCallers(g, seed) {
      assert Walk(g, seed, order[i], ds[i]);
      WalkEndsCallable(g, seed, order[i]);
    }
  }

  /** The pending queue: discovered but unexpanded nodes with their depths. */
  ghost function Pending(order: seq<Id>, ds: seq<nat>, head: nat): seq<(Id, nat)>
    requires |order| == |ds| && head <= |order|
  {
    seq(|order| - head, k requires 0 <= k < |order| - head => (order[head + k], ds[head + k]))
  }

  /** The variables of one search. */
  datatype Search = Search(q: seq<(Id, nat)>, seen: set<Id>, out: seq<Id>, maxDepth: nat)

  /** The search's variables, seen as a discovery order: node `h` is being expanded and
      the queue starts at `qh`. */
  ghost predicate Searching(g: Graph, seed: Id, order: seq<Id>, ds: seq<nat>, h: nat, qh: nat, s: Search) {
    && Discovered(g, seed, order, ds, h)
    && qh <= |order| && s.q == Pending(order, ds, qh)
    && s.seen == Elements(order) && order == [seed] + s.out
    && s.seen <= g.nodes.Keys + {seed}
    && s.maxDepth == ds[|ds| - 1]
    && (h < |order| ==> s.maxDepth <= ds[h] + 1)
  }

  /** A new callable caller is recorded, counted into the depth and queued. */
  function Visit(g: Graph, s: Search, c: Id, d: nat): Search {
    if !Callable(g, c) || c in s.seen then s
    else Search(s.q + [(c, d)], s.seen + {c}, s.out + [c], if s.maxDepth < d then d else s.maxDepth)
  }

  lemma {:induction false} SearchStarts(g: Graph, seed: Id)
    ensures Searching(g, seed, [seed], [0], 0, 0, Search([(seed, 0)], {seed}, [], 0))
  {
    assert Walk(g, seed, seed, 0);
    assert Elements([seed]) == {seed};
  }

  lemma {:induction false} SearchPops(g: Graph, seed: Id, order: seq<Id>, ds: seq<nat>, h: nat, s: Search, id: Id,
          d: nat)
    requires Searching(g, seed, order, ds, h, h, s) && s.q != [] && s.q[0] == (id, d)
    ensures Expanding(g, seed, order, ds, h, s.(q := s.q[1..]), id, d, 0)
  {
    hide AtDistance, Calls, NoDup;
    assert |s.q| == |order| - h;
  }

  /** Node `h` is half expanded: the callers before index `i` have been looked at. */
  ghost predicate Expanding(g: Graph, seed: Id, order: seq<Id>, ds: seq<nat>, h: nat, s: Search, id: Id, d: nat,
          i: nat) {
    && h < |order| == |ds| && order[h] == id && ds[h] == d && i <= |CallersOf(g, id)|
    && Searching(g, seed, order, ds, h, h + 1, s)
    && forall k :: 0 <= k < i && Callable(g, CallersOf(g, id)[k]) ==> CallersOf(g, id)[k] in s.seen
  }

  lemma {:induction false} VisitStep(g: Graph, seed: Id, order0: seq<Id>, ds0: seq<nat>, h: nat, s: Search, id: Id,
          d: nat, i: nat)
    returns (order: seq<Id>, ds: seq<nat>)
    requires Expanding(g, seed, order0, ds0, h, s, id, d, i) && i < |CallersOf(g, id)|
    ensures Expanding(g, seed, order, ds, h, Visit(g, s, CallersOf(g, id)[i], d + 1), id, d, i + 1)
  {
    hide AtDistance, NoDup;
    var c := CallersOf(g, id)[i];
    order, ds := order0, ds0;
    if Callable(g, c) && c !in s.seen {
      order, ds := order0 + [c], ds0 + [d + 1];
      DiscoverOne(g, seed, order0, ds0, h, c);
    }
  }

  lemma {:induction false} ExpandedAll(g: Graph, seed: Id, order: seq<Id>, ds: seq<nat>, h: nat, s: Search, id: Id,
          d: nat)
    requires Expanding(g, seed, order, ds, h, s, id, d, |CallersOf(g, id)|)
    ensures Searching(g, seed, order, ds, h + 1, h + 1, s)
  {
  }

  lemma {:induction false} SearchCut(g: Graph, seed: Id, order: seq<Id>, ds: seq<nat>, h: nat, s: Search)
    requires h < |order| && Searching(g, seed, order, ds, h, h + 1, s)
    ensures NearestFirst(g, seed, s.out, ds[1..], s.maxDepth)
    ensures |s.out| <= |TransitiveCallers(g, seed)|
  {
    assert Walk(g, seed, seed, 0);
    DiscoveredIsNearestFirst(g, seed, order, ds, h);
    assert order[1..] == s.out;
    NoDupCardinality(s.out);
    SubsetCount(Elements(s.out), TransitiveCallers(g, seed));
  }

  lemma {:induction false} SearchDone(g: Graph, seed: Id, order: seq<Id>, ds: seq<nat>, h: nat, s: Search)
    requires Searching(g, seed, order, ds, h, h, s) && s.q == []
    ensures NearestFirst(g, seed, s.out, ds[1..], s.maxDepth)
    ensures Elements(s.out) == TransitiveCallers(g, seed) && |s.out| == |TransitiveCallers(g, seed)|
  {
    assert |Pending(order, ds, h)| == 0;
    assert Walk(g, seed, seed, 0);
    DiscoveredIsNearestFirst(g, seed, order, ds, h);
    assert order[1..] == s.out;
    forall c | c in TransitiveCallers(g, seed) ensures c in s.out {
      var n: nat :| Walk(g, seed, c, n);
      AllDiscovered(g, seed, order, ds, c, n);
    }
    NoDupCardinality(s.out);
    assert Elements(s.out) == TransitiveCallers(g, seed);
  }

  /** The inner loop: queue the unseen callable callers of `id`, found at depth `d`, and
      report whether the cap was passed. */
  method Expand(g: Graph, ghost seed: Id, cap: nat, id: Id, d: nat, s0: Search, ghost order0: seq<Id>,
          ghost ds0: seq<nat>, ghost h: nat)
    returns (s: Search, cut: bool, ghost order: seq<Id>, ghost ds: seq<nat>)
    requires Expanding(g, seed, order0, ds0, h, s0, id, d, 0) && |s0.out| <= cap
    ensures h < |order|
    ensures cut ==> Searching(g, seed, order, ds, h, h + 1, s) && |s.out| == cap + 1
    ensures !cut ==> Searching(g, seed, order, ds, h + 1, h + 1, s) && |s.out| <= cap
    ensures s == s0 || s0.seen < s.seen
  {
    s, order, ds := s0, order0, ds0;
    var cs := CallersOf(g, id);
    for i := 0 to |cs|
      invariant Expanding(g, seed, order, ds, h, s, id, d, i) && |s.out| <= cap
      invariant s == s0 || s0.seen < s.seen
    {
      order, ds := VisitStep(g, seed, order, ds, h, s, id, d, i);
      s := Visit(g, s, cs[i], d + 1);
      if |s.out| > cap {
        return s, true, order, ds;
      }
    }
    ExpandedAll(g, seed, order, ds, h, s, id, d);
    cut := false;
  }

  /** Every callable function that reaches `seed`, breadth first, with the greatest distance met; past `cap` of them
      the search gives up. */
  method Closure(g: Graph, seed: Id, cap: nat) returns (out: seq<Id>, maxDepth: nat, ghost dist: seq<nat>)
    ensures NearestFirst(g, seed, out, dist, maxDepth)
    ensures |out| <= cap ==> Elements(out) == TransitiveCallers(g, seed) && |out| == |TransitiveCallers(g, seed)|
    ensures |out| > cap ==> |out| == cap + 1 && |TransitiveCallers(g, seed)| > cap
  {
    var s := Search([(seed, 0)], {seed}, [], 0);
    ghost var order: seq<Id>, ds: seq<nat>, head: nat := [seed], [0], 0;
    SearchStarts(g, seed);
    while s.q != []
      invariant Searching(g, seed, order, ds, head, head, s) && |s.out| <= cap
      decreases g.nodes.Keys + {seed} - s.seen, |s.q|
    {
      var (id, d) := s.q[0];
      SearchPops(g, seed, order, ds, head, s, id, d);
      s := s.(q := s.q[1..]);
      var cut;
      s, cut, order, ds := Expand(g, seed, cap, id, d, s, order, ds, head);
      if cut {
        SearchCut(g, seed, order, ds, head, s);
        return s.out, s.maxDepth, ds[1..];
      }
      head := head + 1;
    }
    SearchDone(g, seed, order, ds, head, s);
    return s.out, s.maxDepth, ds[1..];
  }
}
