/** Planning an audit (gridseak-cli/src/audit.rs, `Graph::plan`): which functions become
    tasks, and the complete answer key of each. */
module AuditPlanner {
  import opened Basics
  import opened CallGraph
  import opened Sorting
  import Decimal
  import Shuffling
  import Text

  /** Where the compiler-sourced graph can be trusted (gridseak-cli/src/audit/scope.rs). */
  datatype Coverage = Coverage(unindexed: set<string>, partial: set<string>, unresolved: set<string>)

  /** A possible task: the target, its transitive callers, and their greatest distance. */
  datatype Candidate = Candidate(id: Id, callers: seq<Id>, depth: nat)

  datatype Pick = Pick(band: nat, cand: Candidate)

  datatype Caller = Caller(file: string, line: nat, name: string)

  datatype Task = Task(id: string, band: string, target: string, file: string, line: nat,
                       maxDepth: nat, answer: seq<Caller>)

  const CLOSURE_CAP: nat := 400
  const POOL_LIMIT: nat := 50
  const BANDS: nat := 3

  predicate IsTestFile(f: string) {
    var base := Text.LastSegment(f, '/');
    || Text.EndsWith(base, "_test.go")
    || Text.Contains(base, ".test.")
    || Text.Contains(base, ".spec.")
    || Text.StartsWith(base, "test_")
    || Text.Contains(f, "/__tests__/")
  }

  predicate Eligible(g: Graph, cov: Coverage, id: Id) {
    && Callable(g, id)
    && var f := g.nodes[id].file;
       !IsTestFile(f) && f != "" && f !in cov.unindexed && f !in cov.partial
  }

  /** The index of the first band whose size range holds `n`. */
  function BandOf(n: nat): (b: Option<nat>)
    ensures b.Some? ==> b.value < BANDS && 8 <= n <= CLOSURE_CAP
  {
    if 8 <= n <= 30 then Some(0)
    else if 31 <= n <= 120 then Some(1)
    else if 121 <= n <= 400 then Some(2)
    else None
  }

  function BandName(b: nat): string {
    if b == 0 then "small" else if b == 1 then "medium" else "large"
  }

  /** Some direct caller of one of `ids` sits in a partly parsed file. */
  predicate TouchesPartial(g: Graph, cov: Coverage, ids: seq<Id>) {
    cov.partial != {} &&
    exists id :: id in ids &&
      exists c :: c in CallersOf(g, id) && c in g.nodes && g.nodes[c].file in cov.partial
  }

  /** A call the compiler could not resolve names one of `ids`. */
  predicate HidesCallers(g: Graph, cov: Coverage, ids: seq<Id>)
    requires forall id :: id in ids ==> id in g.nodes
  {
    cov.unresolved != {} && exists id :: id in ids && g.nodes[id].name in cov.unresolved
  }

  // ----- what makes a function a candidate, stated on the graph alone -----

  ghost predicate PartialNear(g: Graph, cov: Coverage, ids: set<Id>) {
    exists id, c :: id in ids && c in CallersOf(g, id) && c in g.nodes && g.nodes[c].file in cov.partial
  }

  ghost predicate UnresolvedNear(g: Graph, cov: Coverage, ids: set<Id>) {
    exists id :: id in ids && id in g.nodes && g.nodes[id].name in cov.unresolved
  }

  /** `id` can be asked in band `b`: enough callers, some indirect one, and nothing that
      could hide a caller from the key. */
  ghost predicate Qualifies(g: Graph, cov: Coverage, id: Id, b: nat) {
    var t := TransitiveCallers(g, id);
    && Eligible(g, cov, id)
    && BandOf(|t|) == Some(b)
    && (exists c :: c in t && !Walk(g, id, c, 1))
    && !PartialNear(g, cov, t + {id})
    && !UnresolvedNear(g, cov, t + {id})
  }

  /** The candidate carries its target's whole transitive-caller set, and its true depth. */
  ghost predicate KeyComplete(g: Graph, e: Candidate) {
    && NoDup(e.callers)
    && Elements(e.callers) == TransitiveCallers(g, e.id)
    && |e.callers| == |TransitiveCallers(g, e.id)|
    && (exists c :: c in e.callers && AtDistance(g, e.id, c, e.depth))
    && (forall c, n: nat :: c in e.callers && AtDistance(g, e.id, c, n) ==> n <= e.depth)
  }

  lemma {:induction false} DepthMeansIndirect(g: Graph, id: Id, out: seq<Id>, dist: seq<nat>, depth: nat)
    requires NearestFirst(g, id, out, dist, depth) && Elements(out) == TransitiveCallers(g, id)
    ensures depth >= 2 <==> exists c :: c in TransitiveCallers(g, id) && !Walk(g, id, c, 1)
    ensures out != [] ==>
      && (exists c :: c in out && AtDistance(g, id, c, depth))
      && (forall c, n: nat :: c in out && AtDistance(g, id, c, n) ==> n <= depth)
  {
    if depth >= 2 {
      assert out[|out| - 1] in TransitiveCallers(g, id);
    }
    forall c | c in TransitiveCallers(g, id) && !Walk(g, id, c, 1) ensures depth >= 2 {
      var i :| 0 <= i < |out| && out[i] == c;
      assert dist[i] != 0 && dist[i] != 1;
    }
    if out != [] {
      assert AtDistance(g, id, out[|out| - 1], depth);
      forall c, n: nat | c in out && AtDistance(g, id, c, n) ensures n <= depth {
        var i :| 0 <= i < |out| && out[i] == c;
        DistanceUnique(g, id, c, n, dist[i]);
      }
    }
  }

  lemma KeyWithTarget(g: Graph, id: Id, cl: seq<Id>)
    requires Elements(cl) == TransitiveCallers(g, id)
    ensures forall x :: x in [id] + cl <==> x in TransitiveCallers(g, id) + {id}
  {
    assert forall x :: x in cl <==> x in Elements(cl);
  }

  lemma {:induction false} NearTests(g: Graph, cov: Coverage, ids: seq<Id>, t: set<Id>)
    requires forall x :: x in ids <==> x in t
    requires t <= g.nodes.Keys
    ensures TouchesPartial(g, cov, ids) <==> PartialNear(g, cov, t)
    ensures HidesCallers(g, cov, ids) <==> UnresolvedNear(g, cov, t)
  {
  }

  // ----- pools -----

  function CandidateIds(pool: seq<Candidate>): seq<Id> {
    seq(|pool|, i requires 0 <= i < |pool| => pool[i].id)
  }

  function Take<T>(s: seq<T>, n: nat): seq<T> {
    if |s| <= n then s else s[..n]
  }

  /** The ids that can be asked in band `b`, in order. */
  ghost function Qualified(g: Graph, cov: Coverage, ids: seq<Id>, b: nat): seq<Id> {
    Filter(ids, id => Qualifies(g, cov, id, b))
  }

  lemma {:induction false} QualifiedMember(g: Graph, cov: Coverage, ids: seq<Id>, b: nat)
    ensures forall id :: id in Qualified(g, cov, ids, b) <==> id in ids && Qualifies(g, cov, id, b)
  {
    FilterMember(ids, id => Qualifies(g, cov, id, b));
  }

  lemma {:induction false} QualifiedAppend(g: Graph, cov: Coverage, ids: seq<Id>, id: Id, b: nat)
    ensures Qualified(g, cov, ids + [id], b) ==
      Qualified(g, cov, ids, b) + (if Qualifies(g, cov, id, b) then [id] else [])
  {
    FilterAppend(ids, [id], x => Qualifies(g, cov, x, b));
  }

  /** The pool holds the first `POOL_LIMIT` ids that qualify for band `b`, with complete keys. */
  ghost predicate PoolOf(g: Graph, cov: Coverage, ids: seq<Id>, b: nat, pool: seq<Candidate>) {
    && CandidateIds(pool) == Take(Qualified(g, cov, ids, b), POOL_LIMIT)
    && forall e :: e in pool ==> KeyComplete(g, e)
  }

  lemma {:induction false} KeyInGraph(g: Graph, cov: Coverage, id: Id, cl: seq<Id>)
    requires Eligible(g, cov, id) && Elements(cl) == TransitiveCallers(g, id)
    ensures forall x :: x in [id] + cl ==> x in g.nodes
  {
    KeyWithTarget(g, id, cl);
    assert TransitiveCallers(g, id) + {id} <= g.nodes.Keys;
  }

  /** The tests the planner makes on an uncut closure decide exactly who qualifies. */
  lemma {:induction false} TestsDecide(g: Graph, cov: Coverage, id: Id, cl: seq<Id>, depth: nat, dist: seq<nat>)
    requires Eligible(g, cov, id)
    requires NearestFirst(g, id, cl, dist, depth)
    requires Elements(cl) == TransitiveCallers(g, id) && |cl| == |TransitiveCallers(g, id)|
    requires forall x :: x in [id] + cl ==> x in g.nodes
    ensures forall b: nat :: Qualifies(g, cov, id, b) <==>
      depth >= 2 && !TouchesPartial(g, cov, [id] + cl) && !HidesCallers(g, cov, [id] + cl) && BandOf(|cl|) == Some(b)
  {
    hide NearestFirst, TransitiveCallers, TouchesPartial, HidesCallers, PartialNear, UnresolvedNear;
    KeyWithTarget(g, id, cl);
    NearTests(g, cov, [id] + cl, TransitiveCallers(g, id) + {id});
    DepthMeansIndirect(g, id, cl, dist, depth);
  }

  lemma {:induction false} ClosureIsKey(g: Graph, id: Id, cl: seq<Id>, depth: nat, dist: seq<nat>)
    requires NearestFirst(g, id, cl, dist, depth) && cl != []
    requires Elements(cl) == TransitiveCallers(g, id) && |cl| == |TransitiveCallers(g, id)|
    ensures KeyComplete(g, Candidate(id, cl, depth))
  {
    DepthMeansIndirect(g, id, cl, dist, depth);
  }

  lemma LargeNeverQualifies(g: Graph, cov: Coverage, id: Id)
    requires |TransitiveCallers(g, id)| > CLOSURE_CAP
    ensures forall b :: !Qualifies(g, cov, id, b)
  {
  }

  /** The candidate that `id` makes, if any, and the band it belongs to. */
  method Consider(g: Graph, cov: Coverage, id: Id) returns (r: Option<Pick>)
    requires Eligible(g, cov, id)
    ensures r.Some? ==> r.value.band < BANDS && r.value.cand.id == id && KeyComplete(g, r.value.cand)
    ensures forall b :: Qualifies(g, cov, id, b) <==> r.Some? && r.value.band == b
  {
    var cl, depth, dist := Closure(g, id, CLOSURE_CAP);
    if |cl| > CLOSURE_CAP {
      LargeNeverQualifies(g, cov, id);
      return None;  // a cut list fits no band
    }
    KeyInGraph(g, cov, id, cl);
    TestsDecide(g, cov, id, cl, depth, dist);
    if depth < 2 || TouchesPartial(g, cov, [id] + cl) || HidesCallers(g, cov, [id] + cl) {
      return None;
    }
    match BandOf(|cl|) {
      case None => return None;
      case Some(b) =>
        ClosureIsKey(g, id, cl, depth, dist);
        return Some(Pick(b, Candidate(id, cl, depth)));
    }
  }

  lemma {:induction false} PoolGrows(g: Graph, cov: Coverage, ids: seq<Id>, i: nat, b: nat, pool: seq<Candidate>,
          r: Option<Pick>)
    requires i < |ids| && PoolOf(g, cov, ids[..i], b, pool)
    requires r.Some? ==> r.value.cand.id == ids[i] && KeyComplete(g, r.value.cand)
    requires Qualifies(g, cov, ids[i], b) <==> r.Some? && r.value.band == b
    ensures PoolOf(g, cov, ids[..i + 1], b,
                   if r.Some? && r.value.band == b && |pool| < POOL_LIMIT then pool + [r.value.cand] else pool)
  {
    hide Qualifies;
    assert ids[..i + 1] == ids[..i] + [ids[i]];
    QualifiedAppend(g, cov, ids[..i], ids[i], b);
    assert |CandidateIds(pool)| == |pool|;
    if Qualifies(g, cov, ids[i], b) && |pool| < POOL_LIMIT {
      assert CandidateIds(pool + [r.value.cand]) == Qualified(g, cov, ids[..i], b) + [ids[i]];
    }
  }

  /** Sort every eligible function into its band's pool, in the given order. */
  method FillPools(g: Graph, cov: Coverage, ids: seq<Id>) returns (pools: seq<seq<Candidate>>)
    requires forall id :: id in ids ==> Eligible(g, cov, id)
    ensures |pools| == BANDS && forall b :: 0 <= b < BANDS ==> PoolOf(g, cov, ids, b, pools[b])
  {
    pools := [[], [], []];
    for i := 0 to |ids|
      invariant |pools| == BANDS && forall b :: 0 <= b < BANDS ==> PoolOf(g, cov, ids[..i], b, pools[b])
    {
      var r := Consider(g, cov, ids[i]);
      forall b | 0 <= b < BANDS { PoolGrows(g, cov, ids, i, b, pools[b], r); }
      if r.Some? && |pools[r.value.band]| < POOL_LIMIT {
        pools := pools[r.value.band := pools[r.value.band] + [r.value.cand]];
      }
    }
    assert ids[..|ids|] == ids;
  }

  // ----- the greedy pick -----

  function Overlap(a: seq<Id>, b: seq<Id>): nat {
    |Filter(a, x => x in b)|
  }

  function Min(a: nat, b: nat): nat {
    if a < b then a else b
  }

  /** The test one chosen task `c` puts to a later candidate `e`. */
  predicate Accepts(c: Candidate, e: Candidate) {
    c.id != e.id && c.id !in e.callers && Overlap(c.callers, e.callers) * 2 <= Min(|c.callers|, |e.callers|)
  }

  predicate Compatible(chosen: seq<Pick>, e: Candidate) {
    forall i :: 0 <= i < |chosen| ==> Accepts(chosen[i].cand, e)
  }

  /** The position of the first candidate every chosen task accepts. */
  function FirstAt(pool: seq<Candidate>, chosen: seq<Pick>): (r: Option<nat>)
    ensures r.Some? ==> r.value < |pool| && Compatible(chosen, pool[r.value])
    ensures r.Some? ==> forall i :: 0 <= i < r.value ==> !Compatible(chosen, pool[i])
    ensures r.None? ==> forall e :: e in pool ==> !Compatible(chosen, e)
  {
    if pool == [] then None
    else if Compatible(chosen, pool[0]) then Some(0)
    else
      match FirstAt(pool[1..], chosen)
      case None => None
      case Some(i) => Some(i + 1)
  }

  /** That candidate itself: the next task its band would give. */
  function First(pool: seq<Candidate>, chosen: seq<Pick>): Option<Candidate> {
    match FirstAt(pool, chosen)
    case None => None
    case Some(i) => Some(pool[i])
  }

  /** Band to try first after `chosen`: the one after the last pick's. */
  function NextBand(chosen: seq<Pick>): nat {
    if chosen == [] then 0 else (chosen[|chosen| - 1].band + 1) % BANDS
  }

  function Rotate(b: nat, s: nat): (r: nat)
    ensures r < BANDS
  {
    (b + s) % BANDS
  }

  /** The next `bands` bands in rotation have no candidate to offer. */
  ghost predicate NoOffer(pools: seq<seq<Candidate>>, chosen: seq<Pick>, bands: nat)
    requires |pools| == BANDS
  {
    forall s: nat :: s < bands ==> First(pools[Rotate(NextBand(chosen), s)], chosen) == None
  }

  /** Pick `k` is the first acceptable candidate of the first band, in rotation, that has one. */
  ghost predicate InRotation(pools: seq<seq<Candidate>>, chosen: seq<Pick>, k: nat)
    requires k < |chosen| && |pools| == BANDS
  {
    var before := chosen[..k];
    exists skip: nat ::
      && skip < BANDS
      && chosen[k].band == Rotate(NextBand(before), skip)
      && First(pools[chosen[k].band], before) == Some(chosen[k].cand)
      && NoOffer(pools, before, skip)
  }

  /** Dropping already rejected candidates from a pool never changes what it offers. */
  ghost predicate SameOffers(pool: seq<Candidate>, pool0: seq<Candidate>, chosen: seq<Pick>) {
    forall later: seq<Pick> :: chosen <= later ==> First(pool, later) == First(pool0, later)
  }

  lemma {:induction false} FirstAppend(a: seq<Candidate>, b: seq<Candidate>, chosen: seq<Pick>)
    ensures First(a + b, chosen) == if First(a, chosen).Some? then First(a, chosen) else First(b, chosen)
  {
    hide Compatible;
    if a == [] {
      assert a + b == b;
    } else {
      FirstAppend(a[1..], b, chosen);
      assert (a + b)[1..] == a[1..] + b;
    }
  }

  lemma {:induction false} FirstAfterRemoval(pool: seq<Candidate>, i: nat, chosen: seq<Pick>)
    requires i < |pool| && !Compatible(chosen, pool[i])
    ensures First(Without(pool, i), chosen) == First(pool, chosen)
  {
    var mid := [pool[i]] + pool[i + 1..];
    assert pool == pool[..i] + mid;
    FirstAppend(pool[..i], mid, chosen);
    FirstAppend([pool[i]], pool[i + 1..], chosen);
    FirstAppend(pool[..i], pool[i + 1..], chosen);
    assert First([pool[i]], chosen) == None;
  }

  /** After a pick leaves its pool, the pools still offer what the full pools would. */
  lemma {:induction false} PickKeepsOffers(pool: seq<Candidate>, pool0: seq<Candidate>, chosen: seq<Pick>, i: nat,
          p: Pick)
    requires SameOffers(pool, pool0, chosen)
    requires i < |pool| && p.cand == pool[i]
    ensures SameOffers(Without(pool, i), pool0, chosen + [p])
  {
    forall later: seq<Pick> | chosen + [p] <= later ensures First(Without(pool, i), later) == First(pool0, later) {
      assert later[|chosen|] == p;
      assert !Accepts(later[|chosen|].cand, pool[i]);
      FirstAfterRemoval(pool, i, later);
      assert chosen <= later;
    }
  }

  lemma {:induction false} OthersKeepOffers(pool: seq<Candidate>, pool0: seq<Candidate>, chosen: seq<Pick>, p: Pick)
    requires SameOffers(pool, pool0, chosen)
    ensures SameOffers(pool, pool0, chosen + [p])
  {
    forall later: seq<Pick> | chosen + [p] <= later ensures First(pool, later) == First(pool0, later) {
      assert chosen <= later;
    }
  }

  /** What the loop knows: every pick so far was in rotation, and `empty` bands in a row offer nothing. */
  ghost predicate Greedily(pools: seq<seq<Candidate>>, left: seq<seq<Candidate>>, chosen: seq<Pick>, b: nat,
          empty: nat) {
    && |pools| == BANDS && |left| == BANDS && empty <= BANDS
    && b == Rotate(NextBand(chosen), empty)
    && (forall x :: 0 <= x < BANDS ==> SameOffers(left[x], pools[x], chosen))
    && NoOffer(pools, chosen, empty)
    && (forall k :: 0 <= k < |chosen| ==> InRotation(pools, chosen, k))
  }

  lemma {:induction false} PicksInRotation(pools: seq<seq<Candidate>>, left: seq<seq<Candidate>>, chosen: seq<Pick>,
          b: nat, empty: nat, p: Pick)
    requires Greedily(pools, left, chosen, b, empty) && empty < BANDS
    requires p.band == b && First(left[b], chosen) == Some(p.cand)
    ensures forall k :: 0 <= k < |chosen + [p]| ==> InRotation(pools, chosen + [p], k)
  {
    var next := chosen + [p];
    assert SameOffers(left[b], pools[b], chosen);
    forall k | 0 <= k < |next| ensures InRotation(pools, next, k) {
      if k < |chosen| {
        assert next[..k] == chosen[..k];
        assert InRotation(pools, chosen, k);
      } else {
        assert next[..k] == chosen;
      }
    }
  }

  lemma {:induction false} PickStep(pools: seq<seq<Candidate>>, left: seq<seq<Candidate>>, chosen: seq<Pick>, b: nat,
          empty: nat, i: nat)
    requires Greedily(pools, left, chosen, b, empty) && empty < BANDS
    requires FirstAt(left[b], chosen) == Some(i)
    ensures Greedily(pools, left[b := Without(left[b], i)], chosen + [Pick(b, left[b][i])], Rotate(b, 1), 0)
  {
    var p := Pick(b, left[b][i]);
    PicksInRotation(pools, left, chosen, b, empty, p);
    forall x | 0 <= x < BANDS ensures SameOffers(left[b := Without(left[b], i)][x], pools[x], chosen + [p]) {
      if x == b {
        PickKeepsOffers(left[b], pools[b], chosen, i, p);
      } else {
        OthersKeepOffers(left[x], pools[x], chosen, p);
      }
    }
  }

  lemma {:induction false} SkipStep(pools: seq<seq<Candidate>>, left: seq<seq<Candidate>>, chosen: seq<Pick>, b: nat,
          empty: nat)
    requires Greedily(pools, left, chosen, b, empty) && empty < BANDS
    requires FirstAt(left[b], chosen).None?
    ensures Greedily(pools, left, chosen, Rotate(b, 1), empty + 1)
  {
    assert SameOffers(left[b], pools[b], chosen);
    assert First(left[b], chosen) == First(pools[b], chosen);
  }

  lemma {:induction false} NothingLeft(pools: seq<seq<Candidate>>, left: seq<seq<Candidate>>, chosen: seq<Pick>, b: nat)
    requires Greedily(pools, left, chosen, b, BANDS)
    ensures forall x, e :: 0 <= x < BANDS && e in pools[x] ==> !Compatible(chosen, e)
  {
    var n := NextBand(chosen);
    forall x | 0 <= x < BANDS ensures First(pools[x], chosen) == None {
      assert Rotate(n, if x >= n then x - n else x + BANDS - n) == x;
    }
  }

  /** Take candidates round-robin over the bands until `n` are chosen or no band offers one. */
  method Choose(pools: seq<seq<Candidate>>, n: nat) returns (chosen: seq<Pick>)
    requires |pools| == BANDS
    ensures |chosen| <= n
    ensures forall k :: 0 <= k < |chosen| ==> InRotation(pools, chosen, k)
    ensures |chosen| < n ==> forall x, e :: 0 <= x < BANDS && e in pools[x] ==> !Compatible(chosen, e)
  {
    chosen := [];
    var left, b: nat, empty: nat := pools, 0, 0;
    while |chosen| < n && empty < BANDS
      invariant Greedily(pools, left, chosen, b, empty) && |chosen| <= n && b < BANDS
      decreases |left[0]| + |left[1]| + |left[2]|, BANDS - empty
    {
      match FirstAt(left[b], chosen) {
        case Some(i) =>
          PickStep(pools, left, chosen, b, empty, i);
          chosen := chosen + [Pick(b, left[b][i])];
          left := left[b := Without(left[b], i)];
          empty := 0;
        case None =>
          SkipStep(pools, left, chosen, b, empty);
          empty := empty + 1;
      }
      b := Rotate(b, 1);
    }
    if |chosen| < n {
      NothingLeft(pools, left, chosen, b);
    }
  }

  // ----- what the picks mean on the graph -----

  /** Neither target transitively calls the other and their keys share at most half of the smaller. */
  ghost predicate Independent(g: Graph, a: Id, b: Id) {
    var ta, tb := TransitiveCallers(g, a), TransitiveCallers(g, b);
    && a != b && a !in tb && b !in ta
    && |ta * tb| * 2 <= |ta| && |ta * tb| * 2 <= |tb|
  }

  lemma {:induction false} OverlapIsIntersection(a: seq<Id>, b: seq<Id>)
    requires NoDup(a)
    ensures Overlap(a, b) == |Elements(a) * Elements(b)|
  {
    var p := x => x in b;
    FilterNoDup(a, p);
    FilterMember(a, p);
    NoDupCardinality(Filter(a, p));
    assert Elements(Filter(a, p)) == Elements(a) * Elements(b);
  }

  lemma SameElements(s: seq<Id>)
    ensures forall x :: x in s <==> x in Elements(s)
  {
  }

  /** A caller's whole key lies within the key of what it calls. */
  lemma {:induction false} SharedAll(g: Graph, c: Candidate, e: Candidate)
    requires KeyComplete(g, e) && e.id in TransitiveCallers(g, c.id) && c.id !in TransitiveCallers(g, e.id)
    ensures |TransitiveCallers(g, c.id) * TransitiveCallers(g, e.id)| == |TransitiveCallers(g, e.id)| > 0
  {
    var tc, te := TransitiveCallers(g, c.id), TransitiveCallers(g, e.id);
    CallersOfCaller(g, c.id, e.id);
    assert tc * te == te;
    SameElements(e.callers);
    var x :| x in e.callers && AtDistance(g, e.id, x, e.depth);
    assert x in te;
  }

  /** One acceptance test, in one direction, is enough for independence in both. */
  lemma {:induction false} AcceptedMeansIndependent(g: Graph, c: Candidate, e: Candidate)
    requires KeyComplete(g, c) && KeyComplete(g, e)
    ensures Accepts(c, e) <==> Independent(g, c.id, e.id)
  {
    OverlapIsIntersection(c.callers, e.callers);
    var tc, te := TransitiveCallers(g, c.id), TransitiveCallers(g, e.id);
    SameElements(e.callers);
    if e.id in tc && c.id !in te {
      SharedAll(g, c, e);
    }
  }

  lemma {:induction false} PicksAreIndependent(g: Graph, pools: seq<seq<Candidate>>, chosen: seq<Pick>, j: nat, k: nat)
    requires |pools| == BANDS && j < k < |chosen|
    requires forall x, e :: 0 <= x < BANDS && e in pools[x] ==> KeyComplete(g, e)
    requires forall i :: 0 <= i < |chosen| ==> InRotation(pools, chosen, i)
    ensures Independent(g, chosen[j].cand.id, chosen[k].cand.id)
  {
    InRotationMeans(pools, chosen, j);
    InRotationMeans(pools, chosen, k);
    assert chosen[..k][j] == chosen[j];
    AcceptedMeansIndependent(g, chosen[j].cand, chosen[k].cand);
  }

  lemma {:induction false} InRotationMeans(pools: seq<seq<Candidate>>, chosen: seq<Pick>, k: nat)
    requires |pools| == BANDS && k < |chosen| && InRotation(pools, chosen, k)
    ensures chosen[k].band < BANDS && chosen[k].cand in pools[chosen[k].band] && Compatible(chosen[..k], chosen[k].cand)
  {
  }

  /** Every function that could have been asked in band `b` conflicts with a chosen target. */
  ghost predicate Exhausted(g: Graph, cov: Coverage, chosen: seq<Pick>, b: nat) {
    forall id :: Qualifies(g, cov, id, b) ==> exists p :: p in chosen && !Independent(g, p.cand.id, id)
  }

  lemma {:induction false} RejectedMeansConflict(g: Graph, chosen: seq<Pick>, e: Candidate)
    requires KeyComplete(g, e) && !Compatible(chosen, e)
    requires forall p :: p in chosen ==> KeyComplete(g, p.cand)
    ensures exists p :: p in chosen && !Independent(g, p.cand.id, e.id)
  {
    var k :| 0 <= k < |chosen| && !Accepts(chosen[k].cand, e);
    AcceptedMeansIndependent(g, chosen[k].cand, e);
  }

  /** The functions band `b` had to offer: the first `POOL_LIMIT` that could be asked, in trial order. */
  ghost function Offered(g: Graph, cov: Coverage, ids: seq<Id>, b: nat): seq<Id> {
    Take(Qualified(g, cov, ids, b), POOL_LIMIT)
  }

  /** Each of `offered` conflicts with a chosen target. */
  ghost predicate AllConflict(g: Graph, offered: seq<Id>, chosen: seq<Pick>) {
    forall id :: id in offered ==> exists p :: p in chosen && !Independent(g, p.cand.id, id)
  }

  lemma {:induction false} RejectedMeansAllConflict(g: Graph, cov: Coverage, ids: seq<Id>, b: nat, pool: seq<Candidate>,
          chosen: seq<Pick>)
    requires PoolOf(g, cov, ids, b, pool)
    requires forall e :: e in pool ==> !Compatible(chosen, e)
    requires forall p :: p in chosen ==> KeyComplete(g, p.cand)
    ensures AllConflict(g, Offered(g, cov, ids, b), chosen)
  {
    forall id | id in Offered(g, cov, ids, b) ensures exists p :: p in chosen && !Independent(g, p.cand.id, id) {
      var i :| 0 <= i < |CandidateIds(pool)| && CandidateIds(pool)[i] == id;
      RejectedMeansConflict(g, chosen, pool[i]);
    }
  }

  /** A band whose askable functions all fit its pool offers every one of them. */
  lemma {:induction false} FittingMeansExhausted(g: Graph, cov: Coverage, ids: seq<Id>, b: nat, chosen: seq<Pick>)
    requires |Qualified(g, cov, ids, b)| <= POOL_LIMIT && forall id :: Eligible(g, cov, id) ==> id in ids
    requires AllConflict(g, Offered(g, cov, ids, b), chosen)
    ensures Exhausted(g, cov, chosen, b)
  {
    QualifiedMember(g, cov, ids, b);
  }

  // ----- tasks -----

  predicate BandThenSize(p: Pick, q: Pick) {
    p.band < q.band || (p.band == q.band && |p.cand.callers| <= |q.cand.callers|)
  }

  predicate FileThenLine(a: Caller, b: Caller) {
    LexLe(a.file, b.file) && (a.file == b.file ==> a.line <= b.line)
  }

  /** Where each of `ids` is declared. */
  function Locations(g: Graph, ids: seq<Id>): seq<Caller>
    requires forall id :: id in ids ==> id in g.nodes
  {
    seq(|ids|, i requires 0 <= i < |ids| => var n := g.nodes[ids[i]]; Caller(n.file, n.line, n.name))
  }

  predicate InGraph(g: Graph, p: Pick) {
    p.cand.id in g.nodes && forall id :: id in p.cand.callers ==> id in g.nodes
  }

  function TaskOf(g: Graph, i: nat, p: Pick): Task
    requires InGraph(g, p)
  {
    var n := g.nodes[p.cand.id];
    Task("t" + Decimal.Print(i + 1), BandName(p.band), n.name, n.file, n.line,
         p.cand.depth, Sort(FileThenLine, Locations(g, p.cand.callers)))
  }

  /** Pick `p` was asked rightly and `t` is its task: `t.answer` is the location of every
      transitive caller, each once, and of nothing else. */
  ghost predicate Asks(g: Graph, cov: Coverage, p: Pick, i: nat, t: Task) {
    && Qualifies(g, cov, p.cand.id, p.band) && KeyComplete(g, p.cand)
    && InGraph(g, p)
    && t == TaskOf(g, i, p)
    && multiset(t.answer) == multiset(Locations(g, p.cand.callers))
    && Sorted(FileThenLine, t.answer)
  }

  lemma FileThenLineOrders()
    ensures TotalPreorder(FileThenLine)
  {
    LexIsTotalOrder();
    forall a, b, c | FileThenLine(a, b) && FileThenLine(b, c) ensures FileThenLine(a, c) {
      LexTransitive(a.file, b.file, c.file);
    }
  }

  lemma BandThenSizeOrders()
    ensures TotalPreorder(BandThenSize)
  {
  }

  lemma {:induction false} TaskAsks(g: Graph, cov: Coverage, p: Pick, i: nat)
    requires Qualifies(g, cov, p.cand.id, p.band) && KeyComplete(g, p.cand)
    ensures InGraph(g, p)
    ensures Asks(g, cov, p, i, TaskOf(g, i, p))
  {
    assert forall id :: id in p.cand.callers ==> id in Elements(p.cand.callers);
    FileThenLineOrders();
    SortPermutes(FileThenLine, Locations(g, p.cand.callers));
    SortSorted(FileThenLine, Locations(g, p.cand.callers));
  }

  /** The functions a task may be about, in code-point order of their ids. */
  method EligibleIds(g: Graph, cov: Coverage) returns (ids: seq<Id>)
    ensures Sorted(LexLe, ids) && NoDup(ids)
    ensures forall id :: id in ids <==> Eligible(g, cov, id)
  {
    ids := [];
    var rest := g.nodes.Keys;
    while rest != {}
      invariant rest <= g.nodes.Keys && NoDup(ids)
      invariant forall id :: id in ids <==> Eligible(g, cov, id) && id !in rest
    {
      var id :| id in rest;
      rest := rest - {id};
      if Eligible(g, cov, id) {
        ids := ids + [id];
      }
    }
    LexIsTotalOrder();
    SortSorted(LexLe, ids);
    SortPermutes(LexLe, ids);
    NoDupPermutation(ids, Sort(LexLe, ids));
    SortMembers(LexLe, ids);
    ids := Sort(LexLe, ids);
  }

  lemma {:induction false} PoolMemberQualifies(g: Graph, cov: Coverage, ids: seq<Id>, b: nat, pool: seq<Candidate>,
          e: Candidate)
    requires PoolOf(g, cov, ids, b, pool) && e in pool
    ensures Qualifies(g, cov, e.id, b) && KeyComplete(g, e)
  {
    var i :| 0 <= i < |pool| && pool[i] == e;
    assert CandidateIds(pool)[i] == e.id;
    QualifiedMember(g, cov, ids, b);
  }

  /** `picks` is the greedy rotation over the pools that `ids` fill, in that order. */
  ghost predicate GreedyOver(g: Graph, cov: Coverage, ids: seq<Id>, picks: seq<Pick>) {
    exists pools: seq<seq<Candidate>> ::
      && |pools| == BANDS
      && (forall b :: 0 <= b < BANDS ==> PoolOf(g, cov, ids, b, pools[b]))
      && (forall k :: 0 <= k < |picks| ==> InRotation(pools, picks, k))
  }

  /** Choose up to `n` targets from the eligible functions in the order `ids`. */
  method Select(g: Graph, cov: Coverage, n: nat, ids: seq<Id>) returns (picks: seq<Pick>)
    requires forall id :: id in ids <==> Eligible(g, cov, id)
    ensures |picks| <= n && GreedyOver(g, cov, ids, picks)
    ensures forall i :: 0 <= i < |picks| ==>
      Qualifies(g, cov, picks[i].cand.id, picks[i].band) && KeyComplete(g, picks[i].cand)
    ensures forall i, j :: 0 <= i < j < |picks| ==> Independent(g, picks[i].cand.id, picks[j].cand.id)
    ensures |picks| < n ==> forall b: nat :: b < BANDS ==> AllConflict(g, Offered(g, cov, ids, b), picks)
  {
    var pools := FillPools(g, cov, ids);
    picks := Choose(pools, n);
    forall i | 0 <= i < |picks|
      ensures Qualifies(g, cov, picks[i].cand.id, picks[i].band) && KeyComplete(g, picks[i].cand)
    {
      InRotationMeans(pools, picks, i);
      PoolMemberQualifies(g, cov, ids, picks[i].band, pools[picks[i].band], picks[i].cand);
    }
    forall i, j | 0 <= i < j < |picks| ensures Independent(g, picks[i].cand.id, picks[j].cand.id) {
      PicksAreIndependent(g, pools, picks, i, j);
    }
    if |picks| < n {
      forall b: nat | b < BANDS ensures AllConflict(g, Offered(g, cov, ids, b), picks) {
        RejectedMeansAllConflict(g, cov, ids, b, pools[b], picks);
      }
    }
  }

  /** Everything that could be asked in band `b`. */
  ghost function Askable(g: Graph, cov: Coverage, b: nat): set<Id> {
    set id | id in g.nodes.Keys && Qualifies(g, cov, id, b)
  }

  lemma {:induction false} AskableCount(g: Graph, cov: Coverage, ids: seq<Id>, b: nat)
    requires NoDup(ids) && forall id :: id in ids <==> Eligible(g, cov, id)
    ensures |Qualified(g, cov, ids, b)| == |Askable(g, cov, b)|
  {
    FilterNoDup(ids, id => Qualifies(g, cov, id, b));
    QualifiedMember(g, cov, ids, b);
    NoDupCardinality(Qualified(g, cov, ids, b));
    assert Elements(Qualified(g, cov, ids, b)) == Askable(g, cov, b);
  }

  ghost predicate AllIndependent(g: Graph, picks: seq<Pick>) {
    forall i, j :: 0 <= i < |picks| && 0 <= j < |picks| && i != j ==> Independent(g, picks[i].cand.id, picks[j].cand.id)
  }

  lemma IndependentSymmetric(g: Graph, a: Id, b: Id)
    requires Independent(g, a, b)
    ensures Independent(g, b, a)
  {
    assert TransitiveCallers(g, a) * TransitiveCallers(g, b) == TransitiveCallers(g, b) * TransitiveCallers(g, a);
  }

  /** Sorting the picks for the report keeps them independent and keeps what they exhaust. */
  lemma {:induction false} ReorderedPicks(g: Graph, picks: seq<Pick>, sorted: seq<Pick>)
    requires multiset(picks) == multiset(sorted)
    requires forall i, j :: 0 <= i < j < |picks| ==> Independent(g, picks[i].cand.id, picks[j].cand.id)
    ensures AllIndependent(g, sorted)
    ensures forall offered :: AllConflict(g, offered, picks) ==> AllConflict(g, offered, sorted)
  {
    assert NoDup(picks);
    NoDupPermutation(picks, sorted);
    SameMultisetSameMembers(picks, sorted);
    forall i, j | 0 <= i < |sorted| && 0 <= j < |sorted| && i != j
      ensures Independent(g, sorted[i].cand.id, sorted[j].cand.id)
    {
      assert sorted[i] in picks && sorted[j] in picks;
      var k :| 0 <= k < |picks| && picks[k] == sorted[i];
      var l :| 0 <= l < |picks| && picks[l] == sorted[j];
      if l < k {
        IndependentSymmetric(g, picks[l].cand.id, picks[k].cand.id);
      }
    }
  }

  /** The order targets are tried in: the eligible ids, sorted and then shuffled by the seed. */
  ghost predicate TrialOrder(g: Graph, cov: Coverage, seed: bv64, ids: seq<Id>) {
    exists s: seq<Id> ::
      && Sorted(LexLe, s) && NoDup(s) && (forall id :: id in s <==> Eligible(g, cov, id))
      && ids == Shuffling.Shuffled(s, if s == [] then 0 else |s| - 1, Shuffling.SeedState(seed))
  }

  method TrialIds(g: Graph, cov: Coverage, seed: bv64) returns (ids: seq<Id>)
    ensures TrialOrder(g, cov, seed, ids)
    ensures NoDup(ids) && forall id :: id in ids <==> Eligible(g, cov, id)
  {
    var sorted := EligibleIds(g, cov);
    ids := Shuffling.ShuffleSeq(sorted, seed);
    NoDupPermutation(sorted, ids);
    SameMultisetSameMembers(sorted, ids);
  }

  /** The picks in report order keep what was established while picking. */
  lemma {:induction false} ReportOrder(g: Graph, cov: Coverage, chosen: seq<Pick>)
    requires forall i :: 0 <= i < |chosen| ==>
      Qualifies(g, cov, chosen[i].cand.id, chosen[i].band) && KeyComplete(g, chosen[i].cand)
    requires forall i, j :: 0 <= i < j < |chosen| ==> Independent(g, chosen[i].cand.id, chosen[j].cand.id)
    ensures var picks := Sort(BandThenSize, chosen);
      && |picks| == |chosen| && Sorted(BandThenSize, picks) && AllIndependent(g, picks)
      && (forall i :: 0 <= i < |picks| ==> InGraph(g, picks[i]) && Asks(g, cov, picks[i], i, TaskOf(g, i, picks[i])))
      && (forall offered :: AllConflict(g, offered, chosen) ==> AllConflict(g, offered, picks))
  {
    var picks := Sort(BandThenSize, chosen);
    BandThenSizeOrders();
    SortSorted(BandThenSize, chosen);
    SortPermutes(BandThenSize, chosen);
    SortMembers(BandThenSize, chosen);
    ReorderedPicks(g, chosen, picks);
    forall i | 0 <= i < |picks| ensures InGraph(g, picks[i]) && Asks(g, cov, picks[i], i, TaskOf(g, i, picks[i])) {
      assert picks[i] in chosen;
      TaskAsks(g, cov, picks[i], i);
    }
  }

  /** `tasks` ask about `picks`, which are `chosen`, greedily and in rotation, over the trial order `ids` and
      then sorted by band and size. The targets are independent; a short plan leaves no function a band had to
      offer without a conflict, and so exhausts every band whose askable functions fit its pool. */
  ghost predicate PlanOf(g: Graph, cov: Coverage, n: nat, seed: bv64, tasks: seq<Task>, picks: seq<Pick>, ids: seq<Id>,
          chosen: seq<Pick>)
  {
    && TrialOrder(g, cov, seed, ids) && GreedyOver(g, cov, ids, chosen)
    && picks == Sort(BandThenSize, chosen) && Sorted(BandThenSize, picks)
    && |tasks| == |picks| <= n
    && (forall i :: 0 <= i < |tasks| ==> Asks(g, cov, picks[i], i, tasks[i]))
    && AllIndependent(g, picks)
    && (|tasks| < n ==> forall b: nat :: b < BANDS ==>
      && AllConflict(g, Offered(g, cov, ids, b), picks)
      && (|Askable(g, cov, b)| <= POOL_LIMIT ==> Exhausted(g, cov, picks, b)))
  }

  /** Plan up to `n` tasks. */
  method Plan(g: Graph, cov: Coverage, n: nat, seed: bv64) returns (tasks: seq<Task>)
    ensures exists picks, ids, chosen :: PlanOf(g, cov, n, seed, tasks, picks, ids, chosen)
  {
    hide Sort, Sorted, TrialOrder, GreedyOver, AllConflict, AllIndependent, Asks, Qualifies, Independent, KeyComplete;
    var order := TrialIds(g, cov, seed);
    var picked := Select(g, cov, n, order);
    ReportOrder(g, cov, picked);
    var sorted := Sort(BandThenSize, picked);
    if |picked| < n {
      forall b: nat | b < BANDS && |Askable(g, cov, b)| <= POOL_LIMIT ensures Exhausted(g, cov, sorted, b) {
        AskableCount(g, cov, order, b);
        FittingMeansExhausted(g, cov, order, b, sorted);
      }
    }
    tasks := seq(|sorted|, i requires 0 <= i < |sorted| => TaskOf(g, i, sorted[i]));
    assert PlanOf(g, cov, n, seed, tasks, sorted, order, picked);
  }
}
