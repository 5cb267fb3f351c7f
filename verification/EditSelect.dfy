/** Choosing edit tasks (gridseak-cli/src/audit_edit.rs, `select`). */
module EditSelect {
  import opened Basics
  import opened Multimaps
  import opened Sorting
  import Shuffling

  datatype Method = Method(name: string, ctxFirst: bool, callSites: nat)

  datatype Impl = Impl(dir: string, test: bool)

  datatype Cand = Cand(pkg: string, iface: string, methods: Option<seq<Method>>, impls: Option<seq<Impl>>)

  /** An interface and the index of the method to change. */
  datatype Pick = Pick(cand: Cand, at: nat)

  const MAX_IMPLS := 12
  const BANDS: nat := 3

  const STDLIB_METHODS := {
    "String", "Error", "Close", "Read", "Write", "Len", "Less", "Swap", "Unwrap", "Format", "MarshalJSON",
    "UnmarshalJSON", "MarshalText", "UnmarshalText", "Is", "As", "Seek", "Flush", "Hijack", "Lock", "Unlock", "Next"}

  function ImplsOf(c: Cand): seq<Impl> {
    if c.impls.Some? then c.impls.value else []
  }

  function MethodsOf(c: Cand): seq<Method> {
    if c.methods.Some? then c.methods.value else []
  }

  // ----- which method -----

  predicate Changeable(m: Method) {
    !m.ctxFirst && m.callSites > 0 && m.name !in STDLIB_METHODS
  }

  /** The changeable method with the most call sites; the earliest of equals. */
  function BestMethod(ms: seq<Method>): (r: Option<nat>)
    ensures r.Some? ==> r.value < |ms|
  {
    if ms == [] then None
    else
      var last := |ms| - 1;
      var best := BestMethod(ms[..last]);
      if !Changeable(ms[last]) then best
      else if best.Some? && ms[best.value].callSites >= ms[last].callSites then best
      else Some(last)
  }

  ghost predicate Best(ms: seq<Method>, i: nat) {
    && i < |ms| && Changeable(ms[i])
    && forall j :: 0 <= j < |ms| && Changeable(ms[j]) ==>
      ms[j].callSites < ms[i].callSites || (ms[j].callSites == ms[i].callSites && i <= j)
  }

  lemma {:induction false} BestMethodExactly(ms: seq<Method>, i: nat)
    ensures BestMethod(ms) == Some(i) <==> Best(ms, i)
    ensures BestMethod(ms).None? <==> forall j :: 0 <= j < |ms| ==> !Changeable(ms[j])
  {
    if ms != [] {
      var last := |ms| - 1;
      var init := ms[..last];
      BestMethodExactly(init, i);
      if BestMethod(init).Some? { BestMethodExactly(init, BestMethod(init).value); }
    }
  }

  function PicksOf(c: Cand): seq<Pick> {
    if 1 <= |ImplsOf(c)| <= MAX_IMPLS && BestMethod(MethodsOf(c)).Some?
    then [Pick(c, BestMethod(MethodsOf(c)).value)] else []
  }

  function Usable(cands: seq<Cand>): seq<Pick> {
    Flat(cands, PicksOf)
  }

  /** The usable picks are the interfaces with 1 to 12 implementations, each with its best method. */
  lemma {:induction false} UsableExactly(cands: seq<Cand>, p: Pick)
    ensures p in Usable(cands) <==>
      p.cand in cands && 1 <= |ImplsOf(p.cand)| <= MAX_IMPLS && Best(MethodsOf(p.cand), p.at)
  {
    BestMethodExactly(MethodsOf(p.cand), p.at);
    if cands != [] {
      var init, c := cands[..|cands| - 1], cands[|cands| - 1];
      UsableExactly(init, p);
      assert cands == init + [c];
    }
  }

  // ----- bands -----

  function BandOf(impls: nat): (b: nat)
    ensures b < BANDS
  {
    if impls <= 2 then 0 else if impls <= 5 then 1 else 2
  }

  function InBand(b: nat): Pick -> bool {
    (p: Pick) => BandOf(|ImplsOf(p.cand)|) == b
  }

  function BandsOf(ps: seq<Pick>): (bands: seq<seq<Pick>>)
    ensures |bands| == BANDS
  {
    [Filter(ps, InBand(0)), Filter(ps, InBand(1)), Filter(ps, InBand(2))]
  }

  ghost predicate Banded(bands: seq<seq<Pick>>) {
    |bands| == BANDS && forall b: nat :: b < BANDS ==> forall p :: p in bands[b] ==> InBand(b)(p)
  }

  lemma BandsBanded(ps: seq<Pick>)
    ensures Banded(BandsOf(ps))
  {
    FilterMember(ps, InBand(0));
    FilterMember(ps, InBand(1));
    FilterMember(ps, InBand(2));
  }

  lemma {:induction false} BandsPartition(ps: seq<Pick>)
    ensures multiset(ps) ==
      multiset(Filter(ps, InBand(0))) + multiset(Filter(ps, InBand(1))) + multiset(Filter(ps, InBand(2)))
  {
    if ps != [] {
      var p, rest := ps[0], ps[1..];
      BandsPartition(rest);
      assert ps == [p] + rest;
      FilterFirst(p, rest, 0);
      FilterFirst(p, rest, 1);
      FilterFirst(p, rest, 2);
      OneBand(multiset{p}, multiset(rest), multiset(Filter(rest, InBand(0))), multiset(Filter(rest, InBand(1))),
              multiset(Filter(rest, InBand(2))), BandOf(|ImplsOf(p.cand)|));
    }
  }

  lemma FilterFirst(p: Pick, rest: seq<Pick>, b: nat)
    ensures multiset(Filter([p] + rest, InBand(b))) ==
      (if BandOf(|ImplsOf(p.cand)|) == b then multiset{p} else multiset{}) + multiset(Filter(rest, InBand(b)))
  {
    assert ([p] + rest)[1..] == rest;
  }

  lemma OneBand(x: multiset<Pick>, all: multiset<Pick>, s: multiset<Pick>, m: multiset<Pick>, l: multiset<Pick>, b: nat)
    requires all == s + m + l && b < BANDS
    ensures x + all ==
      ((if b == 0 then x else multiset{}) + s) + ((if b == 1 then x else multiset{}) + m)
      + ((if b == 2 then x else multiset{}) + l)
  {
  }

  // ----- taking turns -----

  predicate Exhausted(bands: seq<seq<Pick>>, r: nat)
    requires |bands| == BANDS
  {
    |bands[0]| <= r && |bands[1]| <= r && |bands[2]| <= r
  }

  /** The pick of round `r` and band `b`, if that band still has one. */
  function Turn(bands: seq<seq<Pick>>, r: nat, b: nat): seq<Pick>
    requires |bands| == BANDS && b < BANDS
  {
    if r < |bands[b]| then [bands[b][r]] else []
  }

  /** From round `r`, band `b` on, band by band and round by round. */
  function Turns(bands: seq<seq<Pick>>, r: nat, b: nat): seq<Pick>
    requires |bands| == BANDS && b < BANDS
    decreases |bands[0]| + |bands[1]| + |bands[2]| - r, BANDS - b
  {
    if Exhausted(bands, r) then []
    else Turn(bands, r, b) + if b < 2 then Turns(bands, r, b + 1) else Turns(bands, r + 1, 0)
  }

  /** How many of band `a` were taken before round `r`, band `b`. */
  function Taken(bands: seq<seq<Pick>>, r: nat, b: nat, a: nat): (n: nat)
    requires |bands| == BANDS && a < BANDS
    ensures n <= |bands[a]|
  {
    var turns := if a < b then r + 1 else r;
    if turns < |bands[a]| then turns else |bands[a]|
  }

  function NextTurn(r: nat, b: nat): (n: (nat, nat))
    requires b < BANDS
    ensures n.1 < BANDS
  {
    if b < 2 then (r, b + 1) else (r + 1, 0)
  }

  lemma TurnTakes(bands: seq<seq<Pick>>, r: nat, b: nat, a: nat)
    requires |bands| == BANDS && a < BANDS && b < BANDS
    ensures var n := NextTurn(r, b);
      Taken(bands, n.0, n.1, a) == Taken(bands, r, b, a) + if a == b then |Turn(bands, r, b)| else 0
  {
  }

  lemma {:induction false} FilterTurn(bands: seq<seq<Pick>>, r: nat, b: nat, a: nat)
    requires Banded(bands) && a < BANDS && b < BANDS
    ensures Filter(Turn(bands, r, b), InBand(a)) == if a == b then Turn(bands, r, b) else []
  {
    if r < |bands[b]| {
      var p := bands[b][r];
      assert p in bands[b] && InBand(b)(p);
      assert [p][1..] == [];
    }
  }

  lemma RestOfBand(bands: seq<seq<Pick>>, r: nat, b: nat, a: nat)
    requires |bands| == BANDS && a < BANDS && b < BANDS
    ensures var n := NextTurn(r, b);
      bands[a][Taken(bands, r, b, a)..] ==
        (if a == b then Turn(bands, r, b) else []) + bands[a][Taken(bands, n.0, n.1, a)..]
  {
    TurnTakes(bands, r, b, a);
  }

  lemma NothingTaken(bands: seq<seq<Pick>>, r: nat, b: nat, a: nat)
    requires |bands| == BANDS && a < BANDS && b < BANDS && Exhausted(bands, r)
    ensures bands[a][Taken(bands, r, b, a)..] == []
  {
  }

  lemma TurnThenRest(bands: seq<seq<Pick>>, r: nat, b: nat, a: nat, rest: seq<Pick>)
    requires Banded(bands) && a < BANDS && b < BANDS
    ensures Filter(Turn(bands, r, b) + rest, InBand(a)) ==
      (if a == b then Turn(bands, r, b) else []) + Filter(rest, InBand(a))
  {
    FilterTurn(bands, r, b, a);
    FilterAppend(Turn(bands, r, b), rest, InBand(a));
  }

  /** Each band comes out whole and in its own order. */
  lemma {:induction false} TurnsByBand(bands: seq<seq<Pick>>, r: nat, b: nat, a: nat)
    requires Banded(bands) && a < BANDS && b < BANDS
    ensures Filter(Turns(bands, r, b), InBand(a)) == bands[a][Taken(bands, r, b, a)..]
    decreases |bands[0]| + |bands[1]| + |bands[2]| - r, BANDS - b
  {
    hide Turn, Taken, InBand;
    if Exhausted(bands, r) {
      NothingTaken(bands, r, b, a);
    } else {
      var n := NextTurn(r, b);
      TurnsByBand(bands, n.0, n.1, a);
      TurnThenRest(bands, r, b, a, Turns(bands, n.0, n.1));
      RestOfBand(bands, r, b, a);
    }
  }

  function CountIn(ps: seq<Pick>, b: nat): nat {
    |Filter(ps, InBand(b))|
  }

  /** Two bands are within one of each other until the one behind is used up. */
  ghost predicate FairAt(bands: seq<seq<Pick>>, a: nat, b: nat, takenA: nat, takenB: nat)
    requires |bands| == BANDS && a < BANDS && b < BANDS
  {
    takenA <= takenB + 1 || takenB == |bands[b]|
  }

  lemma TakenFair(bands: seq<seq<Pick>>, r: nat, b: nat, x: nat, y: nat)
    requires |bands| == BANDS && b < BANDS && x < BANDS && y < BANDS
    ensures FairAt(bands, x, y, Taken(bands, r, b, x), Taken(bands, r, b, y))
  {
  }

  lemma {:induction false} TurnsFair(bands: seq<seq<Pick>>, r: nat, b: nat, k: nat, x: nat, y: nat)
    requires Banded(bands) && b < BANDS && x < BANDS && y < BANDS && k <= |Turns(bands, r, b)|
    ensures var prefix := Turns(bands, r, b)[..k];
      FairAt(bands, x, y, Taken(bands, r, b, x) + CountIn(prefix, x), Taken(bands, r, b, y) + CountIn(prefix, y))
    decreases |bands[0]| + |bands[1]| + |bands[2]| - r, BANDS - b
  {
    var all := Turns(bands, r, b);
    if k == 0 {
      assert all[..k] == [];
      TakenFair(bands, r, b, x, y);
    } else {
      var n, turn := NextTurn(r, b), Turn(bands, r, b);
      var rest := Turns(bands, n.0, n.1);
      assert all == turn + rest;
      TurnsFair(bands, n.0, n.1, k - |turn|, x, y);
      assert all[..k] == turn + rest[..k - |turn|];
      CountTurn(bands, r, b, x, rest[..k - |turn|]);
      CountTurn(bands, r, b, y, rest[..k - |turn|]);
    }
  }

  lemma CountTurn(bands: seq<seq<Pick>>, r: nat, b: nat, a: nat, rest: seq<Pick>)
    requires Banded(bands) && b < BANDS && a < BANDS
    ensures var n := NextTurn(r, b);
      Taken(bands, r, b, a) + CountIn(Turn(bands, r, b) + rest, a) == Taken(bands, n.0, n.1, a) + CountIn(rest, a)
  {
    TurnTakes(bands, r, b, a);
    FilterTurn(bands, r, b, a);
    FilterAppend(Turn(bands, r, b), rest, InBand(a));
  }

  // ----- the selection -----

  predicate PickLe(a: Pick, b: Pick) {
    if a.cand.pkg == b.cand.pkg then LexLe(a.cand.iface, b.cand.iface) else LexLe(a.cand.pkg, b.cand.pkg)
  }

  lemma PickOrder()
    ensures TotalPreorder(PickLe)
  {
    LexIsTotalOrder();
  }

  /** The usable picks in the order the seed gives them. */
  function Drawn(cands: seq<Cand>, seed: bv64): seq<Pick> {
    var sorted := Sort(PickLe, Usable(cands));
    Shuffling.Shuffled(sorted, if sorted == [] then 0 else |sorted| - 1, Shuffling.SeedState(seed))
  }

  function Selected(cands: seq<Cand>, seed: bv64): seq<Pick> {
    Turns(BandsOf(Drawn(cands, seed)), 0, 0)
  }

  lemma {:induction false} DrawnPermutes(cands: seq<Cand>, seed: bv64)
    ensures multiset(Drawn(cands, seed)) == multiset(Usable(cands))
  {
    var sorted := Sort(PickLe, Usable(cands));
    SortPermutes(PickLe, Usable(cands));
    Shuffling.ShufflePermutes(sorted, if sorted == [] then 0 else |sorted| - 1, Shuffling.SeedState(seed));
  }

  /** A permutation of exactly the usable picks. */
  lemma {:induction false} SelectsEverything(cands: seq<Cand>, seed: bv64)
    ensures multiset(Selected(cands, seed)) == multiset(Usable(cands))
  {
    var drawn := Drawn(cands, seed);
    var bands := BandsOf(drawn);
    DrawnPermutes(cands, seed);
    BandsBanded(drawn);
    TurnsByBand(bands, 0, 0, 0);
    TurnsByBand(bands, 0, 0, 1);
    TurnsByBand(bands, 0, 0, 2);
    BandsPartition(drawn);
    BandsPartition(Selected(cands, seed));
  }

  /** At every prefix two bands differ by at most one, unless the smaller one is used up; and inside a band the
      drawn order is kept. */
  lemma {:induction false} SelectsFairly(cands: seq<Cand>, seed: bv64, k: nat, x: nat, y: nat)
    requires k <= |Selected(cands, seed)| && x < BANDS && y < BANDS
    ensures var prefix := Selected(cands, seed)[..k];
      CountIn(prefix, x) <= CountIn(prefix, y) + 1 || CountIn(prefix, y) == CountIn(Usable(cands), y)
    ensures Filter(Selected(cands, seed), InBand(x)) == Filter(Drawn(cands, seed), InBand(x))
  {
    FairTurns(Drawn(cands, seed), k, x, y);
    BandSize(cands, seed, y);
  }

  lemma FairTurns(drawn: seq<Pick>, k: nat, x: nat, y: nat)
    requires k <= |Turns(BandsOf(drawn), 0, 0)| && x < BANDS && y < BANDS
    ensures var prefix := Turns(BandsOf(drawn), 0, 0)[..k];
      CountIn(prefix, x) <= CountIn(prefix, y) + 1 || CountIn(prefix, y) == CountIn(drawn, y)
    ensures Filter(Turns(BandsOf(drawn), 0, 0), InBand(x)) == Filter(drawn, InBand(x))
  {
    var bands := BandsOf(drawn);
    BandsBanded(drawn);
    TurnsByBand(bands, 0, 0, x);
    assert Taken(bands, 0, 0, x) == 0 && bands[x][0..] == bands[x];
    TurnsFair(bands, 0, 0, k, x, y);
  }

  lemma BandSize(cands: seq<Cand>, seed: bv64, y: nat)
    requires y < BANDS
    ensures CountIn(Drawn(cands, seed), y) == CountIn(Usable(cands), y)
  {
    var drawn := Drawn(cands, seed);
    DrawnPermutes(cands, seed);
    FilterPermutes(drawn, Usable(cands), InBand(y));
    SameMultisetSameMembers(Filter(drawn, InBand(y)), Filter(Usable(cands), InBand(y)));
  }

  lemma {:induction false} UsableWithout(cands: seq<Cand>, i: nat)
    requires i < |cands|
    ensures multiset(Usable(cands)) == multiset(PicksOf(cands[i])) + multiset(Usable(Without(cands, i)))
  {
    var head, tail := cands[..i], cands[i + 1..];
    assert cands == head + [cands[i]] + tail;
    FlatAppend(head + [cands[i]], tail, PicksOf);
    FlatStep(head, cands[i], PicksOf);
    FlatAppend(head, tail, PicksOf);
  }

  lemma {:induction false} UsablePermutes(a: seq<Cand>, b: seq<Cand>)
    requires multiset(a) == multiset(b)
    ensures multiset(Usable(a)) == multiset(Usable(b))
  {
    SameMultisetSameMembers(a, b);
    if a != [] {
      assert a[0] in b;
      var i :| 0 <= i < |b| && b[i] == a[0];
      UsableWithout(a, 0);
      UsableWithout(b, i);
      FilterWithout(a, 0, (c: Cand) => true);
      FilterWithout(b, i, (c: Cand) => true);
      Cancel(multiset{a[0]}, multiset(Without(a, 0)), multiset(Without(b, i)));
      UsablePermutes(Without(a, 0), Without(b, i));
    }
  }

  /** The seed alone decides: when no two usable picks share package and interface name, the order the
      candidates arrive in does not matter. */
  lemma {:induction false} CandidateOrderIrrelevant(a: seq<Cand>, b: seq<Cand>, seed: bv64)
    requires multiset(a) == multiset(b) && NoTies(PickLe, Usable(a))
    ensures Selected(a, seed) == Selected(b, seed)
  {
    var s, t := Sort(PickLe, Usable(a)), Sort(PickLe, Usable(b));
    UsablePermutes(a, b);
    PickOrder();
    SortSorted(PickLe, Usable(a));
    SortSorted(PickLe, Usable(b));
    SortPermutes(PickLe, Usable(a));
    SortPermutes(PickLe, Usable(b));
    SortMembers(PickLe, Usable(a));
    SortedUnique(PickLe, s, t);
  }

  // ----- the loops -----

  lemma FilterLast(ps: seq<Pick>, p: Pick, b: nat)
    ensures Filter(ps + [p], InBand(b)) ==
      if BandOf(|ImplsOf(p.cand)|) == b then Filter(ps, InBand(b)) + [p] else Filter(ps, InBand(b))
  {
    FilterAppend(ps, [p], InBand(b));
    assert [p][1..] == [];
  }

  lemma BandsStep(ps: seq<Pick>, p: Pick)
    ensures var b, bands := BandOf(|ImplsOf(p.cand)|), BandsOf(ps);
      BandsOf(ps + [p]) == bands[b := bands[b] + [p]]
  {
    FilterLast(ps, p, 0);
    FilterLast(ps, p, 1);
    FilterLast(ps, p, 2);
  }

  method SplitBands(usable: seq<Pick>) returns (bands: seq<seq<Pick>>)
    ensures bands == BandsOf(usable)
  {
    bands := [[], [], []];
    for i := 0 to |usable|
      invariant bands == BandsOf(usable[..i])
    {
      var p := usable[i];
      var b := BandOf(|ImplsOf(p.cand)|);
      assert usable[..i + 1] == usable[..i] + [p];
      BandsStep(usable[..i], p);
      bands := bands[b := bands[b] + [p]];
    }
    assert usable[..|usable|] == usable;
  }

  /** What is left from round `r`, band `b` on, counting `BANDS` as the end of the round. */
  ghost function Rest(bands: seq<seq<Pick>>, r: nat, b: nat): seq<Pick>
    requires |bands| == BANDS && b <= BANDS
  {
    if b < BANDS then Turns(bands, r, b) else Turns(bands, r + 1, 0)
  }

  lemma RestUnfolds(bands: seq<seq<Pick>>, r: nat, b: nat)
    requires |bands| == BANDS && b < BANDS
    ensures Rest(bands, r, b) == Turn(bands, r, b) + Rest(bands, r, b + 1)
  {
  }

  ghost predicate Indexes(bands: seq<seq<Pick>>, idx: seq<nat>, r: nat, b: nat)
    requires |bands| == BANDS
  {
    |idx| == BANDS && forall a: nat :: a < BANDS ==> idx[a] == Taken(bands, r, b, a)
  }

  lemma IndexStep(bands: seq<seq<Pick>>, idx: seq<nat>, r: nat, b: nat)
    requires |bands| == BANDS && b < BANDS && Indexes(bands, idx, r, b)
    ensures idx[b] < |bands[b]| <==> r < |bands[b]|
    ensures idx[b] < |bands[b]| ==> idx[b] == r && Indexes(bands, idx[b := idx[b] + 1], r, b + 1)
    ensures idx[b] == |bands[b]| ==> Indexes(bands, idx, r, b + 1)
  {
  }

  ghost predicate Found(bands: seq<seq<Pick>>, r: nat, b: nat)
    requires |bands| == BANDS
  {
    (b > 0 && r < |bands[0]|) || (b > 1 && r < |bands[1]|) || (b > 2 && r < |bands[2]|)
  }

  /** One pick from each band that has one. */
  method TakeRound(bands: seq<seq<Pick>>, out0: seq<Pick>, idx0: seq<nat>, ghost r: nat)
    returns (out: seq<Pick>, idx: seq<nat>, any: bool)
    requires |bands| == BANDS && Indexes(bands, idx0, r, 0)
    ensures Indexes(bands, idx, r, BANDS)
    ensures any <==> !Exhausted(bands, r)
    ensures out + Rest(bands, r, BANDS) == out0 + Rest(bands, r, 0)
  {
    out, idx, any := out0, idx0, false;
    for b := 0 to BANDS
      invariant Indexes(bands, idx, r, b)
      invariant any <==> Found(bands, r, b)
      invariant out + Rest(bands, r, b) == out0 + Rest(bands, r, 0)
    {
      IndexStep(bands, idx, r, b);
      RestUnfolds(bands, r, b);
      assert out + (Turn(bands, r, b) + Rest(bands, r, b + 1)) == out + Turn(bands, r, b) + Rest(bands, r, b + 1);
      if idx[b] < |bands[b]| {
        out := out + [bands[b][idx[b]]];
        idx := idx[b := idx[b] + 1];
        any := true;
      } else {
        assert out + [] == out;
      }
    }
  }

  lemma NextRound(bands: seq<seq<Pick>>, idx: seq<nat>, r: nat)
    requires |bands| == BANDS && Indexes(bands, idx, r, BANDS)
    ensures Indexes(bands, idx, r + 1, 0)
  {
  }

  method TakeTurns(bands: seq<seq<Pick>>) returns (out: seq<Pick>)
    requires |bands| == BANDS
    ensures out == Turns(bands, 0, 0)
  {
    out := [];
    var idx: seq<nat> := [0, 0, 0];
    ghost var r: nat := 0;
    assert out + Rest(bands, 0, 0) == Turns(bands, 0, 0);
    while true
      invariant Indexes(bands, idx, r, 0)
      invariant out + Rest(bands, r, 0) == Turns(bands, 0, 0)
      decreases |bands[0]| + |bands[1]| + |bands[2]| - r
    {
      var any;
      out, idx, any := TakeRound(bands, out, idx, r);
      if !any {
        assert Rest(bands, r, BANDS) == [] && out + [] == out;
        return;
      }
      NextRound(bands, idx, r);
      r := r + 1;
    }
  }

  method Draw(cands: seq<Cand>, seed: bv64) returns (drawn: seq<Pick>)
    ensures drawn == Drawn(cands, seed)
  {
    drawn := Shuffling.ShuffleSeq(Sort(PickLe, Usable(cands)), seed);
  }

  method Select(cands: seq<Cand>, seed: bv64) returns (out: seq<Pick>)
    ensures out == Selected(cands, seed)
    ensures multiset(out) == multiset(Usable(cands))
  {
    var drawn := Draw(cands, seed);
    var bands := SplitBands(drawn);
    out := TakeTurns(bands);
    SelectsEverything(cands, seed);
  }
}
