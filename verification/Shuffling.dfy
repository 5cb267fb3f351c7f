/** The seeded Fisher-Yates shuffle both planners use
    (gridseak-cli/src/audit.rs and gridseak-cli/src/audit_edit.rs). */
module Shuffling {
  import opened Sorting

  /** Wrapping multiply-add of the user's seed, forced odd. */
  function SeedState(seed: bv64): (rng: bv64)
    ensures rng != 0
  {
    (seed * 6364136223846793005 + 1442695040888963407) | 1
  }

  /** One xorshift step; a live generator never reaches the absorbing state 0. */
  function XorShift(rng: bv64): (r: bv64)
    ensures rng != 0 ==> r != 0
  {
    var a := rng ^ (rng << 13);
    var b := a ^ (a >> 7);
    b ^ (b << 17)
  }

  function Swap<T>(s: seq<T>, i: nat, j: nat): seq<T>
    requires i < |s| && j < |s|
  {
    s[i := s[j]][j := s[i]]
  }

  /** What is left of the shuffle when positions above `i` are settled. */
  function Shuffled<T>(s: seq<T>, i: nat, rng: bv64): seq<T>
    requires i < |s| || i == 0
    decreases i
  {
    if i == 0 then s
    else
      var r := XorShift(rng);
      Shuffled(Swap(s, i, (r as int) % (i + 1)), i - 1, r)
  }

  lemma SwapPermutes<T>(s: seq<T>, i: nat, j: nat)
    requires i < |s| && j < |s|
    ensures multiset(Swap(s, i, j)) == multiset(s)
  {
  }

  lemma {:induction false} ShufflePermutes<T>(s: seq<T>, i: nat, rng: bv64)
    requires i < |s| || i == 0
    ensures multiset(Shuffled(s, i, rng)) == multiset(s)
    decreases i
  {
    if i > 0 {
      var r := XorShift(rng);
      var j := (r as int) % (i + 1);
      SwapPermutes(s, i, j);
      ShufflePermutes(Swap(s, i, j), i - 1, r);
      assert Shuffled(s, i, rng) == Shuffled(Swap(s, i, j), i - 1, r);
    }
  }

  method SwapInPlace<T>(a: array<T>, i: nat, j: nat)
    requires i < a.Length && j < a.Length
    modifies a
    ensures a[..] == Swap(old(a[..]), i, j)
  {
    a[i], a[j] := a[j], a[i];
  }

  /** Shuffles `a` in place: the same seed and contents always give the same order. */
  method Shuffle<T>(a: array<T>, seed: bv64)
    modifies a
    ensures a[..] == Shuffled(old(a[..]), if a.Length == 0 then 0 else a.Length - 1, SeedState(seed))
    ensures multiset(a[..]) == multiset(old(a[..]))
  {
    var rng := SeedState(seed);
    var i: nat := if a.Length == 0 then 0 else a.Length - 1;
    ghost var goal := Shuffled(a[..], i, rng);
    ShufflePermutes(a[..], i, rng);
    while i > 0
      invariant (i < a.Length || i == 0) && rng != 0
      invariant Shuffled(a[..], i, rng) == goal
    {
      rng := XorShift(rng);
      SwapInPlace(a, i, (rng as int) % (i + 1));
      i := i - 1;
    }
  }

  /** The same on a sequence, by way of an array. */
  method ShuffleSeq<T>(s: seq<T>, seed: bv64) returns (r: seq<T>)
    ensures r == Shuffled(s, if s == [] then 0 else |s| - 1, SeedState(seed))
    ensures multiset(r) == multiset(s)
  {
    var a := new T[|s|](i requires 0 <= i < |s| => s[i]);
    assert a[..] == s;
    Shuffle(a, seed);
    r := a[..];
  }
}
