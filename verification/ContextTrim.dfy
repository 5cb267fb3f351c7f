/** Fitting the context sections into a token budget (gridseak-cli/src/context_command.rs, `render_text`). */
module ContextTrim {
  import opened Basics
  import opened Sorting

  /** `size` is the body's length in bytes. */
  datatype Section = Section(title: string, size: nat, trimRank: nat)

  const HEADER: nat := 50

  function EstimateTokens(size: nat): nat {
    (size + 3) / 4
  }

  function Tokens(kept: seq<Section>): nat {
    if kept == [] then 0 else EstimateTokens(kept[0].size) + Tokens(kept[1..])
  }

  /** The last of the sections with the greatest rank. */
  function DropIndex(kept: seq<Section>): (r: Option<nat>)
    ensures r.Some? <==> kept != []
    ensures r.Some? ==> r.value < |kept|
  {
    if kept == [] then None
    else
      var last := |kept| - 1;
      var best := DropIndex(kept[..last]);
      if best.Some? && kept[best.value].trimRank > kept[last].trimRank then best else Some(last)
  }

  lemma {:induction false} DropIndexMeans(kept: seq<Section>, j: nat)
    requires j < |kept|
    ensures var i := DropIndex(kept).value;
      kept[j].trimRank < kept[i].trimRank || (kept[j].trimRank == kept[i].trimRank && j <= i)
  {
    var last := |kept| - 1;
    if j < last { DropIndexMeans(kept[..last], j); }
  }

  // ----- which sections are kept -----

  /** Section `i` matters more than section `j`: a lower rank, or an earlier place at the same rank. */
  predicate Precedes(sections: seq<Section>, i: nat, j: nat)
    requires i < |sections| && j < |sections|
  {
    sections[i].trimRank < sections[j].trimRank || (sections[i].trimRank == sections[j].trimRank && i < j)
  }

  ghost predicate Places(sections: seq<Section>, keep: set<nat>) {
    forall i :: i in keep ==> i < |sections|
  }

  /** Whatever matters more than a member is a member. */
  ghost predicate Closed(sections: seq<Section>, keep: set<nat>)
    requires Places(sections, keep)
  {
    forall i: nat, j: nat :: i in keep && j < |sections| && j !in keep ==> Precedes(sections, i, j)
  }

  /** The tokens of the sections at `keep`, counting the first `n`. */
  ghost function TokensAt(sections: seq<Section>, keep: set<nat>, n: nat): nat
    requires n <= |sections|
  {
    if n == 0 then 0
    else TokensAt(sections, keep, n - 1) + if n - 1 in keep then EstimateTokens(sections[n - 1].size) else 0
  }

  ghost function Cost(sections: seq<Section>, keep: set<nat>): nat {
    TokensAt(sections, keep, |sections|) + HEADER
  }

  lemma {:induction false} MoreCostsMore(sections: seq<Section>, a: set<nat>, b: set<nat>, n: nat)
    requires n <= |sections| && a <= b
    ensures TokensAt(sections, a, n) <= TokensAt(sections, b, n)
  {
    if n > 0 { MoreCostsMore(sections, a, b, n - 1); }
  }

  /** Places in ascending order, and the sections there. */
  ghost predicate Selects(sections: seq<Section>, ix: seq<nat>, kept: seq<Section>) {
    && |ix| == |kept|
    && (forall a, b :: 0 <= a < b < |ix| ==> ix[a] < ix[b])
    && (forall a :: 0 <= a < |ix| ==> ix[a] < |sections| && sections[ix[a]] == kept[a])
  }

  lemma SelectsAll(sections: seq<Section>)
    ensures Selects(sections, seq(|sections|, (i: nat) => i), sections)
  {
  }

  lemma {:induction false} TokensAppend(a: seq<Section>, b: seq<Section>)
    ensures Tokens(a + b) == Tokens(a) + Tokens(b)
  {
    if a == [] {
      assert a + b == b;
    } else {
      TokensAppend(a[1..], b);
      assert (a + b)[1..] == a[1..] + b;
    }
  }

  lemma TokensLast(kept: seq<Section>)
    requires kept != []
    ensures Tokens(kept) == Tokens(kept[..|kept| - 1]) + EstimateTokens(kept[|kept| - 1].size)
  {
    var last := kept[|kept| - 1];
    assert kept == kept[..|kept| - 1] + [last] && [last][1..] == [];
    TokensAppend(kept[..|kept| - 1], [last]);
  }

  lemma SelectsInit(sections: seq<Section>, ix: seq<nat>, kept: seq<Section>)
    requires Selects(sections, ix, kept) && ix != []
    ensures var last := |ix| - 1;
      Selects(sections, ix[..last], kept[..last]) && Elements(ix) == Elements(ix[..last]) + {ix[last]}
      && forall a :: 0 <= a < last ==> ix[..last][a] < ix[last]
  {
    assert ix == ix[..|ix| - 1] + [ix[|ix| - 1]];
  }

  lemma {:induction false} TokensOfSelected(sections: seq<Section>, ix: seq<nat>, kept: seq<Section>, n: nat)
    requires Selects(sections, ix, kept) && n <= |sections| && forall a :: 0 <= a < |ix| ==> ix[a] < n
    ensures Tokens(kept) == TokensAt(sections, Elements(ix), n)
  {
    if n > 0 {
      if ix != [] && ix[|ix| - 1] == n - 1 {
        var last := |ix| - 1;
        SelectsInit(sections, ix, kept);
        TokensOfSelected(sections, ix[..last], kept[..last], n - 1);
        TokensLast(kept);
        SameTokens(sections, Elements(ix[..last]), Elements(ix), n - 1);
      } else {
        assert n - 1 !in ix;
        TokensOfSelected(sections, ix, kept, n - 1);
      }
    }
  }

  lemma {:induction false} SameTokens(sections: seq<Section>, a: set<nat>, b: set<nat>, n: nat)
    requires n <= |sections| && forall i :: 0 <= i < n ==> (i in a <==> i in b)
    ensures TokensAt(sections, a, n) == TokensAt(sections, b, n)
  {
    if n > 0 { SameTokens(sections, a, b, n - 1); }
  }

  // ----- what trimming keeps -----

  /** No choice that keeps whatever matters more can afford anything beyond `keep`. */
  ghost predicate Largest(sections: seq<Section>, keep: set<nat>, budget: nat) {
    forall other: set<nat> ::
      Places(sections, other) && Closed(sections, other) && Cost(sections, other) <= budget ==> other <= keep
  }

  lemma OneWay(sections: seq<Section>, i: nat, j: nat)
    requires i < |sections| && j < |sections|
    ensures Precedes(sections, i, j) ==> !Precedes(sections, j, i)
  {
  }

  lemma KeepsLargest(sections: seq<Section>, keep: set<nat>, d: nat, budget: nat)
    requires Places(sections, keep) && Closed(sections, keep)
    requires d in keep && forall i :: i in keep ==> i == d || Precedes(sections, i, d)
    requires Largest(sections, keep, budget) && Cost(sections, keep) > budget
    ensures Closed(sections, keep - {d}) && Largest(sections, keep - {d}, budget)
  {
    forall other: set<nat> | Places(sections, other) && Closed(sections, other) && Cost(sections, other) <= budget
      ensures other <= keep - {d}
    {
      assert other <= keep;
      if d in other {
        forall i | i in keep ensures i in other {
          OneWay(sections, i, d);
        }
        MoreCostsMore(sections, keep, other, |sections|);
        assert false;
      }
    }
  }

  ghost predicate Trimming(sections: seq<Section>, budget: nat, ix: seq<nat>, kept: seq<Section>) {
    && Selects(sections, ix, kept)
    && Places(sections, Elements(ix)) && Closed(sections, Elements(ix)) && Largest(sections, Elements(ix), budget)
  }

  lemma SelectsWithout(sections: seq<Section>, ix: seq<nat>, kept: seq<Section>, i: nat)
    requires Selects(sections, ix, kept) && i < |ix|
    ensures Selects(sections, Without(ix, i), Without(kept, i))
  {
  }

  /** The section to drop matters least of those kept. */
  lemma DropsLeast(sections: seq<Section>, ix: seq<nat>, kept: seq<Section>, i: nat, x: nat)
    requires Selects(sections, ix, kept) && DropIndex(kept) == Some(i) && x in ix
    ensures x < |sections| && (x == ix[i] || Precedes(sections, x, ix[i]))
  {
    var j :| 0 <= j < |ix| && ix[j] == x;
    DropIndexMeans(kept, j);
  }

  lemma TrimStep(sections: seq<Section>, budget: nat, ix: seq<nat>, kept: seq<Section>, i: nat)
    requires Trimming(sections, budget, ix, kept) && Tokens(kept) + HEADER > budget
    requires i < |kept| && DropIndex(kept) == Some(i)
    ensures Trimming(sections, budget, Without(ix, i), Without(kept, i))
  {
    TokensOfSelected(sections, ix, kept, |sections|);
    forall x | x in Elements(ix) ensures x == ix[i] || Precedes(sections, x, ix[i]) {
      DropsLeast(sections, ix, kept, i, x);
    }
    KeepsLargest(sections, Elements(ix), ix[i], budget);
    RemoveOne(ix, i);
    SelectsWithout(sections, ix, kept, i);
  }

  lemma RemoveOne(ix: seq<nat>, i: nat)
    requires i < |ix| && forall a, b :: 0 <= a < b < |ix| ==> ix[a] < ix[b]
    ensures Elements(Without(ix, i)) == Elements(ix) - {ix[i]}
  {
    forall x ensures x in Without(ix, i) <==> x in ix && x != ix[i] {
      if x in ix && x != ix[i] {
        var j :| 0 <= j < |ix| && ix[j] == x;
        assert Without(ix, i)[if j < i then j else j - 1] == x;
      }
    }
  }

  /** The dropped section that matters most, put back, exceeds the budget. */
  lemma PuttingBackExceeds(sections: seq<Section>, keep: set<nat>, d: nat, budget: nat)
    requires Places(sections, keep) && Closed(sections, keep) && Largest(sections, keep, budget)
    requires d < |sections| && d !in keep
    requires forall j: nat :: j < |sections| && j !in keep && j != d ==> Precedes(sections, d, j)
    ensures Cost(sections, keep + {d}) > budget
  {
    assert Places(sections, keep + {d});
    assert Closed(sections, keep + {d});
    assert d in keep + {d};
  }

  /** The kept sections stand in their original order at the places `ix`. They fit, or at most one is left; none
      matters less than a dropped one; and no other such choice within the budget keeps a section they do not. */
  method TrimSections(sections: seq<Section>, budget: nat)
    returns (kept: seq<Section>, estimated: nat, truncated: bool, ghost ix: seq<nat>)
    ensures Selects(sections, ix, kept) && Closed(sections, Elements(ix))
    ensures Largest(sections, Elements(ix), budget)
    ensures truncated <==> Tokens(kept) + HEADER > budget
    ensures truncated ==> |kept| <= 1
    ensures sections != [] ==> kept != []
    ensures estimated == if truncated then Tokens(kept) else Tokens(kept) + HEADER
  {
    kept, ix := sections, seq(|sections|, (i: nat) => i);
    SelectsAll(sections);
    assert Closed(sections, Elements(ix));
    while true
      invariant Trimming(sections, budget, ix, kept)
      invariant sections != [] ==> kept != []
      decreases |kept|
    {
      estimated := Tokens(kept) + HEADER;
      if estimated <= budget {
        return kept, estimated, false, ix;
      }
      var drop := DropIndex(kept);
      if drop.Some? && |kept| > 1 {
        TrimStep(sections, budget, ix, kept, drop.value);
        kept, ix := Without(kept, drop.value), Without(ix, drop.value);
      } else {
        return kept, Tokens(kept), true, ix;
      }
    }
  }
}
