/** What the use graph is worth: every use once, and only true pairs. */
module UseLaws {
  import opened Basics
  import opened Multimaps
  import opened RustSymbols
  import opened ScipIndex
  import opened UseGraph
  import Sorting
  import Text

  // ----- completeness -----

  /** The pairs a scan of every document would give. */
  ghost function AllPairs(u: Classes, index: Index, docs: seq<Document>): seq<Pair> {
    GlobalPairs(u, index, docs) + Flat(Entries(docs), LocalPairs)
  }

  /** The answer is complete exactly when no replaced document held a pair of locals. */
  lemma {:induction false} CompleteExactly(u: Classes, index: Index, docs: seq<Document>, pairs: seq<Pair>)
    requires multiset(pairs) == multiset(GlobalPairs(u, index, docs)) + multiset(Flat(Kept(Entries(docs)), LocalPairs))
    ensures multiset(pairs) == multiset(AllPairs(u, index, docs)) <==>
      forall e :: e in Replaced(Entries(docs)) ==> LocalPairs(e) == []
  {
    var es := Entries(docs);
    var kept, lost := Flat(Kept(es), LocalPairs), Flat(Replaced(es), LocalPairs);
    KeptAndReplaced(es, LocalPairs);
    assert multiset(AllPairs(u, index, docs)) == multiset(pairs) + multiset(lost);
    SameAfterAdding(multiset(pairs), lost);
    if forall e :: e in Replaced(es) ==> LocalPairs(e) == [] {
      FlatSilent(Replaced(es), LocalPairs);
    }
    if lost == [] {
      FlatEmpty(Replaced(es), LocalPairs);
    }
  }

  lemma SameAfterAdding<X>(m: multiset<X>, more: seq<X>)
    ensures m == m + multiset(more) <==> more == []
  {
    assert |m + multiset(more)| == |m| + |more|;
  }

  lemma {:induction false} FlatEmpty<E, X>(log: seq<E>, emit: E -> seq<X>)
    requires Flat(log, emit) == []
    ensures forall e :: e in log ==> emit(e) == []
  {
    if log != [] {
      var init, e := log[..|log| - 1], log[|log| - 1];
      assert |Flat(log, emit)| == |Flat(init, emit)| + |emit(e)|;
      FlatEmpty(init, emit);
      assert log == init + [e];
    }
  }

  /** With distinct normalized paths nothing is lost. */
  lemma {:induction false} CompleteWhenDistinct(u: Classes, index: Index, docs: seq<Document>, pairs: seq<Pair>)
    requires multiset(pairs) == multiset(GlobalPairs(u, index, docs)) + multiset(Flat(Kept(Entries(docs)), LocalPairs))
    requires DistinctPaths(Entries(docs))
    ensures multiset(pairs) == multiset(AllPairs(u, index, docs))
  {
    NothingReplaced(Entries(docs));
    CompleteExactly(u, index, docs, pairs);
  }

  const A_DEFINITION := Occurrence("local 0", true, Some(Range(0, 4, 0, 5)))
  const A_USE := Occurrence("local 0", false, Some(Range(1, 4, 1, 5)))
  const A_FILE := Document("./a", [], [A_DEFINITION, A_USE])
  const SAME_FILE := Document("a", [], [])

  lemma LoadsInOrder()
    ensures DocumentEntry(A_FILE) == Entry("./a", [A_DEFINITION, A_USE]) && DocumentEntry(SAME_FILE) == Entry("a", [])
  {
    var os := [A_DEFINITION, A_USE];
    assert os[1..] == [A_USE] && [A_USE][1..] == [];
    assert Sorting.Sort(OccurrenceLe, [A_USE]) == [A_USE];
    assert OccurrenceLe(A_DEFINITION, A_USE);
    assert Sorting.Sort(OccurrenceLe, os) == [A_DEFINITION] + [A_USE];
  }

  lemma NormalizeAlike()
    ensures NormalizePath("./a") == NormalizePath("a")
  {
    assert "./a"[2..] == "a";
    assert Text.TrimDotSlash("./a") == Text.TrimDotSlash("a");
  }

  lemma OneLocalPair(e: Entry)
    requires e.occurrences == [A_DEFINITION, A_USE]
    ensures LocalPairs(e) != []
  {
    var os, def, at := e.occurrences, At(e.path, A_DEFINITION), At(e.path, A_USE);
    assert os[..1] == [A_DEFINITION] && os[..0] == [];
    assert [A_DEFINITION][..0] == [];
    assert Located(e.path, [A_DEFINITION], true) == [def] && Located(e.path, [A_DEFINITION], false) == [];
    assert LocatedIn(true)(e) == [def] && LocatedIn(false)(e) == [at];
    AboutStep([], def, "local 0");
    assert [] + [def] == [def];
    FlatStep([], at, LocalPair([def]));
    assert [] + [at] == [at];
  }

  /** Two documents whose paths normalize alike: the first one's local pair is lost. */
  lemma ReplacedDocumentLosesPairs()
    ensures exists e :: e in Replaced(Entries([A_FILE, SAME_FILE])) && LocalPairs(e) != []
  {
    var first, second := DocumentEntry(A_FILE), DocumentEntry(SAME_FILE);
    var es := Entries([A_FILE, SAME_FILE]);
    LoadsInOrder();
    NormalizeAlike();
    OneLocalPair(first);
    assert es == [first, second] && es[..1] == [first] && [first][..0] == [];
    PickMeans(Kept([first]), EntryPath(second), true);
    assert first in Kept([first]);
  }

  // ----- one pair per use -----

  function Uses(ps: seq<Pair>): seq<Location> {
    if ps == [] then [] else Uses(ps[..|ps| - 1]) + [ps[|ps| - 1].0]
  }

  lemma UsesStep(ps: seq<Pair>, more: seq<Pair>)
    requires |more| <= 1
    ensures Uses(ps + more) == Uses(ps) + Uses(more)
  {
    if more == [] {
      assert ps + more == ps;
    } else {
      assert (ps + more)[..|ps|] == ps && more[..0] == [];
    }
  }

  ghost predicate GivesOne(emit: Location -> seq<Pair>, paired: Location -> bool, l: Location) {
    |emit(l)| <= 1 && Uses(emit(l)) == if paired(l) then [l] else []
  }

  lemma {:induction false} OneEach(log: seq<Location>, emit: Location -> seq<Pair>, paired: Location -> bool)
    requires forall l :: l in log ==> GivesOne(emit, paired, l)
    ensures Uses(Flat(log, emit)) == Filter(log, paired)
  {
    if log != [] {
      var init, l := log[..|log| - 1], log[|log| - 1];
      assert log == init + [l];
      OneEach(init, emit, paired);
      assert GivesOne(emit, paired, l);
      FilterLast(init, l, paired);
      UsesStep(Flat(init, emit), emit(l));
    }
  }

  lemma FilterLast(s: seq<Location>, l: Location, p: Location -> bool)
    ensures Filter(s + [l], p) == Filter(s, p) + if p(l) then [l] else []
  {
    FilterAppend(s, [l], p);
  }

  lemma UsesOfPair(l: Location, d: Option<Location>)
    ensures |PairWith(l, d)| <= 1 && Uses(PairWith(l, d)) == if d.Some? then [l] else []
  {
    UsesStep([], PairWith(l, d));
  }

  /** A symbol defined here, or a dispatched method of an external trait with an implementation here. */
  function Resolves(u: Classes, index: Index, defs: seq<Location>): Location -> bool {
    (l: Location) => !IsLocal(l.symbol) && (About(defs, l.symbol) != [] || ExternalAnchor(u, index, l.symbol).Some?)
  }

  function ResolvesLocally(defs: seq<Location>): Location -> bool {
    (l: Location) => IsLocal(l.symbol) && About(defs, l.symbol) != []
  }

  /** Every decodable use that resolves gives exactly one pair, and no other use gives any. */
  lemma {:induction false} EveryUseOnce(u: Classes, index: Index, docs: seq<Document>, e: Entry)
    ensures Uses(GlobalPairs(u, index, docs)) ==
      Filter(Scan(Entries(docs), false), Resolves(u, index, Scan(Entries(docs), true)))
    ensures Uses(LocalPairs(e)) == Filter(LocatedIn(false)(e), ResolvesLocally(LocatedIn(true)(e)))
  {
    var refs, defs := Scan(Entries(docs), false), Scan(Entries(docs), true);
    var emit, paired := GlobalPair(u, index, defs), Resolves(u, index, defs);
    forall l | l in refs ensures GivesOne(emit, paired, l) {
      var ds := About(defs, l.symbol);
      if ds != [] { NearestIsNearest(ds, l.path); }
      UsesOfPair(l, Partner(u, index, ds, l));
    }
    OneEach(refs, emit, paired);
    var mine := LocatedIn(true)(e);
    forall l | l in LocatedIn(false)(e) ensures GivesOne(LocalPair(mine), ResolvesLocally(mine), l) {
      UsesOfPair(l, LastOf(About(mine, l.symbol)));
    }
    OneEach(LocatedIn(false)(e), LocalPair(mine), ResolvesLocally(mine));
  }

  // ----- soundness -----

  /** `d` is the definition a use that several definitions share should lead to. */
  ghost predicate Nearest(ds: seq<Location>, site: string, d: Location) {
    && d in ds
    && ((exists x :: x in ds && x.path == site) ==> d.path == site)
    && ((forall x :: x in ds ==> x.path != site) ==> forall x :: x in ds ==> Shared(x, site) <= Shared(d, site))
  }

  /** Same symbol on both sides; locals within one document; a repeated rust-analyzer symbol to its nearest
      definition; any other to the last definition, or to an implementation when there is none. */
  ghost predicate TruePair(u: Classes, index: Index, docs: seq<Document>, p: Pair) {
    var es := Entries(docs);
    var ds := About(Scan(es, true), p.0.symbol);
    && p.1.symbol == p.0.symbol
    && p.0 in Scan(es, false)
    && if IsLocal(p.0.symbol) then exists e :: WithinDocument(es, e, p)
       else if ds == [] then AtImplementation(u, index, docs, p)
       else if |ds| >= 2 && Text.StartsWith(p.0.symbol, SCHEME) then Nearest(ds, p.0.path, p.1)
       else p.1 == ds[|ds| - 1]
  }

  ghost predicate WithinDocument(es: seq<Entry>, e: Entry, p: Pair) {
    e in es && p.0 in LocatedIn(false)(e) && p.1 in LocatedIn(true)(e) && p.0.path == p.1.path == e.path
  }

  ghost predicate AtImplementation(u: Classes, index: Index, docs: seq<Document>, p: Pair) {
    && RustMethodShape(u, p.0.symbol).Some? && RustMethodShape(u, p.0.symbol).value.TraitDecl?
    && ImplementationsOf(index, p.0.symbol) != []
    && p.1.(symbol := ImplementationsOf(index, p.0.symbol)[0]) in Scan(Entries(docs), true)
  }

  lemma {:induction false} FlatFrom<E, X>(log: seq<E>, emit: E -> seq<X>, x: X)
    requires x in Flat(log, emit)
    ensures exists e :: e in log && x in emit(e)
  {
    var init, e := log[..|log| - 1], log[|log| - 1];
    assert log == init + [e];
    if x !in emit(e) {
      FlatFrom(init, emit, x);
      var y :| y in init && x in emit(y);
      assert y in log;
    }
  }

  lemma {:induction false} FlatInto<E, X>(log: seq<E>, emit: E -> seq<X>, e: E, x: X)
    requires e in log && x in emit(e)
    ensures x in Flat(log, emit)
  {
    var init, last := log[..|log| - 1], log[|log| - 1];
    assert log == init + [last];
    if e != last { FlatInto(init, emit, e, x); }
  }

  lemma {:induction false} LocatedPath(path: string, os: seq<Occurrence>, role: bool)
    ensures forall l :: l in Located(path, os, role) ==> l.path == path
  {
    if os != [] { LocatedPath(path, os[..|os| - 1], role); }
  }

  lemma {:induction false} KeptWithin(es: seq<Entry>)
    ensures forall e :: e in Kept(es) ==> e in es
  {
    if es != [] {
      var init, e := es[..|es| - 1], es[|es| - 1];
      KeptWithin(init);
      PickMeans(Kept(init), EntryPath(e), false);
      assert es == init + [e];
    }
  }

  lemma {:induction false} PartnerIsTrue(u: Classes, index: Index, docs: seq<Document>, l: Location, d: Location)
    requires Built(u, index, docs) && l in Scan(Entries(docs), false) && !IsLocal(l.symbol)
    requires Partner(u, index, About(Scan(Entries(docs), true), l.symbol), l) == Some(d)
    ensures TruePair(u, index, docs, (l, d))
  {
    var defs := Scan(Entries(docs), true);
    var ds := About(defs, l.symbol);
    AboutSymbol(defs, l.symbol);
    if ds == [] {
      AnchorIsTrue(u, index, docs, l);
    } else {
      NearestIsNearest(ds, l.path);
    }
  }

  lemma {:induction false} GlobalIsTrue(u: Classes, index: Index, docs: seq<Document>, p: Pair)
    requires Built(u, index, docs) && p in GlobalPairs(u, index, docs)
    ensures TruePair(u, index, docs, p)
  {
    var emit := GlobalPair(u, index, Scan(Entries(docs), true));
    FlatFrom(Scan(Entries(docs), false), emit, p);
    var l :| l in Scan(Entries(docs), false) && p in emit(l);
    PartnerIsTrue(u, index, docs, l, p.1);
  }

  lemma {:induction false} AnchorIsTrue(u: Classes, index: Index, docs: seq<Document>, l: Location)
    requires Built(u, index, docs) && ExternalAnchor(u, index, l.symbol).Some?
    ensures AtImplementation(u, index, docs, (l, ExternalAnchor(u, index, l.symbol).value))
  {
    var defs, first := Scan(Entries(docs), true), ImplementationsOf(index, l.symbol)[0];
    var ds, at := About(defs, first), index.definitions[first];
    assert DefinitionRow(index.definitions, index.repeated, ds, first);
    assert at in ds;
    AboutSymbol(defs, first);
    assert at.(symbol := l.symbol).(symbol := first) == at;
  }

  lemma {:induction false} LocalIsTrue(u: Classes, index: Index, docs: seq<Document>, e: Entry, p: Pair)
    requires e in Entries(docs) && p in LocalPairs(e)
    ensures TruePair(u, index, docs, p)
  {
    var es, uses, defs := Entries(docs), LocatedIn(false)(e), LocatedIn(true)(e);
    FlatFrom(uses, LocalPair(defs), p);
    var l :| l in uses && p in LocalPair(defs)(l);
    AboutSymbol(defs, l.symbol);
    LocatedPath(e.path, e.occurrences, true);
    LocatedPath(e.path, e.occurrences, false);
    FlatInto(es, LocatedIn(false), e, l);
    assert p.1 in About(defs, l.symbol);
    assert WithinDocument(es, e, p);
  }

  /** Every reported pair is a true one. */
  lemma {:induction false} PairsAreTrue(u: Classes, index: Index, docs: seq<Document>, pairs: seq<Pair>, p: Pair)
    requires Built(u, index, docs) && p in pairs
    requires multiset(pairs) == multiset(GlobalPairs(u, index, docs)) + multiset(Flat(Kept(Entries(docs)), LocalPairs))
    ensures TruePair(u, index, docs, p)
  {
    var kept := Kept(Entries(docs));
    assert p in multiset(pairs);
    if p in GlobalPairs(u, index, docs) {
      GlobalIsTrue(u, index, docs, p);
    } else {
      assert p in Flat(kept, LocalPairs);
      FlatFrom(kept, LocalPairs, p);
      KeptWithin(Entries(docs));
      var e :| e in kept && p in LocalPairs(e);
      LocalIsTrue(u, index, docs, e, p);
    }
  }
}
