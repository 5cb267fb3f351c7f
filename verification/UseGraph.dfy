/** Pairing every use with its definition (graphengine-scip-adapter/src/index.rs, `reference_occurrences`). */
module UseGraph {
  import opened Basics
  import opened Multimaps
  import opened RustSymbols
  import opened ScipIndex
  import Text

  type Pair = (Location, Location)

  predicate IsLocal(symbol: string) {
    Text.StartsWith(symbol, "local ")
  }

  // ----- the nearest definition -----

  function SharedCount(a: seq<string>, b: seq<string>): nat {
    if a == [] || b == [] || a[0] != b[0] then 0 else 1 + SharedCount(a[1..], b[1..])
  }

  /** Leading path components `l` has in common with `site`. */
  function Shared(l: Location, site: string): nat {
    SharedCount(Text.Split(l.path, '/'), Text.Split(site, '/'))
  }

  function FirstInFile(ds: seq<Location>, site: string): Option<Location> {
    if ds == [] then None
    else if ds[0].path == site then Some(ds[0])
    else FirstInFile(ds[1..], site)
  }

  /** The last of those sharing most, as `max_by_key` picks. */
  function MostShared(ds: seq<Location>, site: string): Location
    requires ds != []
  {
    var last := ds[|ds| - 1];
    if |ds| == 1 then last
    else
      var best := MostShared(ds[..|ds| - 1], site);
      if Shared(best, site) <= Shared(last, site) then last else best
  }

  function NearestDefinition(ds: seq<Location>, site: string): Option<Location> {
    if ds == [] then None
    else
      match FirstInFile(ds, site)
      case Some(d) => Some(d)
      case None => Some(MostShared(ds, site))
  }

  lemma {:induction false} FirstInFileMeans(ds: seq<Location>, site: string)
    ensures FirstInFile(ds, site).Some? <==> exists d :: d in ds && d.path == site
    ensures FirstInFile(ds, site).Some? ==>
      FirstInFile(ds, site).value in ds && FirstInFile(ds, site).value.path == site
  {
    if ds != [] {
      FirstInFileMeans(ds[1..], site);
      assert ds == [ds[0]] + ds[1..];
    }
  }

  lemma {:induction false} MostSharedMeans(ds: seq<Location>, site: string)
    requires ds != []
    ensures MostShared(ds, site) in ds
    ensures forall d :: d in ds ==> Shared(d, site) <= Shared(MostShared(ds, site), site)
  {
    if |ds| > 1 {
      var init := ds[..|ds| - 1];
      MostSharedMeans(init, site);
      assert ds == init + [ds[|ds| - 1]];
    }
  }

  /** One of the definitions: in the use's own file if any is, else sharing a longest leading path with it. */
  lemma {:induction false} NearestIsNearest(ds: seq<Location>, site: string)
    requires ds != []
    ensures NearestDefinition(ds, site).Some?
    ensures var d := NearestDefinition(ds, site).value;
      && d in ds
      && ((exists x :: x in ds && x.path == site) ==> d.path == site)
      && ((forall x :: x in ds ==> x.path != site) ==> forall x :: x in ds ==> Shared(x, site) <= Shared(d, site))
  {
    FirstInFileMeans(ds, site);
    MostSharedMeans(ds, site);
  }

  // ----- which definition a use pairs with -----

  /** Where a use of a trait method declared outside the index is anchored. */
  function ExternalAnchor(u: Classes, index: Index, symbol: string): Option<Location> {
    var shape := RustMethodShape(u, symbol);
    if shape.None? || !shape.value.TraitDecl? then None
    else if ImplementationsOf(index, symbol) == [] then None
    else
      var first := ImplementationsOf(index, symbol)[0];
      if first !in index.definitions then None
      else Some(index.definitions[first].(symbol := symbol))
  }

  /** The definition a non-local use pairs with, given every definition of its symbol in load order. */
  function Partner(u: Classes, index: Index, ds: seq<Location>, at: Location): Option<Location> {
    if ds == [] then ExternalAnchor(u, index, at.symbol)
    else if |ds| >= 2 && Text.StartsWith(at.symbol, SCHEME) then NearestDefinition(ds, at.path)
    else Some(ds[|ds| - 1])
  }

  function PairWith(at: Location, d: Option<Location>): seq<Pair> {
    if d.Some? then [(at, d.value)] else []
  }

  /** What one use contributes: nothing for locals, else at most one pair. */
  function GlobalPair(u: Classes, index: Index, defs: seq<Location>): Location -> seq<Pair> {
    (l: Location) => if IsLocal(l.symbol) then [] else PairWith(l, Partner(u, index, About(defs, l.symbol), l))
  }

  function LastOf(ds: seq<Location>): Option<Location> {
    if ds == [] then None else Some(ds[|ds| - 1])
  }

  function LocalPair(defs: seq<Location>): Location -> seq<Pair> {
    (l: Location) => if IsLocal(l.symbol) then PairWith(l, LastOf(About(defs, l.symbol))) else []
  }

  /** A document's own locals, each use with the document's last definition of that name. */
  function LocalPairs(e: Entry): seq<Pair> {
    Flat(LocatedIn(false)(e), LocalPair(LocatedIn(true)(e)))
  }

  function EntryPath(e: Entry): string {
    NormalizePath(e.path)
  }

  // ----- documents that share a normalized path -----

  function Pick(es: seq<Entry>, k: string, same: bool): seq<Entry> {
    if es == [] then []
    else if (EntryPath(es[|es| - 1]) == k) == same then Pick(es[..|es| - 1], k, same) + [es[|es| - 1]]
    else Pick(es[..|es| - 1], k, same)
  }

  /** The documents the path table keeps: the last of each normalized path. */
  function Kept(es: seq<Entry>): seq<Entry> {
    if es == [] then []
    else Pick(Kept(es[..|es| - 1]), EntryPath(es[|es| - 1]), false) + [es[|es| - 1]]
  }

  /** The documents a later one of the same normalized path replaced. */
  function Replaced(es: seq<Entry>): seq<Entry> {
    if es == [] then []
    else Replaced(es[..|es| - 1]) + Pick(Kept(es[..|es| - 1]), EntryPath(es[|es| - 1]), true)
  }

  lemma {:induction false} PickMeans(es: seq<Entry>, k: string, same: bool)
    ensures forall e :: e in Pick(es, k, same) <==> e in es && ((EntryPath(e) == k) == same)
  {
    if es != [] {
      var init, e := es[..|es| - 1], es[|es| - 1];
      PickMeans(init, k, same);
      assert es == init + [e];
    }
  }

  lemma {:induction false} PickSplits<X>(es: seq<Entry>, k: string, emit: Entry -> seq<X>)
    ensures multiset(Flat(es, emit)) ==
      multiset(Flat(Pick(es, k, false), emit)) + multiset(Flat(Pick(es, k, true), emit))
  {
    if es != [] {
      var init, e := es[..|es| - 1], es[|es| - 1];
      PickSplits(init, k, emit);
      var same := EntryPath(e) == k;
      FlatStep(Pick(init, k, same), e, emit);
      assert Pick(es, k, same) == Pick(init, k, same) + [e];
      assert Pick(es, k, !same) == Pick(init, k, !same);
    }
  }

  /** The pairs of all documents are those of the kept and those of the replaced. */
  lemma {:induction false} KeptAndReplaced<X>(es: seq<Entry>, emit: Entry -> seq<X>)
    ensures multiset(Flat(es, emit)) == multiset(Flat(Kept(es), emit)) + multiset(Flat(Replaced(es), emit))
  {
    if es != [] {
      var init, e := es[..|es| - 1], es[|es| - 1];
      KeptAndReplaced(init, emit);
      var k := EntryPath(e);
      PickSplits(Kept(init), k, emit);
      FlatStep(Pick(Kept(init), k, false), e, emit);
      FlatAppend(Replaced(init), Pick(Kept(init), k, true), emit);
    }
  }

  lemma {:induction false} EmittedPick<X>(es: seq<Entry>, k: string, emit: Entry -> seq<X>, x: string)
    ensures Emitted(Pick(es, k, false), EntryPath, emit, {x}) ==
      if x == k then [] else Emitted(es, EntryPath, emit, {x})
  {
    if es != [] {
      var init, e := es[..|es| - 1], es[|es| - 1];
      EmittedPick(init, k, emit, x);
      if EntryPath(e) == k {
        assert Pick(es, k, false) == Pick(init, k, false);
      } else {
        assert Pick(es, k, false) == Pick(init, k, false) + [e];
        EmittedMore(Pick(init, k, false), e, emit, x);
      }
    }
  }

  lemma EmittedMore<X>(es: seq<Entry>, e: Entry, emit: Entry -> seq<X>, x: string)
    ensures Emitted(es + [e], EntryPath, emit, {x}) ==
      Emitted(es, EntryPath, emit, {x}) + if EntryPath(e) == x then emit(e) else []
  {
    assert (es + [e])[..|es|] == es;
  }

  /** A normalized path emits the pairs of the one document the table has for it. */
  lemma {:induction false} KeptMeans<X>(es: seq<Entry>, emit: Entry -> seq<X>, k: string)
    ensures (exists e :: e in Kept(es) && EntryPath(e) == k) <==> k in LastByPath(es)
    ensures Emitted(Kept(es), EntryPath, emit, {k}) == if k in LastByPath(es) then emit(LastByPath(es)[k]) else []
  {
    if es != [] {
      var init, e := es[..|es| - 1], es[|es| - 1];
      KeptMeans(init, emit, k);
      PickMeans(Kept(init), EntryPath(e), false);
      EmittedPick(Kept(init), EntryPath(e), emit, k);
      EmittedMore(Pick(Kept(init), EntryPath(e), false), e, emit, k);
    }
  }

  ghost predicate DistinctPaths(es: seq<Entry>) {
    forall i, j :: 0 <= i < j < |es| ==> EntryPath(es[i]) != EntryPath(es[j])
  }

  lemma DistinctInit(es: seq<Entry>)
    requires es != [] && DistinctPaths(es)
    ensures DistinctPaths(es[..|es| - 1])
    ensures forall x :: x in es[..|es| - 1] ==> EntryPath(x) != EntryPath(es[|es| - 1])
  {
    var init := es[..|es| - 1];
    forall x | x in init ensures EntryPath(x) != EntryPath(es[|es| - 1]) {
      var i :| 0 <= i < |init| && init[i] == x;
      assert es[i] == x;
    }
  }

  lemma {:induction false} NothingReplaced(es: seq<Entry>)
    requires DistinctPaths(es)
    ensures Replaced(es) == [] && Kept(es) == es
  {
    if es != [] {
      var init, e := es[..|es| - 1], es[|es| - 1];
      DistinctInit(es);
      NothingReplaced(init);
      PickApart(init, EntryPath(e));
      assert es == init + [e] && [] + [] == Replaced(es);
    }
  }

  lemma {:induction false} PickApart(es: seq<Entry>, k: string)
    requires forall e :: e in es ==> EntryPath(e) != k
    ensures Pick(es, k, false) == es && Pick(es, k, true) == []
  {
    if es != [] {
      var init, e := es[..|es| - 1], es[|es| - 1];
      assert es == init + [e];
      PickApart(init, k);
    }
  }

  // ----- the loops -----

  lemma {:induction false} AboutSymbol(log: seq<Location>, s: string)
    ensures forall l :: l in About(log, s) ==> l.symbol == s && l in log
  {
    if log != [] {
      AboutSymbol(log[..|log| - 1], s);
      assert log == log[..|log| - 1] + [log[|log| - 1]];
    }
  }

  /** The tables lead a use to the partner a scan of all definitions would. */
  lemma PartnerFromTables(u: Classes, index: Index, ds: seq<Location>, at: Location)
    requires DefinitionRow(index.definitions, index.repeated, ds, at.symbol)
    ensures Partner(u, index, ds, at) == TablePartner(u, index, at)
  {
  }

  function TablePartner(u: Classes, index: Index, at: Location): Option<Location> {
    var s := at.symbol;
    var def := if s in index.definitions then Some(index.definitions[s]) else ExternalAnchor(u, index, s);
    if def.None? then None
    else
      var repeated := if Text.StartsWith(s, SCHEME) then GetAll(index.repeated, s) else [];
      var nearest := NearestDefinition(repeated, at.path);
      if nearest.Some? then nearest else def
  }

  /** The pairs of one symbol's uses. */
  method PairsOfSymbol(u: Classes, index: Index, s: string) returns (ps: seq<Pair>)
    ensures IsLocal(s) ==> ps == []
    ensures !IsLocal(s) ==> ps == Flat(ReferencesOf(index, s), TablePair(u, index, s))
  {
    ps := [];
    if IsLocal(s) {
      return;
    }
    var refs := ReferencesOf(index, s);
    ghost var emit := TablePair(u, index, s);
    var def := if s in index.definitions then Some(index.definitions[s]) else ExternalAnchor(u, index, s);
    if def.None? {
      FlatSilent(refs, emit);
      return;
    }
    var repeated := if Text.StartsWith(s, SCHEME) then GetAll(index.repeated, s) else [];
    for i := 0 to |refs|
      invariant ps == Flat(refs[..i], emit)
    {
      var r := refs[i];
      FlatTake(refs, i, emit);
      var d := NearestDefinition(repeated, r.path);
      ps := ps + [(r, if d.Some? then d.value else def.value)];
    }
    assert refs[..|refs|] == refs;
  }

  ghost function TablePair(u: Classes, index: Index, s: string): Location -> seq<Pair> {
    (l: Location) => PairWith(l, TablePartner(u, index, l.(symbol := s)))
  }

  lemma {:induction false} FlatSame<E, X>(log: seq<E>, f: E -> seq<X>, g: E -> seq<X>)
    requires forall e :: e in log ==> f(e) == g(e)
    ensures Flat(log, f) == Flat(log, g)
  {
    if log != [] {
      FlatSame(log[..|log| - 1], f, g);
    }
  }

  /** What the tables pair for one symbol is what the scan pairs. */
  lemma {:induction false} SymbolPairs(u: Classes, index: Index, docs: seq<Document>, s: string)
    requires Built(u, index, docs)
    ensures var emit := GlobalPair(u, index, Scan(Entries(docs), true));
      Emitted(Scan(Entries(docs), false), SymbolOf, emit, {s}) ==
      if IsLocal(s) then [] else Flat(ReferencesOf(index, s), TablePair(u, index, s))
  {
    var defs, refs := Scan(Entries(docs), true), Scan(Entries(docs), false);
    var emit, mine := GlobalPair(u, index, defs), About(refs, s);
    assert DefinitionRow(index.definitions, index.repeated, About(defs, s), s);
    TablesAgreeWithScan(u, index, docs, s);
    AboutSymbol(refs, s);
    EmittedGroup(refs, SymbolOf, Self, emit, s);
    if IsLocal(s) {
      FlatSilent(mine, emit);
    } else {
      forall l | l in mine ensures emit(l) == TablePair(u, index, s)(l) {
        PartnerFromTables(u, index, About(defs, s), l);
        assert l.(symbol := s) == l;
      }
      FlatSame(mine, emit, TablePair(u, index, s));
    }
  }

  /** The local uses among `ls`, in order. */
  function LocalUses(ls: seq<Location>): seq<Location> {
    if ls == [] then []
    else if IsLocal(ls[|ls| - 1].symbol) then LocalUses(ls[..|ls| - 1]) + [ls[|ls| - 1]]
    else LocalUses(ls[..|ls| - 1])
  }

  lemma {:induction false} OnlyLocalUses(ls: seq<Location>, defs: seq<Location>)
    ensures Flat(LocalUses(ls), LocalPair(defs)) == Flat(ls, LocalPair(defs))
  {
    if ls != [] {
      var init, l := ls[..|ls| - 1], ls[|ls| - 1];
      OnlyLocalUses(init, defs);
      if IsLocal(l.symbol) {
        FlatStep(LocalUses(init), l, LocalPair(defs));
        assert LocalUses(ls) == LocalUses(init) + [l];
      } else {
        assert LocalUses(ls) == LocalUses(init);
        assert LocalPair(defs)(l) == [];
      }
    }
  }

  lemma {:induction false} LocalUsesLocal(ls: seq<Location>)
    ensures forall l :: l in LocalUses(ls) ==> IsLocal(l.symbol)
  {
    if ls != [] { LocalUsesLocal(ls[..|ls| - 1]); }
  }

  lemma LocalUsesStep(ls: seq<Location>, l: Location)
    ensures LocalUses(ls + [l]) == LocalUses(ls) + if IsLocal(l.symbol) then [l] else []
  {
    assert (ls + [l])[..|ls|] == ls;
  }

  ghost predicate LocalTable(defs: map<string, Location>, log: seq<Location>) {
    forall s :: IsLocal(s) ==> LocalRow(defs, log, s)
  }

  ghost predicate LocalRow(defs: map<string, Location>, log: seq<Location>, s: string) {
    LastOf(About(log, s)) == if s in defs then Some(defs[s]) else None
  }

  lemma LocalTableStep(defs: map<string, Location>, log: seq<Location>, l: Location)
    requires LocalTable(defs, log)
    ensures LocalTable(if IsLocal(l.symbol) then defs[l.symbol := l] else defs, log + [l])
  {
    var next, longer := if IsLocal(l.symbol) then defs[l.symbol := l] else defs, log + [l];
    forall s | IsLocal(s) ensures LocalRow(next, longer, s) {
      assert LocalRow(defs, log, s);
      AboutStep(log, l, s);
    }
  }

  ghost predicate LocalsSoFar(e: Entry, i: nat, defs: map<string, Location>, uses: seq<Location>)
    requires i <= |e.occurrences|
  {
    && LocalTable(defs, Located(e.path, e.occurrences[..i], true))
    && uses == LocalUses(Located(e.path, e.occurrences[..i], false))
  }

  /** An occurrence of the other role, or one that does not decode, locates nothing. */
  lemma OtherRole(e: Entry, i: nat, role: bool)
    requires i < |e.occurrences| && (e.occurrences[i].range.None? || e.occurrences[i].isDefinition != role)
    ensures Located(e.path, e.occurrences[..i + 1], role) == Located(e.path, e.occurrences[..i], role)
  {
    assert e.occurrences[..i + 1][..i] == e.occurrences[..i];
  }

  lemma LocalsSkip(e: Entry, i: nat, defs: map<string, Location>, uses: seq<Location>)
    requires i < |e.occurrences| && LocalsSoFar(e, i, defs, uses)
    requires var o := e.occurrences[i]; !IsLocal(o.symbol) || o.range.None?
    ensures LocalsSoFar(e, i + 1, defs, uses)
  {
    var o := e.occurrences[i];
    LocatedStep(e.path, e.occurrences, i);
    OtherRole(e, i, !o.isDefinition);
    if o.range.None? {
      OtherRole(e, i, o.isDefinition);
    } else {
      if o.isDefinition {
        LocalTableStep(defs, Located(e.path, e.occurrences[..i], true), At(e.path, o));
      } else {
        LocalUsesStep(Located(e.path, e.occurrences[..i], false), At(e.path, o));
      }
    }
  }

  lemma LocalsAdd(e: Entry, i: nat, defs: map<string, Location>, uses: seq<Location>)
    requires i < |e.occurrences| && LocalsSoFar(e, i, defs, uses)
    requires IsLocal(e.occurrences[i].symbol) && e.occurrences[i].range.Some?
    ensures var l := At(e.path, e.occurrences[i]);
      if e.occurrences[i].isDefinition then LocalsSoFar(e, i + 1, defs[l.symbol := l], uses)
      else LocalsSoFar(e, i + 1, defs, uses + [l])
  {
    var o := e.occurrences[i];
    LocatedStep(e.path, e.occurrences, i);
    OtherRole(e, i, !o.isDefinition);
    if o.isDefinition {
      LocalTableStep(defs, Located(e.path, e.occurrences[..i], true), At(e.path, o));
    } else {
      LocalUsesStep(Located(e.path, e.occurrences[..i], false), At(e.path, o));
    }
  }

  method CollectLocals(e: Entry) returns (defs: map<string, Location>, uses: seq<Location>)
    ensures LocalTable(defs, LocatedIn(true)(e)) && uses == LocalUses(LocatedIn(false)(e))
  {
    defs, uses := map[], [];
    for i := 0 to |e.occurrences|
      invariant LocalsSoFar(e, i, defs, uses)
    {
      var o := e.occurrences[i];
      if !IsLocal(o.symbol) || o.range.None? {
        LocalsSkip(e, i, defs, uses);
        continue;
      }
      LocalsAdd(e, i, defs, uses);
      var l := At(e.path, o);
      if o.isDefinition {
        defs := defs[o.symbol := l];
      } else {
        uses := uses + [l];
      }
    }
    assert e.occurrences[..|e.occurrences|] == e.occurrences;
  }

  method PairLocals(e: Entry) returns (ps: seq<Pair>)
    ensures ps == LocalPairs(e)
  {
    var defs, uses := CollectLocals(e);
    ghost var log := LocatedIn(true)(e);
    LocalUsesLocal(LocatedIn(false)(e));
    OnlyLocalUses(LocatedIn(false)(e), log);
    ps := [];
    for i := 0 to |uses|
      invariant ps == Flat(uses[..i], LocalPair(log))
    {
      var l := uses[i];
      FlatTake(uses, i, LocalPair(log));
      assert l in uses && LocalRow(defs, log, l.symbol);
      if l.symbol in defs {
        ps := ps + [(l, defs[l.symbol])];
      }
    }
    assert uses[..|uses|] == uses;
  }

  // ----- every use, once -----

  /** The pairs of every non-local use, in load order. */
  ghost function GlobalPairs(u: Classes, index: Index, docs: seq<Document>): seq<Pair> {
    Flat(Scan(Entries(docs), false), GlobalPair(u, index, Scan(Entries(docs), true)))
  }

  method PairGlobals(u: Classes, index: Index, ghost docs: seq<Document>) returns (ps: seq<Pair>)
    requires Built(u, index, docs)
    ensures multiset(ps) == multiset(GlobalPairs(u, index, docs))
  {
    ghost var refs := Scan(Entries(docs), false);
    ghost var emit := GlobalPair(u, index, Scan(Entries(docs), true));
    var symbols := Enumerate(index.references.Keys);
    ps := [];
    EmittedStart(refs, SymbolOf, emit, symbols);
    for i := 0 to |symbols|
      invariant multiset(ps) == multiset(Emitted(refs, SymbolOf, emit, Elements(symbols[..i])))
    {
      var more := PairsOfSymbol(u, index, symbols[i]);
      SymbolPairs(u, index, docs, symbols[i]);
      EmittedNext(refs, SymbolOf, emit, symbols, i);
      ps := ps + more;
    }
    assert symbols[..|symbols|] == symbols;
    forall l | l in refs ensures SymbolOf(l) in Elements(symbols) {
      InGroup(refs, l);
      TablesAgreeWithScan(u, index, docs, l.symbol);
    }
    EmittedAll(refs, SymbolOf, emit, Elements(symbols));
  }

  lemma {:induction false} InGroup(log: seq<Location>, l: Location)
    requires l in log
    ensures About(log, l.symbol) != []
  {
    var init := log[..|log| - 1];
    assert log == init + [log[|log| - 1]];
    if log[|log| - 1].symbol != l.symbol { InGroup(init, l); }
  }

  method PairDocuments(index: Index, ghost es: seq<Entry>) returns (ps: seq<Pair>)
    requires ByPath(index.byPath, es)
    ensures multiset(ps) == multiset(Flat(Kept(es), LocalPairs))
  {
    ghost var kept := Kept(es);
    var paths := Enumerate(index.byPath.Keys);
    ps := [];
    EmittedStart(kept, EntryPath, LocalPairs, paths);
    for i := 0 to |paths|
      invariant multiset(ps) == multiset(Emitted(kept, EntryPath, LocalPairs, Elements(paths[..i])))
    {
      var k := paths[i];
      assert k in Elements(paths);
      var more := PairLocals(index.byPath[k]);
      KeptMeans(es, LocalPairs, k);
      EmittedNext(kept, EntryPath, LocalPairs, paths, i);
      ps := ps + more;
    }
    assert paths[..|paths|] == paths;
    forall e | e in kept ensures EntryPath(e) in Elements(paths) {
      KeptMeans(es, LocalPairs, EntryPath(e));
    }
    EmittedAll(kept, EntryPath, LocalPairs, Elements(paths));
  }

  method ReferenceOccurrences(u: Classes, index: Index, ghost docs: seq<Document>) returns (pairs: seq<Pair>)
    requires Built(u, index, docs)
    ensures multiset(pairs) == multiset(GlobalPairs(u, index, docs)) + multiset(Flat(Kept(Entries(docs)), LocalPairs))
  {
    var globals := PairGlobals(u, index, docs);
    var locals := PairDocuments(index, Entries(docs));
    pairs := globals + locals;
  }
}
