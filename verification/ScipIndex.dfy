/** The SCIP occurrence tables and their one-pass construction (graphengine-scip-adapter/src/index.rs). */
module ScipIndex {
  import opened Basics
  import opened Multimaps
  import opened Sorting
  import Text
  import TraitLinks
  import RustSymbols

  // ----- the index file -----

  /** Half-open, 0-based. */
  datatype Range = Range(startLine: nat, startCharacter: nat, endLine: nat, endCharacter: nat)

  /** `range` is None when the encoded range does not decode. */
  datatype Occurrence = Occurrence(symbol: string, isDefinition: bool, range: Option<Range>)

  datatype Relationship = Relationship(symbol: string, isImplementation: bool)

  datatype SymbolInfo = SymbolInfo(symbol: string, relationships: seq<Relationship>)

  datatype Document = Document(path: string, symbols: seq<SymbolInfo>, occurrences: seq<Occurrence>)

  // ----- the loaded index -----

  datatype Location = Location(path: string, line: nat, character: nat, symbol: string)

  datatype Entry = Entry(path: string, occurrences: seq<Occurrence>)

  datatype Index = Index(
    byPath: map<string, Entry>,
    definitions: map<string, Location>,
    repeated: map<string, seq<Location>>,
    references: map<string, seq<Location>>,
    implementations: map<string, seq<string>>,
    implementedBy: map<string, seq<string>>)

  predicate OccurrenceLe(a: Occurrence, b: Occurrence) {
    if a.range.Some? && b.range.Some? then
      var s, t := a.range.value, b.range.value;
      s.startLine < t.startLine || (s.startLine == t.startLine && s.startCharacter <= t.startCharacter)
    else LexLe(a.symbol, b.symbol)
  }

  function DocumentEntry(doc: Document): Entry {
    Entry(doc.path, Sort(OccurrenceLe, doc.occurrences))
  }

  /** By start position; an undecodable range counts as the origin. */
  predicate StartLe(a: Occurrence, b: Occurrence) {
    var s, t := StartOf(a), StartOf(b);
    s.0 < t.0 || (s.0 == t.0 && s.1 <= t.1)
  }

  function StartOf(o: Occurrence): (nat, nat) {
    if o.range.Some? then (o.range.value.startLine, o.range.value.startCharacter) else (0, 0)
  }

  predicate SymbolLe(a: Occurrence, b: Occurrence) {
    LexLe(a.symbol, b.symbol)
  }

  /** `b` lists `a` in a stable order by `le`. */
  ghost predicate StablyBy(le: (Occurrence, Occurrence) -> bool, a: seq<Occurrence>, b: seq<Occurrence>) {
    Sorted(le, b) && forall k :: Filter(b, Ties(le, k)) == Filter(a, Ties(le, k))
  }

  lemma {:induction false} SortIsStable(le: (Occurrence, Occurrence) -> bool, s: seq<Occurrence>)
    requires TotalPreorder(le)
    ensures StablyBy(le, s, Sort(le, s))
  {
    SortSorted(le, s);
    forall k ensures Filter(Sort(le, s), Ties(le, k)) == Filter(s, Ties(le, k)) { SortStable(le, s, k); }
  }

  /** Loading reorders a document's occurrences: into a stable order by start when every range decodes, and by symbol
      when none does. */
  lemma {:induction false} EntryOrder(doc: Document)
    ensures var loaded := DocumentEntry(doc).occurrences;
      && multiset(loaded) == multiset(doc.occurrences)
      && ((forall o :: o in doc.occurrences ==> o.range.Some?) ==> StablyBy(StartLe, doc.occurrences, loaded))
      && ((forall o :: o in doc.occurrences ==> o.range.None?) ==> StablyBy(SymbolLe, doc.occurrences, loaded))
  {
    SortPermutes(OccurrenceLe, doc.occurrences);
    if forall o :: o in doc.occurrences ==> o.range.Some? {
      SortAgrees(OccurrenceLe, StartLe, doc.occurrences);
      SortIsStable(StartLe, doc.occurrences);
    }
    if forall o :: o in doc.occurrences ==> o.range.None? {
      SortAgrees(OccurrenceLe, SymbolLe, doc.occurrences);
      LexIsTotalOrder();
      SortIsStable(SymbolLe, doc.occurrences);
    }
  }

  function Entries(docs: seq<Document>): (es: seq<Entry>)
    ensures |es| == |docs|
    ensures forall i :: 0 <= i < |docs| ==> es[i] == DocumentEntry(docs[i])
  {
    seq(|docs|, i requires 0 <= i < |docs| => DocumentEntry(docs[i]))
  }

  function Slashed(s: string): string {
    if s == [] then [] else [if s[0] == '\\' then '/' else s[0]] + Slashed(s[1..])
  }

  function NormalizePath(path: string): string {
    Slashed(Text.TrimDotSlash(path))
  }

  function NormalizeRoot(root: string): string {
    if Text.StartsWith(root, "file://") then root[7..] else root
  }

  // ----- the naive scan -----

  function At(path: string, o: Occurrence): Location
    requires o.range.Some?
  {
    Location(path, o.range.value.startLine, o.range.value.startCharacter, o.symbol)
  }

  /** The decodable occurrences of one role, in order. */
  function Located(path: string, os: seq<Occurrence>, definition: bool): seq<Location> {
    if os == [] then []
    else
      var o, before := os[|os| - 1], Located(path, os[..|os| - 1], definition);
      if o.range.Some? && o.isDefinition == definition then before + [At(path, o)] else before
  }

  function LocatedIn(definition: bool): Entry -> seq<Location> {
    (e: Entry) => Located(e.path, e.occurrences, definition)
  }

  function Scan(es: seq<Entry>, definition: bool): seq<Location> {
    Flat(es, LocatedIn(definition))
  }

  function SymbolOf(l: Location): string {
    l.symbol
  }

  function Self<T>(x: T): T {
    x
  }

  /** The entries of `log` about `s`, in order. */
  function About(log: seq<Location>, s: string): seq<Location> {
    Group(log, SymbolOf, Self, s)
  }

  /** `impl` implements `iface`. */
  datatype Link = Link(iface: string, impl: string)

  function IfaceOf(l: Link): string { l.iface }

  function ImplOf(l: Link): string { l.impl }

  function LinksOf(symbol: string, rels: seq<Relationship>): seq<Link> {
    if rels == [] then []
    else
      var r, before := rels[|rels| - 1], LinksOf(symbol, rels[..|rels| - 1]);
      if r.isImplementation then before + [Link(r.symbol, symbol)] else before
  }

  function InfoLinks(info: SymbolInfo): seq<Link> {
    LinksOf(info.symbol, info.relationships)
  }

  function DocLinks(doc: Document): seq<Link> {
    Flat(doc.symbols, InfoLinks)
  }

  function Links(docs: seq<Document>): seq<Link> {
    Flat(docs, DocLinks)
  }

  // ----- tables against the scan -----

  ghost predicate DefinitionRow(definitions: map<string, Location>, repeated: map<string, seq<Location>>,
          ds: seq<Location>, s: string) {
    && (s in definitions <==> ds != [])
    && (ds != [] ==> definitions[s] == ds[|ds| - 1])
    && GetAll(repeated, s) == (if |ds| >= 2 then ds else [])
    && (s in repeated ==> |ds| >= 2)
  }

  ghost predicate Defined(definitions: map<string, Location>, repeated: map<string, seq<Location>>,
          log: seq<Location>) {
    forall s :: DefinitionRow(definitions, repeated, About(log, s), s)
  }

  ghost predicate Referenced(references: map<string, seq<Location>>, log: seq<Location>) {
    Grouped(references, log, SymbolOf, Self)
  }

  ghost predicate Linked(implementations: map<string, seq<string>>, implementedBy: map<string, seq<string>>,
          log: seq<Link>) {
    Grouped(implementations, log, IfaceOf, ImplOf) && Grouped(implementedBy, log, ImplOf, IfaceOf)
  }

  lemma AboutStep(log: seq<Location>, l: Location, s: string)
    ensures About(log + [l], s) == About(log, s) + if l.symbol == s then [l] else []
  {
    assert (log + [l])[..|log|] == log;
  }

  /** Records the definition `l`. */
  method Define(definitions0: map<string, Location>, repeated0: map<string, seq<Location>>, l: Location,
          ghost log: seq<Location>)
    returns (definitions: map<string, Location>, repeated: map<string, seq<Location>>)
    requires Defined(definitions0, repeated0, log)
    ensures Defined(definitions, repeated, log + [l])
  {
    assert DefinitionRow(definitions0, repeated0, About(log, l.symbol), l.symbol);
    definitions, repeated := definitions0[l.symbol := l], repeated0;
    if l.symbol in definitions0 {
      var all := GetAll(repeated, l.symbol);
      if all == [] {
        all := [definitions0[l.symbol]];
      }
      repeated := repeated[l.symbol := all + [l]];
    }
    forall s ensures DefinitionRow(definitions, repeated, About(log + [l], s), s) {
      assert DefinitionRow(definitions0, repeated0, About(log, s), s);
      AboutStep(log, l, s);
    }
  }

  method RecordOccurrences(e: Entry, definitions0: map<string, Location>, repeated0: map<string, seq<Location>>,
          references0: map<string, seq<Location>>, ghost defs: seq<Location>, ghost refs: seq<Location>)
    returns (definitions: map<string, Location>, repeated: map<string, seq<Location>>,
             references: map<string, seq<Location>>)
    requires Defined(definitions0, repeated0, defs) && Referenced(references0, refs)
    ensures Defined(definitions, repeated, defs + Located(e.path, e.occurrences, true))
    ensures Referenced(references, refs + Located(e.path, e.occurrences, false))
  {
    definitions, repeated, references := definitions0, repeated0, references0;
    ghost var ds, rs := defs, refs;
    for i := 0 to |e.occurrences|
      invariant ds == defs + Located(e.path, e.occurrences[..i], true)
      invariant rs == refs + Located(e.path, e.occurrences[..i], false)
      invariant Defined(definitions, repeated, ds) && Referenced(references, rs)
    {
      var o := e.occurrences[i];
      LocatedStep(e.path, e.occurrences, i);
      if o.range.None? {
        continue;
      }
      var l := At(e.path, o);
      if o.isDefinition {
        definitions, repeated := Define(definitions, repeated, l, ds);
        ds := ds + [l];
      } else {
        PushGrouped(references, rs, l, SymbolOf, Self);
        references := Push(references, o.symbol, l);
        rs := rs + [l];
      }
    }
    assert e.occurrences[..|e.occurrences|] == e.occurrences;
  }

  ghost function Here(path: string, o: Occurrence, definition: bool): seq<Location> {
    if o.range.Some? && o.isDefinition == definition then [At(path, o)] else []
  }

  lemma LocatedStep(path: string, os: seq<Occurrence>, i: nat)
    requires i < |os|
    ensures forall d :: Located(path, os[..i + 1], d) == Located(path, os[..i], d) + Here(path, os[i], d)
  {
    assert os[..i + 1][..i] == os[..i];
  }

  lemma LinkStep(implementations: map<string, seq<string>>, implementedBy: map<string, seq<string>>, log: seq<Link>,
          iface: string, impl: string)
    requires Linked(implementations, implementedBy, log)
    ensures Linked(Push(implementations, iface, impl), Push(implementedBy, impl, iface), log + [Link(iface, impl)])
  {
    PushGrouped(implementations, log, Link(iface, impl), IfaceOf, ImplOf);
    PushGrouped(implementedBy, log, Link(iface, impl), ImplOf, IfaceOf);
  }

  lemma LinksStep(symbol: string, rels: seq<Relationship>, i: nat)
    requires i < |rels|
    ensures LinksOf(symbol, rels[..i + 1]) ==
      LinksOf(symbol, rels[..i]) + if rels[i].isImplementation then [Link(rels[i].symbol, symbol)] else []
  {
    assert rels[..i + 1][..i] == rels[..i];
  }

  method RecordRelationships(info: SymbolInfo, implementations0: map<string, seq<string>>,
          implementedBy0: map<string, seq<string>>, ghost log: seq<Link>)
    returns (implementations: map<string, seq<string>>, implementedBy: map<string, seq<string>>)
    requires Linked(implementations0, implementedBy0, log)
    ensures Linked(implementations, implementedBy, log + InfoLinks(info))
  {
    implementations, implementedBy := implementations0, implementedBy0;
    ghost var links := log;
    for i := 0 to |info.relationships|
      invariant links == log + LinksOf(info.symbol, info.relationships[..i])
      invariant Linked(implementations, implementedBy, links)
    {
      var r := info.relationships[i];
      LinksStep(info.symbol, info.relationships, i);
      if r.isImplementation {
        LinkStep(implementations, implementedBy, links, r.symbol, info.symbol);
        implementations := Push(implementations, r.symbol, info.symbol);
        implementedBy := Push(implementedBy, info.symbol, r.symbol);
        links := links + [Link(r.symbol, info.symbol)];
      }
    }
    assert info.relationships[..|info.relationships|] == info.relationships;
  }

  /** What loading `docs` must produce, apart from the trait links added afterwards. */
  ghost predicate Loaded(index: Index, docs: seq<Document>, n: nat)
    requires n <= |docs|
  {
    && Defined(index.definitions, index.repeated, Scan(Entries(docs[..n]), true))
    && Referenced(index.references, Scan(Entries(docs[..n]), false))
    && Linked(index.implementations, index.implementedBy, Links(docs[..n]))
    && ByPath(index.byPath, Entries(docs[..n]))
  }

  /** Each normalized path leads to the last document of that path. */
  ghost predicate ByPath(byPath: map<string, Entry>, es: seq<Entry>) {
    byPath == LastByPath(es)
  }

  function LastByPath(es: seq<Entry>): map<string, Entry> {
    if es == [] then map[] else LastByPath(es[..|es| - 1])[NormalizePath(es[|es| - 1].path) := es[|es| - 1]]
  }

  lemma FlatTake<E, X>(s: seq<E>, i: nat, emit: E -> seq<X>)
    requires i < |s|
    ensures Flat(s[..i + 1], emit) == Flat(s[..i], emit) + emit(s[i])
  {
    assert s[..i + 1] == s[..i] + [s[i]];
    FlatStep(s[..i], s[i], emit);
  }

  lemma EntriesTake(docs: seq<Document>, i: nat)
    requires i < |docs|
    ensures Entries(docs[..i + 1]) == Entries(docs[..i]) + [DocumentEntry(docs[i])]
  {
  }

  method LoadDocument(index0: Index, docs: seq<Document>, i: nat) returns (index: Index)
    requires i < |docs| && Loaded(index0, docs, i)
    ensures Loaded(index, docs, i + 1)
  {
    var doc := docs[i];
    var implementations, implementedBy := index0.implementations, index0.implementedBy;
    ghost var log := Links(docs[..i]);
    assert log + Flat(doc.symbols[..0], InfoLinks) == log;
    for j := 0 to |doc.symbols|
      invariant Linked(implementations, implementedBy, log + Flat(doc.symbols[..j], InfoLinks))
    {
      implementations, implementedBy :=
        RecordRelationships(doc.symbols[j], implementations, implementedBy, log + Flat(doc.symbols[..j], InfoLinks));
      FlatTake(doc.symbols, j, InfoLinks);
      assert log + Flat(doc.symbols[..j], InfoLinks) + InfoLinks(doc.symbols[j]) ==
        log + Flat(doc.symbols[..j + 1], InfoLinks);
    }
    assert doc.symbols[..|doc.symbols|] == doc.symbols;
    FlatTake(docs, i, DocLinks);
    var e := DocumentEntry(doc);
    ghost var es := Entries(docs[..i]);
    EntriesTake(docs, i);
    FlatStep(es, e, LocatedIn(true));
    FlatStep(es, e, LocatedIn(false));
    var definitions, repeated, references :=
      RecordOccurrences(e, index0.definitions, index0.repeated, index0.references, Scan(es, true), Scan(es, false));
    assert (es + [e])[..|es|] == es;
    index := Index(index0.byPath[NormalizePath(e.path) := e], definitions, repeated, references, implementations,
      implementedBy);
  }

  // ----- the finished index -----

  /** `index` is what loading `docs` gives, in whatever order hash tables were read. */
  ghost predicate Built(u: RustSymbols.Classes, index: Index, docs: seq<Document>) {
    && Defined(index.definitions, index.repeated, Scan(Entries(docs), true))
    && Referenced(index.references, Scan(Entries(docs), false))
    && ByPath(index.byPath, Entries(docs))
    && TraitLinks.Converse(index.implementations, index.implementedBy)
    && exists recorded :: Linkage(u, index, docs, recorded)
  }

  /** The relationships the file records, with trait methods fanned out on top. */
  ghost predicate Linkage(u: RustSymbols.Classes, index: Index, docs: seq<Document>,
          recorded: map<string, seq<string>>) {
    && Grouped(recorded, Links(docs), IfaceOf, ImplOf)
    && forall t :: TraitLinks.Fanned(u, index.definitions.Keys, index.references.Keys, recorded,
      index.implementations, t)
  }

  lemma {:induction false} LinkedIsConverse(implementations: map<string, seq<string>>,
          implementedBy: map<string, seq<string>>, log: seq<Link>)
    requires Linked(implementations, implementedBy, log)
    ensures TraitLinks.Converse(implementations, implementedBy)
  {
    forall iface, m ensures TraitLinks.CountsAgree(implementations, implementedBy, iface, m) {
      assert GetAll(implementations, iface) == Group(log, IfaceOf, ImplOf, iface);
      assert GetAll(implementedBy, m) == Group(log, ImplOf, IfaceOf, m);
      GroupConverse(log, IfaceOf, ImplOf, iface, m);
    }
  }

  method FromIndex(u: RustSymbols.Classes, root: string, docs: seq<Document>) returns (index: Option<Index>)
    ensures index.Some? <==> NormalizeRoot(root) != ""
    ensures index.Some? ==> Built(u, index.value, docs)
  {
    if NormalizeRoot(root) == "" {
      return None;
    }
    var ix := Index(map[], map[], map[], map[], map[], map[]);
    for i := 0 to |docs|
      invariant Loaded(ix, docs, i)
    {
      ix := LoadDocument(ix, docs, i);
    }
    assert docs[..|docs|] == docs;
    LinkedIsConverse(ix.implementations, ix.implementedBy, Links(docs));
    var implementations, implementedBy := TraitLinks.LinkRustTraitImpls(
      u, ix.definitions.Keys, ix.references.Keys, ix.implementations, ix.implementedBy);
    var done := ix.(implementations := implementations, implementedBy := implementedBy);
    assert Linkage(u, done, docs, ix.implementations);
    index := Some(done);
  }

  function DefinitionsOf(index: Index, s: string): seq<Location> {
    if s in index.repeated then index.repeated[s]
    else if s in index.definitions then [index.definitions[s]]
    else []
  }

  function ReferencesOf(index: Index, s: string): seq<Location> {
    GetAll(index.references, s)
  }

  function ImplementationsOf(index: Index, s: string): seq<string> {
    GetAll(index.implementations, s)
  }

  function InterfacesImplementedBy(index: Index, s: string): seq<string> {
    GetAll(index.implementedBy, s)
  }

  /** The tables answer as a scan of every occurrence would, whether a symbol is defined never, once or often. */
  lemma {:induction false} TablesAgreeWithScan(u: RustSymbols.Classes, index: Index, docs: seq<Document>, s: string)
    requires Built(u, index, docs)
    ensures DefinitionsOf(index, s) == About(Scan(Entries(docs), true), s)
    ensures ReferencesOf(index, s) == About(Scan(Entries(docs), false), s)
  {
    var ds := About(Scan(Entries(docs), true), s);
    assert DefinitionRow(index.definitions, index.repeated, ds, s);
    if |ds| == 1 {
      assert ds == [ds[0]];
    }
    assert GetAll(index.references, s) == About(Scan(Entries(docs), false), s);
  }

  /** Implementing and being implemented are one relation, with equal multiplicities. */
  lemma {:induction false} ImplementationsConverse(u: RustSymbols.Classes, index: Index, docs: seq<Document>,
          iface: string, m: string)
    requires Built(u, index, docs)
    ensures Count(ImplementationsOf(index, iface), m) == Count(InterfacesImplementedBy(index, m), iface)
  {
    assert TraitLinks.CountsAgree(index.implementations, index.implementedBy, iface, m);
  }
}
