/** Is a deletion safe? Compares a base and a head scan of one repository
    (gridseak-cli/src/pr_check.rs, `disambiguate` and `check`). */
module DeletionCheck {
  import opened Basics
  import opened Sorting
  import Mentions
  import MaskLexer
  import Text

  type Key = (string, string)

  datatype FnNode = FnNode(id: string, key: Key, name: string, header: string, isFunction: bool, short: string,
                           fileAbs: string, startLine: nat, endLine: nat)

  /** A call edge and whether the compiler proved it. */
  datatype Edge = Edge(from: string, to: string, compiler: bool)

  datatype Scan = Scan(nodes: seq<FnNode>, edges: seq<Edge>)

  /** An occurrence as the index reports it: 0-based start position. */
  datatype Occurrence = Occurrence(symbol: string, definition: bool, line: nat, col: nat)

  datatype Index = Index(occurrences: map<string, seq<Occurrence>>, defined: set<string>)

  /** Everything `check` reads besides the two scans. */
  datatype World = World(u: MaskLexer.Unicode, headText: map<string, seq<string>>, baseIndex: Option<Index>,
    headIndex: Option<Index>)

  datatype Survivor = Survivor(caller: string, file: string, line: nat, attribute: bool)

  datatype Finding = Finding(symbol: string, file: string, broken: bool, movedTo: seq<string>, survivors: seq<Survivor>)

  datatype Report = Report(verdict: string, removed: nat, withCallers: nat, updated: nat, ratio: real,
    findings: seq<Finding>)

  // ----- keys -----

  function CountKey(nodes: seq<FnNode>, k: Key): nat {
    if nodes == [] then 0 else CountKey(nodes[..|nodes| - 1], k) + (if nodes[|nodes| - 1].key == k then 1 else 0)
  }

  /** The name is repeated in its file on one side or the other. */
  predicate Ambiguous(base: seq<FnNode>, head: seq<FnNode>, k: Key) {
    CountKey(base, k) > 1 || CountKey(head, k) > 1
  }

  /** A repeated name is told apart by its declaration line. */
  function Rename(base: seq<FnNode>, head: seq<FnNode>, n: FnNode): FnNode {
    if Ambiguous(base, head, n.key) then n.(key := (n.key.0, n.key.1 + "\U{1F}" + n.header)) else n
  }

  function RenameAll(base: seq<FnNode>, head: seq<FnNode>, nodes: seq<FnNode>): seq<FnNode> {
    seq(|nodes|, i requires 0 <= i < |nodes| => Rename(base, head, nodes[i]))
  }

  /** How often each key occurs on either side. */
  ghost predicate Counted(counts: map<Key, (nat, nat)>, base: seq<FnNode>, head: seq<FnNode>) {
    forall k :: (CountKey(base, k), CountKey(head, k)) == if k in counts then counts[k] else (0, 0)
  }

  method CountSides(base: array<FnNode>, head: array<FnNode>) returns (counts: map<Key, (nat, nat)>)
    ensures Counted(counts, base[..], head[..])
  {
    counts := map[];
    for i := 0 to base.Length
      invariant Counted(counts, base[..i], [])
    {
      assert base[..i + 1][..i] == base[..i];
      var k := base[i].key;
      var c := if k in counts then counts[k] else (0, 0);
      counts := counts[k := (c.0 + 1, c.1)];
    }
    assert base[..base.Length] == base[..];
    for i := 0 to head.Length
      invariant Counted(counts, base[..], head[..i])
    {
      assert head[..i + 1][..i] == head[..i];
      var k := head[i].key;
      var c := if k in counts then counts[k] else (0, 0);
      counts := counts[k := (c.0, c.1 + 1)];
    }
    assert head[..head.Length] == head[..];
  }

  method RenameSide(a: array<FnNode>, counts: map<Key, (nat, nat)>, ghost base: seq<FnNode>, ghost head: seq<FnNode>)
    requires Counted(counts, base, head)
    modifies a
    ensures a[..] == RenameAll(base, head, old(a[..]))
  {
    for i := 0 to a.Length
      invariant forall j :: 0 <= j < i ==> a[j] == Rename(base, head, old(a[j]))
      invariant forall j :: i <= j < a.Length ==> a[j] == old(a[j])
    {
      var n := a[i];
      assert (CountKey(base, n.key), CountKey(head, n.key)) == if n.key in counts then counts[n.key] else (0, 0);
      if n.key in counts && (counts[n.key].0 > 1 || counts[n.key].1 > 1) {
        a[i] := n.(key := (n.key.0, n.key.1 + "\U{1F}" + n.header));
      }
    }
  }

  /** Gives repeated names their declaration line, in place on both sides. */
  method Disambiguate(base: array<FnNode>, head: array<FnNode>)
    requires base != head
    modifies base, head
    ensures base[..] == RenameAll(old(base[..]), old(head[..]), old(base[..]))
    ensures head[..] == RenameAll(old(base[..]), old(head[..]), old(head[..]))
  {
    ghost var b, h := base[..], head[..];
    var counts := CountSides(base, head);
    RenameSide(base, counts, b, h);
    assert head[..] == h;
    RenameSide(head, counts, b, h);
  }

  // ----- lookups; a later entry replaces an earlier one, as collecting into a map does -----

  function FindKey(nodes: seq<FnNode>, k: Key): (r: Option<FnNode>)
    ensures r.Some? ==> r.value in nodes && r.value.key == k
    ensures r.None? ==> forall n :: n in nodes ==> n.key != k
  {
    if nodes == [] then None
    else
      var last := nodes[|nodes| - 1];
      if last.key == k then Some(last) else FindKey(nodes[..|nodes| - 1], k)
  }

  function FindId(nodes: seq<FnNode>, id: string): (r: Option<FnNode>)
    ensures r.Some? ==> r.value in nodes && r.value.id == id
    ensures r.None? ==> forall n :: n in nodes ==> n.id != id
  {
    if nodes == [] then None
    else
      var last := nodes[|nodes| - 1];
      if last.id == id then Some(last) else FindId(nodes[..|nodes| - 1], id)
  }

  function Lookup<K, V>(m: map<K, V>, k: K): Option<V> {
    if k in m then Some(m[k]) else None
  }

  method IndexByKey(nodes: seq<FnNode>) returns (m: map<Key, FnNode>)
    ensures forall k :: Lookup(m, k) == FindKey(nodes, k)
  {
    m := map[];
    for i := 0 to |nodes|
      invariant forall k :: Lookup(m, k) == FindKey(nodes[..i], k)
    {
      assert nodes[..i + 1][..i] == nodes[..i];
      m := m[nodes[i].key := nodes[i]];
    }
    assert nodes[..|nodes|] == nodes;
  }

  method IndexById(nodes: seq<FnNode>) returns (m: map<string, FnNode>)
    ensures forall id :: Lookup(m, id) == FindId(nodes, id)
  {
    m := map[];
    for i := 0 to |nodes|
      invariant forall id :: Lookup(m, id) == FindId(nodes[..i], id)
    {
      assert nodes[..i + 1][..i] == nodes[..i];
      m := m[nodes[i].id := nodes[i]];
    }
    assert nodes[..|nodes|] == nodes;
  }

  // ----- what was removed, and who called it -----

  const FILE_SCOPE := "__file_scope__"

  predicate Gone(head: seq<FnNode>, n: FnNode) {
    n.isFunction && n.short != FILE_SCOPE && FindKey(head, n.key).None?
  }

  function Removed(base: seq<FnNode>, head: seq<FnNode>): seq<FnNode> {
    Filter(base, n => Gone(head, n))
  }

  predicate IsRemovedId(removed: seq<FnNode>, id: string) {
    exists i :: 0 <= i < |removed| && removed[i].id == id
  }

  /** The callers the compiler proved, one per edge, that were not removed themselves. */
  function Callers(base: Scan, removed: seq<FnNode>, edges: seq<Edge>, target: string): seq<FnNode> {
    if edges == [] then []
    else
      var e := edges[0];
      (if e.to == target && e.compiler && !IsRemovedId(removed, e.from) && FindId(base.nodes, e.from).Some?
       then [FindId(base.nodes, e.from).value] else []) + Callers(base, removed, edges[1..], target)
  }

  /** The compiler links `caller` to something named `short` at head. */
  predicate Repointed(head: Scan, caller: string, short: string) {
    exists i :: 0 <= i < |head.edges| && var e := head.edges[i];
      e.from == caller && e.compiler && FindId(head.nodes, e.to).Some? && FindId(head.nodes, e.to).value.short == short
  }

  // ----- what the indexes say -----

  function OccurrencesIn(index: Index, file: string): seq<Occurrence> {
    if file in index.occurrences then index.occurrences[file] else []
  }

  predicate NamesFunction(symbol: string, short: string) {
    NamedWith(symbol, short + "().") || NamedWith(symbol, short + ".") || NamedWith(symbol, "`" + short + "`().")
  }

  predicate NamedWith(symbol: string, suffix: string) {
    Text.EndsWith(symbol, suffix) && |symbol| > |suffix| && symbol[|symbol| - |suffix| - 1] in "/#. "
  }

  function FirstMoniker(occs: seq<Occurrence>, first: nat, short: string): Option<string> {
    if occs == [] then None
    else if occs[0].definition && first <= occs[0].line <= first + 3 && NamesFunction(occs[0].symbol, short)
    then Some(occs[0].symbol)
    else FirstMoniker(occs[1..], first, short)
  }

  /** The removed function's symbol, read off its base definition. */
  function BaseMoniker(w: World, sym: FnNode): Option<string> {
    if w.baseIndex.None? then None
    else
      var first := if sym.startLine == 0 then 0 else sym.startLine - 1;
      FirstMoniker(OccurrencesIn(w.baseIndex.value, sym.key.0), first, sym.short)
  }

  function OccurrenceAt(occs: seq<Occurrence>, line: nat, col: nat): Option<Occurrence> {
    if occs == [] then None
    else if occs[0].line + 1 == line && occs[0].col == col then Some(occs[0])
    else OccurrenceAt(occs[1..], line, col)
  }

  /** Nothing at head resolves the mention, or it still resolves to the removed symbol. */
  predicate Dangling(w: World, file: string, m: Mentions.Mention, removed: Option<string>) {
    if w.headIndex.None? then true
    else
      var occs := OccurrencesIn(w.headIndex.value, file);
      match OccurrenceAt(occs, m.line, m.col)
      case None => true
      case Some(o) =>
        if Text.StartsWith(o.symbol, "local ") then
          !exists i :: 0 <= i < |occs| && occs[i].symbol == o.symbol && occs[i].definition
        else removed == Some(o.symbol) && o.symbol !in w.headIndex.value.defined
  }

  function TextOf(w: World, file: string): seq<string> {
    if file in w.headText then w.headText[file] else []
  }

  predicate BareFirst(a: Mentions.Mention, b: Mentions.Mention) {
    a.attribute ==> b.attribute
  }

  function KeepDangling(w: World, file: string, ms: seq<Mentions.Mention>,
          moniker: Option<string>): seq<Mentions.Mention> {
    Filter(ms, m => Dangling(w, file, m, moniker))
  }

  /** The caller's mentions of `short` at head that nothing resolves. */
  function DanglingMentions(w: World, caller: FnNode, short: string, moniker: Option<string>): seq<Mentions.Mention> {
    KeepDangling(w, caller.key.0,
                 Mentions.MentionsIn(w.u, TextOf(w, caller.fileAbs), caller.startLine, caller.endLine, short), moniker)
  }

  // ----- one caller -----

  datatype Outcome = Absent | Updated | Survives(survivor: Survivor)

  function Judge(w: World, head: Scan, sym: FnNode, caller: FnNode): Outcome {
    match FindKey(head.nodes, caller.key)
    case None => Absent
    case Some(now) =>
      if w.headIndex.None? && Repointed(head, now.id, sym.short) then Updated
      else
        var dangling := Sort(BareFirst, DanglingMentions(w, now, sym.short, BaseMoniker(w, sym)));
        if dangling == [] then Updated
        else Survives(Survivor(caller.name, caller.key.0, dangling[0].line, dangling[0].attribute))
  }

  method JudgeCaller(w: World, head: Scan, headByKey: map<Key, FnNode>, headById: map<string, FnNode>, sym: FnNode,
          moniker: Option<string>, caller: FnNode)
    returns (o: Outcome)
    requires forall k :: Lookup(headByKey, k) == FindKey(head.nodes, k)
    requires forall id :: Lookup(headById, id) == FindId(head.nodes, id)
    requires moniker == BaseMoniker(w, sym)
    ensures o == Judge(w, head, sym, caller)
  {
    assert Lookup(headByKey, caller.key) == FindKey(head.nodes, caller.key);
    if caller.key !in headByKey {
      return Absent;
    }
    var now := headByKey[caller.key];
    if w.headIndex.None? && Repointed(head, now.id, sym.short) {
      return Updated;
    }
    var ms := Mentions.FindMentions(w.u, TextOf(w, now.fileAbs), now.startLine, now.endLine, sym.short);
    var dangling := Sort(BareFirst, KeepDangling(w, now.key.0, ms, moniker));
    if dangling == [] {
      return Updated;
    }
    o := Survives(Survivor(caller.name, caller.key.0, dangling[0].line, dangling[0].attribute));
  }

  // ----- one removed function -----

  function Outcomes(w: World, head: Scan, sym: FnNode, callers: seq<FnNode>): seq<Outcome> {
    seq(|callers|, i requires 0 <= i < |callers| => Judge(w, head, sym, callers[i]))
  }

  function Survivors(os: seq<Outcome>): seq<Survivor> {
    if os == [] then [] else (if os[0].Survives? then [os[0].survivor] else []) + Survivors(os[1..])
  }

  function UpdatedCount(os: seq<Outcome>): nat {
    if os == [] then 0 else (if os[0].Updated? then 1 else 0) + UpdatedCount(os[1..])
  }

  lemma {:induction false} OutcomeAppend(os: seq<Outcome>, o: Outcome)
    ensures Survivors(os + [o]) == Survivors(os) + (if o.Survives? then [o.survivor] else [])
    ensures UpdatedCount(os + [o]) == UpdatedCount(os) + (if o.Updated? then 1 else 0)
  {
    if os != [] {
      OutcomeAppend(os[1..], o);
      assert (os + [o])[1..] == os[1..] + [o];
      assert Survivors(os + [o]) == (if os[0].Survives? then [os[0].survivor] else []) + Survivors(os[1..] + [o]);
    }
  }

  method JudgeCallers(w: World, head: Scan, headByKey: map<Key, FnNode>, headById: map<string, FnNode>, sym: FnNode,
          callers: seq<FnNode>)
    returns (surviving: seq<Survivor>, updated: nat)
    requires forall k :: Lookup(headByKey, k) == FindKey(head.nodes, k)
    requires forall id :: Lookup(headById, id) == FindId(head.nodes, id)
    ensures surviving == Survivors(Outcomes(w, head, sym, callers))
    ensures updated == UpdatedCount(Outcomes(w, head, sym, callers))
  {
    var moniker := BaseMoniker(w, sym);
    surviving, updated := [], 0;
    for i := 0 to |callers|
      invariant surviving == Survivors(Outcomes(w, head, sym, callers[..i]))
      invariant updated == UpdatedCount(Outcomes(w, head, sym, callers[..i]))
    {
      var o := JudgeCaller(w, head, headByKey, headById, sym, moniker, callers[i]);
      assert Outcomes(w, head, sym, callers[..i + 1]) == Outcomes(w, head, sym, callers[..i]) + [o];
      OutcomeAppend(Outcomes(w, head, sym, callers[..i]), o);
      match o {
        case Absent =>
        case Updated => updated := updated + 1;
        case Survives(s) => surviving := surviving + [s];
      }
    }
    assert callers[..|callers|] == callers;
  }

  predicate StaticallyTyped(file: string) {
    Text.EndsWith(file, ".ts") || Text.EndsWith(file, ".tsx") || Text.EndsWith(file, ".go") ||
    Text.EndsWith(file, ".rs") || Text.EndsWith(file, ".java") || Text.EndsWith(file, ".cs") ||
    Text.EndsWith(file, ".kt") || Text.EndsWith(file, ".scala")
  }

  /** Where head still declares something of that name. */
  function MovedTo(nodes: seq<FnNode>, short: string): seq<string> {
    if nodes == [] then []
    else (if nodes[0].short == short then [nodes[0].key.0 + "::" + nodes[0].name] else []) + MovedTo(nodes[1..], short)
  }

  predicate IsBroken(w: World, movedTo: seq<string>, survivors: seq<Survivor>) {
    movedTo == [] ||
    (w.headIndex.Some? && exists i ::
      0 <= i < |survivors| && (!survivors[i].attribute || StaticallyTyped(survivors[i].file)))
  }

  function CallersOf(base: Scan, removed: seq<FnNode>, sym: FnNode): seq<FnNode> {
    Callers(base, removed, base.edges, sym.id)
  }

  /** The finding about one removed function: none when nothing that called it still names it. */
  function FindingOf(w: World, base: Scan, head: Scan, removed: seq<FnNode>, sym: FnNode): seq<Finding> {
    var survivors := Survivors(Outcomes(w, head, sym, CallersOf(base, removed, sym)));
    var movedTo := MovedTo(head.nodes, sym.short);
    if survivors == [] then []
    else [Finding(sym.name, sym.key.0, IsBroken(w, movedTo, survivors), movedTo, survivors)]
  }

  // ----- the whole comparison -----

  datatype Tally = Tally(findings: seq<Finding>, withCallers: nat, updated: nat)

  function TallyOf(w: World, base: Scan, head: Scan, removed: seq<FnNode>, syms: seq<FnNode>): Tally {
    if syms == [] then Tally([], 0, 0)
    else
      var before, sym := TallyOf(w, base, head, removed, syms[..|syms| - 1]), syms[|syms| - 1];
      var callers := CallersOf(base, removed, sym);
      Tally(before.findings + FindingOf(w, base, head, removed, sym),
            before.withCallers + (if callers == [] then 0 else 1),
            before.updated + UpdatedCount(Outcomes(w, head, sym, callers)))
  }

  function Ratio(edges: seq<Edge>): real {
    if edges == [] then 0.0 else |Filter(edges, (e: Edge) => e.compiler)| as real / |edges| as real
  }

  function Verdict(findings: seq<Finding>, ratio: real, removed: nat): string {
    if exists i :: 0 <= i < |findings| && findings[i].broken then "broken"
    else if ratio == 0.0 && removed != 0 then "unverified"
    else if findings == [] then "safe"
    else "review"
  }

  /** What the check concludes about two scans whose names are already told apart. */
  function ReportOf(w: World, base: Scan, head: Scan): Report {
    var removed := Removed(base.nodes, head.nodes);
    var t, ratio := TallyOf(w, base, head, removed, removed), Ratio(base.edges);
    Report(Verdict(t.findings, ratio, |removed|), |removed|, t.withCallers, t.updated, ratio, t.findings)
  }

  method RemovedFrom(base: seq<FnNode>, headByKey: map<Key, FnNode>, ghost head: seq<FnNode>)
    returns (removed: seq<FnNode>)
    requires forall k :: Lookup(headByKey, k) == FindKey(head, k)
    ensures removed == Removed(base, head)
  {
    removed := [];
    for i := 0 to |base|
      invariant removed == Removed(base[..i], head)
    {
      var n := base[i];
      assert base[..i + 1] == base[..i] + [n];
      FilterAppend(base[..i], [n], x => Gone(head, x));
      assert Lookup(headByKey, n.key) == FindKey(head, n.key);
      if n.isFunction && n.short != FILE_SCOPE && n.key !in headByKey {
        removed := removed + [n];
      }
    }
    assert base[..|base|] == base;
  }

  /** What one removed function adds. */
  lemma TallyNext(w: World, base: Scan, head: Scan, removed: seq<FnNode>, i: nat)
    requires i < |removed|
    ensures var t, sym := TallyOf(w, base, head, removed, removed[..i]), removed[i];
      var callers := CallersOf(base, removed, sym);
      var survivors := Survivors(Outcomes(w, head, sym, callers));
      var movedTo := MovedTo(head.nodes, sym.short);
      TallyOf(w, base, head, removed, removed[..i + 1]) ==
        if callers == [] then t
        else Tally(if survivors == [] then t.findings
                   else
                     t.findings + [Finding(sym.name, sym.key.0, IsBroken(w, movedTo, survivors), movedTo, survivors)],
                   t.withCallers + 1, t.updated + UpdatedCount(Outcomes(w, head, sym, callers)))
  {
    assert removed[..i + 1][..i] == removed[..i];
    assert Outcomes(w, head, removed[i], []) == [];
  }

  method Compare(w: World, base: Scan, head: Scan) returns (report: Report)
    ensures report == ReportOf(w, base, head)
  {
    var headByKey := IndexByKey(head.nodes);
    var headById := IndexById(head.nodes);
    var removed := RemovedFrom(base.nodes, headByKey, head.nodes);
    var t := Tally([], 0, 0);
    for i := 0 to |removed|
      invariant t == TallyOf(w, base, head, removed, removed[..i])
    {
      var sym := removed[i];
      TallyNext(w, base, head, removed, i);
      var callers := CallersOf(base, removed, sym);
      if callers == [] {
        continue;
      }
      var surviving, updated := JudgeCallers(w, head, headByKey, headById, sym, callers);
      t := t.(withCallers := t.withCallers + 1, updated := t.updated + updated);
      if surviving == [] {
        continue;
      }
      var movedTo := MovedTo(head.nodes, sym.short);
      t := t.(findings := t.findings +
        [Finding(sym.name, sym.key.0, IsBroken(w, movedTo, surviving), movedTo, surviving)]);
    }
    assert removed[..|removed|] == removed;
    var ratio := Ratio(base.edges);
    report := Report(Verdict(t.findings, ratio, |removed|), |removed|, t.withCallers, t.updated, ratio, t.findings);
  }

  /** The check on two loaded scans. */
  method Check(w: World, base: Scan, head: Scan) returns (report: Report)
    ensures report == ReportOf(w, Scan(RenameAll(base.nodes, head.nodes, base.nodes), base.edges),
                                  Scan(RenameAll(base.nodes, head.nodes, head.nodes), head.edges))
  {
    var b := new FnNode[|base.nodes|](i requires 0 <= i < |base.nodes| => base.nodes[i]);
    var h := new FnNode[|head.nodes|](i requires 0 <= i < |head.nodes| => head.nodes[i]);
    assert b[..] == base.nodes && h[..] == head.nodes;
    Disambiguate(b, h);
    report := Compare(w, Scan(b[..], base.edges), Scan(h[..], head.edges));
  }
}
