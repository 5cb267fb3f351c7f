/** What a deletion report promises (gridseak-cli/src/pr_check.rs, `check`). */
module DeletionLaws {
  import opened Basics
  import opened Sorting
  import opened DeletionCheck
  import MaskLexer
  import Mentions

  // ----- nothing is lost: every live pair is either updated or surviving -----

  /** The edge is a compiler-proved call of `target` from a caller that was not removed and is still at head. */
  predicate LiveCall(base: Scan, head: Scan, removed: seq<FnNode>, target: string, e: Edge) {
    && e.to == target && e.compiler && !IsRemovedId(removed, e.from)
    && FindId(base.nodes, e.from).Some?
    && FindKey(head.nodes, FindId(base.nodes, e.from).value.key).Some?
  }

  function LiveCalls(base: Scan, head: Scan, removed: seq<FnNode>, edges: seq<Edge>, target: string): nat {
    |Filter(edges, (e: Edge) => LiveCall(base, head, removed, target, e))|
  }

  /** All (removed function, live compiler caller) pairs, edge by edge. */
  function LivePairs(base: Scan, head: Scan, removed: seq<FnNode>, syms: seq<FnNode>): nat {
    if syms == [] then 0
    else
      LivePairs(base, head, removed, syms[..|syms| - 1])
      + LiveCalls(base, head, removed, base.edges, syms[|syms| - 1].id)
  }

  function SurvivorTotal(findings: seq<Finding>): nat {
    if findings == [] then 0 else |findings[0].survivors| + SurvivorTotal(findings[1..])
  }

  lemma AbsentExactly(w: World, head: Scan, sym: FnNode, caller: FnNode)
    ensures Judge(w, head, sym, caller).Absent? <==> FindKey(head.nodes, caller.key).None?
  {
  }

  lemma {:induction false} CallersAccounted(w: World, base: Scan, head: Scan, removed: seq<FnNode>, sym: FnNode,
          edges: seq<Edge>)
    ensures var os := Outcomes(w, head, sym, Callers(base, removed, edges, sym.id));
      |Survivors(os)| + UpdatedCount(os) == LiveCalls(base, head, removed, edges, sym.id)
  {
    hide Judge, FindKey, FindId, IsRemovedId;
    if edges != [] {
      CallersAccounted(w, base, head, removed, sym, edges[1..]);
      var rest := Callers(base, removed, edges[1..], sym.id);
      var os := Outcomes(w, head, sym, Callers(base, removed, edges, sym.id));
      var e := edges[0];
      if e.to == sym.id && e.compiler && !IsRemovedId(removed, e.from) && FindId(base.nodes, e.from).Some? {
        assert os[1..] == Outcomes(w, head, sym, rest);
        AbsentExactly(w, head, sym, FindId(base.nodes, e.from).value);
      } else {
        assert os == Outcomes(w, head, sym, rest);
      }
    }
  }

  lemma {:induction false} SurvivorTotalAppend(a: seq<Finding>, b: seq<Finding>)
    ensures SurvivorTotal(a + b) == SurvivorTotal(a) + SurvivorTotal(b)
  {
    if a == [] {
      assert a + b == b;
    } else {
      SurvivorTotalAppend(a[1..], b);
      assert (a + b)[1..] == a[1..] + b;
    }
  }

  lemma {:induction false} TallyAccounted(w: World, base: Scan, head: Scan, removed: seq<FnNode>, syms: seq<FnNode>)
    ensures var t := TallyOf(w, base, head, removed, syms);
      SurvivorTotal(t.findings) + t.updated == LivePairs(base, head, removed, syms)
  {
    if syms != [] {
      var init, sym := syms[..|syms| - 1], syms[|syms| - 1];
      TallyAccounted(w, base, head, removed, init);
      CallersAccounted(w, base, head, removed, sym, base.edges);
      SurvivorTotalAppend(TallyOf(w, base, head, removed, init).findings, FindingOf(w, base, head, removed, sym));
    }
  }

  /** Surviving callers plus callers updated in the change are exactly the live pairs. */
  lemma {:induction false} EveryPairAccounted(w: World, base: Scan, head: Scan)
    ensures var r, removed := ReportOf(w, base, head), Removed(base.nodes, head.nodes);
      SurvivorTotal(r.findings) + r.updated == LivePairs(base, head, removed, removed)
  {
    var removed := Removed(base.nodes, head.nodes);
    TallyAccounted(w, base, head, removed, removed);
  }

  /** Called at base by something the compiler proved that was not removed itself. */
  predicate Called(base: Scan, removed: seq<FnNode>, edges: seq<Edge>, sym: FnNode) {
    exists i :: 0 <= i < |edges| && CalledBy(base, removed, edges[i], sym.id)
  }

  predicate CalledBy(base: Scan, removed: seq<FnNode>, e: Edge, target: string) {
    e.to == target && e.compiler && !IsRemovedId(removed, e.from) && FindId(base.nodes, e.from).Some?
  }

  lemma {:induction false} CallersMeanCalled(base: Scan, removed: seq<FnNode>, edges: seq<Edge>, sym: FnNode)
    ensures Callers(base, removed, edges, sym.id) != [] <==> Called(base, removed, edges, sym)
  {
    if edges != [] {
      CallersMeanCalled(base, removed, edges[1..], sym);
      if i :| 0 <= i < |edges[1..]| && CalledBy(base, removed, edges[1..][i], sym.id) {
        assert CalledBy(base, removed, edges[i + 1], sym.id);
      }
      if i :| 0 <= i < |edges| && CalledBy(base, removed, edges[i], sym.id) && i > 0 {
        assert CalledBy(base, removed, edges[1..][i - 1], sym.id);
      }
    }
  }

  lemma {:induction false} CalledCounted(w: World, base: Scan, head: Scan, removed: seq<FnNode>, syms: seq<FnNode>)
    ensures TallyOf(w, base, head, removed, syms).withCallers ==
      |Filter(syms, s => Called(base, removed, base.edges, s))|
  {
    hide Called, Callers, FindingOf, Outcomes;
    if syms != [] {
      var init, sym := syms[..|syms| - 1], syms[|syms| - 1];
      CalledCounted(w, base, head, removed, init);
      CallersMeanCalled(base, removed, base.edges, sym);
      assert syms == init + [sym] && [sym][1..] == [];
      FilterAppend(init, [sym], s => Called(base, removed, base.edges, s));
    }
  }

  /** The report counts the removed functions, and those of them that were called. */
  lemma {:induction false} RemovalsCounted(w: World, base: Scan, head: Scan)
    ensures var r, removed := ReportOf(w, base, head), Removed(base.nodes, head.nodes);
      && r.removed == |removed|
      && r.withCallers == |Filter(removed, s => Called(base, removed, base.edges, s))|
      && forall n :: n in removed <==>
        n in base.nodes && n.isFunction && n.short != FILE_SCOPE && forall h :: h in head.nodes ==> h.key != n.key
  {
    CalledCounted(w, base, head, Removed(base.nodes, head.nodes), Removed(base.nodes, head.nodes));
    FilterMember(base.nodes, n => Gone(head.nodes, n));
  }

  // ----- verdicts -----

  /** The caller is still there at head, nothing shows it was repointed, and some mention of the
      removed name in its code resolves to nothing. */
  ghost predicate StillNames(w: World, head: Scan, sym: FnNode, caller: FnNode) {
    && FindKey(head.nodes, caller.key).Some?
    && var now := FindKey(head.nodes, caller.key).value;
       && !(w.headIndex.None? && Repointed(head, now.id, sym.short))
       && DanglingMentions(w, now, sym.short, BaseMoniker(w, sym)) != []
  }

  lemma {:induction false} SurvivesMeansStillNames(w: World, head: Scan, sym: FnNode, caller: FnNode)
    ensures Judge(w, head, sym, caller).Survives? <==> StillNames(w, head, sym, caller)
  {
    if FindKey(head.nodes, caller.key).Some? {
      var now := FindKey(head.nodes, caller.key).value;
      SortMembers(BareFirst, DanglingMentions(w, now, sym.short, BaseMoniker(w, sym)));
    }
  }

  lemma {:induction false} SomeSurvivor(os: seq<Outcome>)
    ensures Survivors(os) != [] <==> exists i :: 0 <= i < |os| && os[i].Survives?
  {
    if os != [] {
      SomeSurvivor(os[1..]);
      if i :| 0 <= i < |os| && os[i].Survives? && i > 0 {
        assert os[1..][i - 1].Survives?;
      }
    }
  }

  /** Some caller the compiler proved, and that was not removed itself, still names `sym`. */
  ghost predicate Dangles(w: World, base: Scan, head: Scan, removed: seq<FnNode>, sym: FnNode) {
    exists c :: c in CallersOf(base, removed, sym) && StillNames(w, head, sym, c)
  }

  /** A caller that survives, by its place among the callers. */
  lemma {:induction false} DanglesByPlace(w: World, base: Scan, head: Scan, removed: seq<FnNode>, sym: FnNode)
    ensures var callers := CallersOf(base, removed, sym);
      Dangles(w, base, head, removed, sym) <==>
        exists i :: 0 <= i < |callers| && Judge(w, head, sym, callers[i]).Survives?
  {
    var callers := CallersOf(base, removed, sym);
    if c :| c in callers && StillNames(w, head, sym, c) {
      var i :| 0 <= i < |callers| && callers[i] == c;
      SurvivesMeansStillNames(w, head, sym, callers[i]);
    }
    if i :| 0 <= i < |callers| && Judge(w, head, sym, callers[i]).Survives? {
      SurvivesMeansStillNames(w, head, sym, callers[i]);
      assert callers[i] in callers;
    }
  }

  lemma {:induction false} FindingMeansDangles(w: World, base: Scan, head: Scan, removed: seq<FnNode>, sym: FnNode)
    ensures FindingOf(w, base, head, removed, sym) != [] <==> Dangles(w, base, head, removed, sym)
  {
    var callers := CallersOf(base, removed, sym);
    var os := Outcomes(w, head, sym, callers);
    SomeSurvivor(os);
    DanglesByPlace(w, base, head, removed, sym);
    assert forall i :: 0 <= i < |os| ==> os[i] == Judge(w, head, sym, callers[i]);
  }

  lemma {:induction false} FindingsComeFrom(w: World, base: Scan, head: Scan, removed: seq<FnNode>, syms: seq<FnNode>)
    ensures forall f :: f in TallyOf(w, base, head, removed, syms).findings <==>
      exists s :: s in syms && f in FindingOf(w, base, head, removed, s)
  {
    if syms != [] {
      var init, sym := syms[..|syms| - 1], syms[|syms| - 1];
      assert syms == init + [sym];
      FindingsComeFrom(w, base, head, removed, init);
    }
  }

  lemma {:induction false} NoFindingsExactly(w: World, base: Scan, head: Scan, removed: seq<FnNode>)
    ensures TallyOf(w, base, head, removed, removed).findings == [] <==>
      forall s :: s in removed ==> !Dangles(w, base, head, removed, s)
  {
    var findings := TallyOf(w, base, head, removed, removed).findings;
    FindingsComeFrom(w, base, head, removed, removed);
    if findings != [] {
      assert findings[0] in findings;
      var s :| s in removed && findings[0] in FindingOf(w, base, head, removed, s);
      FindingMeansDangles(w, base, head, removed, s);
    }
    forall s | s in removed && Dangles(w, base, head, removed, s) ensures findings != [] {
      FindingMeansDangles(w, base, head, removed, s);
      var fs := FindingOf(w, base, head, removed, s);
      assert fs[0] in fs;
      assert fs[0] in findings;
    }
  }

  /** The compiler proved some call at base. */
  ghost predicate Evidence(base: Scan) {
    exists e :: e in base.edges && e.compiler
  }

  lemma {:induction false} EvidenceMeansRatio(base: Scan)
    ensures Ratio(base.edges) != 0.0 <==> Evidence(base)
  {
    var proved := Filter(base.edges, (e: Edge) => e.compiler);
    FilterMember(base.edges, (e: Edge) => e.compiler);
    if base.edges != [] {
      Positive(|proved|, |base.edges|);
      if proved != [] { assert proved[0] in proved; }
    }
  }

  lemma Positive(a: nat, n: nat)
    requires n > 0
    ensures a as real / n as real != 0.0 <==> a != 0
  {
    assert (a as real / n as real) * n as real == a as real;
  }

  /** `safe` is said exactly when no removed function dangles, provided there was compiler evidence to
      look at or nothing was removed. */
  lemma {:induction false} SafeExactly(w: World, base: Scan, head: Scan)
    ensures var r, removed := ReportOf(w, base, head), Removed(base.nodes, head.nodes);
      r.verdict == "safe" <==>
        (forall s :: s in removed ==> !Dangles(w, base, head, removed, s)) && (Evidence(base) || removed == [])
  {
    var removed := Removed(base.nodes, head.nodes);
    NoFindingsExactly(w, base, head, removed);
    EvidenceMeansRatio(base);
    SafeVerdict(TallyOf(w, base, head, removed, removed).findings, Ratio(base.edges), |removed|);
    hide Verdict, Dangles, TallyOf, Evidence, Ratio, Removed;
  }

  lemma SafeVerdict(findings: seq<Finding>, ratio: real, removed: nat)
    ensures Verdict(findings, ratio, removed) == "safe" <==> findings == [] && (ratio != 0.0 || removed == 0)
  {
    assert "safe"[0] != "broken"[0] && "safe"[0] != "unverified"[0] && "safe"[0] != "review"[0];
  }

  /** Some unresolved mention in the caller's code is a bare use, or its language resolves member accesses too. */
  ghost predicate Unexcused(w: World, head: Scan, sym: FnNode, caller: FnNode) {
    && StillNames(w, head, sym, caller)
    && var now := FindKey(head.nodes, caller.key).value;
       StaticallyTyped(caller.key.0)
       || exists m :: m in DanglingMentions(w, now, sym.short, BaseMoniker(w, sym)) && !m.attribute
  }

  /** Head declares nothing of the name any more, or its index leaves some surviving caller no excuse. */
  ghost predicate NoExcuse(w: World, base: Scan, head: Scan, removed: seq<FnNode>, s: FnNode) {
    || (forall n :: n in head.nodes ==> n.short != s.short)
    || (w.headIndex.Some? && exists c :: c in CallersOf(base, removed, s) && Unexcused(w, head, s, c))
  }

  lemma {:induction false} NameGone(nodes: seq<FnNode>, short: string)
    ensures MovedTo(nodes, short) == [] <==> forall n :: n in nodes ==> n.short != short
  {
    if nodes != [] {
      NameGone(nodes[1..], short);
      assert nodes == [nodes[0]] + nodes[1..];
    }
  }

  /** A survivor that is no excuse. */
  ghost predicate Plain(o: Outcome) {
    o.Survives? && (!o.survivor.attribute || StaticallyTyped(o.survivor.file))
  }

  predicate Gives(o: Outcome, s: Survivor) {
    o.Survives? && o.survivor == s
  }

  lemma {:induction false} SurvivorsAre(os: seq<Outcome>, s: Survivor)
    ensures s in Survivors(os) <==> exists i :: 0 <= i < |os| && Gives(os[i], s)
  {
    if os != [] {
      SurvivorsAre(os[1..], s);
      if i :| 0 <= i < |os| && Gives(os[i], s) {
        if i > 0 { assert Gives(os[1..][i - 1], s); }
      }
      if i :| 0 <= i < |os[1..]| && Gives(os[1..][i], s) {
        assert Gives(os[i + 1], s);
      }
    }
  }

  lemma {:induction false} PlainSurvivor(os: seq<Outcome>)
    ensures
      (exists i ::
         0 <= i < |Survivors(os)| && (!Survivors(os)[i].attribute || StaticallyTyped(Survivors(os)[i].file))) <==>
      exists i :: 0 <= i < |os| && Plain(os[i])
  {
    var ss := Survivors(os);
    if k :| 0 <= k < |ss| && (!ss[k].attribute || StaticallyTyped(ss[k].file)) {
      SurvivorsAre(os, ss[k]);
      var i :| 0 <= i < |os| && Gives(os[i], ss[k]);
      assert Plain(os[i]);
    }
    if i :| 0 <= i < |os| && Plain(os[i]) {
      assert Gives(os[i], os[i].survivor);
      SurvivorsAre(os, os[i].survivor);
      var k :| 0 <= k < |ss| && ss[k] == os[i].survivor;
    }
  }

  lemma {:induction false} PlainMeansUnexcused(w: World, head: Scan, sym: FnNode, caller: FnNode)
    ensures Plain(Judge(w, head, sym, caller)) <==> Unexcused(w, head, sym, caller)
  {
    SurvivesMeansStillNames(w, head, sym, caller);
    if Judge(w, head, sym, caller).Survives? {
      var now := FindKey(head.nodes, caller.key).value;
      BareHead(DanglingMentions(w, now, sym.short, BaseMoniker(w, sym)));
    }
  }

  lemma {:induction false} SomeUnexcused(w: World, head: Scan, s: FnNode, callers: seq<FnNode>)
    ensures var os := Outcomes(w, head, s, callers);
      (exists i :: 0 <= i < |os| && Plain(os[i])) <==> exists c :: c in callers && Unexcused(w, head, s, c)
  {
    hide Judge, Unexcused, Plain;
    var os := Outcomes(w, head, s, callers);
    if i :| 0 <= i < |os| && Plain(os[i]) {
      PlainMeansUnexcused(w, head, s, callers[i]);
      assert callers[i] in callers;
    }
    if c :| c in callers && Unexcused(w, head, s, c) {
      var i :| 0 <= i < |callers| && callers[i] == c;
      PlainMeansUnexcused(w, head, s, c);
      assert Plain(os[i]);
    }
  }

  lemma {:induction false} BrokenMeansNoExcuse(w: World, base: Scan, head: Scan, removed: seq<FnNode>, s: FnNode)
    ensures IsBroken(w, MovedTo(head.nodes, s.short), Survivors(Outcomes(w, head, s, CallersOf(base, removed, s)))) <==>
      NoExcuse(w, base, head, removed, s)
  {
    hide Judge, Unexcused, Plain, Outcomes, CallersOf;
    NameGone(head.nodes, s.short);
    PlainSurvivor(Outcomes(w, head, s, CallersOf(base, removed, s)));
    SomeUnexcused(w, head, s, CallersOf(base, removed, s));
  }

  lemma {:induction false} BrokenFinding(w: World, base: Scan, head: Scan, removed: seq<FnNode>, s: FnNode)
    ensures HasBroken(FindingOf(w, base, head, removed, s)) <==>
      Dangles(w, base, head, removed, s) && NoExcuse(w, base, head, removed, s)
  {
    FindingMeansDangles(w, base, head, removed, s);
    BrokenMeansNoExcuse(w, base, head, removed, s);
    var fs := FindingOf(w, base, head, removed, s);
    if fs != [] { assert fs[0] in fs; }
  }

  ghost predicate HasBroken(findings: seq<Finding>) {
    exists f :: f in findings && f.broken
  }

  lemma {:induction false} BrokenAmong(w: World, base: Scan, head: Scan, removed: seq<FnNode>)
    ensures HasBroken(TallyOf(w, base, head, removed, removed).findings) <==>
      exists s :: s in removed && HasBroken(FindingOf(w, base, head, removed, s))
  {
    FindingsComeFrom(w, base, head, removed, removed);
  }

  lemma BrokenVerdict(findings: seq<Finding>, ratio: real, removed: nat)
    ensures Verdict(findings, ratio, removed) == "broken" <==> HasBroken(findings)
  {
    if HasBroken(findings) {
      var f :| f in findings && f.broken;
      var i :| 0 <= i < |findings| && findings[i] == f;
    }
    if i :| 0 <= i < |findings| && findings[i].broken {
      assert findings[i] in findings;
    }
    assert "broken"[0] != "unverified"[0] && "broken"[0] != "safe"[0] && "broken"[0] != "review"[0];
  }

  ghost predicate DanglesOpenly(w: World, base: Scan, head: Scan, removed: seq<FnNode>, s: FnNode) {
    Dangles(w, base, head, removed, s) && NoExcuse(w, base, head, removed, s)
  }

  lemma {:induction false} BrokenAmongRemoved(w: World, base: Scan, head: Scan, removed: seq<FnNode>)
    ensures HasBroken(TallyOf(w, base, head, removed, removed).findings) <==>
      exists s :: s in removed && DanglesOpenly(w, base, head, removed, s)
  {
    BrokenAmong(w, base, head, removed);
    if s :| s in removed && HasBroken(FindingOf(w, base, head, removed, s)) {
      BrokenFinding(w, base, head, removed, s);
      assert DanglesOpenly(w, base, head, removed, s);
    }
    if s :| s in removed && DanglesOpenly(w, base, head, removed, s) {
      BrokenFinding(w, base, head, removed, s);
    }
  }

  /** `broken` is said exactly when some removed function dangles without an excuse. */
  lemma {:induction false} BrokenExactly(w: World, base: Scan, head: Scan)
    ensures var r, removed := ReportOf(w, base, head), Removed(base.nodes, head.nodes);
      r.verdict == "broken" <==> exists s :: s in removed && DanglesOpenly(w, base, head, removed, s)
  {
    var removed := Removed(base.nodes, head.nodes);
    BrokenAmongRemoved(w, base, head, removed);
    BrokenVerdict(TallyOf(w, base, head, removed, removed).findings, Ratio(base.edges), |removed|);
  }

  lemma OtherVerdicts(findings: seq<Finding>, ratio: real, removed: nat)
    ensures Verdict(findings, ratio, removed) == "unverified" <==> !HasBroken(findings) && ratio == 0.0 && removed != 0
    ensures Verdict(findings, ratio, removed) == "review" <==>
      !HasBroken(findings) && (ratio != 0.0 || removed == 0) && findings != []
  {
    BrokenVerdict(findings, ratio, removed);
    assert "unverified"[0] != "safe"[0] && "unverified"[0] != "review"[0] && "safe"[0] != "review"[0];
  }

  /** `unverified` is said exactly when nothing is openly broken, something was removed and there was no compiler
      evidence; `review` exactly when there was evidence and some removed function dangles, each with an excuse. */
  lemma {:induction false} OtherVerdictsExactly(w: World, base: Scan, head: Scan)
    ensures var r, removed := ReportOf(w, base, head), Removed(base.nodes, head.nodes);
      && (r.verdict == "unverified" <==>
          (forall s :: s in removed ==> !DanglesOpenly(w, base, head, removed, s)) && !Evidence(base) && removed != [])
      && (r.verdict == "review" <==>
          && (forall s :: s in removed ==> !DanglesOpenly(w, base, head, removed, s)) && Evidence(base)
          && exists s :: s in removed && Dangles(w, base, head, removed, s))
  {
    var removed := Removed(base.nodes, head.nodes);
    BrokenAmongRemoved(w, base, head, removed);
    NoFindingsExactly(w, base, head, removed);
    EvidenceMeansRatio(base);
    OtherVerdicts(TallyOf(w, base, head, removed, removed).findings, Ratio(base.edges), |removed|);
  }

  /** `m` is an unresolved mention of the removed name in the caller's code at head, at the reported line. */
  ghost predicate Shows(w: World, now: FnNode, sym: FnNode, s: Survivor, m: Mentions.Mention) {
    var text := TextOf(w, now.fileAbs);
    && m in DanglingMentions(w, now, sym.short, BaseMoniker(w, sym))
    && m.line == s.line && m.attribute == s.attribute
    && Mentions.InCode(w.u, text, now.startLine, now.endLine, sym.short, m)
    && (' ' !in sym.short ==> MaskLexer.At(text[m.line - 1], m.col, sym.short))
  }

  /** A reported survivor points at an unresolved mention of the removed name: a whole word in the node's code, which
      the file spells out, and a member access only when no bare use is left. */
  lemma {:induction false} SurvivorIsReal(w: World, head: Scan, sym: FnNode, caller: FnNode)
    requires Judge(w, head, sym, caller).Survives?
    ensures var s, now := Judge(w, head, sym, caller).survivor, FindKey(head.nodes, caller.key).value;
      && (exists m :: Shows(w, now, sym, s, m))
      && (s.attribute ==> forall m :: m in DanglingMentions(w, now, sym.short, BaseMoniker(w, sym)) ==> m.attribute)
  {
    hide Judge, DanglingMentions, Mentions.InCode, MaskLexer.At, TextOf, BaseMoniker;
    var m := SurvivorIsFirst(w, head, sym, caller);
    var now := FindKey(head.nodes, caller.key).value;
    DanglingInCode(w, now, sym, m);
    assert Shows(w, now, sym, Judge(w, head, sym, caller).survivor, m);
  }

  /** The survivor reports the first dangling mention, bare uses before member accesses. */
  lemma {:induction false} SurvivorIsFirst(w: World, head: Scan, sym: FnNode, caller: FnNode)
    returns (m: Mentions.Mention)
    requires Judge(w, head, sym, caller).Survives?
    ensures FindKey(head.nodes, caller.key).Some?
    ensures var s := Judge(w, head, sym, caller).survivor;
      var dangling := DanglingMentions(w, FindKey(head.nodes, caller.key).value, sym.short, BaseMoniker(w, sym));
      && m in dangling && m.line == s.line && m.attribute == s.attribute
      && (s.attribute ==> forall x :: x in dangling ==> x.attribute)
  {
    hide DanglingMentions, BaseMoniker;
    var dangling := DanglingMentions(w, FindKey(head.nodes, caller.key).value, sym.short, BaseMoniker(w, sym));
    SortMembers(BareFirst, dangling);
    BareHead(dangling);
    m := Sort(BareFirst, dangling)[0];
  }

  lemma {:induction false} DanglingInCode(w: World, now: FnNode, sym: FnNode, m: Mentions.Mention)
    requires m in DanglingMentions(w, now, sym.short, BaseMoniker(w, sym))
    ensures Mentions.InCode(w.u, TextOf(w, now.fileAbs), now.startLine, now.endLine, sym.short, m)
    ensures 1 <= m.line <= |TextOf(w, now.fileAbs)|
    ensures ' ' !in sym.short ==> MaskLexer.At(TextOf(w, now.fileAbs)[m.line - 1], m.col, sym.short)
  {
    var text := TextOf(w, now.fileAbs);
    DanglingIsMention(w, now, sym.short, BaseMoniker(w, sym), m);
    hide DanglingMentions, BaseMoniker, TextOf;
    Mentions.ReportedIsInCode(w.u, text, now.startLine, now.endLine, sym.short, m);
    if ' ' !in sym.short {
      Mentions.ReportedTextIsIdentifier(w.u, text, now.startLine, now.endLine, sym.short, m);
    }
  }

  /** Sorting bare uses first puts a member access in front only if there is nothing else. */
  lemma {:induction false} BareHead(ms: seq<Mentions.Mention>)
    requires ms != []
    ensures |Sort(BareFirst, ms)| == |ms| && Sort(BareFirst, ms)[0] in ms
    ensures Sort(BareFirst, ms)[0].attribute ==> forall x :: x in ms ==> x.attribute
  {
    var sorted := Sort(BareFirst, ms);
    SortMembers(BareFirst, ms);
    SortSorted(BareFirst, ms);
    assert sorted[0] in sorted;
    forall x | x in ms && sorted[0].attribute ensures x.attribute {
      var i :| 0 <= i < |sorted| && sorted[i] == x;
    }
  }

  lemma {:induction false} DanglingIsMention(w: World, now: FnNode, short: string, moniker: Option<string>,
          m: Mentions.Mention)
    requires m in DanglingMentions(w, now, short, moniker)
    ensures m in Mentions.MentionsIn(w.u, TextOf(w, now.fileAbs), now.startLine, now.endLine, short)
  {
    FilterMember(Mentions.MentionsIn(w.u, TextOf(w, now.fileAbs), now.startLine, now.endLine, short),
                 x => Dangling(w, now.key.0, x, moniker));
  }

  // ----- scans that agree -----

  lemma {:induction false} NothingRemoved(nodes: seq<FnNode>)
    ensures Removed(nodes, nodes) == []
  {
    FilterNone(nodes, n => Gone(nodes, n));
  }

  /** Comparing a scan with itself is safe, whatever the indexes say. */
  lemma {:induction false} SelfComparisonIsSafe(w: World, scan: Scan)
    ensures var same := Scan(RenameAll(scan.nodes, scan.nodes, scan.nodes), scan.edges);
      ReportOf(w, same, same) == Report("safe", 0, 0, 0, Ratio(scan.edges), [])
  {
    NothingRemoved(RenameAll(scan.nodes, scan.nodes, scan.nodes));
  }

  /** Editing the declaration of a function whose name is unique in its file on both sides never
      makes it count as removed. */
  lemma {:induction false} HeaderEditIsNoRemoval(base: seq<FnNode>, head: seq<FnNode>, n: FnNode, now: FnNode)
    requires n in base && now in head && n.key == now.key
    requires CountKey(base, n.key) == 1 && CountKey(head, n.key) == 1
    ensures !Gone(RenameAll(base, head, head), Rename(base, head, n))
  {
    var i :| 0 <= i < |head| && head[i] == now;
    assert RenameAll(base, head, head)[i] == now;
    assert now in RenameAll(base, head, head);
  }
}
