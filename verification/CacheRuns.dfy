/** When the cached index of a fresh cache is the right one, over every run, and where it is not
    (graphengine-scip-adapter/src/fingerprint.rs, and `finish_index` in provisioning/mod.rs). */
module CacheRuns {
  import opened Basics
  import opened CacheProtocol
  import opened CacheSafety
  import opened Framing
  import Decimal
  import Sidecar

  // ----- where the files of a cache come from -----

  /** The state after the first `before` steps, seen at `root`. */
  datatype Moment = Moment(before: nat, root: Bytes)

  predicate Live(st: State, root: Bytes) {
    st.pin.Some? && root in st.roots
  }

  /** What an index generated at that moment would be about. */
  ghost function SnapshotAt(steps: seq<Step>, m: Moment): Snapshot {
    var st := Run(if m.before <= |steps| then steps[..m.before] else steps);
    if Live(st, m.root) then Current(st, m.root) else Snapshot(m.root, "", [])
  }

  /** Whose files the last step leaves at `root`. */
  function Origin(st: State, last: Step, root: Bytes): Bytes {
    if last.CopyTree? && last.to == root && last.from in st.roots then last.from else root
  }

  predicate IndexesAt(st: State, last: Step, root: Bytes) {
    (last.RunIndexer? || last.IndexAtOnce?) && last.root == root && Live(st, root)
  }

  predicate CopiesAt(st: State, last: Step, root: Bytes) {
    last.CopyOutput? && last.root == root && Live(st, root)
  }

  predicate WritesAt(st: State, last: Step, root: Bytes) {
    last.WriteSidecar? && last.root == root && Live(st, root)
  }

  predicate ForgetsAt(last: Step, root: Bytes) {
    (last.DropSidecar? || last.LeaveLegacy?) && last.root == root
  }

  /** When, and at which root, the indexer ran that left the output now at `root`. */
  ghost function OutputBorn(steps: seq<Step>, root: Bytes): Option<Moment> {
    if steps == [] then None
    else
      var init, last := steps[..|steps| - 1], steps[|steps| - 1];
      if IndexesAt(Run(init), last, root) then Some(Moment(|init|, root))
      else OutputBorn(init, Origin(Run(init), last, root))
  }

  /** The same for the index now cached at `root`. */
  ghost function CachedBorn(steps: seq<Step>, root: Bytes): Option<Moment> {
    if steps == [] then None
    else
      var init, last := steps[..|steps| - 1], steps[|steps| - 1];
      if IndexesAt(Run(init), last, root) && last.IndexAtOnce? then Some(Moment(|init|, root))
      else if CopiesAt(Run(init), last, root) && OutputBorn(init, root).Some? then OutputBorn(init, root)
      else if last.DropIndex? && last.root == root then None
      else CachedBorn(init, Origin(Run(init), last, root))
  }

  /** When, and at which root, the sidecar now at `root` was written, if this program wrote it. */
  ghost function SidecarBorn(steps: seq<Step>, root: Bytes): Option<Moment> {
    if steps == [] then None
    else
      var init, last := steps[..|steps| - 1], steps[|steps| - 1];
      if IndexesAt(Run(init), last, root) && last.IndexAtOnce? then Some(Moment(|init|, root))
      else if WritesAt(Run(init), last, root) && OutputBorn(init, root).Some? then Some(Moment(|init|, root))
      else if ForgetsAt(last, root) then None
      else SidecarBorn(init, Origin(Run(init), last, root))
  }

  /** A snapshot stored in a file is the one of the moment the file was born. */
  ghost predicate BornAt(steps: seq<Step>, stored: Option<Snapshot>, born: Option<Moment>) {
    && (stored.Some? <==> born.Some?)
    && (born.Some? ==> born.value.before <= |steps| && stored.value == SnapshotAt(steps, born.value))
  }

  function About(sidecar: Option<SidecarFile>): Option<Snapshot> {
    if sidecar.Some? && sidecar.value.Written? then Some(sidecar.value.about) else None
  }

  function WorkspaceAt(st: State, root: Bytes): Workspace {
    if root in st.roots then st.roots[root] else Workspace([], None, None, None)
  }

  ghost predicate Traced(steps: seq<Step>, root: Bytes) {
    var ws := WorkspaceAt(Run(steps), root);
    && BornAt(steps, ws.output, OutputBorn(steps, root))
    && BornAt(steps, ws.cached, CachedBorn(steps, root))
    && BornAt(steps, About(ws.sidecar), SidecarBorn(steps, root))
  }

  lemma LaterMoment(init: seq<Step>, last: Step, m: Moment)
    requires m.before <= |init|
    ensures SnapshotAt(init + [last], m) == SnapshotAt(init, m)
  {
    assert (init + [last])[..m.before] == init[..m.before];
  }

  lemma StillBorn(init: seq<Step>, last: Step, stored: Option<Snapshot>, born: Option<Moment>)
    requires BornAt(init, stored, born)
    ensures BornAt(init + [last], stored, born)
  {
    if born.Some? { LaterMoment(init, last, born.value); }
  }

  lemma JustBorn(init: seq<Step>, last: Step, root: Bytes)
    requires Live(Run(init), root)
    ensures SnapshotAt(init + [last], Moment(|init|, root)) == Current(Run(init), root)
  {
    assert (init + [last])[..|init|] == init;
  }

  lemma RunOne(steps: seq<Step>, step: Step)
    ensures Run(steps + [step]) == Apply(Run(steps), step)
  {
    assert (steps + [step])[..|steps|] == steps;
  }

  /** What one step does to the cache at `root`. */
  lemma StepEffect(st: State, last: Step, root: Bytes)
    ensures var ws, ws' := WorkspaceAt(st, Origin(st, last, root)), WorkspaceAt(Apply(st, last), root);
      && ws'.output == (if IndexesAt(st, last, root) then Some(Current(st, root)) else ws.output)
      && ws'.cached == (if IndexesAt(st, last, root) && last.IndexAtOnce? then Some(Current(st, root))
                        else if CopiesAt(st, last, root) && ws.output.Some? then ws.output
                        else if last.DropIndex? && last.root == root then None
                        else ws.cached)
      && About(ws'.sidecar) == (if IndexesAt(st, last, root) && last.IndexAtOnce? then Some(Current(st, root))
                                else if WritesAt(st, last, root) && ws.output.Some? then Some(Current(st, root))
                                else if ForgetsAt(last, root) then None
                                else About(ws.sidecar))
  {
    if last.IndexAtOnce? { AtOnceEffect(st, last.root, last.now); }
  }

  lemma {:induction false} TraceStep(init: seq<Step>, last: Step, root: Bytes)
    requires forall r :: Traced(init, r)
    ensures Traced(init + [last], root)
  {
    hide SnapshotAt, Apply, Run, IndexesAt, CopiesAt, WritesAt, ForgetsAt, About;
    var steps, st := init + [last], Run(init);
    var from := Origin(st, last, root);
    var ws := WorkspaceAt(st, from);
    assert steps[..|steps| - 1] == init && steps[|steps| - 1] == last;
    RunOne(init, last);
    StepEffect(st, last, root);
    assert Traced(init, from);
    StillBorn(init, last, ws.output, OutputBorn(init, from));
    StillBorn(init, last, ws.cached, CachedBorn(init, from));
    StillBorn(init, last, About(ws.sidecar), SidecarBorn(init, from));
    StepIsHere(st, last, root);
    if Live(st, root) { JustBorn(init, last, root); }
  }

  /** Steps that index, copy or write at `root` take their files from there. */
  lemma StepIsHere(st: State, last: Step, root: Bytes)
    ensures IndexesAt(st, last, root) || CopiesAt(st, last, root) || WritesAt(st, last, root) ==>
      Live(st, root) && Origin(st, last, root) == root
  {
  }

  /** Every file of every cache is about the moment it is traced to. */
  lemma {:induction false} RunIsTraced(steps: seq<Step>, root: Bytes)
    ensures Traced(steps, root)
    decreases |steps|
  {
    if steps != [] {
      var init := steps[..|steps| - 1];
      forall r ensures Traced(init, r) { RunIsTraced(init, r); }
      assert steps == init + [steps[|steps| - 1]];
      TraceStep(init, steps[|steps| - 1], root);
    }
  }

  /** Indexing at once stores the current snapshot three times, or does nothing. */
  lemma {:induction false} AtOnceEffect(st: State, root: Bytes, now: nat)
    ensures Live(st, root) ==>
      var s := Current(st, root);
      Apply(st, IndexAtOnce(root, now)) == Put(st, root, Workspace(s.files, Some(s), Some(s), Some(Written(s, now))))
    ensures !Live(st, root) ==> Apply(st, IndexAtOnce(root, now)) == st
  {
    var a := Apply(st, RunIndexer(root));
    var b := Apply(a, CopyOutput(root));
    var c := Apply(b, WriteSidecar(root, now));
    if Live(st, root) {
      assert c.roots == st.roots[root := c.roots[root]];
    } else {
      assert c == st;
    }
  }

  // ----- is the fresh index the right one? -----

  /** The cached index at `root` is about the current root, version and files. */
  ghost predicate IndexRight(w: World, st: State, root: Bytes) {
    Live(st, root) && st.roots[root].cached.Some? && HashesMatch(w, st.roots[root].cached.value, Current(st, root))
  }

  /** Over every run: the index of a fresh cache is right exactly when the workspace it was generated from and the
      workspace its sidecar was written for, each at its own moment, had one version, root and file hash. */
  lemma {:induction false} FreshIndexRightExactly(w: World, steps: seq<Step>, root: Bytes)
    requires Sane(w) && CleanRun(steps) && CacheStatus(w, Run(steps), root) == Fresh
    ensures SidecarBorn(steps, root).Some? && CachedBorn(steps, root).Some?
    ensures
      var ran := SnapshotAt(steps, CachedBorn(steps, root).value);
      var wrote := SnapshotAt(steps, SidecarBorn(steps, root).value);
      && (IndexRight(w, Run(steps), root) <==> HashesMatch(w, ran, wrote))
      && (ran == wrote ==> IndexRight(w, Run(steps), root))
  {
    FreshMeansCurrent(w, steps, root);
    RunIsTraced(steps, root);
  }

  // ----- runs that leave a cache alone -----

  /** The step replaces neither the cached index nor the sidecar at `root`. */
  predicate LeavesCache(step: Step, root: Bytes) {
    match step
    case CopyOutput(r) => r != root
    case WriteSidecar(r, _) => r != root
    case IndexAtOnce(r, _) => r != root
    case CopyTree(_, to) => to != root
    case DropSidecar(r) => r != root
    case DropIndex(r) => r != root
    case LeaveLegacy(r, _) => r != root
    case _ => true
  }

  /** The step replaces neither the indexer's output nor the cached index at `root`. */
  predicate LeavesIndexes(step: Step, root: Bytes) {
    match step
    case RunIndexer(r) => r != root
    case CopyOutput(r) => r != root
    case IndexAtOnce(r, _) => r != root
    case CopyTree(_, to) => to != root
    case DropIndex(r) => r != root
    case _ => true
  }

  /** The step replaces not the indexer's output at `root`. */
  predicate LeavesOutput(step: Step, root: Bytes) {
    LeavesIndexes(step, root) || step.CopyOutput? || step.DropIndex?
  }

  /** The step changes neither the files at `root` nor the pinned version. */
  predicate LeavesSources(step: Step, root: Bytes) {
    match step
    case Edit(r, _) => r != root
    case ChangePin(_) => false
    case CopyTree(_, to) => to != root
    case _ => true
  }

  lemma Longer(steps: seq<Step>, more: seq<Step>)
    requires more != []
    ensures (steps + more)[..|steps + more| - 1] == steps + more[..|more| - 1]
    ensures (steps + more)[|steps + more| - 1] == more[|more| - 1]
  {
  }

  lemma {:induction false} KeptOutput(steps: seq<Step>, more: seq<Step>, root: Bytes)
    requires forall i :: 0 <= i < |more| ==> LeavesOutput(more[i], root)
    ensures OutputBorn(steps + more, root) == OutputBorn(steps, root)
  {
    if more == [] {
      assert steps + more == steps;
    } else {
      Longer(steps, more);
      KeptOutput(steps, more[..|more| - 1], root);
      assert LeavesOutput(more[|more| - 1], root);
    }
  }

  lemma {:induction false} KeptIndex(steps: seq<Step>, more: seq<Step>, root: Bytes)
    requires forall i :: 0 <= i < |more| ==> LeavesIndexes(more[i], root) || LeavesCache(more[i], root)
    ensures CachedBorn(steps + more, root) == CachedBorn(steps, root)
  {
    if more == [] {
      assert steps + more == steps;
    } else {
      Longer(steps, more);
      KeptIndex(steps, more[..|more| - 1], root);
      assert LeavesIndexes(more[|more| - 1], root) || LeavesCache(more[|more| - 1], root);
    }
  }

  lemma {:induction false} KeptSidecar(steps: seq<Step>, more: seq<Step>, root: Bytes)
    requires forall i :: 0 <= i < |more| ==> LeavesCache(more[i], root)
    ensures SidecarBorn(steps + more, root) == SidecarBorn(steps, root)
  {
    if more == [] {
      assert steps + more == steps;
    } else {
      Longer(steps, more);
      KeptSidecar(steps, more[..|more| - 1], root);
      assert LeavesCache(more[|more| - 1], root);
    }
  }

  lemma {:induction false} KeptSources(steps: seq<Step>, more: seq<Step>, root: Bytes)
    requires forall i :: 0 <= i < |more| ==> LeavesSources(more[i], root)
    requires Live(Run(steps), root)
    ensures Live(Run(steps + more), root) && Current(Run(steps + more), root) == Current(Run(steps), root)
  {
    if more == [] {
      assert steps + more == steps;
    } else {
      var init, last := more[..|more| - 1], more[|more| - 1];
      Longer(steps, more);
      KeptSources(steps, init, root);
      assert LeavesSources(last, root);
      if last.IndexAtOnce? { AtOnceEffect(Run(steps + init), last.root, last.now); }
    }
  }

  lemma Prefixed(steps: seq<Step>, more: seq<Step>, root: Bytes)
    requires Live(Run(steps), root)
    ensures SnapshotAt(steps + more, Moment(|steps|, root)) == Current(Run(steps), root)
  {
    assert (steps + more)[..|steps|] == steps;
  }

  /** The sidecar was the last thing written: the index of the fresh cache is right exactly when it was about the
      files and the version as that sidecar was written. */
  lemma {:induction false} WriteRightExactly(w: World, before: seq<Step>, now: nat, after: seq<Step>, root: Bytes)
    requires var steps := before + [WriteSidecar(root, now)] + after;
      Sane(w) && CleanRun(steps) && CacheStatus(w, Run(steps), root) == Fresh
    requires Live(Run(before), root) && Run(before).roots[root].output.Some?
    requires forall i :: 0 <= i < |after| ==> LeavesCache(after[i], root)
    ensures IndexRight(w, Run(before + [WriteSidecar(root, now)] + after), root) <==> IndexRight(w, Run(before), root)
  {
    hide Run, CacheStatus, CleanRun, HashesMatch, SnapshotAt, CachedBorn, SidecarBorn, OutputBorn, LeavesCache;
    var write := [WriteSidecar(root, now)];
    var written := before + write;
    var steps := written + after;
    FreshIndexRightExactly(w, steps, root);
    WriteBorn(before, now, root);
    KeptSidecar(written, after, root);
    KeptIndex(before, write, root);
    KeptIndex(written, after, root);
    WrittenThere(before, now, after, root);
    RunIsTraced(before, root);
  }

  /** Both moments the index and the sidecar are traced to lie within `before`. */
  lemma WrittenThere(before: seq<Step>, now: nat, after: seq<Step>, root: Bytes)
    requires Live(Run(before), root)
    ensures var steps := before + [WriteSidecar(root, now)] + after;
      && SnapshotAt(steps, Moment(|before|, root)) == Current(Run(before), root)
      && (CachedBorn(before, root).Some? ==>
          SnapshotAt(steps, CachedBorn(before, root).value) == SnapshotAt(before, CachedBorn(before, root).value))
  {
    hide Run, CachedBorn;
    var rest := [WriteSidecar(root, now)] + after;
    assert before + [WriteSidecar(root, now)] + after == before + rest;
    Prefixed(before, rest, root);
    RunIsTraced(before, root);
    if CachedBorn(before, root).Some? { SamePast(before, rest, CachedBorn(before, root).value); }
  }

  lemma SamePast(steps: seq<Step>, more: seq<Step>, m: Moment)
    requires m.before <= |steps|
    ensures SnapshotAt(steps + more, m) == SnapshotAt(steps, m)
  {
    assert (steps + more)[..m.before] == steps[..m.before];
  }

  lemma WriteBorn(before: seq<Step>, now: nat, root: Bytes)
    requires Live(Run(before), root) && Run(before).roots[root].output.Some?
    ensures SidecarBorn(before + [WriteSidecar(root, now)], root) == Some(Moment(|before|, root))
  {
    assert (before + [WriteSidecar(root, now)])[..|before|] == before;
    RunIsTraced(before, root);
  }

  /** Indexing in three steps with anything between them that leaves the output and its copy alone. */
  function SplitIndexing(before: seq<Step>, mid1: seq<Step>, mid2: seq<Step>, now: nat, root: Bytes): seq<Step> {
    Copied(before, mid1, mid2, root) + [WriteSidecar(root, now)]
  }

  /** The same run up to the moment the sidecar is written. */
  function Copied(before: seq<Step>, mid1: seq<Step>, mid2: seq<Step>, root: Bytes): seq<Step> {
    before + [RunIndexer(root)] + mid1 + [CopyOutput(root)] + mid2
  }

  lemma {:induction false} CopiedBorn(before: seq<Step>, mid1: seq<Step>, mid2: seq<Step>, root: Bytes)
    requires Live(Run(before), root) && Live(Run(before + [RunIndexer(root)] + mid1), root)
    requires forall i :: 0 <= i < |mid1| ==> LeavesOutput(mid1[i], root)
    requires forall i :: 0 <= i < |mid2| ==> LeavesIndexes(mid2[i], root)
    ensures var p := Copied(before, mid1, mid2, root);
      OutputBorn(p, root) == CachedBorn(p, root) == Some(Moment(|before|, root))
  {
    var ran := before + [RunIndexer(root)];
    assert ran[..|before|] == before;
    KeptOutput(ran, mid1, root);
    var q := ran + mid1;
    var c := q + [CopyOutput(root)];
    assert c[..|q|] == q;
    KeptIndex(c, mid2, root);
    KeptOutput(q, [CopyOutput(root)], root);
    KeptOutput(c, mid2, root);
  }

  /** Indexing in three steps, then anything that leaves the cache alone: the index of the fresh cache is right exactly
      when the pin and the hash of root's files were the same as the indexer ran and as the sidecar was written. */
  lemma {:induction false} SplitIndexingRightExactly(w: World, before: seq<Step>, mid1: seq<Step>, mid2: seq<Step>,
          now: nat, after: seq<Step>, root: Bytes)
    requires var steps := SplitIndexing(before, mid1, mid2, now, root) + after;
      Sane(w) && CleanRun(steps) && CacheStatus(w, Run(steps), root) == Fresh
    requires Live(Run(before), root) && Live(Run(before + [RunIndexer(root)] + mid1), root)
    requires Live(Run(Copied(before, mid1, mid2, root)), root)
    requires forall i :: 0 <= i < |mid1| ==> LeavesOutput(mid1[i], root)
    requires forall i :: 0 <= i < |mid2| ==> LeavesIndexes(mid2[i], root)
    requires forall i :: 0 <= i < |after| ==> LeavesCache(after[i], root)
    ensures var steps := SplitIndexing(before, mid1, mid2, now, root) + after;
      var ran, wrote := Current(Run(before), root), Current(Run(Copied(before, mid1, mid2, root)), root);
      IndexRight(w, Run(steps), root) <==>
        ran.version == wrote.version && w.hash(Framed(w, ran)) == w.hash(Framed(w, wrote))
  {
    hide Run, CacheStatus, CleanRun, SnapshotAt, CachedBorn, SidecarBorn, OutputBorn, LeavesCache, LeavesIndexes,
      LeavesOutput, Framed;
    var p := Copied(before, mid1, mid2, root);
    CopiedBorn(before, mid1, mid2, root);
    RunIsTraced(p, root);
    WriteRightExactly(w, p, now, after, root);
    var rest := [RunIndexer(root)] + mid1 + [CopyOutput(root)] + mid2;
    assert p == before + rest;
    Prefixed(before, rest, root);
  }

  /** So it is right whenever neither root's files nor the pin changed in between. */
  lemma {:induction false} UndisturbedIndexingIsSafe(w: World, before: seq<Step>, mid1: seq<Step>, mid2: seq<Step>,
          now: nat, after: seq<Step>, root: Bytes)
    requires var steps := SplitIndexing(before, mid1, mid2, now, root) + after;
      Sane(w) && CleanRun(steps) && CacheStatus(w, Run(steps), root) == Fresh
    requires Live(Run(before), root)
    requires forall i :: 0 <= i < |mid1| ==> LeavesOutput(mid1[i], root) && LeavesSources(mid1[i], root)
    requires forall i :: 0 <= i < |mid2| ==> LeavesIndexes(mid2[i], root) && LeavesSources(mid2[i], root)
    requires forall i :: 0 <= i < |after| ==> LeavesCache(after[i], root)
    ensures IndexRight(w, Run(SplitIndexing(before, mid1, mid2, now, root) + after), root)
  {
    KeptSources(before, [RunIndexer(root)], root);
    KeptSources(before + [RunIndexer(root)], mid1, root);
    KeptSources(before + [RunIndexer(root)] + mid1, [CopyOutput(root)], root);
    KeptSources(before + [RunIndexer(root)] + mid1 + [CopyOutput(root)], mid2, root);
    SplitIndexingRightExactly(w, before, mid1, mid2, now, after, root);
  }

  // ----- indexing at once -----

  /** The cached index and the sidecar are about one snapshot. */
  ghost predicate Paired(ws: Workspace) {
    ws.cached.Some? && About(ws.sidecar).Some? ==> ws.cached == About(ws.sidecar)
  }

  /** At the trusted roots indexing happens at once, and trees are copied onto them only from one another. */
  predicate AtOnce(step: Step, trusted: set<Bytes>) {
    match step
    case RunIndexer(r) => r !in trusted
    case CopyOutput(r) => r !in trusted
    case WriteSidecar(r, _) => r !in trusted
    case CopyTree(from, to) => to in trusted ==> from in trusted
    case _ => true
  }

  lemma {:induction false} RunKeepsPaired(steps: seq<Step>, trusted: set<Bytes>, root: Bytes)
    requires root in trusted && forall i :: 0 <= i < |steps| ==> AtOnce(steps[i], trusted)
    ensures Paired(WorkspaceAt(Run(steps), root))
    decreases |steps|
  {
    if steps != [] {
      var init, last := steps[..|steps| - 1], steps[|steps| - 1];
      assert AtOnce(last, trusted) && forall i :: 0 <= i < |init| ==> AtOnce(init[i], trusted);
      RunKeepsPaired(init, trusted, Origin(Run(init), last, root));
      StepEffect(Run(init), last, root);
    }
  }

  /** Over every run that indexes at once at the trusted roots and does anything elsewhere: an index that counts as
      fresh there was generated for this root, this version and these files. */
  lemma {:induction false} AtOnceRunsAreSafe(w: World, steps: seq<Step>, trusted: set<Bytes>, root: Bytes)
    requires Sane(w) && CleanRun(steps) && CacheStatus(w, Run(steps), root) == Fresh
    requires root in trusted && forall i :: 0 <= i < |steps| ==> AtOnce(steps[i], trusted)
    ensures Vouches(w, Run(steps), root, Run(steps).roots[root].cached.value)
  {
    FreshMeansCurrent(w, steps, root);
    RunKeepsPaired(steps, trusted, root);
  }

  /** After indexing at once the cache is fresh, whatever happened before. */
  lemma {:induction false} FreshAfterIndexing(w: World, steps: seq<Step>, root: Bytes, now: nat)
    requires Sane(w) && CleanRun(steps) && now < Decimal.U64_LIMIT && Live(Run(steps), root)
    ensures CacheStatus(w, Run(steps + [IndexAtOnce(root, now)]), root) == Fresh
  {
    var st := Run(steps);
    var t := Apply(st, IndexAtOnce(root, now));
    RunOne(steps, IndexAtOnce(root, now));
    RunIsGood(steps);
    ApplyKeepsGood(st, IndexAtOnce(root, now));
    AtOnceEffect(st, root, now);
    FreshExactly(w, t, root);
    assert Wrote(t, root, Current(st, root)) && Current(t, root) == Current(st, root);
  }

  // ----- where the guarantee ends -----

  /** The cache at `root` counts as fresh although its index is about `was`, which differs from what is there. */
  ghost predicate StaleButFresh(w: World, steps: seq<Step>, root: Bytes, was: Snapshot) {
    var st := Run(steps);
    && CleanRun(steps) && CacheStatus(w, st, root) == Fresh
    && Live(st, root) && st.roots[root].cached == Some(was) && was != Current(st, root)
  }

  lemma RunTwo(a: Step, b: Step)
    ensures Run([a, b]) == Apply(Apply(START, a), b)
  {
    RunOne([], a);
    RunOne([a], b);
    assert [] + [a] == [a] && [a] + [b] == [a, b];
  }

  /** A sidecar just written makes the cache fresh if there is one. */
  lemma {:induction false} FreshAfterWriting(w: World, steps: seq<Step>, root: Bytes, now: nat)
    requires Sane(w) && CleanRun(steps) && now < Decimal.U64_LIMIT && Live(Run(steps), root)
    requires Run(steps).roots[root].output.Some? && Run(steps).roots[root].cached.Some?
    ensures var t := steps + [WriteSidecar(root, now)];
      && CleanRun(t) && CacheStatus(w, Run(t), root) == Fresh && Live(Run(t), root)
      && Run(t).roots[root].cached == Run(steps).roots[root].cached
      && Current(Run(t), root) == Current(Run(steps), root)
  {
    var st := Run(steps);
    var t := Apply(st, WriteSidecar(root, now));
    RunOne(steps, WriteSidecar(root, now));
    RunIsGood(steps);
    ApplyKeepsGood(st, WriteSidecar(root, now));
    FreshExactly(w, t, root);
    assert Wrote(t, root, Current(st, root)) && Current(t, root) == Current(st, root);
  }

  /** A pin, files, the indexer's run and its copy. */
  function IndexedRun(root: Bytes, pin: string, files: seq<File>): seq<Step> {
    [ChangePin(Some(pin)), Edit(root, files)] + [RunIndexer(root)] + [CopyOutput(root)]
  }

  lemma ReachesIndexed(root: Bytes, pin: string, files: seq<File>)
    requires '|' !in pin && CleanFiles(files)
    ensures var s := Snapshot(root, pin, files);
      Run(IndexedRun(root, pin, files)) == State(Some(pin), map[root := Workspace(files, Some(s), Some(s), None)])
    ensures CleanRun(IndexedRun(root, pin, files))
  {
    var two := [ChangePin(Some(pin)), Edit(root, files)];
    RunTwo(ChangePin(Some(pin)), Edit(root, files));
    RunOne(two, RunIndexer(root));
    RunOne(two + [RunIndexer(root)], CopyOutput(root));
  }

  /** Files edited between the copy and the sidecar: the old index counts as fresh for the new files. */
  lemma {:induction false} EditDuringIndexing(w: World, root: Bytes, pin: string, files: seq<File>, edited: seq<File>,
          now: nat)
    requires Sane(w) && '|' !in pin && now < Decimal.U64_LIMIT
    requires CleanFiles(files) && CleanFiles(edited) && files != edited
    ensures
      StaleButFresh(w, IndexedRun(root, pin, files) + [Edit(root, edited)] + [WriteSidecar(root, now)], root,
                    Snapshot(root, pin, files))
  {
    ReachesIndexed(root, pin, files);
    RunOne(IndexedRun(root, pin, files), Edit(root, edited));
    FreshAfterWriting(w, IndexedRun(root, pin, files) + [Edit(root, edited)], root, now);
  }

  /** A copy that fails: the sidecar vouches for the new output, but an older index is still the cached one. */
  lemma {:induction false} FailedCopy(w: World, root: Bytes, pin: string, files: seq<File>, edited: seq<File>, now: nat)
    requires Sane(w) && '|' !in pin && now < Decimal.U64_LIMIT
    requires CleanFiles(files) && CleanFiles(edited) && files != edited
    ensures
      StaleButFresh(w,
                    IndexedRun(root, pin, files) + [Edit(root, edited)] + [RunIndexer(root)]
                    + [WriteSidecar(root, now)],
                    root, Snapshot(root, pin, files))
  {
    var edit := IndexedRun(root, pin, files) + [Edit(root, edited)];
    ReachesIndexed(root, pin, files);
    RunOne(IndexedRun(root, pin, files), Edit(root, edited));
    RunOne(edit, RunIndexer(root));
    FreshAfterWriting(w, edit + [RunIndexer(root)], root, now);
  }

  /** Indexing at once at one root is not enough when a tree comes back from a root that does not: the sidecar is the
      root's own, the index is the other root's. */
  lemma {:induction false} CopiedBack(w: World, root: Bytes, other: Bytes, pin: string, files: seq<File>, now: nat)
    requires Sane(w) && '|' !in pin && now < Decimal.U64_LIMIT && CleanFiles(files) && root != other
    ensures
      StaleButFresh(w,
                    [ChangePin(Some(pin)), Edit(root, files)] + [IndexAtOnce(root, now)] + [CopyTree(root, other)]
                    + [RunIndexer(other)] + [CopyOutput(other)] + [CopyTree(other, root)],
                    root, Snapshot(other, pin, files))
  {
    var a := [ChangePin(Some(pin)), Edit(root, files)];
    var b := a + [IndexAtOnce(root, now)];
    var c := b + [CopyTree(root, other)];
    var d := c + [RunIndexer(other)];
    var e := d + [CopyOutput(other)];
    var steps := e + [CopyTree(other, root)];
    RunTwo(ChangePin(Some(pin)), Edit(root, files));
    RunOne(a, IndexAtOnce(root, now));
    AtOnceEffect(Run(a), root, now);
    RunOne(b, CopyTree(root, other));
    RunOne(c, RunIndexer(other));
    RunOne(d, CopyOutput(other));
    RunOne(e, CopyTree(other, root));
    assert CleanRun(steps);
    RunIsGood(steps);
    FreshExactly(w, Run(steps), root);
    assert Wrote(Run(steps), root, Snapshot(root, pin, files));
  }

  /** Unreadable files: two of them have the fingerprint of one readable file whose digest spells the rest. */
  lemma {:induction false} UnreadableFilesLookFresh(w: World, root: Bytes, pin: string, p: Bytes, q: Bytes,
          content: Bytes)
    requires |q| == 30 && w.hash(content) == [NEWLINE] + q + [NUL]
    ensures
      HashesMatch(w, Snapshot(root, pin, [File(p, None), File(q, None)]),
                  Snapshot(root, pin, [File(p, Some(content))]))
  {
    var two, one := [File(p, None), File(q, None)], [File(p, Some(content))];
    assert Sources(w, two) == [Source(p, None), Source(q, None)];
    assert Sources(w, one) == [Source(p, Some([NEWLINE] + q + [NUL]))];
    UnreadableCollides(p, q);
  }
}
