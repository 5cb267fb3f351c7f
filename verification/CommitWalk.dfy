/** The commit walk that feeds every git signal
    (graphengine-git-signals/src/extractor.rs, the loop of `GitSignalExtractor::extract`). */
module CommitWalk {
  import opened Basics
  import opened Sorting
  import Ownership

  /** A repository path as its components, ordered component by component as `Path` is. */
  type Path = seq<string>

  predicate PathLe(a: Path, b: Path) {
    SeqLe(LexLe, a, b)
  }

  lemma PathTotal(a: Path, b: Path)
    ensures PathLe(a, b) || PathLe(b, a)
    ensures PathLe(a, b) && PathLe(b, a) ==> a == b
  {
    LexIsTotalOrder();
    SeqTotal(LexLe, a, b);
  }

  lemma PathTransitive(a: Path, b: Path, c: Path)
    requires PathLe(a, b) && PathLe(b, c)
    ensures PathLe(a, c)
  {
    LexIsTotalOrder();
    SeqTransitive(LexLe, a, b, c);
  }

  lemma PathOrders()
    ensures TotalPreorder(PathLe) && Antisymmetric(PathLe)
  {
    forall a, b ensures PathLe(a, b) || PathLe(b, a) { PathTotal(a, b); }
    forall a, b | PathLe(a, b) && PathLe(b, a) ensures a == b { PathTotal(a, b); }
    forall a, b, c | PathLe(a, b) && PathLe(b, c) ensures PathLe(a, c) { PathTransitive(a, b, c); }
  }

  predicate Before(a: Path, b: Path) {
    a != b && PathLe(a, b)
  }

  /** Strictly ascending: sorted and without repeats. */
  ghost predicate Ascending(files: seq<Path>) {
    forall i, j :: 0 <= i < j < |files| ==> Before(files[i], files[j])
  }

  /** `Vec::dedup`: drops elements equal to their predecessor. */
  function Dedup(s: seq<Path>): seq<Path> {
    if |s| < 2 then s
    else if s[0] == s[1] then Dedup(s[1..])
    else [s[0]] + Dedup(s[1..])
  }

  /** The files a commit's diff names, sorted and deduplicated. */
  function ChangedFiles(paths: seq<Path>): seq<Path> {
    Dedup(Sort(PathLe, paths))
  }

  lemma {:induction false} DedupAscends(s: seq<Path>)
    requires Sorted(PathLe, s)
    ensures Ascending(Dedup(s))
    ensures forall p :: p in Dedup(s) <==> p in s
  {
    if |s| >= 2 {
      DedupAscends(s[1..]);
      assert s == [s[0]] + s[1..];
      forall p | p in s[1..] && s[0] != s[1] ensures Before(s[0], p) {
        var k :| 1 <= k < |s| && s[k] == p;
        assert PathLe(s[0], s[1]) && PathLe(s[1], s[k]) by { PathTotal(s[1], s[1]); }
        PathTransitive(s[0], s[1], s[k]);
        if s[0] == s[k] { PathTotal(s[0], s[1]); }
      }
    }
  }

  lemma {:induction false} ChangedFilesAscend(paths: seq<Path>)
    ensures Ascending(ChangedFiles(paths))
    ensures forall p :: p in ChangedFiles(paths) <==> p in paths
  {
    PathOrders();
    SortSorted(PathLe, paths);
    SortMembers(PathLe, paths);
    DedupAscends(Sort(PathLe, paths));
  }

  // ----- what the walk visits -----

  /** What the revision walk yields, newest first. */
  datatype WalkItem =
    | WalkError
    | Undecodable
    | Found(parents: nat, time: int, author: Option<string>, paths: seq<Path>)

  datatype Window = Window(commitsBack: nat, oldest: Option<int>)

  datatype Commit = Commit(author: string, time: int, files: seq<Path>)

  datatype Verdict = Stop | Skip | Take(commit: Commit)

  /** An error or a commit that is too old ends the walk; merges and undecodable commits are passed over. */
  function Judge(item: WalkItem, w: Window): Verdict {
    match item
    case WalkError => Stop
    case Undecodable => Skip
    case Found(parents, time, author, paths) =>
      if parents > 1 then Skip
      else if w.oldest.Some? && time < w.oldest.value then Stop
      else if author.None? then Skip
      else Take(Commit(author.value, time, ChangedFiles(paths)))
  }

  /** The commits that count, up to the cap. */
  function Visited(items: seq<WalkItem>, w: Window, walked: nat): seq<Commit> {
    if items == [] || walked >= w.commitsBack then []
    else
      match Judge(items[0], w)
      case Stop => []
      case Skip => Visited(items[1..], w, walked)
      case Take(c) => [c] + Visited(items[1..], w, walked + 1)
  }

  lemma {:induction false} VisitedWithinCap(items: seq<WalkItem>, w: Window, walked: nat)
    requires walked <= w.commitsBack
    ensures walked + |Visited(items, w, walked)| <= w.commitsBack
    ensures forall c :: c in Visited(items, w, walked) ==> Ascending(c.files)
  {
    if items != [] && walked < w.commitsBack {
      match Judge(items[0], w)
      case Stop =>
      case Skip => VisitedWithinCap(items[1..], w, walked);
      case Take(c) =>
        VisitedWithinCap(items[1..], w, walked + 1);
        ChangedFilesAscend(items[0].paths);
    }
  }

  // ----- what the accumulators hold -----

  datatype FileAccum = FileAccum(changes: nat, authors: map<string, nat>, latest: Option<int>)

  datatype Accum = Accum(perFile: map<Path, FileAccum>, pairs: map<(Path, Path), nat>,
                         sets: map<seq<Path>, nat>, touched: set<Path>, walked: nat)

  const CLUSTER_FILES: nat := 50

  /** The first 50 files of a commit, in path order. */
  function Clipped(files: seq<Path>): seq<Path> {
    if |files| <= CLUSTER_FILES then files else files[..CLUSTER_FILES]
  }

  function Get<K>(m: map<K, nat>, k: K): nat {
    if k in m then m[k] else 0
  }

  /** A commit's clipped file list pairs `lo` with `hi`. */
  predicate Pairs(c: Commit, lo: Path, hi: Path) {
    |c.files| > 1 && lo in Clipped(c.files) && hi in Clipped(c.files) && Before(lo, hi)
  }

  function Changing(cs: seq<Commit>, p: Path): nat {
    |Filter(cs, (c: Commit) => p in c.files)|
  }

  function ChangingBy(cs: seq<Commit>, p: Path, author: string): nat {
    |Filter(cs, (c: Commit) => c.author == author && p in c.files)|
  }

  function Pairing(cs: seq<Commit>, lo: Path, hi: Path): nat {
    |Filter(cs, (c: Commit) => Pairs(c, lo, hi))|
  }

  function Exactly(cs: seq<Commit>, files: seq<Path>): nat {
    |Filter(cs, (c: Commit) => |c.files| > 1 && Clipped(c.files) == files)|
  }

  /** The greatest commit time at which `p` changed. */
  function Latest(cs: seq<Commit>, p: Path): Option<int> {
    if cs == [] then None
    else
      var c, before := cs[|cs| - 1], Latest(cs[..|cs| - 1], p);
      if p in c.files && (before.None? || c.time > before.value) then Some(c.time) else before
  }

  lemma ChangingStep(cs: seq<Commit>, c: Commit, p: Path)
    ensures Changing(cs + [c], p) == Changing(cs, p) + (if p in c.files then 1 else 0)
    ensures forall a ::
      ChangingBy(cs + [c], p, a) == ChangingBy(cs, p, a) + (if c.author == a && p in c.files then 1 else 0)
  {
    FilterAppend(cs, [c], (x: Commit) => p in x.files);
    forall a
      ensures ChangingBy(cs + [c], p, a) == ChangingBy(cs, p, a) + (if c.author == a && p in c.files then 1 else 0)
    {
      FilterAppend(cs, [c], (x: Commit) => x.author == a && p in x.files);
    }
  }

  lemma PairingStep(cs: seq<Commit>, c: Commit, lo: Path, hi: Path)
    ensures Pairing(cs + [c], lo, hi) == Pairing(cs, lo, hi) + (if Pairs(c, lo, hi) then 1 else 0)
  {
    FilterAppend(cs, [c], (x: Commit) => Pairs(x, lo, hi));
  }

  lemma ExactlyStep(cs: seq<Commit>, c: Commit, s: seq<Path>)
    ensures Exactly(cs + [c], s) == Exactly(cs, s) + (if |c.files| > 1 && Clipped(c.files) == s then 1 else 0)
  {
    FilterAppend(cs, [c], (x: Commit) => |x.files| > 1 && Clipped(x.files) == s);
  }

  lemma {:induction false} CountsAppend(cs: seq<Commit>, c: Commit)
    ensures forall p :: Changing(cs + [c], p) == Changing(cs, p) + (if p in c.files then 1 else 0)
    ensures forall p, a ::
      ChangingBy(cs + [c], p, a) == ChangingBy(cs, p, a) + (if c.author == a && p in c.files then 1 else 0)
    ensures forall lo, hi :: Pairing(cs + [c], lo, hi) == Pairing(cs, lo, hi) + (if Pairs(c, lo, hi) then 1 else 0)
    ensures forall s ::
      Exactly(cs + [c], s) == Exactly(cs, s) + (if |c.files| > 1 && Clipped(c.files) == s then 1 else 0)
  {
    forall p { ChangingStep(cs, c, p); }
    forall lo, hi { PairingStep(cs, c, lo, hi); }
    forall s { ExactlyStep(cs, c, s); }
  }

  /** One file's record counts the commits that changed it, in all and per author. */
  ghost predicate FileCounted(f: FileAccum, cs: seq<Commit>, p: Path) {
    && f.changes == Changing(cs, p) == Ownership.Commits(f.authors)
    && f.latest == Latest(cs, p)
    && (forall a :: Get(f.authors, a) == ChangingBy(cs, p, a))
    && (forall a :: a in f.authors ==> f.authors[a] > 0)
  }

  ghost predicate FilesCounted(perFile: map<Path, FileAccum>, cs: seq<Commit>) {
    && (forall p :: p in perFile <==> Changing(cs, p) > 0)
    && (forall p :: p in perFile ==> FileCounted(perFile[p], cs, p))
  }

  ghost predicate PairsCounted(pairs: map<(Path, Path), nat>, cs: seq<Commit>) {
    && (forall lo, hi :: Get(pairs, (lo, hi)) == Pairing(cs, lo, hi))
    && (forall k :: k in pairs ==> pairs[k] > 0)
  }

  ghost predicate SetsCounted(sets: map<seq<Path>, nat>, cs: seq<Commit>) {
    && (forall s :: Get(sets, s) == Exactly(cs, s))
    && (forall s :: s in sets ==> sets[s] > 0)
  }

  /** Every table is the corresponding count over the visited commits. */
  ghost predicate Accumulated(acc: Accum, cs: seq<Commit>) {
    && acc.walked == |cs| && acc.touched == acc.perFile.Keys
    && FilesCounted(acc.perFile, cs) && PairsCounted(acc.pairs, cs) && SetsCounted(acc.sets, cs)
  }

  // ----- one commit -----

  const NO_CHANGES := FileAccum(0, map[], None)

  function Bump(f: FileAccum, author: string, time: int): FileAccum {
    FileAccum(f.changes + 1, f.authors[author := Get(f.authors, author) + 1],
              if f.latest.None? || time > f.latest.value then Some(time) else f.latest)
  }

  function Touched(m: map<Path, FileAccum>, files: seq<Path>, author: string, time: int): map<Path, FileAccum> {
    map p | p in m.Keys + (set q | q in files) ::
      var f := if p in m then m[p] else NO_CHANGES;
      if p in files then Bump(f, author, time) else f
  }

  lemma {:induction false} TouchedNext(m: map<Path, FileAccum>, files: seq<Path>, p: Path, author: string, time: int)
    requires p !in files
    ensures var now := Touched(m, files, author, time);
      Touched(m, files + [p], author, time) == now[p := Bump(if p in now then now[p] else NO_CHANGES, author, time)]
  {
    assert forall q :: q in files + [p] <==> q in files || q == p;
  }

  lemma NewAt(files: seq<Path>, i: nat)
    requires Ascending(files) && i < |files|
    ensures files[i] !in files[..i] && files[..i + 1] == files[..i] + [files[i]]
    ensures Elements(files[..i + 1]) == Elements(files[..i]) + {files[i]}
  {
  }

  method TouchFiles(m: map<Path, FileAccum>, touched: set<Path>, c: Commit)
    returns (m': map<Path, FileAccum>, touched': set<Path>)
    requires Ascending(c.files)
    ensures m' == Touched(m, c.files, c.author, c.time)
    ensures touched' == touched + Elements(c.files)
  {
    m', touched' := m, touched;
    for i := 0 to |c.files|
      invariant m' == Touched(m, c.files[..i], c.author, c.time)
      invariant touched' == touched + Elements(c.files[..i])
    {
      var p := c.files[i];
      NewAt(c.files, i);
      TouchedNext(m, c.files[..i], p, c.author, c.time);
      m' := m'[p := Bump(if p in m' then m'[p] else NO_CHANGES, c.author, c.time)];
      touched' := touched' + {p};
    }
    assert c.files[..|c.files|] == c.files;
  }

  lemma SameElsewhere(m: map<string, nat>, a: string, n: nat)
    ensures m[a := n] - {a} == m - {a}
  {
  }

  lemma {:induction false} BumpAuthors(m: map<string, nat>, a: string)
    ensures Ownership.Commits(m[a := Get(m, a) + 1]) == Ownership.Commits(m) + 1
  {
    hide Ownership.Commits, Ownership.Squares;
    var m' := m[a := Get(m, a) + 1];
    Ownership.Peel(m', a);
    SameElsewhere(m, a, Get(m, a) + 1);
    if a in m {
      Ownership.Peel(m, a);
    } else {
      assert m - {a} == m;
    }
  }

  lemma LatestStep(cs: seq<Commit>, c: Commit, p: Path)
    ensures Latest(cs + [c], p) ==
      if p in c.files && (Latest(cs, p).None? || c.time > Latest(cs, p).value) then Some(c.time) else Latest(cs, p)
  {
    assert (cs + [c])[..|cs|] == cs;
  }

  lemma {:induction false} FileStep(f: FileAccum, cs: seq<Commit>, c: Commit, p: Path)
    requires FileCounted(f, cs, p)
    ensures p in c.files ==> FileCounted(Bump(f, c.author, c.time), cs + [c], p)
    ensures p !in c.files ==> FileCounted(f, cs + [c], p)
  {
    LatestStep(cs, c, p);
    ChangingStep(cs, c, p);
    if p in c.files { BumpAuthors(f.authors, c.author); }
  }

  lemma {:induction false} TouchedCounts(m: map<Path, FileAccum>, cs: seq<Commit>, c: Commit)
    requires FilesCounted(m, cs)
    ensures FilesCounted(Touched(m, c.files, c.author, c.time), cs + [c])
  {
    CountsAppend(cs, c);
    var m' := Touched(m, c.files, c.author, c.time);
    forall p | p in m' ensures FileCounted(m'[p], cs + [c], p) {
      if p !in m {
        UnchangedFile(cs, p);
      }
      FileStep(if p in m then m[p] else NO_CHANGES, cs, c, p);
    }
  }

  lemma {:induction false} UnchangedFile(cs: seq<Commit>, p: Path)
    requires Changing(cs, p) == 0
    ensures (forall a :: ChangingBy(cs, p, a) == 0) && Latest(cs, p).None?
  {
    if cs != [] {
      var init, c := cs[..|cs| - 1], cs[|cs| - 1];
      assert cs == init + [c];
      CountsAppend(init, c);
      UnchangedFile(init, p);
    }
  }

  /** `lo` and `hi` sit at positions `a < b` of `files`, before position (i, j) of the double loop. */
  ghost predicate PairAt(files: seq<Path>, lo: Path, hi: Path, i: nat, j: nat) {
    exists a, b :: 0 <= a < b < |files| && files[a] == lo && files[b] == hi && (a < i || (a == i && b < j))
  }

  method CountPairs(pairs0: map<(Path, Path), nat>, files: seq<Path>) returns (pairs: map<(Path, Path), nat>)
    requires Ascending(files)
    requires forall k :: k in pairs0 ==> pairs0[k] > 0
    ensures forall lo, hi ::
      Get(pairs, (lo, hi)) == Get(pairs0, (lo, hi)) + (if PairAt(files, lo, hi, |files|, 0) then 1 else 0)
    ensures forall k :: k in pairs ==> pairs[k] > 0
  {
    pairs := pairs0;
    for i := 0 to |files|
      invariant forall lo, hi ::
        Get(pairs, (lo, hi)) == Get(pairs0, (lo, hi)) + (if PairAt(files, lo, hi, i, 0) then 1 else 0)
      invariant forall k :: k in pairs ==> pairs[k] > 0
    {
      forall lo, hi ensures PairAt(files, lo, hi, i, 0) <==> PairAt(files, lo, hi, i, i + 1) {}
      for j := i + 1 to |files|
        invariant forall lo, hi ::
          Get(pairs, (lo, hi)) == Get(pairs0, (lo, hi)) + (if PairAt(files, lo, hi, i, j) then 1 else 0)
        invariant forall k :: k in pairs ==> pairs[k] > 0
      {
        var a, b := files[i], files[j];
        var key := if PathLe(a, b) then (a, b) else (b, a);
        PairNext(files, i, j);
        pairs := pairs[key := Get(pairs, key) + 1];
      }
      forall lo, hi ensures PairAt(files, lo, hi, i, |files|) <==> PairAt(files, lo, hi, i + 1, 0) {}
    }
  }

  lemma {:induction false} PairNext(files: seq<Path>, i: nat, j: nat)
    requires Ascending(files) && i < j < |files|
    ensures PathLe(files[i], files[j]) && !PairAt(files, files[i], files[j], i, j)
    ensures forall lo, hi :: PairAt(files, lo, hi, i, j + 1) <==>
      PairAt(files, lo, hi, i, j) || (lo == files[i] && hi == files[j])
  {
    assert PairAt(files, files[i], files[j], i, j + 1);
  }

  lemma {:induction false} PairAtMeans(files: seq<Path>, lo: Path, hi: Path)
    requires Ascending(files)
    ensures PairAt(files, lo, hi, |files|, 0) <==> lo in files && hi in files && Before(lo, hi)
  {
    if lo in files && hi in files && Before(lo, hi) {
      var a :| 0 <= a < |files| && files[a] == lo;
      var b :| 0 <= b < |files| && files[b] == hi;
      PathTotal(lo, hi);
      assert a < b;
    }
  }

  lemma {:induction false} AscendingIsSorted(files: seq<Path>)
    requires Ascending(files)
    ensures Sort(PathLe, files) == files
  {
    PathOrders();
    SortSorted(PathLe, files);
    SortPermutes(PathLe, files);
    SortedUnique(PathLe, Sort(PathLe, files), files);
  }

  lemma {:induction false} SmallCommitCounts(acc: Accum, cs: seq<Commit>, c: Commit)
    requires |c.files| <= 1 && PairsCounted(acc.pairs, cs) && SetsCounted(acc.sets, cs)
    ensures PairsCounted(acc.pairs, cs + [c]) && SetsCounted(acc.sets, cs + [c])
  {
    CountsAppend(cs, c);
  }

  /** The co-change part of one commit: every pair of its clipped files, and the clipped list itself. */
  method CountCoChanges(pairs: map<(Path, Path), nat>, sets: map<seq<Path>, nat>, c: Commit, ghost cs: seq<Commit>)
    returns (pairs': map<(Path, Path), nat>, sets': map<seq<Path>, nat>)
    requires PairsCounted(pairs, cs) && SetsCounted(sets, cs)
    requires Ascending(c.files) && |c.files| > 1
    ensures PairsCounted(pairs', cs + [c]) && SetsCounted(sets', cs + [c])
  {
    var clipped := Clipped(c.files);
    CountsAppend(cs, c);
    AscendingIsSorted(clipped);
    pairs' := CountPairs(pairs, clipped);
    forall lo, hi ensures PairAt(clipped, lo, hi, |clipped|, 0) <==> Pairs(c, lo, hi) { PairAtMeans(clipped, lo, hi); }
    var set_ := Sort(PathLe, clipped);
    sets' := sets[set_ := Get(sets, set_) + 1];
  }

  /** Folds one visited commit into the tables. */
  method Record(acc: Accum, c: Commit, ghost cs: seq<Commit>) returns (acc': Accum)
    requires Ascending(c.files) && Accumulated(acc, cs)
    ensures Accumulated(acc', cs + [c])
  {
    TouchedCounts(acc.perFile, cs, c);
    var perFile, touched := TouchFiles(acc.perFile, acc.touched, c);
    var pairs, sets := acc.pairs, acc.sets;
    if |c.files| > 1 {
      pairs, sets := CountCoChanges(pairs, sets, c, cs);
    } else {
      SmallCommitCounts(acc, cs, c);
    }
    acc' := Accum(perFile, pairs, sets, touched, acc.walked + 1);
  }

  const EMPTY := Accum(map[], map[], map[], {}, 0)

  /** What remains to be visited after item `i`. */
  lemma {:induction false} VisitedNext(items: seq<WalkItem>, w: Window, i: nat, cs: seq<Commit>, walked: nat)
    requires i < |items| && walked < w.commitsBack
    ensures var now := cs + Visited(items[i..], w, walked);
      match Judge(items[i], w)
      case Stop => now == cs
      case Skip => now == cs + Visited(items[i + 1..], w, walked)
      case Take(c) => Ascending(c.files) && now == (cs + [c]) + Visited(items[i + 1..], w, walked + 1)
  {
    assert items[i..][0] == items[i] && items[i..][1..] == items[i + 1..];
    if Judge(items[i], w).Take? { ChangedFilesAscend(items[i].paths); }
  }

  lemma NothingWalked()
    ensures Accumulated(EMPTY, [])
  {
  }

  /** The walk: after it, every table counts exactly the visited commits. */
  method Walk(items: seq<WalkItem>, w: Window) returns (acc: Accum)
    ensures Accumulated(acc, Visited(items, w, 0))
    ensures acc.walked <= w.commitsBack
  {
    hide FilesCounted, PairsCounted, SetsCounted, ChangedFiles;
    acc := EMPTY;
    NothingWalked();
    ghost var cs: seq<Commit> := [];
    VisitedWithinCap(items, w, 0);
    var i := 0;
    while i < |items| && acc.walked < w.commitsBack
      invariant i <= |items| && Accumulated(acc, cs)
      invariant cs + Visited(items[i..], w, acc.walked) == Visited(items, w, 0)
    {
      VisitedNext(items, w, i, cs, acc.walked);
      match Judge(items[i], w) {
        case Stop => break;
        case Skip =>
        case Take(c) =>
          acc := Record(acc, c, cs);
          cs := cs + [c];
      }
      i := i + 1;
    }
    assert cs + [] == cs;
    assert cs == Visited(items, w, 0);
  }

  // ----- per-file signals -----

  datatype Shape = Full | Shallow(depth: Option<nat>) | Bare | NonGit

  datatype Confidence = High | Low

  datatype FileSignals = FileSignals(changeFrequency: nat, distinctAuthors: nat, lastTouchedDays: Option<nat>,
                                     dispersion: real, confidence: Confidence)

  const U32_MAX: nat := 0xFFFF_FFFF

  /** Whole days from `t` to `now`, none for the future, as a 32-bit count. */
  function DaysSince(now: int, t: int): nat {
    var days := if now - t < 0 then 0 else (now - t) / 86400;
    if days > U32_MAX then U32_MAX else days
  }

  ghost function Signals(f: FileAccum, now: int, shape: Shape): FileSignals {
    FileSignals(f.changes, |f.authors|,
                if f.latest.None? then None else Some(DaysSince(now, f.latest.value)),
                Ownership.Dispersion(f.authors), if shape.Full? then High else Low)
  }

  ghost function BuildPerFile(perFile: map<Path, FileAccum>, now: int, shape: Shape): map<Path, FileSignals> {
    map p | p in perFile :: Signals(perFile[p], now, shape)
  }

  /** The authors who changed `p` in the walk. */
  ghost function AuthorsOf(cs: seq<Commit>, p: Path): set<string> {
    set c | c in cs && p in c.files :: c.author
  }

  lemma {:induction false} AuthorHasCommit(cs: seq<Commit>, p: Path, a: string)
    ensures ChangingBy(cs, p, a) > 0 <==> a in AuthorsOf(cs, p)
  {
    if cs != [] {
      var init, c := cs[..|cs| - 1], cs[|cs| - 1];
      assert cs == init + [c];
      CountsAppend(init, c);
      AuthorHasCommit(init, p, a);
    }
  }

  /** A file is reported exactly when a visited commit changed it, with its commit count, its number of authors, the
      days since the newest such commit, a dispersion that is 0 exactly for a sole author, and high confidence exactly
      on a full clone. */
  lemma {:induction false} SignalsAreTrue(acc: Accum, cs: seq<Commit>, now: int, shape: Shape, p: Path)
    requires Accumulated(acc, cs)
    ensures var report := BuildPerFile(acc.perFile, now, shape);
      && (p in report <==> exists c :: c in cs && p in c.files)
      && |report.Keys| == |acc.touched|
      && (p in report ==>
        && report[p].changeFrequency == Changing(cs, p)
        && report[p].distinctAuthors == |AuthorsOf(cs, p)| > 0
        && 0.0 <= report[p].dispersion <= 1.0 - 1.0 / |AuthorsOf(cs, p)| as real
        && (report[p].dispersion == 0.0 <==> |AuthorsOf(cs, p)| == 1)
        && (exists c :: Newest(cs, p, c) && report[p].lastTouchedDays == Some(DaysSince(now, c.time)))
        && (report[p].confidence == High <==> shape.Full?))
  {
    ChangedMeans(cs, p);
    assert BuildPerFile(acc.perFile, now, shape).Keys == acc.touched;
    if p in acc.perFile {
      var authors := acc.perFile[p].authors;
      assert FileCounted(acc.perFile[p], cs, p);
      forall a ensures a in authors <==> a in AuthorsOf(cs, p) { AuthorHasCommit(cs, p, a); }
      assert authors.Keys == AuthorsOf(cs, p);
      Ownership.DispersionRange(authors);
      SoleHolder(authors);
      LatestIsNewest(cs, p);
    }
  }

  /** `c` is a commit that changed `p`, and none that did is later. */
  ghost predicate Newest(cs: seq<Commit>, p: Path, c: Commit) {
    c in cs && p in c.files && forall x :: x in cs && p in x.files ==> x.time <= c.time
  }

  lemma {:induction false} LatestIsNewest(cs: seq<Commit>, p: Path)
    ensures Latest(cs, p).None? <==> forall x :: x in cs ==> p !in x.files
    ensures Latest(cs, p).Some? ==> exists c :: Newest(cs, p, c) && c.time == Latest(cs, p).value
  {
    if cs != [] {
      var init, c := cs[..|cs| - 1], cs[|cs| - 1];
      assert cs == init + [c];
      LatestIsNewest(init, p);
      if Latest(cs, p) != Latest(init, p) {
        assert Newest(cs, p, c);
      } else if Latest(init, p).Some? {
        var x :| Newest(init, p, x) && x.time == Latest(init, p).value;
        assert Newest(cs, p, x);
      }
    }
  }

  lemma {:induction false} ChangedMeans(cs: seq<Commit>, p: Path)
    ensures Changing(cs, p) > 0 <==> exists c :: c in cs && p in c.files
  {
    if cs != [] {
      var init, c := cs[..|cs| - 1], cs[|cs| - 1];
      assert cs == init + [c];
      CountsAppend(init, c);
      ChangedMeans(init, p);
    }
  }

  lemma {:induction false} SoleHolder(m: map<string, nat>)
    requires forall k :: k in m ==> m[k] > 0
    ensures (exists k :: k in m && m[k] == Ownership.Commits(m)) <==> |m| == 1
  {
    forall k | k in m ensures m[k] == Ownership.Commits(m) <==> |m| == 1 {
      Ownership.Peel(m, k);
      var rest := m - {k};
      if rest != map[] {
        var j :| j in rest;
        Ownership.Peel(rest, j);
      }
    }
    if |m| == 1 {
      var k :| k in m;
    }
  }
}
