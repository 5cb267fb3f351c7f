/** Which files are reported to change together
    (graphengine-git-signals/src/extractor.rs, `assemble_clusters`). */
module CoChange {
  import opened Basics
  import opened Sorting
  import opened CommitWalk

  datatype Cluster = Cluster(files: seq<Path>, count: nat, confidence: Confidence)

  const MIN_FULL: nat := 3

  function Threshold(shape: Shape): nat {
    if shape.Full? then MIN_FULL else 1
  }

  function ConfidenceOf(shape: Shape): Confidence {
    if shape.Full? then High else Low
  }

  predicate FilesLe(a: seq<Path>, b: seq<Path>) {
    SeqLe(PathLe, a, b)
  }

  /** Most commits first, then fewest files, then file lists in order. */
  predicate ClusterLe(a: Cluster, b: Cluster) {
    a.count > b.count || (a.count == b.count &&
      (|a.files| < |b.files| || (|a.files| == |b.files| && FilesLe(a.files, b.files))))
  }

  lemma ClusterOrders()
    ensures TotalPreorder(ClusterLe)
  {
    PathOrders();
    forall a, b ensures ClusterLe(a, b) || ClusterLe(b, a) { SeqTotal(PathLe, a.files, b.files); }
    forall a, b, c | ClusterLe(a, b) && ClusterLe(b, c) ensures ClusterLe(a, c) {
      if FilesLe(a.files, b.files) && FilesLe(b.files, c.files) { SeqTransitive(PathLe, a.files, b.files, c.files); }
    }
  }

  // ----- what should be emitted, said of the two tables -----

  /** A whole file list that recurred often enough. */
  predicate SetEmitted(sets: map<seq<Path>, nat>, min: nat, files: seq<Path>) {
    files in sets && sets[files] >= min && |files| >= 2
  }

  /** Some emitted file list already shows `lo` and `hi` together. */
  ghost predicate Covered(sets: map<seq<Path>, nat>, min: nat, lo: Path, hi: Path) {
    exists files :: SetEmitted(sets, min, files) && lo in files && hi in files && Before(lo, hi)
  }

  ghost predicate PairEmitted(pairs: map<(Path, Path), nat>, sets: map<seq<Path>, nat>, min: nat, lo: Path, hi: Path) {
    (lo, hi) in pairs && pairs[(lo, hi)] >= min && !Covered(sets, min, lo, hi)
  }

  ghost predicate FromSet(c: Cluster, sets: map<seq<Path>, nat>, shape: Shape) {
    SetEmitted(sets, Threshold(shape), c.files) && c.count == sets[c.files] && c.confidence == ConfidenceOf(shape)
  }

  ghost predicate FromPair(c: Cluster, pairs: map<(Path, Path), nat>, sets: map<seq<Path>, nat>, shape: Shape) {
    |c.files| == 2 && PairEmitted(pairs, sets, Threshold(shape), c.files[0], c.files[1]) &&
    c.count == pairs[(c.files[0], c.files[1])] && c.confidence == ConfidenceOf(shape)
  }

  /** The clusters are the recurring file lists and the recurring pairs no such list shows. */
  ghost predicate Emits(clusters: seq<Cluster>, pairs: map<(Path, Path), nat>, sets: map<seq<Path>, nat>,
          shape: Shape) {
    && NoDup(clusters) && Sorted(ClusterLe, clusters)
    && forall c :: c in clusters <==> FromSet(c, sets, shape) || FromPair(c, pairs, sets, shape)
  }

  // ----- the two phases -----

  /** Adds every ordered pair of `files` to the covered pairs. */
  method CoverPairs(covered0: set<(Path, Path)>, files: seq<Path>) returns (covered: set<(Path, Path)>)
    requires Ascending(files)
    ensures forall lo, hi :: (lo, hi) in covered <==>
      (lo, hi) in covered0 || (lo in files && hi in files && Before(lo, hi))
  {
    covered := covered0;
    for i := 0 to |files|
      invariant forall lo, hi :: (lo, hi) in covered <==> (lo, hi) in covered0 || PairAt(files, lo, hi, i, 0)
    {
      forall lo, hi ensures PairAt(files, lo, hi, i, 0) <==> PairAt(files, lo, hi, i, i + 1) {}
      for j := i + 1 to |files|
        invariant forall lo, hi :: (lo, hi) in covered <==> (lo, hi) in covered0 || PairAt(files, lo, hi, i, j)
      {
        PairNext(files, i, j);
        var a, b := files[i], files[j];
        covered := covered + {if PathLe(a, b) then (a, b) else (b, a)};
      }
      forall lo, hi ensures PairAt(files, lo, hi, i, |files|) <==> PairAt(files, lo, hi, i + 1, 0) {}
    }
    forall lo, hi { PairAtMeans(files, lo, hi); }
  }

  /** Set keys in the order they are visited: by the cluster they would make. */
  method SortedSets(sets: map<seq<Path>, nat>, conf: Confidence) returns (entries: seq<Cluster>)
    ensures NoDup(entries)
    ensures forall c :: c in entries <==> c.files in sets && c.count == sets[c.files] && c.confidence == conf
  {
    var all := Enumerate(set files | files in sets :: Cluster(files, sets[files], conf));
    SortPermutes(ClusterLe, all);
    SortMembers(ClusterLe, all);
    NoDupPermutation(all, Sort(ClusterLe, all));
    entries := Sort(ClusterLe, all);
    assert forall c :: c in all <==> c in Elements(all);
  }

  method SortedPairs(pairs: map<(Path, Path), nat>, conf: Confidence) returns (entries: seq<Cluster>)
    ensures NoDup(entries)
    ensures forall c :: c in entries <==>
      |c.files| == 2 && (c.files[0], c.files[1]) in pairs
      && c.count == pairs[(c.files[0], c.files[1])] && c.confidence == conf
  {
    var all := Enumerate(set k | k in pairs :: Cluster([k.0, k.1], pairs[k], conf));
    SortPermutes(ClusterLe, all);
    SortMembers(ClusterLe, all);
    NoDupPermutation(all, Sort(ClusterLe, all));
    entries := Sort(ClusterLe, all);
    assert forall c :: c in all <==> c in Elements(all);
    forall c ensures c in Elements(all) <==>
      |c.files| == 2 && (c.files[0], c.files[1]) in pairs
      && c.count == pairs[(c.files[0], c.files[1])] && c.confidence == conf
    {
      if |c.files| == 2 && (c.files[0], c.files[1]) in pairs
         && c.count == pairs[(c.files[0], c.files[1])] && c.confidence == conf {
        var k := (c.files[0], c.files[1]);
        assert k in pairs && c == Cluster([k.0, k.1], pairs[k], conf);
      }
    }
  }

  /** Phase one: emit the recurring lists and remember the pairs they show. */
  method EmitSets(sets: map<seq<Path>, nat>, shape: Shape) returns (clusters: seq<Cluster>, covered: set<(Path, Path)>)
    requires forall files :: files in sets ==> Ascending(files)
    ensures NoDup(clusters) && forall c :: c in clusters <==> FromSet(c, sets, shape)
    ensures forall lo, hi :: (lo, hi) in covered <==> Covered(sets, Threshold(shape), lo, hi)
  {
    var min := Threshold(shape);
    var entries := SortedSets(sets, ConfidenceOf(shape));
    clusters, covered := [], {};
    for i := 0 to |entries|
      invariant NoDup(clusters)
      invariant forall c :: c in clusters <==> c in entries[..i] && FromSet(c, sets, shape)
      invariant forall lo, hi :: (lo, hi) in covered <==>
        exists c :: c in clusters && lo in c.files && hi in c.files && Before(lo, hi)
    {
      var e := entries[i];
      assert e !in entries[..i] && entries[..i + 1] == entries[..i] + [e];
      if e.count < min || |e.files| < 2 {
        continue;
      }
      clusters := clusters + [e];
      covered := CoverPairs(covered, e.files);
    }
    assert entries[..|entries|] == entries;
    forall files | SetEmitted(sets, min, files) ensures Cluster(files, sets[files], ConfidenceOf(shape)) in clusters {
      assert FromSet(Cluster(files, sets[files], ConfidenceOf(shape)), sets, shape);
    }
  }

  /** Phase two: emit the recurring pairs that are not covered. */
  method EmitPairs(pairs: map<(Path, Path), nat>, ghost sets: map<seq<Path>, nat>, covered: set<(Path, Path)>,
          shape: Shape)
    returns (clusters: seq<Cluster>)
    requires forall lo, hi :: (lo, hi) in covered <==> Covered(sets, Threshold(shape), lo, hi)
    ensures NoDup(clusters) && forall c :: c in clusters <==> FromPair(c, pairs, sets, shape)
  {
    var entries := SortedPairs(pairs, ConfidenceOf(shape));
    clusters := [];
    for i := 0 to |entries|
      invariant NoDup(clusters)
      invariant forall c :: c in clusters <==> c in entries[..i] && FromPair(c, pairs, sets, shape)
    {
      var e := entries[i];
      assert e !in entries[..i] && entries[..i + 1] == entries[..i] + [e];
      if e.count < Threshold(shape) || (e.files[0], e.files[1]) in covered {
        continue;
      }
      clusters := clusters + [e];
    }
    assert entries[..|entries|] == entries;
  }

  /** A set cluster and a pair cluster never show the same list. */
  lemma {:induction false} PhasesDisjoint(a: Cluster, b: Cluster, pairs: map<(Path, Path), nat>,
          sets: map<seq<Path>, nat>, shape: Shape)
    requires FromSet(a, sets, shape) && FromPair(b, pairs, sets, shape)
    requires forall files :: files in sets ==> Ascending(files)
    ensures a.files != b.files
  {
    assert a.files[0] in a.files && a.files[1] in a.files && Before(a.files[0], a.files[1]);
    assert Covered(sets, Threshold(shape), a.files[0], a.files[1]);
  }

  lemma {:induction false} JoinNoDup<T>(a: seq<T>, b: seq<T>)
    requires NoDup(a) && NoDup(b) && forall x :: x in a ==> x !in b
    ensures NoDup(a + b)
  {
    forall i, j | 0 <= i < j < |a + b| ensures (a + b)[i] != (a + b)[j] {
      if i < |a| <= j {
        assert a[i] in a && b[j - |a|] in b;
      }
    }
  }

  method AssembleClusters(pairs: map<(Path, Path), nat>, sets: map<seq<Path>, nat>, shape: Shape)
    returns (clusters: seq<Cluster>)
    requires forall files :: files in sets ==> Ascending(files)
    ensures Emits(clusters, pairs, sets, shape)
  {
    var whole, covered := EmitSets(sets, shape);
    var rest := EmitPairs(pairs, sets, covered, shape);
    forall c | c in whole ensures c !in rest {
      if c in rest { PhasesDisjoint(c, c, pairs, sets, shape); }
    }
    JoinNoDup(whole, rest);
    var all := whole + rest;
    ClusterOrders();
    SortSorted(ClusterLe, all);
    SortPermutes(ClusterLe, all);
    SortMembers(ClusterLe, all);
    NoDupPermutation(all, Sort(ClusterLe, all));
    clusters := Sort(ClusterLe, all);
  }

  // ----- what the report says about the history -----

  /** Visited commits whose clipped file list holds both files. */
  ghost function Together(cs: seq<Commit>, a: Path, b: Path): nat {
    if PathLe(a, b) then Pairing(cs, a, b) else Pairing(cs, b, a)
  }

  ghost predicate Reported(clusters: seq<Cluster>, a: Path, b: Path) {
    exists c :: c in clusters && a in c.files && b in c.files
  }

  lemma {:induction false} SetWithinPair(cs: seq<Commit>, files: seq<Path>, lo: Path, hi: Path)
    requires lo in files && hi in files && Before(lo, hi)
    ensures Exactly(cs, files) <= Pairing(cs, lo, hi)
  {
    FilterWeaker(cs, (c: Commit) => |c.files| > 1 && Clipped(c.files) == files, (c: Commit) => Pairs(c, lo, hi));
  }

  lemma {:induction false} SetKeysAscend(acc: Accum, cs: seq<Commit>, files: seq<Path>)
    requires Accumulated(acc, cs) && (forall c :: c in cs ==> Ascending(c.files))
    requires files in acc.sets
    ensures Ascending(files) && |files| >= 2
  {
    var p := (c: Commit) => |c.files| > 1 && Clipped(c.files) == files;
    assert Get(acc.sets, files) == Exactly(cs, files) > 0;
    FilterMember(cs, p);
    var c := Filter(cs, p)[0];
    assert c in Filter(cs, p);
  }

  lemma {:induction false} PairKeysOrdered(cs: seq<Commit>, lo: Path, hi: Path)
    requires Pairing(cs, lo, hi) > 0
    ensures Before(lo, hi)
  {
    var p := (c: Commit) => Pairs(c, lo, hi);
    FilterMember(cs, p);
    assert Filter(cs, p)[0] in Filter(cs, p);
  }

  /** Files shown together were changed together often enough. */
  lemma {:induction false} ClusterMeansPairing(c: Cluster, acc: Accum, cs: seq<Commit>, shape: Shape, lo: Path,
          hi: Path)
    requires Accumulated(acc, cs) && Before(lo, hi) && lo in c.files && hi in c.files
    requires FromSet(c, acc.sets, shape) || FromPair(c, acc.pairs, acc.sets, shape)
    ensures Pairing(cs, lo, hi) >= Threshold(shape)
  {
    if FromSet(c, acc.sets, shape) {
      assert Get(acc.sets, c.files) == Exactly(cs, c.files);
      SetWithinPair(cs, c.files, lo, hi);
    } else {
      PathTotal(c.files[0], c.files[1]);
      assert Get(acc.pairs, (c.files[0], c.files[1])) == Pairing(cs, c.files[0], c.files[1]);
      PairKeysOrdered(cs, c.files[0], c.files[1]);
      assert lo == c.files[0] && hi == c.files[1];
    }
  }

  /** Files changed together often enough are shown together. */
  lemma {:induction false} PairingMeansCluster(clusters: seq<Cluster>, acc: Accum, cs: seq<Commit>, shape: Shape,
          lo: Path, hi: Path)
    requires Accumulated(acc, cs) && Emits(clusters, acc.pairs, acc.sets, shape) && Before(lo, hi)
    requires Pairing(cs, lo, hi) >= Threshold(shape)
    ensures Reported(clusters, lo, hi)
  {
    var min := Threshold(shape);
    assert Get(acc.pairs, (lo, hi)) == Pairing(cs, lo, hi);
    if Covered(acc.sets, min, lo, hi) {
      var files :| SetEmitted(acc.sets, min, files) && lo in files && hi in files;
      var c := Cluster(files, acc.sets[files], ConfidenceOf(shape));
      assert FromSet(c, acc.sets, shape) && c in clusters;
    } else {
      var c := Cluster([lo, hi], acc.pairs[(lo, hi)], ConfidenceOf(shape));
      assert FromPair(c, acc.pairs, acc.sets, shape) && c in clusters;
      assert lo in c.files && hi in c.files;
    }
  }

  lemma {:induction false} ReportedOrdered(clusters: seq<Cluster>, acc: Accum, cs: seq<Commit>, shape: Shape, lo: Path,
          hi: Path)
    requires Accumulated(acc, cs) && Emits(clusters, acc.pairs, acc.sets, shape) && Before(lo, hi)
    ensures Reported(clusters, lo, hi) <==> Pairing(cs, lo, hi) >= Threshold(shape)
  {
    if c :| c in clusters && lo in c.files && hi in c.files {
      ClusterMeansPairing(c, acc, cs, shape, lo, hi);
    }
    if Pairing(cs, lo, hi) >= Threshold(shape) {
      PairingMeansCluster(clusters, acc, cs, shape, lo, hi);
    }
  }

  /** Two files are reported together exactly when enough visited commits list both. */
  lemma {:induction false} ReportedExactly(clusters: seq<Cluster>, acc: Accum, cs: seq<Commit>, shape: Shape, a: Path,
          b: Path)
    requires Accumulated(acc, cs) && (forall c :: c in cs ==> Ascending(c.files))
    requires Emits(clusters, acc.pairs, acc.sets, shape) && a != b
    ensures Reported(clusters, a, b) <==> Together(cs, a, b) >= Threshold(shape)
  {
    PathTotal(a, b);
    if PathLe(a, b) {
      ReportedOrdered(clusters, acc, cs, shape, a, b);
    } else {
      ReportedOrdered(clusters, acc, cs, shape, b, a);
    }
  }

  /** Commits whose clipped list holds every one of `files`. */
  ghost function Containing(cs: seq<Commit>, files: seq<Path>): nat {
    |Filter(cs, (c: Commit) => forall p :: p in files ==> p in Clipped(c.files))|
  }

  /** No two clusters show one list, every list is ascending with at least two files, and its count is a
      true lower bound on the commits that changed all of them, reaching the threshold. */
  lemma {:induction false} ClustersAreTrue(clusters: seq<Cluster>, acc: Accum, cs: seq<Commit>, shape: Shape, i: nat,
          j: nat)
    requires Accumulated(acc, cs) && (forall c :: c in cs ==> Ascending(c.files))
    requires Emits(clusters, acc.pairs, acc.sets, shape)
    requires i < |clusters| && j < |clusters|
    ensures i != j ==> clusters[i].files != clusters[j].files
    ensures Ascending(clusters[i].files) && |clusters[i].files| >= 2
    ensures Threshold(shape) <= clusters[i].count <= Containing(cs, clusters[i].files)
  {
    var c, d := clusters[i], clusters[j];
    assert c in clusters && d in clusters;
    forall files | files in acc.sets ensures Ascending(files) { SetKeysAscend(acc, cs, files); }
    if c.files == d.files {
      if FromSet(c, acc.sets, shape) && FromPair(d, acc.pairs, acc.sets, shape) {
        PhasesDisjoint(c, d, acc.pairs, acc.sets, shape);
      }
      if FromSet(d, acc.sets, shape) && FromPair(c, acc.pairs, acc.sets, shape) {
        PhasesDisjoint(d, c, acc.pairs, acc.sets, shape);
      }
      assert c == d;
    }
    CountIsTrue(c, acc, cs, shape);
  }

  lemma {:induction false} CountIsTrue(c: Cluster, acc: Accum, cs: seq<Commit>, shape: Shape)
    requires Accumulated(acc, cs)
    requires FromSet(c, acc.sets, shape) || FromPair(c, acc.pairs, acc.sets, shape)
    ensures c.count <= Containing(cs, c.files)
    ensures FromPair(c, acc.pairs, acc.sets, shape) ==>
      c.count == Pairing(cs, c.files[0], c.files[1]) && Before(c.files[0], c.files[1])
  {
    var all := (x: Commit) => forall p :: p in c.files ==> p in Clipped(x.files);
    if FromSet(c, acc.sets, shape) {
      assert Get(acc.sets, c.files) == Exactly(cs, c.files);
      FilterWeaker(cs, (x: Commit) => |x.files| > 1 && Clipped(x.files) == c.files, all);
    }
    if FromPair(c, acc.pairs, acc.sets, shape) {
      var lo, hi := c.files[0], c.files[1];
      assert Get(acc.pairs, (lo, hi)) == Pairing(cs, lo, hi);
      PairKeysOrdered(cs, lo, hi);
      FilterWeaker(cs, (x: Commit) => Pairs(x, lo, hi), all);
    }
  }

  /** The whole extraction: walk the commits, then assemble. */
  method ExtractClusters(items: seq<WalkItem>, w: Window, shape: Shape) returns (clusters: seq<Cluster>)
    ensures Sorted(ClusterLe, clusters)
    ensures forall a, b :: a != b ==>
      (Reported(clusters, a, b) <==> Together(Visited(items, w, 0), a, b) >= Threshold(shape))
    ensures forall i, j :: 0 <= i < j < |clusters| ==> clusters[i].files != clusters[j].files
  {
    var acc := Walk(items, w);
    ghost var cs := Visited(items, w, 0);
    VisitedWithinCap(items, w, 0);
    forall files | files in acc.sets ensures Ascending(files) { SetKeysAscend(acc, cs, files); }
    clusters := AssembleClusters(acc.pairs, acc.sets, shape);
    forall a, b | a != b ensures Reported(clusters, a, b) <==> Together(cs, a, b) >= Threshold(shape) {
      ReportedExactly(clusters, acc, cs, shape, a, b);
    }
    forall i, j | 0 <= i < j < |clusters| ensures clusters[i].files != clusters[j].files {
      ClustersAreTrue(clusters, acc, cs, shape, i, j);
    }
  }
}
