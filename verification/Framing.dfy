/** What the workspace fingerprint feeds its hasher (graphengine-scip-adapter/src/fingerprint.rs,
    `fingerprint_workspace` and `hash_files`). */
module Framing {
  import opened Basics

  newtype Byte = x: int | 0 <= x < 256

  type Bytes = seq<Byte>

  const NUL: Byte := 0
  const NEWLINE: Byte := 10

  type Digest = d: Bytes | |d| == 32 witness seq(32, _ => 0)

  /** A source file: its relative path, and its content's digest if it could be read. */
  datatype Source = Source(path: Bytes, digest: Option<Digest>)

  function DigestBytes(d: Option<Digest>): Bytes {
    if d.Some? then d.value else []
  }

  function FrameOne(f: Source): Bytes {
    f.path + [NUL] + (DigestBytes(f.digest) + [NEWLINE])
  }

  function FrameAll(files: seq<Source>): Bytes {
    if files == [] then [] else FrameOne(files[0]) + FrameAll(files[1..])
  }

  function Frame(version: Bytes, files: seq<Source>): Bytes {
    version + [NEWLINE] + FrameAll(files)
  }

  lemma FrameAllEmpty()
    ensures FrameAll([]) == []
  {
  }

  /** The pieces fed for one file continue what was fed before. */
  lemma FedOne(before: Bytes, files: seq<Source>, rest: Bytes)
    requires files != [] && rest == FrameAll(files[1..])
    ensures before + files[0].path + [NUL] + DigestBytes(files[0].digest) + [NEWLINE] + rest == before + FrameAll(files)
  {
    var path, nul, digest, line := files[0].path, [NUL], DigestBytes(files[0].digest), [NEWLINE];
    Assoc(before + path + nul, digest, line);
    Assoc(before + path, nul, digest + line);
    Assoc(before, path, nul + (digest + line));
    Assoc(path, nul, digest + line);
    Assoc(before, FrameOne(files[0]), rest);
  }

  /** The hasher is fed piece by piece. */
  method Feed(version: Bytes, files: seq<Source>) returns (fed: Bytes)
    ensures fed == Frame(version, files)
  {
    hide FrameOne, FrameAll;
    FrameAllEmpty();
    fed := version + [NEWLINE];
    assert files[0..] == files;
    for i := 0 to |files|
      invariant fed + FrameAll(files[i..]) == Frame(version, files)
    {
      ghost var before, rest := fed, FrameAll(files[i + 1..]);
      FedOne(before, files[i..], rest);
      fed := fed + files[i].path;
      fed := fed + [NUL];
      if files[i].digest.Some? {
        fed := fed + files[i].digest.value;
      }
      fed := fed + [NEWLINE];
    }
  }

  // ----- the framing is injective -----

  lemma NotBefore(a: Bytes, t: Bytes, k: nat)
    requires a <= t && k < |t| && t[k] !in a
    ensures |a| <= k
  {
  }

  /** A separator absent from both heads splits equal texts alike. */
  lemma SplitAt(a: Bytes, b: Bytes, z: Byte, r: Bytes, s: Bytes)
    requires z !in a && z !in b && a + [z] + r == b + [z] + s
    ensures a == b && r == s
  {
    var t := a + [z] + r;
    assert t == b + [z] + s;
    assert t[|a|] == z && t[|b|] == z;
    NotBefore(a, t, |b|);
    NotBefore(b, t, |a|);
    assert a == t[..|a|] == b;
    assert r == t[|a| + 1..] == s;
  }

  lemma SameLengthHeads(a: Bytes, b: Bytes, r: Bytes, s: Bytes)
    requires |a| == |b| && a + r == b + s
    ensures a == b && r == s
  {
    assert a == (a + r)[..|a|] && b == (b + s)[..|b|];
    assert r == (a + r)[|a|..] && s == (b + s)[|b|..];
  }

  ghost predicate CleanPaths(files: seq<Source>) {
    forall f :: f in files ==> NUL !in f.path
  }

  /** Wherever both lists have a file, it is readable in both or in neither. */
  ghost predicate SameReadable(a: seq<Source>, b: seq<Source>) {
    forall i :: 0 <= i < |a| && i < |b| ==> a[i].digest.Some? == b[i].digest.Some?
  }

  lemma {:induction false} OneInjective(a: Source, b: Source, r: Bytes, s: Bytes)
    requires NUL !in a.path && NUL !in b.path && a.digest.Some? == b.digest.Some?
    requires FrameOne(a) + r == FrameOne(b) + s
    ensures a == b && r == s
  {
    var da, db := DigestBytes(a.digest) + [NEWLINE], DigestBytes(b.digest) + [NEWLINE];
    assert FrameOne(a) + r == a.path + [NUL] + (da + r);
    assert FrameOne(b) + s == b.path + [NUL] + (db + s);
    SplitAt(a.path, b.path, NUL, da + r, db + s);
    SameLengthHeads(da, db, r, s);
    assert da[..|da| - 1] == DigestBytes(a.digest) && db[..|db| - 1] == DigestBytes(b.digest);
  }

  lemma {:induction false} FilesInjective(a: seq<Source>, b: seq<Source>)
    requires CleanPaths(a) && CleanPaths(b) && SameReadable(a, b) && FrameAll(a) == FrameAll(b)
    ensures a == b
  {
    if a != [] && b != [] {
      OneInjective(a[0], b[0], FrameAll(a[1..]), FrameAll(b[1..]));
      forall i | 0 <= i < |a[1..]| && i < |b[1..]| ensures a[1..][i].digest.Some? == b[1..][i].digest.Some? {
        assert a[i + 1].digest.Some? == b[i + 1].digest.Some?;
      }
      FilesInjective(a[1..], b[1..]);
      assert a == [a[0]] + a[1..] && b == [b[0]] + b[1..];
    }
  }

  /** Equal bytes mean an equal version and equal files, whenever the same files were readable: in
      particular when all were. */
  lemma {:induction false} FrameInjective(v: Bytes, a: seq<Source>, w: Bytes, b: seq<Source>)
    requires NEWLINE !in v && NEWLINE !in w && CleanPaths(a) && CleanPaths(b)
    ensures Frame(v, a) == Frame(w, b) && SameReadable(a, b) <==> v == w && a == b
  {
    if Frame(v, a) == Frame(w, b) && SameReadable(a, b) {
      SplitAt(v, w, NEWLINE, FrameAll(a), FrameAll(b));
      FilesInjective(a, b);
    }
  }

  /** Without that the framing is ambiguous: two unreadable files can frame as one readable file. */
  lemma {:induction false} UnreadableCollides(p: Bytes, q: Bytes)
    requires |q| == 30
    ensures FrameAll([Source(p, None), Source(q, None)]) == FrameAll([Source(p, Some([NEWLINE] + q + [NUL]))])
  {
    var d: Digest := [NEWLINE] + q + [NUL];
    var f, g, h := Source(p, None), Source(q, None), Source(p, Some(d));
    LoneFrame(g);
    LoneFrame(h);
    assert FrameOne(f) == p + [NUL] + [NEWLINE] && FrameOne(g) == q + [NUL] + [NEWLINE];
    assert [f, g][1..] == [g];
    assert FrameOne(h) == p + [NUL] + (d + [NEWLINE]);
    assert p + [NUL] + [NEWLINE] + (q + [NUL] + [NEWLINE]) == p + [NUL] + (d + [NEWLINE]);
  }

  lemma LoneFrame(f: Source)
    ensures FrameAll([f]) == FrameOne(f)
  {
    assert [f][1..] == [];
    assert FrameOne(f) + [] == FrameOne(f);
  }

  // ----- hashing in parallel -----

  function Map<T, D>(files: seq<T>, hash: T -> D): (ds: seq<D>)
    ensures |ds| == |files| && forall i :: 0 <= i < |files| ==> ds[i] == hash(files[i])
  {
    if files == [] then [] else Map(files[..|files| - 1], hash) + [hash(files[|files| - 1])]
  }

  /** A panicked worker's part is lost. */
  function Joined<D>(part: seq<D>, panicked: bool): seq<D> {
    if panicked then [] else part
  }

  function CeilDiv(a: nat, b: nat): (r: nat)
    requires b > 0
    ensures r * b >= a && (a > 0 ==> r > 0)
  {
    var r := (a + b - 1) / b;
    r
  }

  function Least(a: nat, b: nat): nat {
    if a < b then a else b
  }

  /** Chunk `k` starts at `start`. */
  ghost predicate ChunkStarts(k: nat, chunk: nat, n: nat, start: nat) {
    start == Least(k * chunk, n)
  }

  lemma OneMoreChunk(k: nat, chunk: nat, threads: nat, n: nat, start: nat)
    requires ChunkStarts(k, chunk, n, start) && start < n <= threads * chunk
    ensures k < threads && start < Least(start + chunk, n)
    ensures ChunkStarts(k + 1, chunk, n, Least(start + chunk, n))
  {
    if k >= threads { Product(threads, k, chunk); }
    assert (k + 1) * chunk == k * chunk + chunk;
  }

  lemma Product(a: nat, b: nat, c: nat)
    requires a <= b
    ensures a * c <= b * c
  {
  }

  /** `workers` chunks, up to `start`, have been gathered into `ds`. */
  ghost predicate Gathered<T, D>(files: seq<T>, hash: T -> D, panics: nat -> bool, workers: nat, start: nat, ds: seq<D>)
    requires start <= |files|
  {
    && |ds| <= start
    && ((exists k: nat :: k < workers && panics(k)) ==> |ds| < start)
    && ((forall k: nat :: k < workers ==> !panics(k)) ==> ds == Map(files[..start], hash))
  }

  lemma GatherStep<T, D>(files: seq<T>, hash: T -> D, panics: nat -> bool, workers: nat, start: nat, end: nat,
          ds: seq<D>)
    requires start < end <= |files| && Gathered(files, hash, panics, workers, start, ds)
    ensures Gathered(files, hash, panics, workers + 1, end, ds + Joined(Map(files[start..end], hash), panics(workers)))
  {
    MapSplit(files, start, end, hash);
    if panics(workers) {
      assert workers < workers + 1;
    } else if k: nat :| k < workers + 1 && panics(k) {
      assert k < workers;
    }
    if forall k: nat :: k < workers + 1 ==> !panics(k) {
      assert forall k: nat :: k < workers ==> k < workers + 1 && !panics(k);
    }
  }

  lemma NothingGathered<T, D>(files: seq<T>, hash: T -> D, panics: nat -> bool)
    ensures Gathered(files, hash, panics, 0, 0, [])
  {
  }

  lemma AllGathered<T, D>(files: seq<T>, hash: T -> D, panics: nat -> bool, workers: nat, ds: seq<D>)
    requires Gathered(files, hash, panics, workers, |files|, ds)
    ensures ds == Map(files, hash) <==> forall k: nat :: k < workers ==> !panics(k)
    ensures |ds| <= |files|
  {
    assert files[..|files|] == files;
  }

  /** The worker of chunk `k` panics when `panics(k)`. The result is the sequential one, in order, exactly when
      none does; a panic leaves it short. */
  method HashFiles<T, D>(files: seq<T>, hash: T -> D, available: nat, panics: nat -> bool)
    returns (ds: seq<D>, workers: nat)
    ensures ds == Map(files, hash) <==> forall k: nat :: k < workers ==> !panics(k)
    ensures |ds| <= |files|
    ensures workers <= 8
  {
    var threads := if available == 0 then 1 else if available < 8 then available else 8;
    if threads <= 1 || |files| < 256 {
      return Map(files, hash), 0;
    }
    var chunk := CeilDiv(|files|, threads);
    ds, workers := [], 0;
    var start := 0;
    assert ChunkStarts(0, chunk, |files|, 0);
    hide Map, CeilDiv, Joined, Gathered, ChunkStarts;
    NothingGathered(files, hash, panics);
    while start < |files|
      invariant start <= |files| && ChunkStarts(workers, chunk, |files|, start) && workers <= threads
      invariant Gathered(files, hash, panics, workers, start, ds)
      decreases |files| - start
    {
      var end := Least(start + chunk, |files|);
      OneMoreChunk(workers, chunk, threads, |files|, start);
      GatherStep(files, hash, panics, workers, start, end, ds);
      ds := ds + Joined(Map(files[start..end], hash), panics(workers));
      start, workers := end, workers + 1;
    }
    AllGathered(files, hash, panics, workers, ds);
  }

  lemma MapSplit<T, D>(files: seq<T>, i: nat, j: nat, hash: T -> D)
    requires i <= j <= |files|
    ensures Map(files[..j], hash) == Map(files[..i], hash) + Map(files[i..j], hash)
  {
  }
}
