/** What a fresh cache status is worth, over every run. */
module CacheSafety {
  import opened Basics
  import opened CacheProtocol
  import opened Framing
  import Decimal
  import Sidecar

  /** Two inputs with one hash: what a collision-free hash never shows. */
  ghost predicate Collision(w: World, x: Bytes, y: Bytes) {
    x != y && w.hash(x) == w.hash(y)
  }

  ghost predicate HashesMatch(w: World, s: Snapshot, t: Snapshot) {
    s.version == t.version && w.hash(s.root) == w.hash(t.root) && w.hash(Framed(w, s)) == w.hash(Framed(w, t))
  }

  ghost predicate Wrote(st: State, root: Bytes, s: Snapshot) {
    root in st.roots && st.roots[root].sidecar.Some? && st.roots[root].sidecar.value.Written? &&
    st.roots[root].sidecar.value.about == s
  }

  /** A cached index counts as fresh exactly when its sidecar was written by this program about a snapshot whose
      version, root hash and file hash are the current ones. */
  lemma {:induction false} FreshExactly(w: World, st: State, root: Bytes)
    requires Sane(w) && Good(st)
    ensures CacheStatus(w, st, root) == Fresh <==>
      && st.pin.Some? && root in st.roots && st.roots[root].cached.Some?
      && exists s :: Wrote(st, root, s) && HashesMatch(w, s, Current(st, root))
  {
    if st.pin.Some? && root in st.roots && st.roots[root].cached.Some? && st.roots[root].sidecar.Some? {
      var f := st.roots[root].sidecar.value;
      assert GoodWorkspace(st.roots[root]);
      match f
      case OtherFormat(raw) =>
        if Sidecar.ParseEncoded(w.whitespace, raw).Some? { Sidecar.OtherFormatsRejected(w.whitespace, raw); }
      case Written(s, secs) =>
        Sidecar.RoundTripExactly(w.whitespace, FingerprintOf(w, s, secs));
        SameHex(w, s, Current(st, root));
        assert Wrote(st, root, s);
    }
  }

  lemma {:induction false} SameHex(w: World, s: Snapshot, t: Snapshot)
    ensures Hex(w.hash(s.root)) == Hex(w.hash(t.root)) <==> w.hash(s.root) == w.hash(t.root)
    ensures Hex(w.hash(Framed(w, s))) == Hex(w.hash(Framed(w, t))) <==> w.hash(Framed(w, s)) == w.hash(Framed(w, t))
  {
    if Hex(w.hash(s.root)) == Hex(w.hash(t.root)) { HexInjective(w.hash(s.root), w.hash(t.root)); }
    if Hex(w.hash(Framed(w, s))) == Hex(w.hash(Framed(w, t))) {
      HexInjective(w.hash(Framed(w, s)), w.hash(Framed(w, t)));
    }
  }

  /** Same root, same version, same sorted list of paths and digests, unless the hash collides on one of the
      two pairs of inputs it was given. */
  ghost predicate SameState(w: World, s: Snapshot, t: Snapshot) {
    && s.version == t.version
    && (s.root == t.root || Collision(w, s.root, t.root))
    && (Sources(w, s.files) == Sources(w, t.files) || Collision(w, Framed(w, s), Framed(w, t)))
  }

  /** Matching hashes mean the same state when the same files were readable, in particular when all were. */
  lemma {:induction false} MatchingIsSame(w: World, s: Snapshot, t: Snapshot)
    requires CleanFiles(s.files) && CleanFiles(t.files)
    requires SameReadable(Sources(w, s.files), Sources(w, t.files))
    ensures HashesMatch(w, s, t) <==> SameState(w, s, t)
  {
    var a, b := Sources(w, s.files), Sources(w, t.files);
    if HashesMatch(w, s, t) && Framed(w, s) == Framed(w, t) {
      SameLengthHeads(w.utf8(s.version) + [NEWLINE], w.utf8(t.version) + [NEWLINE], FrameAll(a), FrameAll(b));
      FilesInjective(a, b);
    }
  }

  /** What a fresh status at `root` establishes about the snapshot `s` its sidecar is about. */
  ghost predicate Vouches(w: World, st: State, root: Bytes, s: Snapshot)
    requires st.pin.Some? && root in st.roots
  {
    && Wrote(st, root, s)
    && HashesMatch(w, s, Current(st, root))
    && (SameReadable(Sources(w, s.files), Sources(w, st.roots[root].files)) ==> SameState(w, s, Current(st, root)))
  }

  /** Over every run: a fresh status means the sidecar is about the current root, version and files. */
  lemma {:induction false} FreshMeansCurrent(w: World, steps: seq<Step>, root: Bytes)
    requires Sane(w) && CleanRun(steps) && CacheStatus(w, Run(steps), root) == Fresh
    ensures exists s :: Vouches(w, Run(steps), root, s)
  {
    var st := Run(steps);
    RunIsGood(steps);
    FreshExactly(w, st, root);
    var s :| Wrote(st, root, s) && HashesMatch(w, s, Current(st, root));
    assert GoodWorkspace(st.roots[root]);
    if SameReadable(Sources(w, s.files), Sources(w, st.roots[root].files)) {
      MatchingIsSame(w, s, Current(st, root));
    }
    assert Vouches(w, st, root, s);
  }

  /** Equal digests mean equal contents, unless the hash collides on some file. */
  lemma {:induction false} SameDigestsSameFiles(w: World, a: seq<File>, b: seq<File>)
    requires Sources(w, a) == Sources(w, b)
    ensures a == b || exists i :: 0 <= i < |a| && i < |b| && CollidingFiles(w, a[i], b[i])
  {
    var r, s := Sources(w, a), Sources(w, b);
    assert |a| == |b|;
    if i :| 0 <= i < |a| && a[i] != b[i] {
      assert r[i] == s[i];
      assert CollidingFiles(w, a[i], b[i]);
    }
  }

  ghost predicate CollidingFiles(w: World, a: File, b: File) {
    a.content.Some? && b.content.Some? && Collision(w, a.content.value, b.content.value)
  }
}
