/** When a cached index is reused: fingerprints, sidecars and the steps that change them
    (graphengine-scip-adapter/src/fingerprint.rs, and `finish_index` in provisioning/mod.rs). */
module CacheProtocol {
  import opened Basics
  import opened Framing
  import Decimal
  import Sidecar

  // ----- hexadecimal -----

  function HexDigit(d: nat): (c: char)
    requires d < 16
    ensures c != '|' && forall e: nat :: e < d ==> HexDigit(e) != c
  {
    if d < 10 then '0' + d as char else 'a' + (d - 10) as char
  }

  function Hex(bytes: Bytes): (s: string)
    ensures '|' !in s && |s| == 2 * |bytes|
  {
    if bytes == [] then []
    else
      var b := bytes[0] as nat;
      [HexDigit(b / 16), HexDigit(b % 16)] + Hex(bytes[1..])
  }

  lemma HexDigitInjective(a: nat, b: nat)
    requires a < 16 && b < 16 && HexDigit(a) == HexDigit(b)
    ensures a == b
  {
  }

  lemma {:induction false} HexInjective(a: Bytes, b: Bytes)
    requires Hex(a) == Hex(b)
    ensures a == b
  {
    if a != [] && b != [] {
      var x, y := a[0] as nat, b[0] as nat;
      assert Hex(a)[0] == HexDigit(x / 16) && Hex(b)[0] == HexDigit(y / 16);
      assert Hex(a)[1] == HexDigit(x % 16) && Hex(b)[1] == HexDigit(y % 16);
      HexDigitInjective(x / 16, y / 16);
      HexDigitInjective(x % 16, y % 16);
      assert Hex(a)[2..] == Hex(a[1..]) && Hex(b)[2..] == Hex(b[1..]);
      HexInjective(a[1..], b[1..]);
      assert a == [a[0]] + a[1..] && b == [b[0]] + b[1..];
    }
  }

  // ----- workspaces -----

  /** A source file; None when it cannot be read. */
  datatype File = File(path: Bytes, content: Option<Bytes>)

  /** What an index or a fingerprint is about: a root, an indexer version, and the files as walked and sorted. */
  datatype Snapshot = Snapshot(root: Bytes, version: string, files: seq<File>)

  /** A sidecar this program wrote, with what it fingerprinted, or one in another format. */
  datatype SidecarFile = Written(about: Snapshot, secs: nat) | OtherFormat(raw: string)

  datatype Workspace = Workspace(
    files: seq<File>,
    output: Option<Snapshot>,      // `index.scip` as the indexer left it
    cached: Option<Snapshot>,      // the cached copy, which a scan would reuse
    sidecar: Option<SidecarFile>)

  /** The pinned indexer version, if the language has an entry, and every workspace by canonical root. */
  datatype State = State(pin: Option<string>, roots: map<Bytes, Workspace>)

  /** The content hash, the encoding of text, what counts as white space, and the language indexed. */
  datatype World = World(hash: Bytes -> Digest, utf8: string -> Bytes, whitespace: char -> bool, language: string)

  function Sources(w: World, files: seq<File>): (r: seq<Source>)
    ensures |r| == |files|
    ensures forall i :: 0 <= i < |files| ==>
      r[i] == Source(files[i].path, if files[i].content.Some? then Some(w.hash(files[i].content.value)) else None)
  {
    if files == [] then []
    else
      var f := files[|files| - 1];
      Sources(w, files[..|files| - 1]) +
        [Source(f.path, if f.content.Some? then Some(w.hash(f.content.value)) else None)]
  }

  function Framed(w: World, s: Snapshot): Bytes {
    Frame(w.utf8(s.version), Sources(w, s.files))
  }

  function FingerprintOf(w: World, s: Snapshot, secs: nat): Sidecar.Fingerprint {
    Sidecar.Fingerprint(w.language, s.version, Hex(w.hash(s.root)), Hex(w.hash(Framed(w, s))), secs)
  }

  function Raw(w: World, f: SidecarFile): string {
    match f
    case Written(about, secs) => Sidecar.Encode(FingerprintOf(w, about, secs))
    case OtherFormat(raw) => raw
  }

  // ----- the decision -----

  datatype Status = Fresh | Missing | NoSidecar | LegacySidecar | ForeignRoot | VersionMismatch | SourcesChanged

  function CacheStatus(w: World, st: State, root: Bytes): Status {
    if st.pin.None? || root !in st.roots || st.roots[root].cached.None? then Missing
    else if st.roots[root].sidecar.None? then NoSidecar
    else
      match Sidecar.ParseEncoded(w.whitespace, Raw(w, st.roots[root].sidecar.value))
      case None => LegacySidecar
      case Some(stored) =>
        if stored.root != Hex(w.hash(root)) then ForeignRoot
        else if stored.language != w.language || stored.version != st.pin.value then VersionMismatch
        else if stored.files != Hex(w.hash(Framed(w, Current(st, root)))) then SourcesChanged
        else Fresh
  }

  /** What an index generated now would be about. */
  function Current(st: State, root: Bytes): Snapshot
    requires st.pin.Some? && root in st.roots
  {
    Snapshot(root, st.pin.value, st.roots[root].files)
  }

  // ----- steps -----

  datatype Step =
    | Edit(root: Bytes, files: seq<File>)
    | ChangePin(version: Option<string>)
    | RunIndexer(root: Bytes)
    | CopyOutput(root: Bytes)
    | WriteSidecar(root: Bytes, now: nat)
    | IndexAtOnce(root: Bytes, now: nat)      // the three above, with nothing between and no failure
    | CopyTree(from: Bytes, to: Bytes)
    | DropSidecar(root: Bytes)
    | DropIndex(root: Bytes)
    | LeaveLegacy(root: Bytes, raw: string)

  function Put(st: State, root: Bytes, ws: Workspace): State {
    st.(roots := st.roots[root := ws])
  }

  function Apply(st: State, step: Step): State
    decreases step.IndexAtOnce?
  {
    match step
    case Edit(root, files) =>
      Put(st, root, if root in st.roots then st.roots[root].(files := files) else Workspace(files, None, None, None))
    case ChangePin(version) => st.(pin := version)
    case RunIndexer(root) =>
      if root in st.roots && st.pin.Some? then Put(st, root, st.roots[root].(output := Some(Current(st, root)))) else st
    case CopyOutput(root) =>
      if root in st.roots && st.pin.Some? && st.roots[root].output.Some?
      then Put(st, root, st.roots[root].(cached := st.roots[root].output)) else st
    case WriteSidecar(root, now) =>
      if root in st.roots && st.pin.Some? && st.roots[root].output.Some?
      then Put(st, root, st.roots[root].(sidecar := Some(Written(Current(st, root), now)))) else st
    case IndexAtOnce(root, now) =>
      Apply(Apply(Apply(st, RunIndexer(root)), CopyOutput(root)), WriteSidecar(root, now))
    case CopyTree(from, to) => if from in st.roots then Put(st, to, st.roots[from]) else st
    case DropSidecar(root) => if root in st.roots then Put(st, root, st.roots[root].(sidecar := None)) else st
    case DropIndex(root) => if root in st.roots then Put(st, root, st.roots[root].(cached := None)) else st
    case LeaveLegacy(root, raw) =>
      if root in st.roots then Put(st, root, st.roots[root].(sidecar := Some(OtherFormat(raw)))) else st
  }

  const START := State(None, map[])

  function Run(steps: seq<Step>): State {
    if steps == [] then START else Apply(Run(steps[..|steps| - 1]), steps[|steps| - 1])
  }

  /** Pins hold no separator, the clock fits 64 bits, paths hold no NUL, and older sidecars are not in this format. */
  ghost predicate Clean(step: Step) {
    match step
    case Edit(_, files) => forall f :: f in files ==> NUL !in f.path
    case ChangePin(version) => version.Some? ==> '|' !in version.value
    case WriteSidecar(_, now) => now < Decimal.U64_LIMIT
    case IndexAtOnce(_, now) => now < Decimal.U64_LIMIT
    case LeaveLegacy(_, raw) => Sidecar.Bars(raw) != 5
    case _ => true
  }

  ghost predicate CleanRun(steps: seq<Step>) {
    forall i :: 0 <= i < |steps| ==> Clean(steps[i])
  }

  ghost predicate Sane(w: World) {
    Sidecar.Sane(w.whitespace) && !w.whitespace('|') && '|' !in w.language
  }

  // ----- what every run keeps -----

  ghost predicate CleanFiles(files: seq<File>) {
    forall f :: f in files ==> NUL !in f.path
  }

  ghost predicate GoodSidecar(f: SidecarFile) {
    match f
    case Written(about, secs) => secs < Decimal.U64_LIMIT && '|' !in about.version && CleanFiles(about.files)
    case OtherFormat(raw) => Sidecar.Bars(raw) != 5
  }

  ghost predicate GoodWorkspace(ws: Workspace) {
    CleanFiles(ws.files) && (ws.sidecar.Some? ==> GoodSidecar(ws.sidecar.value))
  }

  ghost predicate Good(st: State) {
    && (st.pin.Some? ==> '|' !in st.pin.value)
    && forall root :: root in st.roots ==> GoodWorkspace(st.roots[root])
  }

  lemma ApplyKeepsGood(st: State, step: Step)
    requires Good(st) && Clean(step)
    ensures Good(Apply(st, step))
    decreases step.IndexAtOnce?
  {
    match step
    case IndexAtOnce(root, now) =>
      ApplyKeepsGood(st, RunIndexer(root));
      ApplyKeepsGood(Apply(st, RunIndexer(root)), CopyOutput(root));
      ApplyKeepsGood(Apply(Apply(st, RunIndexer(root)), CopyOutput(root)), WriteSidecar(root, now));
    case _ =>
  }

  lemma {:induction false} RunIsGood(steps: seq<Step>)
    requires CleanRun(steps)
    ensures Good(Run(steps))
  {
    if steps != [] {
      var init := steps[..|steps| - 1];
      assert forall i :: 0 <= i < |init| ==> init[i] == steps[i];
      RunIsGood(init);
      ApplyKeepsGood(Run(init), steps[|steps| - 1]);
    }
  }
}
