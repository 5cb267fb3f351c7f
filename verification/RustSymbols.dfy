/** Reading trait structure out of rust-analyzer SCIP symbols
    (graphengine-scip-adapter/src/index.rs, `bracket_groups`, `rust_method_shape`, `bare_type_name`). */
module RustSymbols {
  import opened Basics
  import Text

  // ----- bracket groups -----

  function Ticks(s: string): nat {
    if s == [] then 0 else (if s[0] == '`' then 1 else 0) + Ticks(s[1..])
  }

  lemma {:induction false} TicksAppend(a: string, b: string)
    ensures Ticks(a + b) == Ticks(a) + Ticks(b)
  {
    if a == [] {
      assert a + b == b;
    } else {
      TicksAppend(a[1..], b);
      assert (a + b)[1..] == a[1..] + b;
    }
  }

  predicate Odd(n: nat) {
    n % 2 == 1
  }

  /** Backticks are balanced and every `[` stands inside a pair of them, reading from the left. */
  ghost predicate GroupOk(g: string) {
    !Odd(Ticks(g)) && forall i :: 0 <= i < |g| && g[i] == '[' ==> Odd(Ticks(g[..i]))
  }

  /** The same of `[`, reading from the right. */
  ghost predicate Sheltered(g: string) {
    forall i :: 0 <= i < |g| && g[i] == '[' ==> Odd(Ticks(g[i + 1..]))
  }

  lemma {:induction false} EitherSide(g: string)
    ensures GroupOk(g) <==> !Odd(Ticks(g)) && Sheltered(g)
  {
    forall i | 0 <= i < |g| && g[i] == '[' ensures Ticks(g) == Ticks(g[..i]) + Ticks(g[i + 1..]) {
      assert g == g[..i] + ([g[i]] + g[i + 1..]);
      TicksAppend(g[..i], [g[i]] + g[i + 1..]);
      TicksAppend([g[i]], g[i + 1..]);
    }
  }

  function Print(prefix: string, groups: seq<string>): string {
    if groups == [] then prefix
    else Print(prefix, groups[..|groups| - 1]) + "[" + groups[|groups| - 1] + "]"
  }

  ghost predicate WellFormed(prefix: string, groups: seq<string>) {
    (prefix == [] || prefix[|prefix| - 1] != ']') && forall g :: g in groups ==> GroupOk(g)
  }

  /** Walking left from `j`, the first `[` outside backticks. */
  function OpenBefore(s: string, j: nat, inTick: bool): (r: Option<nat>)
    requires j <= |s|
    ensures r.Some? ==> r.value < j
  {
    if j == 0 then None
    else if s[j - 1] == '`' then OpenBefore(s, j - 1, !inTick)
    else if s[j - 1] == '[' && !inTick then Some(j - 1)
    else OpenBefore(s, j - 1, inTick)
  }

  /** `prefix[g1]...[gn]` taken apart from the right. */
  function Groups(s: string): Option<(string, seq<string>)> {
    if s == [] || s[|s| - 1] != ']' then Some((s, []))
    else
      match OpenBefore(s, |s| - 1, false)
      case None => None
      case Some(k) =>
        match Groups(s[..k])
        case None => None
        case Some(r) => Some((r.0, r.1 + [s[k + 1..|s| - 1]]))
  }

  function Reverse<T>(s: seq<T>): seq<T> {
    if s == [] then [] else Reverse(s[1..]) + [s[0]]
  }

  lemma {:induction false} ReverseAppend<T>(s: seq<T>, x: T)
    ensures Reverse(s + [x]) == [x] + Reverse(s)
  {
    if s != [] {
      ReverseAppend(s[1..], x);
      assert (s + [x])[1..] == s[1..] + [x];
    }
  }

  function WithTail(r: Option<(string, seq<string>)>, tail: seq<string>): Option<(string, seq<string>)> {
    if r.None? then None else Some((r.value.0, r.value.1 + tail))
  }

  /** Peeling the last group off `here`. */
  lemma {:induction false} PeelGroup(here: string, k: nat, tail: seq<string>)
    requires here != [] && here[|here| - 1] == ']' && OpenBefore(here, |here| - 1, false) == Some(k)
    ensures WithTail(Groups(here), tail) == WithTail(Groups(here[..k]), [here[k + 1..|here| - 1]] + tail)
  {
    if Groups(here[..k]).Some? {
      var gs, g := Groups(here[..k]).value.1, here[k + 1..|here| - 1];
      assert gs + [g] + tail == gs + ([g] + tail);
    }
  }

  lemma NoTail(r: Option<(string, seq<string>)>)
    ensures WithTail(r, []) == r
  {
    if r.Some? { assert r.value.1 + [] == r.value.1; }
  }

  method BracketGroups(s: string) returns (r: Option<(string, seq<string>)>)
    ensures r == Groups(s)
  {
    var groups: seq<string> := [];
    var i: nat := |s|;
    assert s[..|s|] == s;
    NoTail(Groups(s));
    while i > 0 && s[i - 1] == ']'
      invariant i <= |s|
      invariant Groups(s) == WithTail(Groups(s[..i]), Reverse(groups))
    {
      var close := i - 1;
      var j := close;
      var inTick := false;
      ghost var here := s[..i];
      while true
        invariant j <= close
        invariant OpenBefore(here, close, false) == OpenBefore(here, j, inTick)
        decreases j
      {
        if j == 0 {
          return None;
        }
        j := j - 1;
        if s[j] == '`' {
          inTick := !inTick;
        } else if s[j] == '[' && !inTick {
          break;
        }
      }
      assert here[..j] == s[..j] && here[j + 1..|here| - 1] == s[j + 1..close];
      PeelGroup(here, j, Reverse(groups));
      ReverseAppend(groups, s[j + 1..close]);
      groups := groups + [s[j + 1..close]];
      i := j;
    }
    assert [] + Reverse(groups) == Reverse(groups);
    r := Some((s[..i], Reverse(groups)));
  }

  // ----- parsing inverts printing -----

  /** A group cannot reach left past a `[` that stands outside backticks. */
  lemma {:induction false} NotFurther(s: string, k: nat, i: nat, close: nat)
    requires k < i < close <= |s| && s[i] == '[' && !Odd(Ticks(s[i + 1..close]))
    ensures !GroupOk(s[k + 1..close])
  {
    var g := s[k + 1..close];
    EitherSide(g);
    assert g[i - (k + 1)] == '[' && g[i - (k + 1) + 1..] == s[i + 1..close];
  }

  /** Where `OpenBefore` stops, the group that would open there is well formed and no wider one is. */
  ghost predicate OpensAt(s: string, j: nat, close: nat, r: Option<nat>)
    requires j <= close <= |s|
  {
    && (r.Some? ==> r.value < j && s[r.value] == '[' && GroupOk(s[r.value + 1..close]))
    && (forall k :: 0 <= k < j && s[k] == '[' && GroupOk(s[k + 1..close]) ==> r == Some(k))
  }

  lemma OpensHere(s: string, j: nat, close: nat)
    requires 0 < j <= close <= |s| && s[j - 1] == '['
    requires !Odd(Ticks(s[j..close])) && Sheltered(s[j..close])
    ensures OpensAt(s, j, close, Some(j - 1))
  {
    EitherSide(s[j..close]);
    forall k | 0 <= k < j - 1 && s[k] == '[' ensures !GroupOk(s[k + 1..close]) {
      NotFurther(s, k, j - 1, close);
    }
  }

  lemma OpensFurther(s: string, j: nat, close: nat, r: Option<nat>)
    requires 0 < j <= close <= |s| && OpensAt(s, j - 1, close, r)
    requires s[j - 1] != '[' || Odd(Ticks(s[j..close]))
    ensures OpensAt(s, j, close, r)
  {
  }

  lemma {:induction false} OpenExact(s: string, j: nat, close: nat, inTick: bool)
    requires j <= close <= |s|
    requires inTick == Odd(Ticks(s[j..close])) && Sheltered(s[j..close])
    ensures OpensAt(s, j, close, OpenBefore(s, j, inTick))
    decreases j
  {
    if j > 0 {
      if s[j - 1] == '[' && !inTick {
        OpensHere(s, j, close);
      } else {
        var inner, wider := s[j..close], s[j - 1..close];
        assert wider == [s[j - 1]] + inner;
        Widen(s[j - 1], inner);
        OpenExact(s, j - 1, close, Odd(Ticks(wider)));
        OpensFurther(s, j, close, OpenBefore(s, j, inTick));
      }
    }
  }

  lemma {:induction false} Widen(c: char, g: string)
    requires Sheltered(g) && (c == '[' ==> Odd(Ticks(g)))
    ensures Sheltered([c] + g) && Ticks([c] + g) == (if c == '`' then 1 else 0) + Ticks(g)
  {
    var w := [c] + g;
    assert w[1..] == g;
    forall i | 0 <= i < |w| && w[i] == '[' ensures Odd(Ticks(w[i + 1..])) {
      if i > 0 { assert w[i + 1..] == g[i..]; }
    }
  }

  lemma SlicesJoin(s: string, k: nat)
    requires k + 1 < |s| && s[k] == '[' && s[|s| - 1] == ']'
    ensures s == s[..k] + "[" + s[k + 1..|s| - 1] + "]"
  {
  }

  lemma PrintMore(p: string, gs: seq<string>, g: string)
    ensures Print(p, gs + [g]) == Print(p, gs) + "[" + g + "]"
    ensures WellFormed(p, gs) && GroupOk(g) ==> WellFormed(p, gs + [g])
  {
    assert (gs + [g])[..|gs|] == gs;
  }

  lemma {:induction false} GroupsSound(s: string)
    requires Groups(s).Some?
    ensures var (p, gs) := Groups(s).value; s == Print(p, gs) && WellFormed(p, gs)
    decreases |s|
  {
    if s != [] && s[|s| - 1] == ']' {
      var close := |s| - 1;
      assert s[close..close] == [];
      OpenExact(s, close, close, false);
      var k := OpenBefore(s, close, false).value;
      GroupsSound(s[..k]);
      var (p, gs) := Groups(s[..k]).value;
      SlicesJoin(s, k);
      PrintMore(p, gs, s[k + 1..close]);
    }
  }

  lemma PrintEnds(p: string, gs: seq<string>)
    requires gs != []
    ensures var s, init, g := Print(p, gs), gs[..|gs| - 1], gs[|gs| - 1];
      var k, close := |Print(p, init)|, |s| - 1;
      && k < close && s[..k] == Print(p, init) && s[k] == '[' && s[k + 1..close] == g && s[close] == ']'
      && gs == init + [g]
  {
    var front, g := Print(p, gs[..|gs| - 1]), gs[|gs| - 1];
    assert Print(p, gs) == front + ("[" + g + "]");
  }

  lemma {:induction false} LastGroupOpens(s: string, k: nat)
    requires k + 1 < |s| && s[k] == '[' && GroupOk(s[k + 1..|s| - 1])
    ensures OpenBefore(s, |s| - 1, false) == Some(k)
  {
    assert s[|s| - 1..|s| - 1] == [];
    OpenExact(s, |s| - 1, |s| - 1, false);
  }

  lemma {:induction false} GroupsUnfold(s: string, k: nat, r: (string, seq<string>))
    requires k + 1 < |s| && s[k] == '[' && s[|s| - 1] == ']' && GroupOk(s[k + 1..|s| - 1])
    requires Groups(s[..k]) == Some(r)
    ensures Groups(s) == Some((r.0, r.1 + [s[k + 1..|s| - 1]]))
  {
    LastGroupOpens(s, k);
  }

  lemma {:induction false} GroupsComplete(p: string, gs: seq<string>)
    requires WellFormed(p, gs)
    ensures Groups(Print(p, gs)) == Some((p, gs))
    decreases |gs|
  {
    if gs == [] {
      assert Print(p, gs) == p;
    } else {
      var init, g := gs[..|gs| - 1], gs[|gs| - 1];
      var s, k := Print(p, gs), |Print(p, init)|;
      PrintEnds(p, gs);
      assert WellFormed(p, init) && GroupOk(g);
      GroupsComplete(p, init);
      GroupsUnfold(s, k, (p, init));
    }
  }

  /** Parsing yields a prefix and groups exactly when the text is their well-formed printing; in
      particular there is at most one, and none exactly when parsing fails. */
  lemma {:induction false} ParseInvertsPrint(s: string, p: string, gs: seq<string>)
    ensures Groups(s) == Some((p, gs)) <==> s == Print(p, gs) && WellFormed(p, gs)
  {
    if Groups(s).Some? { GroupsSound(s); }
    if s == Print(p, gs) && WellFormed(p, gs) { GroupsComplete(p, gs); }
  }

  // ----- method shapes -----

  /** `…/Trait#method().` or `…/impl#[Type][Trait]method().`. */
  datatype RustMethod = TraitDecl(traitName: string, name: string) | TraitImpl(traitName: string, name: string)

  /** Unicode tables the source consults. */
  datatype Classes = Classes(alphanumeric: char -> bool, whitespace: char -> bool)

  predicate IdentChar(u: Classes, c: char) {
    u.alphanumeric(c) || c == '_'
  }

  function Ident(u: Classes): char -> bool {
    c => IdentChar(u, c)
  }

  predicate NotTick(c: char) {
    c != '`'
  }

  /** What follows the `n`-th space: `splitn(n + 1, ' ').nth(n)`. */
  function AfterSpaces(s: string, n: nat): Option<string> {
    if n == 0 then Some(s)
    else if s == [] then None
    else AfterSpaces(s[1..], if s[0] == ' ' then n - 1 else n)
  }

  /** Where the longest suffix of characters satisfying `p` starts. */
  function TailStart(s: string, p: char -> bool): (k: nat)
    ensures k <= |s|
  {
    if s == [] || !p(s[|s| - 1]) then |s| else TailStart(s[..|s| - 1], p)
  }

  function StripSuffix(s: string, suffix: string): Option<string> {
    if Text.EndsWith(s, suffix) then Some(s[..|s| - |suffix|]) else None
  }

  /** The owner and the method name: a trailing identifier or a backtick-escaped name. */
  function SplitMethod(u: Classes, body: string): Option<(string, string)> {
    if body != [] && body[|body| - 1] == '`' then
      var stripped := body[..|body| - 1];
      if '`' !in stripped then None
      else
        var open := TailStart(stripped, NotTick);
        Some((body[..if open == 0 then 0 else open - 1], stripped[open..]))
    else
      var start := TailStart(body, Ident(u));
      Some((body[..start], body[start..]))
  }

  function TrimTicks(s: string): string {
    Text.Trim(s, c => c == '`')
  }

  function BeforeAngle(s: string): string {
    if s == [] || s[0] == '<' then [] else [s[0]] + BeforeAngle(s[1..])
  }

  /** `rsplit("::").next()`. */
  function AfterLastPath(s: string): string {
    if |s| >= 2 && s[|s| - 2..] == "::" then []
    else if s == [] then []
    else AfterLastPath(s[..|s| - 1]) + [s[|s| - 1]]
  }

  /** A type name without backticks, type arguments or path. */
  function BareTypeName(u: Classes, raw: string): string {
    Text.Trim(AfterLastPath(BeforeAngle(TrimTicks(raw))), u.whitespace)
  }

  predicate NameSeparator(c: char) {
    c == '/' || c == '#' || c == '.' || c == ']'
  }

  function ShapeOfOwner(u: Classes, owner: string, name: string): Option<RustMethod> {
    if owner != [] && owner[|owner| - 1] == ']' then
      match Groups(owner)
      case None => None
      case Some((prefix, list)) =>
        if !Text.EndsWith(prefix, "impl#") || |list| != 2 then None
        else Some(TraitImpl(BareTypeName(u, list[1]), name))
    else
      match StripSuffix(owner, "#")
      case None => None
      case Some(path) =>
        var traitName := TrimTicks(path[TailStart(path, c => !NameSeparator(c))..]);
        if traitName == "" || traitName == "impl" then None
        else Some(TraitDecl(BareTypeName(u, traitName), name))
  }

  const SCHEME := "rust-analyzer "

  function RustMethodShape(u: Classes, symbol: string): Option<RustMethod> {
    if !Text.StartsWith(symbol, SCHEME) then None
    else
      match AfterSpaces(symbol, 4)
      case None => None
      case Some(descriptors) =>
        match StripSuffix(descriptors, "().")
        case None => None
        case Some(body) =>
          match SplitMethod(u, body)
          case None => None
          case Some((owner, name)) => if name == "" then None else ShapeOfOwner(u, owner, name)
  }

  // ----- printing symbols, and reading them back -----

  ghost predicate Sane(u: Classes) {
    !u.alphanumeric('`') && !u.alphanumeric(']') && !u.alphanumeric('#')
  }

  function PrintName(name: string, quoted: bool): string {
    if quoted then "`" + name + "`" else name
  }

  ghost predicate NameOk(u: Classes, name: string, quoted: bool) {
    name != "" && if quoted then '`' !in name else forall c :: c in name ==> IdentChar(u, c)
  }

  /** Scheme, manager, package and version, then descriptors naming a method of `owner`. */
  function PrintSymbol(manager: string, package: string, version: string, owner: string, name: string,
          quoted: bool): string {
    SCHEME + (manager + " " + (package + " " + (version + " " + (owner + PrintName(name, quoted) + "()."))))
  }

  lemma {:induction false} AfterField(f: string, rest: string, n: nat)
    requires ' ' !in f && n > 0
    ensures AfterSpaces(f + " " + rest, n) == AfterSpaces(rest, n - 1)
  {
    var s := f + " " + rest;
    if f == [] {
      assert s[1..] == rest;
    } else {
      AfterField(f[1..], rest, n);
      assert s[1..] == f[1..] + " " + rest;
    }
  }

  lemma {:induction false} DescriptorsFound(m: string, p: string, v: string, d: string)
    requires ' ' !in m && ' ' !in p && ' ' !in v
    ensures AfterSpaces(SCHEME + (m + " " + (p + " " + (v + " " + d))), 4) == Some(d)
  {
    var three := m + " " + (p + " " + (v + " " + d));
    assert SCHEME + three == "rust-analyzer" + " " + three;
    AfterField("rust-analyzer", three, 4);
    AfterField(m, p + " " + (v + " " + d), 3);
    AfterField(p, v + " " + d, 2);
    AfterField(v, d, 1);
  }

  lemma {:induction false} TailStartAt(a: string, b: string, p: char -> bool)
    requires a == [] || !p(a[|a| - 1])
    requires forall c :: c in b ==> p(c)
    ensures TailStart(a + b, p) == |a|
  {
    if b == [] {
      assert a + b == a;
    } else {
      var init := b[..|b| - 1];
      assert (a + b)[..|a + b| - 1] == a + init && (a + b)[|a + b| - 1] == b[|b| - 1];
      TailStartAt(a, init, p);
    }
  }

  lemma TakeDrop(a: string, b: string)
    ensures (a + b)[..|a|] == a && (a + b)[|a|..] == b
  {
  }

  lemma {:induction false} QuotedName(u: Classes, owner: string, name: string)
    requires '`' !in name
    ensures SplitMethod(u, owner + PrintName(name, true)) == Some((owner, name))
  {
    var open := owner + "`";
    var stripped, body := open + name, owner + PrintName(name, true);
    assert body == stripped + "`" && body == owner + ("`" + name + "`");
    TakeDrop(stripped, "`");
    TakeDrop(open, name);
    TakeDrop(owner, "`" + name + "`");
    assert body[..|body| - 1] == stripped;
    assert open[|owner|] == '`' && stripped[|owner|] == '`';
    TailStartAt(open, name, NotTick);
  }

  lemma {:induction false} PlainName(u: Classes, owner: string, name: string)
    requires Sane(u) && NameOk(u, name, false)
    requires owner != [] && (owner[|owner| - 1] == ']' || owner[|owner| - 1] == '#')
    ensures SplitMethod(u, owner + PrintName(name, false)) == Some((owner, name))
  {
    var body := owner + name;
    TailStartAt(owner, name, Ident(u));
    TakeDrop(owner, name);
    assert body[|body| - 1] == name[|name| - 1] && name[|name| - 1] in name;
  }

  lemma {:induction false} NameFound(u: Classes, owner: string, name: string, quoted: bool)
    requires Sane(u) && NameOk(u, name, quoted)
    requires owner != [] && (owner[|owner| - 1] == ']' || owner[|owner| - 1] == '#')
    ensures SplitMethod(u, owner + PrintName(name, quoted)) == Some((owner, name))
  {
    if quoted { QuotedName(u, owner, name); } else { PlainName(u, owner, name); }
  }

  lemma {:induction false} ShapeOfSymbol(u: Classes, m: string, p: string, v: string, owner: string, name: string,
          quoted: bool)
    requires Sane(u) && NameOk(u, name, quoted) && ' ' !in m && ' ' !in p && ' ' !in v
    requires owner != [] && (owner[|owner| - 1] == ']' || owner[|owner| - 1] == '#')
    ensures RustMethodShape(u, PrintSymbol(m, p, v, owner, name, quoted)) == ShapeOfOwner(u, owner, name)
  {
    var body := owner + PrintName(name, quoted);
    var d := body + "().";
    DescriptorsFound(m, p, v, d);
    assert d[..|d| - 3] == body && d[|d| - 3..] == "().";
    NameFound(u, owner, name, quoted);
  }

  /** An owner is read as a trait impl exactly when it is `…impl#[Type][Trait]`, with that trait's bare name. */
  lemma {:induction false} ImplOwnerExactly(u: Classes, owner: string, name: string, r: RustMethod)
    ensures ShapeOfOwner(u, owner, name) == Some(r) && r.TraitImpl? <==>
      exists prefix, ty, tr ::
        && owner == Print(prefix, [ty, tr]) && WellFormed(prefix, [ty, tr])
        && Text.EndsWith(prefix, "impl#") && r == TraitImpl(BareTypeName(u, tr), name)
  {
    if ShapeOfOwner(u, owner, name) == Some(r) && r.TraitImpl? {
      var (prefix, list) := Groups(owner).value;
      ParseInvertsPrint(owner, prefix, list);
      assert list == [list[0], list[1]];
    }
    if prefix, ty, tr :|
      && owner == Print(prefix, [ty, tr]) && WellFormed(prefix, [ty, tr])
      && Text.EndsWith(prefix, "impl#") && r == TraitImpl(BareTypeName(u, tr), name)
    {
      ParseInvertsPrint(owner, prefix, [ty, tr]);
      PrintEnds(prefix, [ty, tr]);
    }
  }

  /** Every well-formed trait-impl symbol is classified with its trait and method. */
  lemma {:induction false} ImplSymbolRead(u: Classes, m: string, p: string, v: string, prefix: string, ty: string,
          tr: string, name: string, quoted: bool)
    requires Sane(u) && NameOk(u, name, quoted) && ' ' !in m && ' ' !in p && ' ' !in v
    requires Text.EndsWith(prefix, "impl#") && GroupOk(ty) && GroupOk(tr)
    ensures RustMethodShape(u, PrintSymbol(m, p, v, Print(prefix, [ty, tr]), name, quoted)) ==
      Some(TraitImpl(BareTypeName(u, tr), name))
  {
    var owner := Print(prefix, [ty, tr]);
    PrintEnds(prefix, [ty, tr]);
    assert prefix[|prefix| - 1] == prefix[|prefix| - 5..][4] == '#';
    ShapeOfSymbol(u, m, p, v, owner, name, quoted);
    ImplOwnerExactly(u, owner, name, TraitImpl(BareTypeName(u, tr), name));
  }

  /** Every well-formed trait-method declaration is classified with its trait and method. */
  lemma {:induction false} DeclSymbolRead(u: Classes, m: string, p: string, v: string, path: string, traitName: string,
          name: string, quoted: bool)
    requires Sane(u) && NameOk(u, name, quoted) && ' ' !in m && ' ' !in p && ' ' !in v
    requires path == "" || NameSeparator(path[|path| - 1])
    requires forall c :: c in traitName ==> !NameSeparator(c)
    requires TrimTicks(traitName) != "" && TrimTicks(traitName) != "impl"
    ensures RustMethodShape(u, PrintSymbol(m, p, v, path + traitName + "#", name, quoted)) ==
      Some(TraitDecl(BareTypeName(u, TrimTicks(traitName)), name))
  {
    var owner := path + traitName + "#";
    ShapeOfSymbol(u, m, p, v, owner, name, quoted);
    assert owner[..|owner| - 1] == path + traitName && owner[|owner| - 1..] == "#";
    TailStartAt(path, traitName, c => !NameSeparator(c));
    assert (path + traitName)[|path|..] == traitName;
  }
}
