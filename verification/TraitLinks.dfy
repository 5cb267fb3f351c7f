/** Linking trait methods to the impl methods rust-analyzer symbols name
    (graphengine-scip-adapter/src/index.rs, `link_rust_trait_impls`). */
module TraitLinks {
  import opened Basics
  import opened Multimaps
  import opened RustSymbols
  import opened Sorting
  import Text

  datatype Key = Key(traitName: string, name: string)

  datatype TraitMethod = TraitMethod(symbol: string, key: Key)

  predicate IsImpl(u: Classes, s: string, k: Key) {
    RustMethodShape(u, s) == Some(TraitImpl(k.traitName, k.name))
  }

  predicate IsDecl(u: Classes, s: string, k: Key) {
    RustMethodShape(u, s) == Some(TraitDecl(k.traitName, k.name))
  }

  const STD_PACKAGES := {"core", "alloc", "std", "proc_macro", "test"}

  /** The third space-separated field. */
  function PackageOf(s: string): string {
    var parts := Text.Split(s, ' ');
    if |parts| > 2 then parts[2] else ""
  }

  /** Trait methods that may fan out: defined here, or used here and declared by a third-party package. */
  predicate FansOut(defined: set<string>, referenced: set<string>, s: string) {
    s in defined || (s in referenced && PackageOf(s) !in STD_PACKAGES)
  }

  ghost function ImplsOf(u: Classes, defined: set<string>, k: Key): set<string> {
    set s | s in defined && IsImpl(u, s, k)
  }

  // ----- what linking means -----

  /** `implementations` and `implementedBy` are one relation read from both ends. */
  ghost predicate Converse(implementations: map<string, seq<string>>, implementedBy: map<string, seq<string>>) {
    forall iface, m :: CountsAgree(implementations, implementedBy, iface, m)
  }

  ghost predicate CountsAgree(implementations: map<string, seq<string>>, implementedBy: map<string, seq<string>>,
          iface: string, m: string) {
    Count(GetAll(implementations, iface), m) == Count(GetAll(implementedBy, m), iface)
  }

  /** `l` lists the defined implementations of `k`, sorted, each once. */
  ghost predicate ListsImpls(u: Classes, defined: set<string>, k: Key, l: seq<string>) {
    l != [] && NoDup(l) && Sorted(LexLe, l) && Elements(l) == ImplsOf(u, defined, k)
  }

  /** Recorded relationships stay; every other method named in `todo` gets its key's implementations, if any. */
  ghost predicate LinkedRow(u: Classes, defined: set<string>, before: map<string, seq<string>>,
          after: map<string, seq<string>>, todo: seq<TraitMethod>, t: string)
  {
    if t in before then t in after && after[t] == before[t]
    else
      && (t in after ==> exists k :: TraitMethod(t, k) in todo && ListsImpls(u, defined, k, after[t]))
      && (t !in after ==> forall k :: TraitMethod(t, k) in todo ==> ImplsOf(u, defined, k) == {})
  }

  ghost predicate LinkedTo(u: Classes, defined: set<string>, before: map<string, seq<string>>,
          after: map<string, seq<string>>, todo: seq<TraitMethod>)
  {
    forall t :: LinkedRow(u, defined, before, after, todo, t)
  }

  // ----- collecting shapes -----

  ghost predicate ImplTable(u: Classes, impls: map<Key, seq<string>>, done: set<string>) {
    && (forall k :: ImplList(u, GetAll(impls, k), done, k))
    && forall k :: k in impls ==> impls[k] != []
  }

  ghost predicate ImplList(u: Classes, l: seq<string>, done: set<string>, k: Key) {
    NoDup(l) && Elements(l) == ImplsOf(u, done, k)
  }

  ghost predicate DeclList(u: Classes, decls: seq<TraitMethod>, done: set<string>) {
    forall tm :: tm in decls <==> tm.symbol in done && IsDecl(u, tm.symbol, tm.key)
  }

  lemma ImplStep(u: Classes, impls: map<Key, seq<string>>, done: set<string>, s: string, k: Key)
    requires ImplTable(u, impls, done) && s !in done && IsImpl(u, s, k)
    ensures ImplTable(u, Push(impls, k, s), done + {s})
  {
    var n := Push(impls, k, s);
    forall x ensures ImplList(u, GetAll(n, x), done + {s}, x) {
      var l := GetAll(impls, x);
      assert ImplList(u, l, done, x);
      if x == k {
        assert Elements(l + [s]) == Elements(l) + {s};
        assert s !in Elements(l);
        assert ImplsOf(u, done + {s}, x) == ImplsOf(u, done, x) + {s};
      } else {
        assert ImplsOf(u, done + {s}, x) == ImplsOf(u, done, x);
      }
    }
  }

  lemma NotImplStep(u: Classes, impls: map<Key, seq<string>>, done: set<string>, s: string)
    requires ImplTable(u, impls, done) && forall k :: !IsImpl(u, s, k)
    ensures ImplTable(u, impls, done + {s})
  {
    forall x ensures ImplList(u, GetAll(impls, x), done + {s}, x) {
      assert ImplList(u, GetAll(impls, x), done, x);
      assert ImplsOf(u, done + {s}, x) == ImplsOf(u, done, x);
    }
  }

  method CollectDefined(u: Classes, defined: set<string>)
    returns (impls: map<Key, seq<string>>, decls: seq<TraitMethod>)
    ensures ImplTable(u, impls, defined) && DeclList(u, decls, defined)
  {
    var symbols := Enumerate(defined);
    impls, decls := map[], [];
    for i := 0 to |symbols|
      invariant ImplTable(u, impls, Elements(symbols[..i])) && DeclList(u, decls, Elements(symbols[..i]))
    {
      var s := symbols[i];
      ghost var done := Elements(symbols[..i]);
      assert Elements(symbols[..i + 1]) == done + {s} && s !in done;
      match RustMethodShape(u, s) {
        case Some(TraitImpl(t, name)) =>
          ImplStep(u, impls, done, s, Key(t, name));
          impls := Push(impls, Key(t, name), s);
        case Some(TraitDecl(t, name)) =>
          NotImplStep(u, impls, done, s);
          decls := decls + [TraitMethod(s, Key(t, name))];
        case None =>
          NotImplStep(u, impls, done, s);
      }
    }
    assert symbols[..|symbols|] == symbols;
  }

  method CollectReferenced(u: Classes, defined: set<string>, referenced: set<string>, decls0: seq<TraitMethod>)
    returns (decls: seq<TraitMethod>)
    requires DeclList(u, decls0, defined)
    ensures DeclList(u, decls, set s | s in defined + referenced && FansOut(defined, referenced, s))
  {
    var symbols := Enumerate(referenced);
    decls := decls0;
    for i := 0 to |symbols|
      invariant DeclList(u, decls, defined + set s | s in symbols[..i] && PackageOf(s) !in STD_PACKAGES)
    {
      var s := symbols[i];
      assert symbols[..i + 1] == symbols[..i] + [s];
      if s in defined || PackageOf(s) in STD_PACKAGES {
        continue;
      }
      match RustMethodShape(u, s) {
        case Some(TraitDecl(t, name)) => decls := decls + [TraitMethod(s, Key(t, name))];
        case _ =>
      }
    }
    assert symbols[..|symbols|] == symbols;
    assert forall s :: s in referenced <==> s in Elements(symbols);
  }

  // ----- linking -----

  /** Pushes `t` under each of `impls`. */
  method PushEach(back0: map<string, seq<string>>, impls: seq<string>, t: string)
    returns (back: map<string, seq<string>>)
    ensures forall m, iface :: PushedCount(back0, back, impls, t, m, iface)
  {
    back := back0;
    for j := 0 to |impls|
      invariant forall m, iface :: PushedCount(back0, back, impls[..j], t, m, iface)
    {
      var pushed, upTo := Push(back, impls[j], t), impls[..j + 1];
      forall m, iface ensures PushedCount(back0, pushed, upTo, t, m, iface) {
        assert PushedCount(back0, back, impls[..j], t, m, iface);
        PushCount(back, impls[j], t, m, iface);
        assert upTo == impls[..j] + [impls[j]];
      }
      back := pushed;
    }
    assert impls[..|impls|] == impls;
  }

  ghost predicate PushedCount(back0: map<string, seq<string>>, back: map<string, seq<string>>, impls: seq<string>,
          t: string, m: string, iface: string) {
    Count(GetAll(back, m), iface) == Count(GetAll(back0, m), iface) + if iface == t then Count(impls, m) else 0
  }

  lemma ConverseStep(implementations: map<string, seq<string>>, back0: map<string, seq<string>>,
          back1: map<string, seq<string>>, impls: seq<string>, t: string)
    requires Converse(implementations, back0) && t !in implementations
    requires forall m, iface :: PushedCount(back0, back1, impls, t, m, iface)
    ensures Converse(implementations[t := impls], back1)
  {
    var grown := implementations[t := impls];
    forall iface, m ensures CountsAgree(grown, back1, iface, m) {
      assert CountsAgree(implementations, back0, iface, m);
      assert PushedCount(back0, back1, impls, t, m, iface);
    }
  }

  /** A later entry for a symbol already settled changes nothing. */
  lemma KeepStep(u: Classes, defined: set<string>, before: map<string, seq<string>>, after: map<string, seq<string>>,
          todo: seq<TraitMethod>, tm: TraitMethod)
    requires LinkedTo(u, defined, before, after, todo)
    requires tm.symbol in after || ImplsOf(u, defined, tm.key) == {}
    ensures LinkedTo(u, defined, before, after, todo + [tm])
  {
    var longer := todo + [tm];
    forall t ensures LinkedRow(u, defined, before, after, longer, t) {
      assert LinkedRow(u, defined, before, after, todo, t);
    }
  }

  lemma AddStep(u: Classes, defined: set<string>, before: map<string, seq<string>>, after: map<string, seq<string>>,
          todo: seq<TraitMethod>, tm: TraitMethod, l: seq<string>)
    requires LinkedTo(u, defined, before, after, todo)
    requires tm.symbol !in after && ListsImpls(u, defined, tm.key, l)
    ensures LinkedTo(u, defined, before, after[tm.symbol := l], todo + [tm])
  {
    var grown, longer := after[tm.symbol := l], todo + [tm];
    forall t ensures LinkedRow(u, defined, before, grown, longer, t) {
      assert LinkedRow(u, defined, before, after, todo, t);
      assert tm in longer;
    }
  }

  method LinkRustTraitImpls(u: Classes, defined: set<string>, referenced: set<string>,
          implementations0: map<string, seq<string>>, implementedBy0: map<string, seq<string>>)
    returns (implementations: map<string, seq<string>>, implementedBy: map<string, seq<string>>)
    requires Converse(implementations0, implementedBy0)
    ensures Converse(implementations, implementedBy)
    ensures forall t :: Fanned(u, defined, referenced, implementations0, implementations, t)
  {
    hide Sort, ListsImpls, Converse;
    var impls, decls := CollectDefined(u, defined);
    decls := CollectReferenced(u, defined, referenced, decls);
    implementations, implementedBy := implementations0, implementedBy0;
    for i := 0 to |decls|
      invariant Converse(implementations, implementedBy)
      invariant LinkedTo(u, defined, implementations0, implementations, decls[..i])
    {
      var tm := decls[i];
      assert decls[..i + 1] == decls[..i] + [tm];
      assert ImplList(u, GetAll(impls, tm.key), defined, tm.key);
      if tm.symbol in implementations || tm.key !in impls {
        KeepStep(u, defined, implementations0, implementations, decls[..i], tm);
        continue;
      }
      var sorted := Sort(LexLe, impls[tm.key]);
      SortedListing(u, defined, tm.key, impls[tm.key]);
      AddStep(u, defined, implementations0, implementations, decls[..i], tm, sorted);
      var back1 := PushEach(implementedBy, sorted, tm.symbol);
      ConverseStep(implementations, implementedBy, back1, sorted, tm.symbol);
      implementedBy := back1;
      implementations := implementations[tm.symbol := sorted];
    }
    assert decls[..|decls|] == decls;
    forall t ensures Fanned(u, defined, referenced, implementations0, implementations, t) {
      assert LinkedRow(u, defined, implementations0, implementations, decls, t);
    }
  }

  lemma SortedListing(u: Classes, defined: set<string>, k: Key, l: seq<string>)
    requires ImplList(u, l, defined, k) && l != []
    ensures ListsImpls(u, defined, k, Sort(LexLe, l))
  {
    LexIsTotalOrder();
    SortSorted(LexLe, l);
    SortPermutes(LexLe, l);
    SortMembers(LexLe, l);
    NoDupPermutation(l, Sort(LexLe, l));
    assert Elements(Sort(LexLe, l)) == Elements(l);
  }

  /** Recorded relationships are kept. Otherwise a method is linked exactly when it is a trait declaration
      that fans out and has defined implementations, and then to the sorted list of all of them. */
  ghost predicate Fanned(u: Classes, defined: set<string>, referenced: set<string>, before: map<string, seq<string>>,
          after: map<string, seq<string>>, t: string)
  {
    if t in before then t in after && after[t] == before[t]
    else if t in after then
      FansOut(defined, referenced, t) && exists k :: IsDecl(u, t, k) && ListsImpls(u, defined, k, after[t])
    else
      forall k :: FansOut(defined, referenced, t) && IsDecl(u, t, k) ==> ImplsOf(u, defined, k) == {}
  }

  lemma {:induction false} SameRow(u: Classes, defined: set<string>, referenced: set<string>,
          before: map<string, seq<string>>, one: map<string, seq<string>>, two: map<string, seq<string>>, t: string)
    requires Fanned(u, defined, referenced, before, one, t) && Fanned(u, defined, referenced, before, two, t) &&
      t in one
    ensures t in two && one[t] == two[t]
  {
    if t !in before {
      var k :| IsDecl(u, t, k) && ListsImpls(u, defined, k, one[t]);
      assert one[t][0] in Elements(one[t]);
      SameListing(one[t], two[t]);
    }
  }

  /** The links do not depend on the order hash tables are read in. */
  lemma {:induction false} FanOutIsDetermined(u: Classes, defined: set<string>, referenced: set<string>,
          before: map<string, seq<string>>, one: map<string, seq<string>>, two: map<string, seq<string>>)
    requires forall t :: Fanned(u, defined, referenced, before, one, t)
    requires forall t :: Fanned(u, defined, referenced, before, two, t)
    ensures one == two
  {
    forall t ensures (t in one <==> t in two) && (t in one ==> one[t] == two[t]) {
      assert Fanned(u, defined, referenced, before, one, t) && Fanned(u, defined, referenced, before, two, t);
      if t in one { SameRow(u, defined, referenced, before, one, two, t); }
      if t in two { SameRow(u, defined, referenced, before, two, one, t); }
    }
  }

  lemma {:induction false} SameListing(a: seq<string>, b: seq<string>)
    requires NoDup(a) && NoDup(b) && Sorted(LexLe, a) && Sorted(LexLe, b) && Elements(a) == Elements(b)
    ensures a == b
  {
    LexIsTotalOrder();
    NoDupMultiset(a);
    NoDupMultiset(b);
    forall x ensures multiset(a)[x] == multiset(b)[x] {
      assert x in a <==> x in Elements(a);
      assert x in b <==> x in Elements(b);
    }
    SortedUnique(LexLe, a, b);
  }
}
