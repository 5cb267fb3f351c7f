/** The stable sort the Rust sources call (`sort`, `sort_by`, `sort_by_key`), as insertion
    from the right, for any comparison `le`. */
module Sorting {
  import opened Basics

  ghost predicate TotalPreorder<T(!new)>(le: (T, T) -> bool) {
    && (forall x, y :: le(x, y) || le(y, x))
    && (forall x, y, z :: le(x, y) && le(y, z) ==> le(x, z))
  }

  ghost predicate Sorted<T>(le: (T, T) -> bool, s: seq<T>) {
    forall i, j :: 0 <= i < j < |s| ==> le(s[i], s[j])
  }

  function Insert<T>(le: (T, T) -> bool, x: T, s: seq<T>): seq<T> {
    if s == [] || le(x, s[0]) then [x] + s else [s[0]] + Insert(le, x, s[1..])
  }

  function Sort<T>(le: (T, T) -> bool, s: seq<T>): seq<T> {
    if s == [] then [] else Insert(le, s[0], Sort(le, s[1..]))
  }

  lemma {:induction false} InsertPermutes<T>(le: (T, T) -> bool, x: T, s: seq<T>)
    ensures multiset(Insert(le, x, s)) == multiset{x} + multiset(s)
  {
    if s != [] && !le(x, s[0]) {
      InsertPermutes(le, x, s[1..]);
      assert s == [s[0]] + s[1..];
    }
  }

  lemma {:induction false} SortPermutes<T>(le: (T, T) -> bool, s: seq<T>)
    ensures multiset(Sort(le, s)) == multiset(s)
  {
    if s != [] {
      SortPermutes(le, s[1..]);
      InsertPermutes(le, s[0], Sort(le, s[1..]));
      assert s == [s[0]] + s[1..];
    }
  }

  lemma SameMultisetSameMembers<T>(s: seq<T>, t: seq<T>)
    requires multiset(s) == multiset(t)
    ensures |s| == |t|
    ensures forall x :: x in s <==> x in t
  {
    assert |multiset(s)| == |s| && |multiset(t)| == |t|;
    assert forall x :: x in s <==> x in multiset(s);
    assert forall x :: x in t <==> x in multiset(t);
  }

  lemma {:induction false} SortMembers<T>(le: (T, T) -> bool, s: seq<T>)
    ensures |Sort(le, s)| == |s|
    ensures forall x :: x in Sort(le, s) <==> x in s
  {
    SortPermutes(le, s);
    SameMultisetSameMembers(Sort(le, s), s);
  }

  function Without<T>(s: seq<T>, i: nat): seq<T>
    requires i < |s|
  {
    s[..i] + s[i + 1..]
  }

  lemma {:induction false} FilterWithout<T>(s: seq<T>, i: nat, p: T -> bool)
    requires i < |s|
    ensures multiset(s) == multiset{s[i]} + multiset(Without(s, i))
    ensures multiset(Filter(s, p)) == multiset(Filter([s[i]], p)) + multiset(Filter(Without(s, i), p))
  {
    var tail := [s[i]] + s[i + 1..];
    assert s == s[..i] + tail;
    FilterAppend(s[..i], tail, p);
    FilterAppend([s[i]], s[i + 1..], p);
    FilterAppend(s[..i], s[i + 1..], p);
  }

  lemma Cancel<T>(x: multiset<T>, a: multiset<T>, b: multiset<T>)
    requires x + a == x + b
    ensures a == b
  {
    assert a == (x + a) - x && b == (x + b) - x;
  }

  lemma {:induction false} FilterPermutes<T>(s: seq<T>, t: seq<T>, p: T -> bool)
    requires multiset(s) == multiset(t)
    ensures multiset(Filter(s, p)) == multiset(Filter(t, p))
  {
    SameMultisetSameMembers(s, t);
    if s != [] {
      assert s[0] in t;
      var i :| 0 <= i < |t| && t[i] == s[0];
      var a, b := Without(s, 0), Without(t, i);
      FilterWithout(t, i, p);
      FilterWithout(s, 0, p);
      Cancel(multiset{s[0]}, multiset(a), multiset(b));
      FilterPermutes(a, b, p);
    }
  }

  lemma {:induction false} InsertSorted<T(!new)>(le: (T, T) -> bool, x: T, s: seq<T>)
    requires TotalPreorder(le) && Sorted(le, s)
    ensures Sorted(le, Insert(le, x, s))
  {
    if s != [] && !le(x, s[0]) {
      InsertSorted(le, x, s[1..]);
      InsertPermutes(le, x, s[1..]);
      var t := Insert(le, x, s[1..]);
      forall y | y in t ensures le(s[0], y) {
        assert y in multiset(t);
        assert y in multiset{x} + multiset(s[1..]);
      }
      assert Insert(le, x, s) == [s[0]] + t;
    }
  }

  lemma {:induction false} SortSorted<T(!new)>(le: (T, T) -> bool, s: seq<T>)
    requires TotalPreorder(le)
    ensures Sorted(le, Sort(le, s))
  {
    if s != [] {
      SortSorted(le, s[1..]);
      InsertSorted(le, s[0], Sort(le, s[1..]));
    }
  }

  /** Comparisons that agree on the elements sort them alike. */
  lemma {:induction false} SortAgrees<T(!new)>(le: (T, T) -> bool, other: (T, T) -> bool, s: seq<T>)
    requires forall x, y :: x in s && y in s ==> le(x, y) == other(x, y)
    ensures Sort(le, s) == Sort(other, s)
  {
    if s != [] {
      SortAgrees(le, other, s[1..]);
      SortMembers(other, s[1..]);
      InsertAgrees(le, other, s[0], Sort(other, s[1..]));
    }
  }

  lemma {:induction false} InsertAgrees<T(!new)>(le: (T, T) -> bool, other: (T, T) -> bool, x: T, s: seq<T>)
    requires forall y :: y in s ==> le(x, y) == other(x, y)
    ensures Insert(le, x, s) == Insert(other, x, s)
  {
    if s != [] {
      assert s[0] in s;
      InsertAgrees(le, other, x, s[1..]);
    }
  }

  function Ties<T>(le: (T, T) -> bool, k: T): T -> bool {
    x => le(x, k) && le(k, x)
  }

  /** Elements that compare equal keep their order. */
  lemma {:induction false} SortStable<T(!new)>(le: (T, T) -> bool, s: seq<T>, k: T)
    requires TotalPreorder(le)
    ensures Filter(Sort(le, s), Ties(le, k)) == Filter(s, Ties(le, k))
  {
    if s != [] {
      SortStable(le, s[1..], k);
      SortSorted(le, s[1..]);
      InsertStable(le, s[0], Sort(le, s[1..]), k);
    }
  }

  lemma {:induction false} InsertStable<T(!new)>(le: (T, T) -> bool, x: T, s: seq<T>, k: T)
    requires TotalPreorder(le) && Sorted(le, s)
    ensures Filter(Insert(le, x, s), Ties(le, k)) == (if Ties(le, k)(x) then [x] else []) + Filter(s, Ties(le, k))
  {
    var same := Ties(le, k);
    if s != [] && !le(x, s[0]) {
      InsertStable(le, x, s[1..], k);
      var t := Insert(le, x, s[1..]);
      assert Insert(le, x, s) == [s[0]] + t;
      assert ([s[0]] + t)[1..] == t;
      assert !(same(x) && same(s[0]));
    } else {
      assert ([x] + s)[1..] == s;
    }
  }

  ghost predicate Antisymmetric<T(!new)>(le: (T, T) -> bool) {
    forall x, y :: le(x, y) && le(y, x) ==> x == y
  }

  ghost predicate NoTies<T>(le: (T, T) -> bool, s: seq<T>) {
    forall x, y :: x in s && y in s && le(x, y) && le(y, x) ==> x == y
  }

  /** A sorted listing of a given multiset is unique when ties are equal elements. */
  lemma {:induction false} SortedUnique<T(!new)>(le: (T, T) -> bool, s: seq<T>, t: seq<T>)
    requires TotalPreorder(le) && NoTies(le, s)
    requires Sorted(le, s) && Sorted(le, t) && multiset(s) == multiset(t)
    ensures s == t
  {
    SameMultisetSameMembers(s, t);
    if s != [] {
      SortedHead(le, s, t[0]);
      SortedHead(le, t, s[0]);
      RestOfMultiset(s);
      RestOfMultiset(t);
      SortedUnique(le, s[1..], t[1..]);
    }
  }

  lemma SortedHead<T(!new)>(le: (T, T) -> bool, s: seq<T>, x: T)
    requires TotalPreorder(le) && Sorted(le, s) && x in s
    ensures le(s[0], x)
  {
  }

  lemma RestOfMultiset<T>(s: seq<T>)
    requires s != []
    ensures s == [s[0]] + s[1..]
    ensures multiset(s[1..]) == multiset(s) - multiset{s[0]}
  {
    assert s == [s[0]] + s[1..];
  }

  lemma {:induction false} NoDupFromMultiset<T>(s: seq<T>)
    requires forall x :: x in s ==> multiset(s)[x] == 1
    ensures NoDup(s)
  {
    forall i, j | 0 <= i < j < |s| ensures s[i] != s[j] {
      assert s == s[..j] + s[j..];
      assert s[j..] == [s[j]] + s[j + 1..];
      assert s[i] in s[..j];
      assert multiset(s)[s[i]] == multiset(s[..j])[s[i]] + multiset(s[j..])[s[i]] == 1;
      assert multiset(s[..j])[s[i]] >= 1 && multiset(s[j..])[s[j]] >= 1;
    }
  }

  lemma {:induction false} NoDupMultiset<T>(s: seq<T>)
    requires NoDup(s)
    ensures forall x :: x in s ==> multiset(s)[x] == 1
  {
    if s != [] {
      NoDupMultiset(s[1..]);
      assert s == [s[0]] + s[1..];
      assert s[0] !in s[1..];
    }
  }

  lemma {:induction false} NoDupPermutation<T>(s: seq<T>, t: seq<T>)
    requires multiset(s) == multiset(t) && NoDup(s)
    ensures NoDup(t)
  {
    NoDupMultiset(s);
    SameMultisetSameMembers(s, t);
    NoDupFromMultiset(t);
  }

  /** Code-point order on strings, as Rust's `Ord for str`. */
  predicate LexLe(a: string, b: string) {
    a == [] || (b != [] && (a[0] < b[0] || (a[0] == b[0] && LexLe(a[1..], b[1..]))))
  }

  lemma {:induction false} LexTotal(a: string, b: string)
    ensures LexLe(a, b) || LexLe(b, a)
    ensures LexLe(a, b) && LexLe(b, a) ==> a == b
  {
    if a != [] && b != [] && a[0] == b[0] {
      LexTotal(a[1..], b[1..]);
      assert a == [a[0]] + a[1..] && b == [b[0]] + b[1..];
    }
  }

  lemma {:induction false} LexTransitive(a: string, b: string, c: string)
    requires LexLe(a, b) && LexLe(b, c)
    ensures LexLe(a, c)
  {
    if a != [] && a[0] == b[0] && b[0] == c[0] {
      LexTransitive(a[1..], b[1..], c[1..]);
    }
  }

  lemma LexIsTotalOrder()
    ensures TotalPreorder(LexLe) && Antisymmetric(LexLe)
  {
    forall x, y ensures LexLe(x, y) || LexLe(y, x) { LexTotal(x, y); }
    forall x, y | LexLe(x, y) && LexLe(y, x) ensures x == y { LexTotal(x, y); }
    forall x, y, z | LexLe(x, y) && LexLe(y, z) ensures LexLe(x, z) { LexTransitive(x, y, z); }
  }

  /** Element-by-element order on sequences, a proper prefix first: Rust's `Ord for Vec`. */
  predicate SeqLe<T(==)>(le: (T, T) -> bool, a: seq<T>, b: seq<T>) {
    a == [] || (b != [] && if a[0] == b[0] then SeqLe(le, a[1..], b[1..]) else le(a[0], b[0]))
  }

  lemma {:induction false} SeqTotal<T(!new)>(le: (T, T) -> bool, a: seq<T>, b: seq<T>)
    requires TotalPreorder(le) && Antisymmetric(le)
    ensures SeqLe(le, a, b) || SeqLe(le, b, a)
    ensures SeqLe(le, a, b) && SeqLe(le, b, a) ==> a == b
  {
    if a != [] && b != [] && a[0] == b[0] {
      SeqTotal(le, a[1..], b[1..]);
      assert a == [a[0]] + a[1..] && b == [b[0]] + b[1..];
    }
  }

  lemma {:induction false} SeqTransitive<T(!new)>(le: (T, T) -> bool, a: seq<T>, b: seq<T>, c: seq<T>)
    requires TotalPreorder(le) && Antisymmetric(le)
    requires SeqLe(le, a, b) && SeqLe(le, b, c)
    ensures SeqLe(le, a, c)
  {
    if a != [] && a[0] == b[0] && b[0] == c[0] {
      SeqTransitive(le, a[1..], b[1..], c[1..]);
    }
  }
}
