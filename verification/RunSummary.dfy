/** Grouping graded runs per model and arm for the report card
    (gridseak-cli/src/audit.rs, `summarize`). */
module RunSummary {
  import opened Basics
  import opened Sorting

  datatype Run = Run(model: string, arm: string, pass: bool, flagged: bool, error: bool,
                     seconds: real, cost: Option<real>, tokens: Option<nat>)

  /** The `BTreeMap` key: model, plain arm first, then the arm's name. */
  datatype Key = Key(model: string, order: nat, arm: string)

  datatype ArmSummary = ArmSummary(model: string, arm: string, runs: nat, pass: nat, silent: nat, flagged: nat,
                                   errors: nat, minutes: real, cost: real, tokens: nat)

  function KeyOf(r: Run, auditModel: string): Key {
    Key(if r.model == "" then auditModel else r.model, if r.arm == "plain" then 0 else 1, r.arm)
  }

  predicate KeyLe(a: Key, b: Key) {
    LexLe(a.model, b.model) &&
    (a.model == b.model ==> a.order <= b.order && (a.order == b.order ==> LexLe(a.arm, b.arm)))
  }

  lemma KeyLeOrders()
    ensures TotalPreorder(KeyLe) && Antisymmetric(KeyLe)
  {
    LexIsTotalOrder();
    forall a, b, c | KeyLe(a, b) && KeyLe(b, c) ensures KeyLe(a, c) {
      LexTransitive(a.model, b.model, c.model);
      if a.model == c.model && a.order == c.order {
        LexTotal(a.model, b.model);
        LexTransitive(a.arm, b.arm, c.arm);
      }
    }
  }

  function Group(runs: seq<Run>, auditModel: string, k: Key): seq<Run> {
    Filter(runs, r => KeyOf(r, auditModel) == k)
  }

  predicate Silent(r: Run) { !r.pass && !r.error && !r.flagged }

  predicate Flagged(r: Run) { !r.pass && !r.error && r.flagged }

  /** A run the source would count both as a pass and as an error. */
  predicate PassedWithError(r: Run) { r.pass && r.error }

  function Count(runs: seq<Run>, p: Run -> bool): nat {
    |Filter(runs, p)|
  }

  function Minutes(r: Run): real { r.seconds / 60.0 }

  function CostOf(r: Run): real { if r.cost.Some? then r.cost.value else 0.0 }

  function TokensOf(r: Run): nat { if r.tokens.Some? then r.tokens.value else 0 }

  function RealSum<T>(s: seq<T>, weight: T -> real): real {
    if s == [] then 0.0 else weight(s[0]) + RealSum(s[1..], weight)
  }

  function NatSum<T>(s: seq<T>, weight: T -> nat): nat {
    if s == [] then 0 else weight(s[0]) + NatSum(s[1..], weight)
  }

  function SummaryOf(k: Key, runs: seq<Run>): ArmSummary {
    ArmSummary(k.model, k.arm, |runs|,
               Count(runs, (r: Run) => r.pass), Count(runs, Silent), Count(runs, Flagged),
               Count(runs, (r: Run) => r.error),
               RealSum(runs, (r: Run) => r.seconds) / 60.0, RealSum(runs, CostOf), NatSum(runs, TokensOf))
  }

  lemma {:induction false} GroupAppend(runs: seq<Run>, r: Run, auditModel: string, k: Key)
    ensures Group(runs + [r], auditModel, k) ==
      Group(runs, auditModel, k) + (if KeyOf(r, auditModel) == k then [r] else [])
  {
    FilterAppend(runs, [r], x => KeyOf(x, auditModel) == k);
  }

  ghost predicate Grouped(table: map<Key, seq<Run>>, runs: seq<Run>, auditModel: string) {
    forall k :: Group(runs, auditModel, k) == (if k in table then table[k] else []) && (k in table ==> table[k] != [])
  }

  method GroupRuns(runs: seq<Run>, auditModel: string) returns (table: map<Key, seq<Run>>)
    ensures Grouped(table, runs, auditModel)
  {
    table := map[];
    for i := 0 to |runs|
      invariant Grouped(table, runs[..i], auditModel)
    {
      var k := KeyOf(runs[i], auditModel);
      assert runs[..i + 1] == runs[..i] + [runs[i]];
      forall x { GroupAppend(runs[..i], runs[i], auditModel, x); }
      table := table[k := (if k in table then table[k] else []) + [runs[i]]];
    }
    assert runs[..|runs|] == runs;
  }

  /** One row per key, in key order, each summing up exactly that key's runs. */
  ghost predicate Rows(keys: seq<Key>, out: seq<ArmSummary>, runs: seq<Run>, auditModel: string) {
    && |out| == |keys| && NoDup(keys) && Sorted(KeyLe, keys)
    && (forall r :: r in runs ==> KeyOf(r, auditModel) in keys)
    && (forall i :: 0 <= i < |keys| ==>
      Group(runs, auditModel, keys[i]) != [] && out[i] == SummaryOf(keys[i], Group(runs, auditModel, keys[i])))
  }

  method SortedKeys(keys: set<Key>) returns (s: seq<Key>)
    ensures NoDup(s) && Sorted(KeyLe, s) && Elements(s) == keys
  {
    s := Enumerate(keys);
    KeyLeOrders();
    SortSorted(KeyLe, s);
    SortPermutes(KeyLe, s);
    SortMembers(KeyLe, s);
    NoDupPermutation(s, Sort(KeyLe, s));
    assert Elements(Sort(KeyLe, s)) == Elements(s);
    s := Sort(KeyLe, s);
  }

  lemma {:induction false} RunInGroup(runs: seq<Run>, r: Run, auditModel: string)
    requires r in runs
    ensures r in Group(runs, auditModel, KeyOf(r, auditModel))
  {
    FilterMember(runs, x => KeyOf(x, auditModel) == KeyOf(r, auditModel));
  }

  method Summarize(runs: seq<Run>, auditModel: string) returns (out: seq<ArmSummary>)
    ensures exists keys :: Rows(keys, out, runs, auditModel)
  {
    var table := GroupRuns(runs, auditModel);
    var ks := SortedKeys(table.Keys);
    forall r | r in runs ensures KeyOf(r, auditModel) in ks {
      RunInGroup(runs, r, auditModel);
      assert Group(runs, auditModel, KeyOf(r, auditModel)) != [];
      assert KeyOf(r, auditModel) in Elements(ks);
    }
    assert forall i :: 0 <= i < |ks| ==> ks[i] in Elements(ks);
    out := seq(|ks|, i requires 0 <= i < |ks| => SummaryOf(ks[i], table[ks[i]]));
    assert Rows(ks, out, runs, auditModel);
  }

  // ----- nothing is lost or counted twice -----

  /** Runs under one of `keys`, in order. */
  function Under(runs: seq<Run>, auditModel: string, keys: seq<Key>): seq<Run> {
    Filter(runs, r => KeyOf(r, auditModel) in keys)
  }

  lemma {:induction false} SplitOffKey(runs: seq<Run>, auditModel: string, keys: seq<Key>, k: Key, w: Run -> real,
          v: Run -> nat)
    requires k !in keys
    ensures RealSum(Under(runs, auditModel, [k] + keys), w) ==
      RealSum(Group(runs, auditModel, k), w) + RealSum(Under(runs, auditModel, keys), w)
    ensures NatSum(Under(runs, auditModel, [k] + keys), v) ==
      NatSum(Group(runs, auditModel, k), v) + NatSum(Under(runs, auditModel, keys), v)
  {
    if runs != [] {
      SplitOffKey(runs[1..], auditModel, keys, k, w, v);
      assert KeyOf(runs[0], auditModel) in [k] + keys <==>
        KeyOf(runs[0], auditModel) == k || KeyOf(runs[0], auditModel) in keys;
    }
  }

  /** What the groups of `keys` add up to, one after the other. */
  function GroupedReal(runs: seq<Run>, auditModel: string, keys: seq<Key>, w: Run -> real): real {
    RealSum(keys, k => RealSum(Group(runs, auditModel, k), w))
  }

  function GroupedNat(runs: seq<Run>, auditModel: string, keys: seq<Key>, v: Run -> nat): nat {
    NatSum(keys, k => NatSum(Group(runs, auditModel, k), v))
  }

  lemma {:induction false} GroupsCover(runs: seq<Run>, auditModel: string, keys: seq<Key>, w: Run -> real,
          v: Run -> nat)
    requires NoDup(keys)
    ensures GroupedReal(runs, auditModel, keys, w) == RealSum(Under(runs, auditModel, keys), w)
    ensures GroupedNat(runs, auditModel, keys, v) == NatSum(Under(runs, auditModel, keys), v)
  {
    if keys == [] {
      FilterNone(runs, r => KeyOf(r, auditModel) in keys);
    } else {
      GroupsCover(runs, auditModel, keys[1..], w, v);
      assert keys[0] !in keys[1..] && keys == [keys[0]] + keys[1..];
      SplitOffKey(runs, auditModel, keys[1..], keys[0], w, v);
    }
  }

  lemma {:induction false} FilterAll<T>(s: seq<T>, p: T -> bool)
    requires forall x :: x in s ==> p(x)
    ensures Filter(s, p) == s
  {
    if s != [] {
      FilterAll(s[1..], p);
      assert s[0] in s;
    }
  }

  /** A column of the rows is the weight of each row's group. */
  lemma {:induction false} Column(keys: seq<Key>, out: seq<ArmSummary>, runs: seq<Run>, auditModel: string,
          col: ArmSummary -> real, w: Run -> real, num: ArmSummary -> nat, v: Run -> nat)
    requires |out| == |keys|
    requires forall i :: 0 <= i < |keys| ==> col(out[i]) == RealSum(Group(runs, auditModel, keys[i]), w)
    requires forall i :: 0 <= i < |keys| ==> num(out[i]) == NatSum(Group(runs, auditModel, keys[i]), v)
    ensures RealSum(out, col) == GroupedReal(runs, auditModel, keys, w)
    ensures NatSum(out, num) == GroupedNat(runs, auditModel, keys, v)
  {
    if keys != [] {
      Column(keys[1..], out[1..], runs, auditModel, col, w, num, v);
    }
  }

  lemma {:induction false} EachOnce(runs: seq<Run>)
    ensures NatSum(runs, (r: Run) => 1) == |runs|
  {
    if runs != [] { EachOnce(runs[1..]); }
  }

  lemma {:induction false} MinutesAre(runs: seq<Run>)
    ensures RealSum(runs, (r: Run) => r.seconds) / 60.0 == RealSum(runs, Minutes)
  {
    if runs != [] { MinutesAre(runs[1..]); }
  }

  /** Every run is in exactly one row, and with it its time, cost and tokens. */
  lemma {:induction false} EveryRunCounted(keys: seq<Key>, out: seq<ArmSummary>, runs: seq<Run>, auditModel: string)
    requires Rows(keys, out, runs, auditModel)
    ensures NatSum(out, (s: ArmSummary) => s.runs) == |runs|
    ensures NatSum(out, (s: ArmSummary) => s.tokens) == NatSum(runs, TokensOf)
    ensures RealSum(out, (s: ArmSummary) => s.minutes) == RealSum(runs, Minutes)
    ensures RealSum(out, (s: ArmSummary) => s.cost) == RealSum(runs, CostOf)
  {
    forall i | 0 <= i < |keys|
      ensures out[i].runs == NatSum(Group(runs, auditModel, keys[i]), (r: Run) => 1)
      ensures out[i].minutes == RealSum(Group(runs, auditModel, keys[i]), Minutes)
    {
      EachOnce(Group(runs, auditModel, keys[i]));
      MinutesAre(Group(runs, auditModel, keys[i]));
    }
    Column(keys, out, runs, auditModel, (s: ArmSummary) => s.minutes, Minutes, (s: ArmSummary) => s.runs,
      (r: Run) => 1);
    Column(keys, out, runs, auditModel, (s: ArmSummary) => s.cost, CostOf, (s: ArmSummary) => s.tokens, TokensOf);
    GroupsCover(runs, auditModel, keys, Minutes, (r: Run) => 1);
    GroupsCover(runs, auditModel, keys, CostOf, TokensOf);
    FilterAll(runs, r => KeyOf(r, auditModel) in keys);
    EachOnce(runs);
  }

  /** The four outcomes count every run once, and once more each run that passed with an error:
      they add up exactly when no passing run carries one. */
  lemma {:induction false} OutcomesPartition(k: Key, runs: seq<Run>)
    ensures var s := SummaryOf(k, runs);
      s.pass + s.silent + s.flagged + s.errors == s.runs + Count(runs, PassedWithError)
    ensures var s := SummaryOf(k, runs);
      s.pass + s.silent + s.flagged + s.errors == s.runs <==> forall r :: r in runs ==> !PassedWithError(r)
  {
    if runs != [] {
      OutcomesPartition(k, runs[1..]);
      assert runs == [runs[0]] + runs[1..];
    }
  }
}
