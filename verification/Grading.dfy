/** Grading a reply against an answer key, and grouping graded runs
    (gridseak-cli/src/audit.rs, `grade` and `summarize`). */
module Grading {
  import opened Basics
  import opened Sorting
  import AuditPlanner
  import Decimal
  import Ratios
  import Text

  type Caller = AuditPlanner.Caller
  type Place = (string, nat)

  /** A JSON value in a `line` field. */
  datatype LineField = Number(n: nat) | Quoted(s: string) | Absent

  /** One entry of the reply's `callers` array. */
  datatype Entry = Entry(file: string, line: LineField, name: string)

  datatype Score = Score(pass: bool, recall: real, precision: real, nAnswer: nat, missed: seq<Caller>,
                         extra: seq<Entry>, outOfScope: seq<Entry>, error: bool)

  const U32_LIMIT: nat := 0x1_0000_0000
  const SHOWN: nat := 25

  /** For Go targets, directories the Go tool skips are not graded. */
  predicate OutOfCompilerScope(target: string, file: string) {
    Text.EndsWith(target, ".go") &&
    exists c :: c in Text.Split(file, '/') &&
      (Text.StartsWith(c, "_") || (Text.StartsWith(c, ".") && |c| > 1 && c != "..") || c == "testdata")
  }

  function FileOf(e: Entry): string {
    Text.TrimDotSlash(e.file)
  }

  predicate InScope(target: string, e: Entry) {
    !OutOfCompilerScope(target, FileOf(e))
  }

  /** The line as the source reads it: a 64-bit number or numeral cut to its low 32 bits, else 0. */
  function LineOf(f: LineField): nat {
    match f
    case Number(n) => n % U32_LIMIT
    case Quoted(s) => (match Decimal.ParseU64(s) case Some(n) => n % U32_LIMIT case None => 0)
    case Absent => 0
  }

  function BareName(name: string): string {
    Text.LastSegment(name, '.')
  }

  function ReplyName(name: string): string {
    Text.Trim(BareName(name), c => c in "()* ")
  }

  function PlaceOf(c: Caller): Place {
    (c.file, c.line)
  }

  function Truth(answer: seq<Caller>): set<Place> {
    set c | c in answer :: PlaceOf(c)
  }

  /** The key's places in `file` whose bare name is `bare`, with repeats. */
  function Named(answer: seq<Caller>, file: string, bare: string): seq<Place> {
    if answer == [] then []
    else
      var c := answer[0];
      (if c.file == file && BareName(c.name) == bare then [PlaceOf(c)] else []) + Named(answer[1..], file, bare)
  }

  /** The key place an entry is credited with: its exact place, or the only one of its name in its file. */
  function Match(answer: seq<Caller>, e: Entry): Option<Place> {
    var file, named := FileOf(e), Named(answer, FileOf(e), ReplyName(e.name));
    if (file, LineOf(e.line)) in Truth(answer) then Some((file, LineOf(e.line)))
    else if |named| == 1 then Some(named[0])
    else None
  }

  // ----- what a whole reply is worth -----

  function Got(target: string, answer: seq<Caller>, reply: seq<Entry>): set<Place> {
    set e | e in reply && InScope(target, e) && Match(answer, e).Some? :: Match(answer, e).value
  }

  predicate Unmatched(target: string, answer: seq<Caller>, e: Entry) {
    InScope(target, e) && Match(answer, e).None?
  }

  function Extra(target: string, answer: seq<Caller>, reply: seq<Entry>): seq<Entry> {
    Filter(reply, e => Unmatched(target, answer, e))
  }

  function Skipped(target: string, reply: seq<Entry>): seq<Entry> {
    Filter(reply, e => !InScope(target, e))
  }

  function MissedBy(answer: seq<Caller>, got: set<Place>): seq<Caller> {
    Filter(answer, c => PlaceOf(c) !in got)
  }

  /** Share of `n` key places credited; an empty key is fully recalled. */
  function RecallOf(tp: nat, n: nat): real {
    if n == 0 then 1.0 else tp as real / n as real
  }

  /** Share of the scored answers credited; an empty reply has none. */
  function PrecisionOf(tp: nat, wrong: nat): real {
    if tp + wrong == 0 then 0.0 else tp as real / (tp + wrong) as real
  }

  function Recall(target: string, answer: seq<Caller>, reply: seq<Entry>): real {
    RecallOf(|Got(target, answer, reply)|, |Truth(answer)|)
  }

  function Precision(target: string, answer: seq<Caller>, reply: seq<Entry>): real {
    PrecisionOf(|Got(target, answer, reply)|, |Extra(target, answer, reply)|)
  }

  predicate Passes(recall: real, precision: real) {
    recall >= 0.95 && precision >= 0.9
  }

  function Shown<T>(s: seq<T>): seq<T> {
    if |s| <= SHOWN then s else s[..SHOWN]
  }

  /** The score of a reply, said of the reply as a whole; a reply without JSON is an error. */
  function ScoreOf(target: string, answer: seq<Caller>, reply: Option<seq<Entry>>): Score {
    match reply
    case None => Score(false, 0.0, 0.0, 0, [], [], [], true)
    case Some(r) =>
      var recall, precision := Recall(target, answer, r), Precision(target, answer, r);
      Score(Passes(recall, precision), recall, precision,
            |Got(target, answer, r)| + |Extra(target, answer, r)|,
            Shown(MissedBy(answer, Got(target, answer, r))), Shown(Extra(target, answer, r)), Skipped(target, r), false)
  }

  // ----- grading a reply -----

  /** The by-name table: every (file, bare name) of the key with the places it names. */
  method IndexByName(answer: seq<Caller>) returns (byName: map<(string, string), seq<Place>>)
    ensures forall file, bare ::
      Named(answer, file, bare) == if (file, bare) in byName then byName[(file, bare)] else []
  {
    byName := map[];
    for i := 0 to |answer|
      invariant forall file, bare ::
        Named(answer[..i], file, bare) == if (file, bare) in byName then byName[(file, bare)] else []
    {
      var c := answer[i];
      var key := (c.file, BareName(c.name));
      assert answer[..i + 1] == answer[..i] + [c];
      forall file, bare { NamedAppend(answer[..i], c, file, bare); }
      byName := byName[key := (if key in byName then byName[key] else []) + [PlaceOf(c)]];
    }
    assert answer[..|answer|] == answer;
  }

  lemma {:induction false} NamedAppend(answer: seq<Caller>, c: Caller, file: string, bare: string)
    ensures Named(answer + [c], file, bare) ==
      Named(answer, file, bare) + (if c.file == file && BareName(c.name) == bare then [PlaceOf(c)] else [])
  {
    if answer != [] {
      NamedAppend(answer[1..], c, file, bare);
      assert (answer + [c])[1..] == answer[1..] + [c];
    }
  }

  /** The three bins the loop sorts entries into. */
  datatype Tally = Tally(got: set<Place>, unmatched: seq<Entry>, outOfScope: seq<Entry>)

  ghost predicate Tallied(target: string, answer: seq<Caller>, reply: seq<Entry>, t: Tally) {
    && t.got == Got(target, answer, reply)
    && t.unmatched == Extra(target, answer, reply)
    && t.outOfScope == Skipped(target, reply)
  }

  lemma {:induction false} TallyStep(target: string, answer: seq<Caller>, reply: seq<Entry>, e: Entry)
    ensures Got(target, answer, reply + [e]) == Got(target, answer, reply) +
      (if InScope(target, e) && Match(answer, e).Some? then {Match(answer, e).value} else {})
    ensures Extra(target, answer, reply + [e]) == Extra(target, answer, reply) +
      (if Unmatched(target, answer, e) then [e] else [])
    ensures Skipped(target, reply + [e]) == Skipped(target, reply) + (if InScope(target, e) then [] else [e])
  {
    hide Match, InScope;
    FilterAppend(reply, [e], x => Unmatched(target, answer, x));
    FilterAppend(reply, [e], x => !InScope(target, x));
    assert forall x :: x in reply + [e] <==> x in reply || x == e;
  }

  lemma NothingTallied(target: string, answer: seq<Caller>)
    ensures Tallied(target, answer, [], Tally({}, [], []))
  {
  }

  /** The bin one more entry goes to. */
  lemma {:induction false} TallyNext(target: string, answer: seq<Caller>, reply: seq<Entry>, e: Entry, t: Tally)
    requires Tallied(target, answer, reply, t)
    ensures !InScope(target, e) ==> Tallied(target, answer, reply + [e], t.(outOfScope := t.outOfScope + [e]))
    ensures InScope(target, e) && Match(answer, e).Some? ==>
      Tallied(target, answer, reply + [e], t.(got := t.got + {Match(answer, e).value}))
    ensures Unmatched(target, answer, e) ==> Tallied(target, answer, reply + [e], t.(unmatched := t.unmatched + [e]))
  {
    TallyStep(target, answer, reply, e);
  }

  /** Looks an entry up in the two tables of the key. */
  method MatchEntry(ghost answer: seq<Caller>, truth: set<Place>, byName: map<(string, string), seq<Place>>, e: Entry)
    returns (m: Option<Place>)
    requires truth == Truth(answer)
    requires forall file, bare ::
      Named(answer, file, bare) == if (file, bare) in byName then byName[(file, bare)] else []
    ensures m == Match(answer, e)
  {
    var file := FileOf(e);
    var key := (file, LineOf(e.line));
    var bare := ReplyName(e.name);
    assert Named(answer, file, bare) == if (file, bare) in byName then byName[(file, bare)] else [];
    if key in truth {
      m := Some(key);
    } else if (file, bare) in byName && |byName[(file, bare)]| == 1 {
      m := Some(byName[(file, bare)][0]);
    } else {
      m := None;
    }
  }

  /** Sorts the entries of a reply into credited places, wrong answers and unscored ones. */
  method TallyReply(target: string, answer: seq<Caller>, reply: seq<Entry>) returns (t: Tally)
    ensures Tallied(target, answer, reply, t)
  {
    hide Tallied, Match;
    var truth := Truth(answer);
    var byName := IndexByName(answer);
    t := Tally({}, [], []);
    NothingTallied(target, answer);
    for i := 0 to |reply|
      invariant Tallied(target, answer, reply[..i], t)
    {
      var e := reply[i];
      TallyNext(target, answer, reply[..i], e, t);
      assert reply[..i + 1] == reply[..i] + [e];
      if OutOfCompilerScope(target, FileOf(e)) {
        t := t.(outOfScope := t.outOfScope + [e]);
        continue;
      }
      var m := MatchEntry(answer, truth, byName, e);
      if m.Some? {
        t := t.(got := t.got + {m.value});
      } else {
        t := t.(unmatched := t.unmatched + [e]);
      }
    }
    assert reply[..|reply|] == reply;
  }

  method Grade(target: string, answer: seq<Caller>, reply: Option<seq<Entry>>) returns (s: Score)
    ensures s == ScoreOf(target, answer, reply)
  {
    if reply.None? {
      return Score(false, 0.0, 0.0, 0, [], [], [], true);
    }
    var t := TallyReply(target, answer, reply.value);
    var recall := RecallOf(|t.got|, |Truth(answer)|);
    var precision := PrecisionOf(|t.got|, |t.unmatched|);
    s := Score(Passes(recall, precision), recall, precision, |t.got| + |t.unmatched|,
               Shown(MissedBy(answer, t.got)), Shown(t.unmatched), t.outOfScope, false);
  }

  // ----- what the score promises -----

  lemma {:induction false} NamedInTruth(answer: seq<Caller>, file: string, bare: string)
    ensures forall p :: p in Named(answer, file, bare) ==> p in Truth(answer) && p.0 == file
  {
    if answer != [] {
      NamedInTruth(answer[1..], file, bare);
      assert Truth(answer[1..]) <= Truth(answer);
    }
  }

  lemma {:induction false} MatchInTruth(answer: seq<Caller>, e: Entry)
    ensures Match(answer, e).Some? ==> Match(answer, e).value in Truth(answer) && Match(answer, e).value.0 == FileOf(e)
  {
    NamedInTruth(answer, FileOf(e), ReplyName(e.name));
  }

  lemma {:induction false} GotInTruth(target: string, answer: seq<Caller>, reply: seq<Entry>)
    ensures Got(target, answer, reply) <= Truth(answer)
    ensures |Got(target, answer, reply)| <= |Truth(answer)|
    ensures |Got(target, answer, reply)| == |Truth(answer)| ==> Got(target, answer, reply) == Truth(answer)
  {
    forall e | e in reply && InScope(target, e) && Match(answer, e).Some?
      ensures Match(answer, e).value in Truth(answer)
    {
      MatchInTruth(answer, e);
    }
    SubsetCount(Got(target, answer, reply), Truth(answer));
  }

  /** Credited places come from the key, so both scores stay in [0, 1]. */
  lemma {:induction false} ScoresInUnit(target: string, answer: seq<Caller>, reply: seq<Entry>)
    ensures Got(target, answer, reply) <= Truth(answer)
    ensures 0.0 <= Recall(target, answer, reply) <= 1.0
    ensures 0.0 <= Precision(target, answer, reply) <= 1.0
    ensures Recall(target, answer, reply) == 1.0 <==> Got(target, answer, reply) == Truth(answer)
    ensures Precision(target, answer, reply) == 1.0 <==>
      Got(target, answer, reply) != {} && Extra(target, answer, reply) == []
  {
    GotInTruth(target, answer, reply);
    RatesInUnit(|Got(target, answer, reply)|, |Truth(answer)|, |Extra(target, answer, reply)|);
  }

  lemma RatesInUnit(tp: nat, n: nat, wrong: nat)
    requires tp <= n
    ensures 0.0 <= RecallOf(tp, n) <= 1.0 && (RecallOf(tp, n) == 1.0 <==> tp == n)
    ensures 0.0 <= PrecisionOf(tp, wrong) <= 1.0 && (PrecisionOf(tp, wrong) == 1.0 <==> tp > 0 && wrong == 0)
  {
    if n > 0 { Ratios.InUnit(tp, n); }
    if tp + wrong > 0 { Ratios.InUnit(tp, tp + wrong); }
  }

  /** The order of a reply never changes its score. */
  lemma {:induction false} OrderIrrelevant(target: string, answer: seq<Caller>, a: seq<Entry>, b: seq<Entry>)
    requires multiset(a) == multiset(b)
    ensures Recall(target, answer, a) == Recall(target, answer, b)
    ensures Precision(target, answer, a) == Precision(target, answer, b)
    ensures ScoreOf(target, answer, Some(a)).pass == ScoreOf(target, answer, Some(b)).pass
    ensures ScoreOf(target, answer, Some(a)).missed == ScoreOf(target, answer, Some(b)).missed
  {
    SameMultisetSameMembers(a, b);
    assert Got(target, answer, a) == Got(target, answer, b);
    FilterPermutes(a, b, e => Unmatched(target, answer, e));
    SameMultisetSameMembers(Extra(target, answer, a), Extra(target, answer, b));
  }

  /** One more entry: recall cannot fall, a wrong entry cannot raise precision and a credited
      one cannot lower it; once something is credited, a wrong entry does cost precision. */
  lemma {:induction false} OneMoreEntry(target: string, answer: seq<Caller>, reply: seq<Entry>, e: Entry)
    ensures Recall(target, answer, reply) <= Recall(target, answer, reply + [e])
    ensures Unmatched(target, answer, e) ==>
      && Recall(target, answer, reply + [e]) == Recall(target, answer, reply)
      && Precision(target, answer, reply + [e]) <= Precision(target, answer, reply)
      && (Got(target, answer, reply) != {} ==>
        Precision(target, answer, reply + [e]) < Precision(target, answer, reply))
    ensures !Unmatched(target, answer, e) ==> Precision(target, answer, reply) <= Precision(target, answer, reply + [e])
  {
    TallyStep(target, answer, reply, e);
    var a, b := Got(target, answer, reply), Got(target, answer, reply + [e]);
    SubsetCount(a, b);
    MoreCredit(|a|, |b|, |Truth(answer)|, |Extra(target, answer, reply)|);
    if Unmatched(target, answer, e) {
      assert b == a && |Extra(target, answer, reply + [e])| == |Extra(target, answer, reply)| + 1;
      OneMoreWrong(|a|, |Extra(target, answer, reply)|);
    }
  }

  lemma MoreCredit(a: nat, b: nat, n: nat, wrong: nat)
    requires a <= b
    ensures RecallOf(a, n) <= RecallOf(b, n)
    ensures PrecisionOf(a, wrong) <= PrecisionOf(b, wrong)
  {
    if n > 0 { Ratios.Cross(a, n, b, n); }
    if a + wrong > 0 {
      Ratios.Cross(a, a + wrong, b, b + wrong);
      assert a * (b + wrong) == a * b + a * wrong && b * (a + wrong) == a * b + b * wrong;
    } else if b > 0 {
      Ratios.InUnit(b, b);
    }
  }

  lemma OneMoreWrong(tp: nat, wrong: nat)
    ensures PrecisionOf(tp, wrong + 1) <= PrecisionOf(tp, wrong)
    ensures tp > 0 ==> PrecisionOf(tp, wrong + 1) < PrecisionOf(tp, wrong)
  {
    if tp + wrong > 0 {
      Ratios.Cross(tp, tp + wrong + 1, tp, tp + wrong);
      Ratios.Cross(tp, tp + wrong, tp, tp + wrong + 1);
      assert tp * (tp + wrong + 1) == tp * (tp + wrong) + tp;
    }
  }

  /** Listing a credited place again changes nothing. */
  lemma {:induction false} RepeatIrrelevant(target: string, answer: seq<Caller>, reply: seq<Entry>, e: Entry)
    requires InScope(target, e) && Match(answer, e).Some? && Match(answer, e).value in Got(target, answer, reply)
    ensures Recall(target, answer, reply + [e]) == Recall(target, answer, reply)
    ensures Precision(target, answer, reply + [e]) == Precision(target, answer, reply)
    ensures ScoreOf(target, answer, Some(reply + [e])) == ScoreOf(target, answer, Some(reply))
  {
    TallyStep(target, answer, reply, e);
    assert Got(target, answer, reply + [e]) == Got(target, answer, reply);
  }

  /** A key place that some entry could be credited with by listing it exactly. */
  predicate Reachable(target: string, c: Caller) {
    !OutOfCompilerScope(target, c.file) && !Text.StartsWith(c.file, "./")
  }

  function Listing(answer: seq<Caller>): seq<Entry> {
    seq(|answer|, i requires 0 <= i < |answer| => Entry(answer[i].file, Number(answer[i].line), answer[i].name))
  }

  /** Listing the key itself is credited for exactly its reachable places and never penalised for them. */
  lemma {:induction false} ListingCredited(target: string, answer: seq<Caller>, c: Caller)
    requires c in answer && Reachable(target, c) && c.line < U32_LIMIT
    ensures PlaceOf(c) in Got(target, answer, Listing(answer))
  {
    var i :| 0 <= i < |answer| && answer[i] == c;
    var e := Listing(answer)[i];
    assert FileOf(e) == c.file && e in Listing(answer);
    assert Match(answer, e) == Some(PlaceOf(c));
  }

  /** A perfect recall is possible exactly when every place of the key is reachable, and then
      listing the key scores 1.0 on both counts and passes. */
  lemma {:induction false} PerfectReply(target: string, answer: seq<Caller>)
    requires forall c :: c in answer ==> c.line < U32_LIMIT
    ensures (forall c :: c in answer ==> Reachable(target, c)) <==>
      exists reply :: Recall(target, answer, reply) == 1.0
    ensures answer != [] && (forall c :: c in answer ==> Reachable(target, c)) ==>
      && Recall(target, answer, Listing(answer)) == 1.0
      && Precision(target, answer, Listing(answer)) == 1.0
      && ScoreOf(target, answer, Some(Listing(answer))).pass
  {
    if forall c :: c in answer ==> Reachable(target, c) {
      ReachableKeyScoresFull(target, answer);
    }
    forall reply, c | Recall(target, answer, reply) == 1.0 && c in answer ensures Reachable(target, c) {
      FullRecallNeedsReachable(target, answer, reply, c);
    }
  }

  lemma {:induction false} ReachableKeyScoresFull(target: string, answer: seq<Caller>)
    requires forall c :: c in answer ==> c.line < U32_LIMIT && Reachable(target, c)
    ensures Recall(target, answer, Listing(answer)) == 1.0
    ensures answer != [] ==> Precision(target, answer, Listing(answer)) == 1.0
  {
    var reply := Listing(answer);
    forall c | c in answer ensures PlaceOf(c) in Got(target, answer, reply) { ListingCredited(target, answer, c); }
    assert Truth(answer) <= Got(target, answer, reply);
    ListingHasNoExtra(target, answer);
    ScoresInUnit(target, answer, reply);
    assert answer != [] ==> PlaceOf(answer[0]) in Truth(answer);
  }

  lemma {:induction false} ListingHasNoExtra(target: string, answer: seq<Caller>)
    requires forall c :: c in answer ==> c.line < U32_LIMIT && Reachable(target, c)
    ensures Extra(target, answer, Listing(answer)) == []
  {
    var reply := Listing(answer);
    forall i | 0 <= i < |reply| ensures Match(answer, reply[i]).Some? {
      assert FileOf(reply[i]) == answer[i].file && LineOf(reply[i].line) == answer[i].line;
      assert PlaceOf(answer[i]) in Truth(answer);
    }
    FilterNone(reply, e => Unmatched(target, answer, e));
  }

  lemma {:induction false} FullRecallNeedsReachable(target: string, answer: seq<Caller>, reply: seq<Entry>, c: Caller)
    requires Recall(target, answer, reply) == 1.0 && c in answer
    ensures Reachable(target, c)
  {
    ScoresInUnit(target, answer, reply);
    assert PlaceOf(c) in Truth(answer);
    var e :| e in reply && InScope(target, e) && Match(answer, e) == Some(PlaceOf(c));
    MatchInTruth(answer, e);
  }
}
