/** Where code on a node's lines names an identifier
    (gridseak-cli/src/pr_check.rs, `word_columns` and `mentions`). */
module Mentions {
  import opened Basics
  import opened MaskLexer
  import MaskLaws

  datatype Mention = Mention(line: nat, col: nat, attribute: bool)

  predicate IdentChar(u: Unicode, c: char) {
    u.alphanumeric(c) || c == '_' || c == '$'
  }

  /** `word` stands at column `i` of `hay` with no identifier character on either side. */
  predicate WordAt(u: Unicode, hay: string, word: string, i: nat) {
    && word != [] && At(hay, i, word)
    && !(i > 0 && IdentChar(u, hay[i - 1]))
    && !(i + |word| < |hay| && IdentChar(u, hay[i + |word|]))
  }

  /** The columns from `i` on at which `word` appears as a whole identifier, left to right. */
  function Columns(u: Unicode, hay: string, word: string, i: nat): (cols: seq<nat>)
    ensures forall k: nat :: k in cols <==> i <= k && WordAt(u, hay, word, k)
    decreases |hay| + 1 - i
  {
    if i > |hay| then [] else (if WordAt(u, hay, word, i) then [i] else []) + Columns(u, hay, word, i + 1)
  }

  ghost predicate Increasing(s: seq<nat>) {
    forall a, b :: 0 <= a < b < |s| ==> s[a] < s[b]
  }

  lemma {:induction false} ColumnsIncrease(u: Unicode, hay: string, word: string, i: nat)
    ensures Increasing(Columns(u, hay, word, i))
    decreases |hay| + 1 - i
  {
    if i <= |hay| {
      ColumnsIncrease(u, hay, word, i + 1);
      var rest := Columns(u, hay, word, i + 1);
      var cols := Columns(u, hay, word, i);
      forall k | 0 <= k < |rest| ensures rest[k] > i {
        var c: nat := rest[k];
        assert c in rest;
      }
      assert cols == (if WordAt(u, hay, word, i) then [i] else []) + rest;
    }
  }

  lemma {:induction false} NoColumnsPast(u: Unicode, hay: string, word: string, i: nat)
    requires i + |word| > |hay| || word == []
    ensures Columns(u, hay, word, i) == []
    decreases |hay| + 1 - i
  {
    if i <= |hay| { NoColumnsPast(u, hay, word, i + 1); }
  }

  lemma ColumnsNext(u: Unicode, hay: string, word: string, cols: seq<nat>, i: nat)
    requires i <= |hay|
    ensures cols + Columns(u, hay, word, i) ==
      (if WordAt(u, hay, word, i) then cols + [i] else cols) + Columns(u, hay, word, i + 1)
  {
    Assoc(cols, if WordAt(u, hay, word, i) then [i] else [], Columns(u, hay, word, i + 1));
    assert cols + [] == cols;
  }

  method WordColumns(u: Unicode, hay: string, word: string) returns (cols: seq<nat>)
    ensures cols == Columns(u, hay, word, 0)
  {
    cols := [];
    if word == [] || |hay| < |word| {
      NoColumnsPast(u, hay, word, 0);
      return;
    }
    for i := 0 to |hay| - |word| + 1
      invariant Columns(u, hay, word, 0) == cols + Columns(u, hay, word, i)
    {
      ColumnsNext(u, hay, word, cols, i);
      if hay[i..i + |word|] == word
        && !(i > 0 && IdentChar(u, hay[i - 1]))
        && !(i + |word| < |hay| && IdentChar(u, hay[i + |word|]))
      {
        cols := cols + [i];
      }
    }
    NoColumnsPast(u, hay, word, |hay| - |word| + 1);
  }

  /** The last character of `before` that is not whitespace is a dot. */
  function AfterDot(u: Unicode, before: string): bool {
    before != [] &&
    (if u.whitespace(before[|before| - 1]) then AfterDot(u, before[..|before| - 1]) else before[|before| - 1] == '.')
  }

  /** The node's own lines, masked from its first line on. */
  function NodeLines(u: Unicode, lines: seq<string>, start: nat): seq<string> {
    MaskLaws.MaskLines(u, if start <= |lines| then lines[start..] else [], None)
  }

  function LineMentions(u: Unicode, code: string, cols: seq<nat>, line: nat): seq<Mention>
    requires forall k :: 0 <= k < |cols| ==> cols[k] <= |code|
  {
    seq(|cols|, k requires 0 <= k < |cols| => Mention(line, cols[k], AfterDot(u, code[..cols[k]])))
  }

  lemma ColumnsInLine(u: Unicode, code: string, ident: string)
    ensures forall k :: 0 <= k < |Columns(u, code, ident, 0)| ==> Columns(u, code, ident, 0)[k] <= |code|
  {
    forall k | 0 <= k < |Columns(u, code, ident, 0)| ensures Columns(u, code, ident, 0)[k] <= |code| {
      assert Columns(u, code, ident, 0)[k] in Columns(u, code, ident, 0);
    }
  }

  /** The mentions on masked lines numbered from `first`, none past `last`. */
  function MentionsOn(u: Unicode, masked: seq<string>, first: nat, last: nat, ident: string): seq<Mention> {
    if masked == [] || first > last then []
    else
      ColumnsInLine(u, masked[0], ident);
      LineMentions(u, masked[0], Columns(u, masked[0], ident, 0), first)
      + MentionsOn(u, masked[1..], first + 1, last, ident)
  }

  /** Every place inside the node whose code names `ident`; line numbers start at 1. */
  function MentionsIn(u: Unicode, lines: seq<string>, start: nat, last: nat, ident: string): seq<Mention> {
    var first := if start < 1 then 1 else start;
    MentionsOn(u, NodeLines(u, lines, first - 1), first, last, ident)
  }

  method FindMentions(u: Unicode, lines: seq<string>, start: nat, last: nat, ident: string) returns (ms: seq<Mention>)
    ensures ms == MentionsIn(u, lines, start, last, ident)
  {
    var line := if start < 1 then 1 else start;
    ghost var masked := NodeLines(u, lines, line - 1);
    ghost var all := MentionsIn(u, lines, start, last, ident);
    ms := [];
    var open: Option<Block> := None;
    while line <= last && line - 1 < |lines|
      invariant line >= 1
      invariant masked == MaskLaws.MaskLines(u, if line - 1 <= |lines| then lines[line - 1..] else [], open)
      invariant all == ms + MentionsOn(u, masked, line, last, ident)
      decreases |lines| + 1 - line
    {
      var code, open' := CodeOnly(u, lines[line - 1], open);
      assert lines[line - 1..][0] == lines[line - 1] && lines[line - 1..][1..] == lines[line..];
      var cols := WordColumns(u, code, ident);
      ColumnsInLine(u, code, ident);
      assert masked[0] == code;
      Assoc(ms, LineMentions(u, code, cols, line), MentionsOn(u, masked[1..], line + 1, last, ident));
      ms := ms + LineMentions(u, code, cols, line);
      masked := masked[1..];
      open, line := open', line + 1;
    }
    assert ms + [] == ms;
  }

  /** `m` names `ident` on one of the masked lines numbered `first..=last`. */
  ghost predicate Names(u: Unicode, masked: seq<string>, first: nat, last: nat, ident: string, m: Mention) {
    && first <= m.line <= last && m.line - first < |masked|
    && WordAt(u, masked[m.line - first], ident, m.col)
    && m.attribute == AfterDot(u, masked[m.line - first][..m.col])
  }

  predicate Earlier(a: Mention, b: Mention) {
    a.line < b.line || (a.line == b.line && a.col < b.col)
  }

  lemma {:induction false} LineMentionsExact(u: Unicode, code: string, ident: string, line: nat)
    requires forall k :: 0 <= k < |Columns(u, code, ident, 0)| ==> Columns(u, code, ident, 0)[k] <= |code|
    ensures var ms := LineMentions(u, code, Columns(u, code, ident, 0), line);
      && (forall m :: m in ms <==>
            m.line == line && WordAt(u, code, ident, m.col) && m.attribute == AfterDot(u, code[..m.col]))
      && InOrder(ms)
  {
    var cols := Columns(u, code, ident, 0);
    var ms := LineMentions(u, code, cols, line);
    ColumnsIncrease(u, code, ident, 0);
    assert forall k :: 0 <= k < |cols| ==> cols[k] in cols;
    forall m: Mention | m.line == line && WordAt(u, code, ident, m.col) && m.attribute == AfterDot(u, code[..m.col])
      ensures m in ms
    {
      var k :| 0 <= k < |cols| && cols[k] == m.col;
      assert ms[k] == m;
    }
  }

  ghost predicate InOrder(ms: seq<Mention>) {
    forall a, b :: 0 <= a < b < |ms| ==> Earlier(ms[a], ms[b])
  }

  /** The reported mentions are exactly the whole-word occurrences in code, in source order. */
  lemma {:induction false} MentionsExact(u: Unicode, masked: seq<string>, first: nat, last: nat, ident: string)
    ensures forall m :: m in MentionsOn(u, masked, first, last, ident) <==> Names(u, masked, first, last, ident, m)
    ensures InOrder(MentionsOn(u, masked, first, last, ident))
    decreases |masked|
  {
    if masked != [] && first <= last {
      ColumnsInLine(u, masked[0], ident);
      LineMentionsExact(u, masked[0], ident, first);
      MentionsExact(u, masked[1..], first + 1, last, ident);
      var here := LineMentions(u, masked[0], Columns(u, masked[0], ident, 0), first);
      var rest := MentionsOn(u, masked[1..], first + 1, last, ident);
      forall m
        ensures Names(u, masked, first, last, ident, m) <==>
          m in here || Names(u, masked[1..], first + 1, last, ident, m)
      {
        if m.line > first && m.line - first < |masked| {
          assert masked[m.line - first] == masked[1..][m.line - first - 1];
        }
      }
      forall m, n | m in here && n in rest ensures Earlier(m, n) {
        assert Names(u, masked[1..], first + 1, last, ident, n);
      }
      JoinEarlier(here, rest);
    }
  }

  lemma {:induction false} JoinEarlier(a: seq<Mention>, b: seq<Mention>)
    requires InOrder(a) && InOrder(b)
    requires forall m, n :: m in a && n in b ==> Earlier(m, n)
    ensures InOrder(a + b)
  {
    forall i, j | 0 <= i < j < |a + b| ensures Earlier((a + b)[i], (a + b)[j]) {
      if i < |a| <= j {
        assert a[i] in a && b[j - |a|] in b;
      }
    }
  }

  /** The source line at a mention really spells the identifier there, every character of it read
      as code or as an interpolated expression. */
  lemma {:induction false} MentionIsCode(u: Unicode, line: string, open: Option<Block>, ident: string, col: nat)
    requires ' ' !in ident && WordAt(u, Mask(u, line, open).0, ident, col)
    ensures At(line, col, ident)
    ensures forall k: nat :: col <= k < col + |ident| ==>
      var m := MaskLaws.ModeAt(u, line, 0, Start(open), k); m.Code? || m.Expr?
  {
    var out := Mask(u, line, open).0;
    forall k: nat | col <= k < col + |ident|
      ensures line[k] == ident[k - col]
      ensures var m := MaskLaws.ModeAt(u, line, 0, Start(open), k); m.Code? || m.Expr?
    {
      MaskLaws.ColumnsLineUp(u, line, 0, Start(open), k);
      assert out[k] == out[col..col + |ident|][k - col] == ident[k - col];
      assert ident[k - col] in ident;
    }
    assert line[col..col + |ident|] == ident;
  }

  lemma {:induction false} MaskedLine(u: Unicode, lines: seq<string>, open: Option<Block>, k: nat)
    returns (before: Option<Block>)
    requires k < |lines|
    ensures MaskLaws.MaskLines(u, lines, open)[k] == Mask(u, lines[k], before).0
    decreases k
  {
    if k == 0 {
      before := open;
    } else {
      before := MaskedLine(u, lines[1..], Mask(u, lines[0], open).1, k - 1);
    }
  }

  /** `m` is a whole word in the masked code of the node on lines `start..=last`, and lies in the file. */
  ghost predicate InCode(u: Unicode, lines: seq<string>, start: nat, last: nat, ident: string, m: Mention) {
    var first := if start < 1 then 1 else start;
    Names(u, NodeLines(u, lines, first - 1), first, last, ident, m) && m.line <= |lines|
  }

  lemma {:induction false} ReportedIsInCode(u: Unicode, lines: seq<string>, start: nat, last: nat, ident: string,
          m: Mention)
    ensures m in MentionsIn(u, lines, start, last, ident) <==> InCode(u, lines, start, last, ident, m)
  {
    var first := if start < 1 then 1 else start;
    MentionsExact(u, NodeLines(u, lines, first - 1), first, last, ident);
  }

  /** Whatever is reported, the file's text at that line and column is the identifier itself. */
  lemma {:induction false} ReportedTextIsIdentifier(u: Unicode, lines: seq<string>, start: nat, last: nat,
          ident: string, m: Mention)
    requires ' ' !in ident && m in MentionsIn(u, lines, start, last, ident)
    ensures start <= m.line <= last && 1 <= m.line <= |lines| && At(lines[m.line - 1], m.col, ident)
  {
    var first := if start < 1 then 1 else start;
    var masked := NodeLines(u, lines, first - 1);
    MentionsExact(u, masked, first, last, ident);
    assert Names(u, masked, first, last, ident, m);
    var own := if first - 1 <= |lines| then lines[first - 1..] else [];
    var open := MaskedLine(u, own, None, m.line - first);
    assert own[m.line - first] == lines[m.line - 1];
    MentionIsCode(u, lines[m.line - 1], open, ident, m.col);
  }
}
