/** What the masking lexer promises: columns line up, only code survives, and reading line by
    line is reading the whole file. */
module MaskLaws {
  import opened Basics
  import opened MaskLexer

  // ----- columns and visibility -----

  /** The mode in which character `k` of `s` is read. */
  function ModeAt(u: Unicode, s: string, i: nat, m: Mode, k: nat): Mode
    requires i <= k <= |s|
    decreases k - i
  {
    if i == k then m else ModeAt(u, s, i + 1, Step(u, s, i, m).mode, k)
  }

  lemma StepShows(u: Unicode, s: string, i: nat, m: Mode)
    requires i < |s|
    ensures Step(u, s, i, m).out == s[i] || Step(u, s, i, m).out == ' '
    ensures Step(u, s, i, m).out != ' ' ==> m.Code? || m.Expr?
  {
  }

  /** Every column shows its source character or a space, and only code and interpolated
      expressions show anything. */
  lemma {:induction false} ColumnsLineUp(u: Unicode, s: string, i: nat, m: Mode, k: nat)
    requires i <= k < |s|
    ensures var shown := Lex(u, s, i, m).out[k - i];
      && (shown == s[k] || shown == ' ')
      && (shown != ' ' ==> ModeAt(u, s, i, m, k).Code? || ModeAt(u, s, i, m, k).Expr?)
    decreases k - i
  {
    if i == k {
      StepShows(u, s, i, m);
    } else {
      ColumnsLineUp(u, s, i + 1, Step(u, s, i, m).mode, k);
    }
  }

  // ----- what each kind of token becomes -----

  predicate PlainChar(c: char) {
    c != '#' && c != '/' && !IsQuote(c)
  }

  lemma PlainStep(u: Unicode, s: string, i: nat)
    requires i < |s| && PlainChar(s[i])
    ensures Step(u, s, i, Code) == StepResult(Code, s[i])
  {
  }

  /** Text without comment or quote characters is shown as it stands. */
  lemma {:induction false} PlainCode(u: Unicode, s: string, i: nat, j: nat)
    requires i <= j <= |s| && forall k :: i <= k < j ==> PlainChar(s[k])
    ensures Lex(u, s, i, Code) == Lexed(s[i..j] + Lex(u, s, j, Code).out, Lex(u, s, j, Code).end)
    decreases j - i
  {
    if i == j {
      assert s[i..j] == [];
    } else {
      PlainCode(u, s, i + 1, j);
      PlainStep(u, s, i);
      assert Lex(u, s, i, Code).out == [s[i]] + Lex(u, s, i + 1, Code).out;
      hide Lex;
      assert s[i..j] == [s[i]] + s[i + 1..j];
      Assoc([s[i]], s[i + 1..j], Lex(u, s, j, Code).out);
    }
  }

  lemma {:induction false} CloseHere(u: Unicode, s: string, i: nat, b: Block)
    requires At(s, i, Close(b))
    ensures var after := i + |Close(b)|;
      Lex(u, s, i, In(b)) == Lexed(Blanks(|Close(b)|) + Lex(u, s, after, Code).out, Lex(u, s, after, Code).end)
  {
    var n := |Close(b)|;
    assert Step(u, s, i, In(b)) == StepResult(Skip(n - 1, Code), ' ');
    LexSkip(u, s, i + 1, n - 1, Code);
    Assoc([' '], Blanks(n - 1), Lex(u, s, i + n, Code).out);
    BlanksJoin(n - 1);
  }

  /** An open block hides everything up to and including its first close, after which code resumes. */
  lemma {:induction false} BlockCloses(u: Unicode, s: string, i: nat, b: Block, j: nat)
    requires i <= j && At(s, j, Close(b)) && forall k: nat :: i <= k < j ==> !At(s, k, Close(b))
    ensures var after := j + |Close(b)|;
      Lex(u, s, i, In(b)) == Lexed(Blanks(after - i) + Lex(u, s, after, Code).out, Lex(u, s, after, Code).end)
    decreases j - i
  {
    if i == j {
      CloseHere(u, s, i, b);
    } else {
      var n := j + |Close(b)| - i - 1;
      BlockCloses(u, s, i + 1, b, j);
      assert Step(u, s, i, In(b)) == StepResult(In(b), ' ');
      Assoc([' '], Blanks(n), Lex(u, s, j + |Close(b)|, Code).out);
      BlanksJoin(n);
    }
  }

  /** A block that is never closed hides the rest of the line and stays open. */
  lemma {:induction false} BlockStaysOpen(u: Unicode, s: string, i: nat, b: Block)
    requires i <= |s| && forall k: nat :: i <= k ==> !At(s, k, Close(b))
    ensures Lex(u, s, i, In(b)) == Lexed(Blanks(|s| - i), In(b))
    decreases |s| - i
  {
    if i < |s| {
      BlockStaysOpen(u, s, i + 1, b);
      BlanksJoin(|s| - i - 1);
    }
  }

  /** Whether character `k` of a literal is escaped, reading from `i` on with `escaped` before it. */
  predicate EscapedAt(s: string, i: nat, escaped: bool, k: nat)
    requires i <= k <= |s|
    decreases k
  {
    if i == k then escaped else !EscapedAt(s, i, escaped, k - 1) && s[k - 1] == '\\'
  }

  /** An expression opens here: `{` in an f-string, an unescaped `${` in a template. */
  predicate Opens(s: string, k: nat, q: char, f: bool, escaped: bool)
    requires k < |s|
  {
    (f && s[k] == '{') || (q == '`' && !escaped && s[k] == '$' && NextIs(s, k, '{'))
  }

  /** No character of `s[i..j]` ends the literal or opens an expression. */
  predicate LiteralText(s: string, i: nat, q: char, f: bool, escaped: bool, j: nat)
    requires i <= j <= |s|
  {
    forall k :: i <= k < j ==>
      (s[k] == q ==> EscapedAt(s, i, escaped, k)) && !Opens(s, k, q, f, EscapedAt(s, i, escaped, k))
  }

  lemma {:induction false} EscapedNext(s: string, i: nat, escaped: bool, k: nat)
    requires i < k <= |s|
    ensures EscapedAt(s, i, escaped, k) == EscapedAt(s, i + 1, !escaped && s[i] == '\\', k)
    decreases k
  {
    if i + 1 < k { EscapedNext(s, i, escaped, k - 1); }
  }

  /** Literal text is hidden, each backslash escaping what follows it unless it is escaped itself. */
  lemma {:induction false} LiteralHidden(u: Unicode, s: string, i: nat, q: char, f: bool, escaped: bool, j: nat)
    requires i <= j <= |s| && q != '\\' && LiteralText(s, i, q, f, escaped, j)
    ensures var after := Lex(u, s, j, Str(q, f, EscapedAt(s, i, escaped, j)));
      Lex(u, s, i, Str(q, f, escaped)) == Lexed(Blanks(j - i) + after.out, after.end)
    decreases j - i
  {
    var rest := Lex(u, s, j, Str(q, f, EscapedAt(s, i, escaped, j))).out;
    if i == j {
      assert Blanks(0) + rest == rest;
    } else {
      var e := !escaped && s[i] == '\\';
      forall k | i < k <= j ensures EscapedAt(s, i, escaped, k) == EscapedAt(s, i + 1, e, k) {
        EscapedNext(s, i, escaped, k);
      }
      assert EscapedAt(s, i, escaped, i) == escaped;
      assert Step(u, s, i, Str(q, f, escaped)) == StepResult(Str(q, f, e), ' ');
      LiteralHidden(u, s, i + 1, q, f, e, j);
      Assoc([' '], Blanks(j - i - 1), rest);
      BlanksJoin(j - i - 1);
    }
  }

  /** A literal closes at its first quote that is not escaped: everything up to it is hidden, then code resumes. */
  lemma {:induction false} LiteralCloses(u: Unicode, s: string, i: nat, q: char, f: bool, escaped: bool, j: nat)
    requires i <= j < |s| && IsQuote(q) && s[j] == q && !EscapedAt(s, i, escaped, j)
    requires LiteralText(s, i, q, f, escaped, j)
    ensures Lex(u, s, i, Str(q, f, escaped)) ==
      Lexed(Blanks(j + 1 - i) + Lex(u, s, j + 1, Code).out, Lex(u, s, j + 1, Code).end)
  {
    LiteralHidden(u, s, i, q, f, escaped, j);
    assert Step(u, s, j, Str(q, f, false)) == StepResult(Code, ' ');
    Assoc(Blanks(j - i), [' '], Lex(u, s, j + 1, Code).out);
    BlanksJoin(j - i);
    BlanksEnd(j - i);
  }

  lemma BlanksEnd(n: nat)
    ensures Blanks(n) + [' '] == Blanks(n + 1)
  {
  }

  /** A doubled brace in an f-string is text: both characters are hidden and the literal goes on as it was. */
  lemma {:induction false} DoubledBraceHidden(u: Unicode, s: string, i: nat, q: char, escaped: bool)
    requires i + 1 < |s| && s[i] == '{' && s[i + 1] == '{'
    ensures var after := Lex(u, s, i + 2, Str(q, true, escaped));
      Lex(u, s, i, Str(q, true, escaped)) == Lexed(Blanks(2) + after.out, after.end)
  {
    LexSkip(u, s, i + 1, 1, Str(q, true, escaped));
    Assoc([' '], Blanks(1), Lex(u, s, i + 2, Str(q, true, escaped)).out);
    BlanksJoin(1);
  }

  /** Braces open from `i` to `j`, starting from `depth`. */
  function DepthAt(s: string, i: nat, depth: int, j: nat): int
    requires i <= j <= |s|
    decreases j
  {
    if i == j then depth
    else DepthAt(s, i, depth, j - 1) + (if s[j - 1] == '{' then 1 else if s[j - 1] == '}' then -1 else 0)
  }

  lemma {:induction false} DepthNext(s: string, i: nat, depth: int, j: nat)
    requires i < j <= |s|
    ensures DepthAt(s, i, depth, j) ==
      DepthAt(s, i + 1, depth + (if s[i] == '{' then 1 else if s[i] == '}' then -1 else 0), j)
    decreases j
  {
    if i + 1 < j { DepthNext(s, i, depth, j - 1); }
  }

  /** `j` is the brace that closes an expression entered at `i` with `depth` braces open. */
  predicate ClosesExpression(s: string, i: nat, depth: nat, j: nat)
    requires i <= j < |s|
  {
    && s[j] == '}' && DepthAt(s, i, depth, j) == 1
    && forall k :: i <= k < j && s[k] == '}' ==> DepthAt(s, i, depth, k) > 1
  }

  lemma ShownFrom(s: string, i: nat, j: nat, rest: string)
    requires i < j <= |s|
    ensures s[i..j] + [' '] + rest == [s[i]] + (s[i + 1..j] + [' '] + rest)
  {
    assert s[i..j] == [s[i]] + s[i + 1..j];
  }

  /** An interpolated expression is shown up to the brace that balances its opening one, inner braces included; that
      brace is hidden, and the literal resumes exactly as it was left. */
  lemma {:induction false} ExpressionShown(u: Unicode, s: string, i: nat, q: char, f: bool, escaped: bool, depth: nat,
          j: nat)
    requires i <= j < |s| && depth >= 1 && ClosesExpression(s, i, depth, j)
    ensures var after := Lex(u, s, j + 1, Str(q, f, escaped));
      Lex(u, s, i, Expr(q, f, escaped, depth)) == Lexed(s[i..j] + [' '] + after.out, after.end)
    decreases j - i
  {
    var rest := Lex(u, s, j + 1, Str(q, f, escaped)).out;
    if i == j {
      assert s[i..j] + [' '] + rest == [' '] + rest;
    } else {
      assert s[i] == '}' ==> DepthAt(s, i, depth, i) > 1;
      var d: nat := if s[i] == '{' then depth + 1 else if s[i] == '}' then depth - 1 else depth;
      forall k | i < k <= j ensures DepthAt(s, i, depth, k) == DepthAt(s, i + 1, d, k) {
        DepthNext(s, i, depth, k);
      }
      assert Step(u, s, i, Expr(q, f, escaped, depth)) == StepResult(Expr(q, f, escaped, d), s[i]);
      ExpressionShown(u, s, i + 1, q, f, escaped, d, j);
      ShownFrom(s, i, j, rest);
    }
  }

  /** An expression whose braces never balance is shown to the end of the line. */
  lemma {:induction false} ExpressionRunsOn(u: Unicode, s: string, i: nat, q: char, f: bool, escaped: bool, depth: nat)
    requires i <= |s| && depth >= 1 && forall k :: i <= k < |s| && s[k] == '}' ==> DepthAt(s, i, depth, k) > 1
    ensures Lex(u, s, i, Expr(q, f, escaped, depth)).out == s[i..] && Lex(u, s, i, Expr(q, f, escaped, depth)).end.Expr?
    decreases |s| - i
  {
    if i < |s| {
      assert s[i] == '}' ==> DepthAt(s, i, depth, i) > 1;
      var d: nat := if s[i] == '{' then depth + 1 else if s[i] == '}' then depth - 1 else depth;
      forall k | i < k < |s| ensures DepthAt(s, i, depth, k) == DepthAt(s, i + 1, d, k) {
        DepthNext(s, i, depth, k);
      }
      ExpressionRunsOn(u, s, i + 1, q, f, escaped, d);
      assert s[i..] == [s[i]] + s[i + 1..];
    }
  }

  /** What opens an expression is hidden, and one brace is open after it. */
  lemma {:induction false} ExpressionOpens(u: Unicode, s: string, i: nat, q: char, f: bool, escaped: bool)
    requires i < |s| && Opens(s, i, q, f, escaped) && !(f && s[i] == '{' && NextIs(s, i, '{')) && !(f && q == '`')
    ensures var n: nat := if q == '`' then 2 else 1;
      var after := Lex(u, s, i + n, Expr(q, f, escaped, 1));
      Lex(u, s, i, Str(q, f, escaped)) == Lexed(Blanks(n) + after.out, after.end)
  {
    if q == '`' {
      LexSkip(u, s, i + 1, 1, Expr(q, f, escaped, 1));
      Assoc([' '], Blanks(1), Lex(u, s, i + 2, Expr(q, f, escaped, 1)).out);
      BlanksJoin(1);
    } else {
      BlanksJoin(0);
      assert [' '] + Blanks(0) == [' '];
    }
  }

  // ----- line by line is the whole file -----

  function AtNewline(m: Mode): Mode {
    if m.In? then m else Code
  }

  /** The same reader let loose on a whole text: a line break ends everything but open blocks. */
  function LexText(u: Unicode, t: string, i: nat, m: Mode): (r: Lexed)
    requires i <= |t|
    ensures |r.out| == |t| - i
    decreases |t| - i
  {
    if i == |t| then Lexed([], m)
    else
      var st := if t[i] == '\n' then StepResult(AtNewline(m), '\n') else Step(u, t, i, m);
      var rest := LexText(u, t, i + 1, st.mode);
      Lexed([st.out] + rest.out, rest.end)
  }

  function Join(lines: seq<string>): string {
    if lines == [] then []
    else if |lines| == 1 then lines[0]
    else lines[0] + ['\n'] + Join(lines[1..])
  }

  /** The source's line loop: mask each line with the block the previous ones left open. */
  function MaskLines(u: Unicode, lines: seq<string>, open: Option<Block>): (r: seq<string>)
    ensures |r| == |lines|
  {
    if lines == [] then []
    else
      var (out, open') := Mask(u, lines[0], open);
      [out] + MaskLines(u, lines[1..], open')
  }

  /** `line` occupies `t[p..p + |line|]`, alone on its line. */
  ghost predicate LineIn(t: string, p: nat, line: string) {
    && p + |line| <= |t| && t[p..p + |line|] == line
    && '\n' !in line
    && (p == 0 || t[p - 1] == '\n')
    && (p + |line| == |t| || t[p + |line|] == '\n')
  }

  lemma SliceOfSlice<T>(t: seq<T>, p: nat, n: nat, a: nat, b: nat)
    requires p + n <= |t| && a <= b <= n
    ensures t[p..p + n][a..b] == t[p + a..p + b]
  {
    var x, y := t[p..p + n][a..b], t[p + a..p + b];
    assert |x| == |y|;
    forall k | 0 <= k < |x| ensures x[k] == y[k] {
      assert t[p..p + n][a + k] == t[p + (a + k)];
    }
  }

  lemma {:induction false} SamePattern(t: string, p: nat, line: string, i: nat, pat: string)
    requires LineIn(t, p, line) && i <= |line| && '\n' !in pat
    ensures At(t, p + i, pat) <==> At(line, i, pat)
  {
    if i + |pat| <= |line| {
      SliceOfSlice(t, p, |line|, i, i + |pat|);
    } else if p + i + |pat| <= |t| {
      assert t[p + i..p + i + |pat|][|line| - i] == t[p + |line|] == '\n';
    }
  }

  lemma {:induction false} SameTail(u: Unicode, t: string, p: nat, line: string, i: nat)
    requires LineIn(t, p, line) && i <= |line| && !u.alphabetic('\n')
    ensures AlphaTail(u, t[..p + i]) == AlphaTail(u, line[..i])
    decreases i
  {
    var a, b := t[..p + i], line[..i];
    if i == 0 {
      if p > 0 { assert a[|a| - 1] == '\n'; }
    } else {
      SameTail(u, t, p, line, i - 1);
      assert a[|a| - 1] == t[p + i - 1] == t[p..p + |line|][i - 1] == b[|b| - 1];
      assert a[..|a| - 1] == t[..p + (i - 1)] && b[..|b| - 1] == line[..i - 1];
    }
  }

  lemma {:induction false} SameStep(u: Unicode, t: string, p: nat, line: string, i: nat, m: Mode)
    requires LineIn(t, p, line) && i < |line| && !u.alphabetic('\n')
    ensures t[p + i] == line[i] != '\n'
    ensures Step(u, t, p + i, m) == Step(u, line, i, m)
  {
    assert t[p + i] == t[p..p + |line|][i];
    assert NextIs(t, p + i, '{') <==> NextIs(line, i, '{') by {
      if i + 1 < |line| { assert t[p + i + 1] == t[p..p + |line|][i + 1]; }
    }
    SamePattern(t, p, line, i, "//");
    SamePattern(t, p, line, i, "/*");
    SamePattern(t, p, line, i, "\"\"\"");
    SamePattern(t, p, line, i, "'''");
    if m.In? { SamePattern(t, p, line, i, Close(m.block)); }
    SameTail(u, t, p, line, i);
  }

  /** Across one line the whole-text reader does what the line reader does. */
  lemma {:induction false} LexTextLine(u: Unicode, t: string, p: nat, line: string, i: nat, m: Mode)
    requires LineIn(t, p, line) && i <= |line| && !u.alphabetic('\n')
    ensures var here := Lex(u, line, i, m);
      var after := LexText(u, t, p + |line|, here.end);
      LexText(u, t, p + i, m) == Lexed(here.out + after.out, after.end)
    decreases |line| - i
  {
    if i == |line| {
      assert [] + LexText(u, t, p + i, m).out == LexText(u, t, p + i, m).out;
    } else {
      SameStep(u, t, p, line, i, m);
      var st := Step(u, line, i, m);
      LexTextLine(u, t, p, line, i + 1, st.mode);
      var here := Lex(u, line, i + 1, st.mode);
      Assoc([st.out], here.out, LexText(u, t, p + |line|, here.end).out);
    }
  }

  predicate OneLine(line: string) {
    '\n' !in line
  }

  ghost predicate LinesFrom(t: string, p: nat, lines: seq<string>) {
    && lines != [] && (forall i :: 0 <= i < |lines| ==> OneLine(lines[i]))
    && p <= |t| && t[p..] == Join(lines) && (p == 0 || t[p - 1] == '\n')
  }

  lemma {:induction false} FirstLine(t: string, p: nat, lines: seq<string>)
    requires LinesFrom(t, p, lines)
    ensures LineIn(t, p, lines[0])
    ensures |lines| == 1 ==> p + |lines[0]| == |t|
    ensures |lines| > 1 ==>
      p + |lines[0]| < |t| && t[p + |lines[0]|] == '\n' && LinesFrom(t, p + |lines[0]| + 1, lines[1..])
  {
    var line := lines[0];
    var tail := t[p..];
    assert tail == if |lines| == 1 then line else line + ['\n'] + Join(lines[1..]);
    assert tail[..|line|] == line;
    assert t[p..p + |line|] == tail[..|line|];
    if |lines| > 1 {
      assert tail[|line|] == '\n' && tail[|line| + 1..] == Join(lines[1..]);
      assert t[p + |line| + 1..] == tail[|line| + 1..];
    }
  }

  lemma NewlineNext(u: Unicode, t: string, q: nat, m: Mode)
    requires q < |t| && t[q] == '\n'
    ensures LexText(u, t, q, m).out == ['\n'] + LexText(u, t, q + 1, Start(StillOpen(m))).out
  {
  }

  lemma MaskOneLine(u: Unicode, lines: seq<string>, open: Option<Block>)
    requires |lines| == 1
    ensures Join(MaskLines(u, lines, open)) == Lex(u, lines[0], 0, Start(open)).out
  {
    assert lines[1..] == [];
    assert MaskLines(u, lines, open) == [Lex(u, lines[0], 0, Start(open)).out];
  }

  /** The whole-text reader over a first line and whatever follows it. */
  lemma LexFirstLine(u: Unicode, t: string, p: nat, line: string, m: Mode)
    requires LineIn(t, p, line) && !u.alphabetic('\n')
    ensures var here, q := Lex(u, line, 0, m), p + |line|;
      LexText(u, t, p, m).out == if q == |t| then here.out else here.out + LexText(u, t, q, here.end).out
  {
    LexTextLine(u, t, p, line, 0, m);
    var here := Lex(u, line, 0, m);
    assert here.out + [] == here.out;
  }

  ghost predicate ReadsAs(u: Unicode, t: string, p: nat, m: Mode, shown: string) {
    p <= |t| && LexText(u, t, p, m).out == shown
  }

  ghost predicate MasksAs(u: Unicode, lines: seq<string>, open: Option<Block>, shown: string) {
    Join(MaskLines(u, lines, open)) == shown
  }

  lemma ReadsMore(u: Unicode, t: string, p: nat, line: string, m: Mode, here: Lexed, rest: string)
    requires LineIn(t, p, line) && !u.alphabetic('\n') && here == Lex(u, line, 0, m)
    requires p + |line| < |t| && t[p + |line|] == '\n'
    requires ReadsAs(u, t, p + |line| + 1, Start(StillOpen(here.end)), rest)
    ensures ReadsAs(u, t, p, m, here.out + (['\n'] + rest))
  {
    hide Step, Lex, LexText;
    LexFirstLine(u, t, p, line, m);
    NewlineNext(u, t, p + |line|, here.end);
  }

  lemma MasksMore(u: Unicode, lines: seq<string>, open: Option<Block>, here: Lexed, rest: string)
    requires |lines| > 1 && here == Lex(u, lines[0], 0, Start(open))
    requires MasksAs(u, lines[1..], StillOpen(here.end), rest)
    ensures MasksAs(u, lines, open, here.out + (['\n'] + rest))
  {
    var tail := MaskLines(u, lines[1..], StillOpen(here.end));
    assert MaskLines(u, lines, open) == [here.out] + tail;
    assert ([here.out] + tail)[1..] == tail;
    Assoc(here.out, ['\n'], Join(tail));
  }

  lemma LexLastLine(u: Unicode, t: string, p: nat, lines: seq<string>, open: Option<Block>)
    requires |lines| == 1 && LineIn(t, p, lines[0]) && !u.alphabetic('\n') && p + |lines[0]| == |t|
    ensures ReadsAs(u, t, p, Start(open), Lex(u, lines[0], 0, Start(open)).out)
    ensures MasksAs(u, lines, open, Lex(u, lines[0], 0, Start(open)).out)
  {
    LexFirstLine(u, t, p, lines[0], Start(open));
    MaskOneLine(u, lines, open);
  }

  lemma {:induction false} LexTextLines(u: Unicode, t: string, p: nat, lines: seq<string>, open: Option<Block>)
    returns (shown: string)
    requires LinesFrom(t, p, lines) && !u.alphabetic('\n')
    ensures ReadsAs(u, t, p, Start(open), shown) && MasksAs(u, lines, open, shown)
    decreases |lines|
  {
    hide Step, Lex, LexText;
    FirstLine(t, p, lines);
    var here := Lex(u, lines[0], 0, Start(open));
    if |lines| == 1 {
      LexLastLine(u, t, p, lines, open);
      shown := here.out;
    } else {
      var rest := LexTextLines(u, t, p + |lines[0]| + 1, lines[1..], StillOpen(here.end));
      ReadsMore(u, t, p, lines[0], Start(open), here, rest);
      MasksMore(u, lines, open, here, rest);
      shown := here.out + (['\n'] + rest);
    }
  }

  /** Masking a text line by line, with the open block threaded through, is masking the whole text. */
  lemma {:induction false} LinewiseIsWhole(u: Unicode, lines: seq<string>)
    requires lines != [] && (forall i :: 0 <= i < |lines| ==> OneLine(lines[i])) && !u.alphabetic('\n')
    ensures Join(MaskLines(u, lines, None)) == LexText(u, Join(lines), 0, Code).out
  {
    assert Join(lines)[0..] == Join(lines);
    var shown := LexTextLines(u, Join(lines), 0, lines, None);
  }
}
