/** The column-preserving masking lexer of the deletion check
    (gridseak-cli/src/pr_check.rs, `code_only` and `is_fstring_prefix`). */
module MaskLexer {
  import opened Basics

  /** Unicode character classes, whatever their tables say. */
  datatype Unicode = Unicode(alphabetic: char -> bool, alphanumeric: char -> bool, whitespace: char -> bool)

  /** What can stay open from one line to the next. */
  datatype Block = Comment | TripleDouble | TripleSingle

  function Close(b: Block): (s: string)
    ensures 2 <= |s| <= 3 && '\n' !in s
  {
    match b
    case Comment => "*/"
    case TripleDouble => "\"\"\""
    case TripleSingle => "'''"
  }

  predicate At(s: string, i: nat, pat: string) {
    i + |pat| <= |s| && s[i..i + |pat|] == pat
  }

  predicate NextIs(s: string, i: nat, c: char) {
    i + 1 < |s| && s[i + 1] == c
  }

  /** The maximal alphabetic run that ends `s`. */
  function AlphaTail(u: Unicode, s: string): string {
    if s == [] || !u.alphabetic(s[|s| - 1]) then [] else AlphaTail(u, s[..|s| - 1]) + [s[|s| - 1]]
  }

  /** Whether what stands right before a quote makes it a Python f-string. */
  predicate FStringPrefix(u: Unicode, s: string) {
    var p := AlphaTail(u, s);
    |p| <= 2 && ('f' in p || 'F' in p) && forall i :: 0 <= i < |p| ==> p[i] in "fFrR"
  }

  predicate IsQuote(c: char) {
    c == '"' || c == '\'' || c == '`'
  }

  // ----- the reference: one character at a time -----

  /** Where a character-by-character reader stands. */
  datatype Mode =
    | Code
    | LineComment
    | In(block: Block)
    | Str(quote: char, fstring: bool, escaped: bool)
    | Expr(quote: char, fstring: bool, escaped: bool, depth: nat)
    | Skip(n: nat, then_: Mode)

  datatype StepResult = StepResult(mode: Mode, out: char)

  function CodeStep(u: Unicode, s: string, i: nat): StepResult
    requires i < |s|
  {
    var c := s[i];
    if c == '#' || At(s, i, "//") then StepResult(LineComment, ' ')
    else if At(s, i, "/*") then StepResult(Skip(1, In(Comment)), ' ')
    else if At(s, i, "\"\"\"") || At(s, i, "'''") then
      StepResult(Skip(2, In(if c == '"' then TripleDouble else TripleSingle)), ' ')
    else if IsQuote(c) then StepResult(Str(c, c != '`' && FStringPrefix(u, s[..i]), false), ' ')
    else StepResult(Code, c)
  }

  function StrStep(s: string, i: nat, q: char, f: bool, escaped: bool): StepResult
    requires i < |s|
  {
    var d := s[i];
    if f && d == '{' && NextIs(s, i, '{') then StepResult(Skip(1, Str(q, f, escaped)), ' ')
    else if q == '`' && !escaped && d == '$' && NextIs(s, i, '{') then StepResult(Skip(1, Expr(q, f, escaped, 1)), ' ')
    else if f && d == '{' then StepResult(Expr(q, f, escaped, 1), ' ')
    else if escaped then StepResult(Str(q, f, false), ' ')
    else if d == '\\' then StepResult(Str(q, f, true), ' ')
    else if d == q then StepResult(Code, ' ')
    else StepResult(Str(q, f, false), ' ')
  }

  function ExprStep(c: char, q: char, f: bool, escaped: bool, depth: nat): StepResult {
    if c == '{' then StepResult(Expr(q, f, escaped, depth + 1), c)
    else if c == '}' && depth <= 1 then StepResult(Str(q, f, escaped), ' ')
    else if c == '}' then StepResult(Expr(q, f, escaped, depth - 1), c)
    else StepResult(Expr(q, f, escaped, depth), c)
  }

  /** Reads character `i` of `s`: the next mode and the character shown for it. */
  function Step(u: Unicode, s: string, i: nat, m: Mode): StepResult
    requires i < |s|
  {
    match m
    case Code => CodeStep(u, s, i)
    case LineComment => StepResult(LineComment, ' ')
    case In(b) => if At(s, i, Close(b)) then StepResult(Skip(|Close(b)| - 1, Code), ' ') else StepResult(m, ' ')
    case Str(q, f, escaped) => StrStep(s, i, q, f, escaped)
    case Expr(q, f, escaped, depth) => ExprStep(s[i], q, f, escaped, depth)
    case Skip(n, then_) => StepResult(if n <= 1 then then_ else Skip(n - 1, then_), ' ')
  }

  datatype Lexed = Lexed(out: string, end: Mode)

  /** Reads `s` from position `i` to its end. */
  function Lex(u: Unicode, s: string, i: nat, m: Mode): (r: Lexed)
    requires i <= |s|
    ensures |r.out| == |s| - i
    decreases |s| - i
  {
    if i == |s| then Lexed([], m)
    else
      var st := Step(u, s, i, m);
      var rest := Lex(u, s, i + 1, st.mode);
      Lexed([st.out] + rest.out, rest.end)
  }

  function Start(open: Option<Block>): Mode {
    match open case None => Code case Some(b) => In(b)
  }

  function StillOpen(end: Mode): Option<Block> {
    if end.In? then Some(end.block) else None
  }

  /** The masked line and the block left open after it. */
  function Mask(u: Unicode, line: string, open: Option<Block>): (string, Option<Block>) {
    var r := Lex(u, line, 0, Start(open));
    (r.out, StillOpen(r.end))
  }

  // ----- the source's nested loops -----

  function Blanks(n: nat): (s: string)
    ensures |s| == n && forall i :: 0 <= i < n ==> s[i] == ' '
  {
    seq(n, _ => ' ')
  }

  lemma BlanksJoin(n: nat)
    ensures [' '] + Blanks(n) == Blanks(n + 1)
    ensures Blanks(0) == []
  {
  }

  lemma {:induction false} LexSkip(u: Unicode, s: string, i: nat, n: nat, m: Mode)
    requires 1 <= n && i + n <= |s|
    ensures Lex(u, s, i, Skip(n, m)) == Lexed(Blanks(n) + Lex(u, s, i + n, m).out, Lex(u, s, i + n, m).end)
    decreases n
  {
    BlanksJoin(n - 1);
    if n > 1 {
      LexSkip(u, s, i + 1, n - 1, m);
      Assoc([' '], Blanks(n - 1), Lex(u, s, i + n, m).out);
    } else {
      assert Lex(u, s, i, Skip(n, m)).out == [' '] + Lex(u, s, i + 1, m).out;
    }
  }

  lemma {:induction false} LexLineComment(u: Unicode, s: string, i: nat)
    requires i <= |s|
    ensures Lex(u, s, i, LineComment) == Lexed(Blanks(|s| - i), LineComment)
    decreases |s| - i
  {
    if i < |s| {
      LexLineComment(u, s, i + 1);
    }
  }

  /** The loops have written `out` and stand at `i` in mode `m`; the reference would finish the same way. */
  ghost predicate OnTrack(u: Unicode, s: string, goal: Lexed, out: string, i: nat, m: Mode) {
    i <= |s| && |out| == i && var rest := Lex(u, s, i, m); goal == Lexed(out + rest.out, rest.end)
  }

  lemma TrackEnd(u: Unicode, s: string, goal: Lexed, out: string, m: Mode)
    requires OnTrack(u, s, goal, out, |s|, m)
    ensures goal == Lexed(out, m)
  {
    assert out + [] == out;
  }

  /** One plain step keeps the loops on track. */
  lemma {:induction false} TrackStep(u: Unicode, s: string, goal: Lexed, out: string, i: nat, m: Mode)
    requires OnTrack(u, s, goal, out, i, m) && i < |s|
    ensures var st := Step(u, s, i, m); OnTrack(u, s, goal, out + [st.out], i + 1, st.mode)
  {
    var st := Step(u, s, i, m);
    Assoc(out, [st.out], Lex(u, s, i + 1, st.mode).out);
  }

  /** A step that swallows `n` more characters, taken at once. */
  lemma {:induction false} TrackToken(u: Unicode, s: string, goal: Lexed, out: string, i: nat, m: Mode, n: nat,
          next: Mode)
    requires OnTrack(u, s, goal, out, i, m) && 1 <= n && i + 1 + n <= |s|
    requires Step(u, s, i, m) == StepResult(Skip(n, next), ' ')
    ensures OnTrack(u, s, goal, out + Blanks(n + 1), i + n + 1, next)
  {
    TrackStep(u, s, goal, out, i, m);
    LexSkip(u, s, i + 1, n, next);
    Assoc(out + [' '], Blanks(n), Lex(u, s, i + 1 + n, next).out);
    Assoc(out, [' '], Blanks(n));
    BlanksJoin(n);
  }

  /** A line comment, taken to the end of the line at once. */
  lemma {:induction false} TrackComment(u: Unicode, s: string, goal: Lexed, out: string, i: nat)
    requires OnTrack(u, s, goal, out, i, Code) && i < |s|
    requires s[i] == '#' || At(s, i, "//")
    ensures OnTrack(u, s, goal, out + Blanks(|s| - i), |s|, LineComment)
  {
    TrackStep(u, s, goal, out, i, Code);
    LexLineComment(u, s, i + 1);
    Assoc(out, [' '], Blanks(|s| - i - 1));
    BlanksJoin(|s| - i - 1);
  }

  /** An interpolated expression, up to and including its closing brace. */
  method ExprLoop(u: Unicode, s: string, ghost goal: Lexed, out0: string, i0: nat, ghost q: char, ghost f: bool,
          ghost escaped: bool)
    returns (out: string, i: nat, ghost m: Mode)
    requires OnTrack(u, s, goal, out0, i0, Expr(q, f, escaped, 1))
    ensures OnTrack(u, s, goal, out, i, m)
    ensures i >= i0 && (m == Str(q, f, escaped) || (i == |s| && m.Expr?))
  {
    out, i := out0, i0;
    var depth: nat := 1;
    while i < |s|
      invariant i0 <= i <= |s| && depth > 0
      invariant OnTrack(u, s, goal, out, i, Expr(q, f, escaped, depth))
    {
      TrackStep(u, s, goal, out, i, Expr(q, f, escaped, depth));
      if s[i] == '{' {
        depth := depth + 1;
      } else if s[i] == '}' {
        depth := depth - 1;
      }
      if depth == 0 {
        return out + [' '], i + 1, Str(q, f, escaped);
      }
      out := out + [s[i]];
      i := i + 1;
    }
    m := Expr(q, f, escaped, depth);
  }

  /** A string or template literal after its opening quote. */
  method StrLoop(u: Unicode, s: string, ghost goal: Lexed, out0: string, i0: nat, q: char, f: bool)
    returns (out: string, i: nat, ghost m: Mode)
    requires OnTrack(u, s, goal, out0, i0, Str(q, f, false))
    requires f ==> q != '`'
    ensures OnTrack(u, s, goal, out, i, m)
    ensures i >= i0 && (m == Code || (i == |s| && !m.In?))
  {
    out, i, m := out0, i0, Str(q, f, false);
    var escaped := false;
    while i < |s|
      invariant i0 <= i <= |s| && OnTrack(u, s, goal, out, i, m)
      invariant m == Str(q, f, escaped) || (i == |s| && m.Expr?)
    {
      var d := s[i];
      if f && d == '{' && NextIs(s, i, '{') {
        TrackToken(u, s, goal, out, i, m, 1, Str(q, f, escaped));
        out, i := out + Blanks(2), i + 2;
        continue;
      }
      var template := q == '`' && !escaped && d == '$' && NextIs(s, i, '{');
      if template || (f && d == '{') {
        if template {
          TrackToken(u, s, goal, out, i, m, 1, Expr(q, f, escaped, 1));
        } else {
          TrackStep(u, s, goal, out, i, m);
          assert Blanks(1) == [' '];
        }
        var skip := if template then 2 else 1;
        out, i, m := ExprLoop(u, s, goal, out + Blanks(skip), i + skip, q, f, escaped);
        continue;
      }
      TrackStep(u, s, goal, out, i, m);
      out := out + [' '];
      i := i + 1;
      if escaped {
        escaped := false;
      } else if d == '\\' {
        escaped := true;
      } else if d == q {
        return out, i, Code;
      }
      m := Str(q, f, escaped);
    }
  }

  /** Inside a block: past its close, or past one character. */
  method BlockStep(u: Unicode, line: string, ghost goal: Lexed, out0: string, i0: nat, b: Block)
    returns (out: string, i: nat, open: Option<Block>)
    requires i0 < |line| && OnTrack(u, line, goal, out0, i0, In(b))
    ensures i0 < i <= |line| && OnTrack(u, line, goal, out, i, Start(open))
    ensures StillOpen(Start(open)) == open
  {
    var close := Close(b);
    if At(line, i0, close) {
      TrackToken(u, line, goal, out0, i0, In(b), |close| - 1, Code);
      out, i, open := out0 + Blanks(|close|), i0 + |close|, None;
    } else {
      TrackStep(u, line, goal, out0, i0, In(b));
      out, i, open := out0 + [' '], i0 + 1, Some(b);
    }
  }

  predicate OpensBlock(line: string, i: nat) {
    At(line, i, "/*") || At(line, i, "\"\"\"") || At(line, i, "'''")
  }

  /** Past what opens a block comment or a triple-quoted string. */
  method OpenBlock(u: Unicode, line: string, ghost goal: Lexed, out0: string, i0: nat)
    returns (out: string, i: nat, open: Option<Block>)
    requires i0 < |line| && OnTrack(u, line, goal, out0, i0, Code)
    requires OpensBlock(line, i0) && line[i0] != '#' && !At(line, i0, "//")
    ensures i0 < i <= |line| && OnTrack(u, line, goal, out, i, Start(open))
    ensures StillOpen(Start(open)) == open
  {
    if At(line, i0, "/*") {
      TrackToken(u, line, goal, out0, i0, Code, 1, In(Comment));
      out, i, open := out0 + Blanks(2), i0 + 2, Some(Comment);
    } else {
      var b := if line[i0] == '"' then TripleDouble else TripleSingle;
      TrackToken(u, line, goal, out0, i0, Code, 2, In(b));
      out, i, open := out0 + Blanks(3), i0 + 3, Some(b);
    }
  }

  lemma TrackStart(u: Unicode, s: string, m: Mode)
    ensures OnTrack(u, s, Lex(u, s, 0, m), [], 0, m)
  {
    assert [] + Lex(u, s, 0, m).out == Lex(u, s, 0, m).out;
  }

  lemma StepInCode(u: Unicode, line: string, i: nat)
    requires i < |line| && line[i] != '#' && !At(line, i, "//") && !OpensBlock(line, i)
    ensures var c := line[i];
      Step(u, line, i, Code) ==
        if IsQuote(c) then StepResult(Str(c, c != '`' && FStringPrefix(u, line[..i]), false), ' ')
        else StepResult(Code, c)
  {
  }

  /** The code on one line, comments and literal text replaced by spaces; `open` carries a
      block comment or triple-quoted string over from the lines before. */
  method CodeOnly(u: Unicode, line: string, open: Option<Block>) returns (out: string, open': Option<Block>)
    ensures (out, open') == Mask(u, line, open)
  {
    hide Step, Lex, OnTrack, At, OpensBlock, FStringPrefix;
    var i := 0;
    out, open' := [], open;
    ghost var goal, m := Lex(u, line, 0, Start(open)), Start(open);
    TrackStart(u, line, Start(open));
    while i < |line|
      invariant i <= |line| && OnTrack(u, line, goal, out, i, m)
      invariant i == |line| || m == Start(open')
      invariant StillOpen(m) == open'
      decreases |line| - i
    {
      if open'.Some? {
        out, i, open' := BlockStep(u, line, goal, out, i, open'.value);
        m := Start(open');
        continue;
      }
      var c := line[i];
      if c == '#' || At(line, i, "//") {
        TrackComment(u, line, goal, out, i);
        out, i, m := out + Blanks(|line| - i), |line|, LineComment;
        break;
      }
      if OpensBlock(line, i) {
        out, i, open' := OpenBlock(u, line, goal, out, i);
        m := Start(open');
        continue;
      }
      TrackStep(u, line, goal, out, i, m);
      StepInCode(u, line, i);
      if IsQuote(c) {
        var f := c != '`' && FStringPrefix(u, line[..i]);
        out, i, m := StrLoop(u, line, goal, out + [' '], i + 1, c, f);
        continue;
      }
      out, i := out + [c], i + 1;
    }
    TrackEnd(u, line, goal, out, m);
  }
}
