/** The fingerprint sidecar's one-line format (graphengine-scip-adapter/src/fingerprint.rs). */
module Sidecar {
  import opened Basics
  import opened Text
  import Decimal

  /** The four text fields of a fingerprint, and when it was generated. */
  datatype Fingerprint = Fingerprint(language: string, version: string, root: string, files: string, secs: nat)

  const FORMAT := "v2"

  function Encode(fp: Fingerprint): string {
    FORMAT + "|" + (fp.language + "|" + (fp.version + "|" +
      (fp.root + "|" + (fp.files + "|" + Decimal.Print(fp.secs)))))
  }

  /** `whitespace` is the Unicode table `trim` consults. */
  function ParseEncoded(whitespace: char -> bool, raw: string): Option<Fingerprint> {
    var parts := Split(Trim(raw, whitespace), '|');
    if |parts| != 6 || parts[0] != FORMAT then None
    else
      match Decimal.ParseU64(parts[5])
      case None => None
      case Some(secs) => Some(Fingerprint(parts[1], parts[2], parts[3], parts[4], secs))
  }

  // ----- splitting and joining -----

  function Join(parts: seq<string>, c: char): string
    requires parts != []
  {
    if |parts| == 1 then parts[0] else parts[0] + [c] + Join(parts[1..], c)
  }

  lemma {:induction false} SplitField(a: string, c: char, rest: string)
    requires c !in a
    ensures Split(a, c) == [a]
    ensures Split(a + [c] + rest, c) == [a] + Split(rest, c)
  {
    var s := a + [c] + rest;
    if a == [] {
      assert s[1..] == rest;
    } else {
      SplitField(a[1..], c, rest);
      assert s[1..] == a[1..] + [c] + rest;
      assert a == [a[0]] + a[1..];
    }
  }

  lemma {:induction false} SplitSound(s: string, c: char)
    ensures s == Join(Split(s, c), c) && forall p :: p in Split(s, c) ==> c !in p
  {
    if s != [] {
      SplitSound(s[1..], c);
      var rest := Split(s[1..], c);
      assert s == [s[0]] + s[1..];
      if s[0] == c {
        assert ([[]] + rest)[1..] == rest;
      } else {
        var all := [[s[0]] + rest[0]] + rest[1..];
        assert all[1..] == rest[1..];
        assert rest == [rest[0]] + rest[1..];
      }
    }
  }

  lemma {:induction false} SplitComplete(parts: seq<string>, c: char)
    requires parts != [] && forall p :: p in parts ==> c !in p
    ensures Split(Join(parts, c), c) == parts
  {
    assert parts[0] in parts;
    if |parts| == 1 {
      SplitField(parts[0], c, "");
    } else {
      SplitComplete(parts[1..], c);
      SplitField(parts[0], c, Join(parts[1..], c));
      assert parts == [parts[0]] + parts[1..];
    }
  }

  /** Splitting gives the one list of separator-free pieces that joins back. */
  lemma {:induction false} SplitInvertsJoin(s: string, c: char, parts: seq<string>)
    requires parts != []
    ensures Split(s, c) == parts <==> s == Join(parts, c) && forall p :: p in parts ==> c !in p
  {
    SplitSound(s, c);
    if s == Join(parts, c) && forall p :: p in parts ==> c !in p { SplitComplete(parts, c); }
  }

  // ----- the round trip -----

  ghost predicate NoBars(fp: Fingerprint) {
    '|' !in fp.language && '|' !in fp.version && '|' !in fp.root && '|' !in fp.files
  }

  /** Letters and digits are not white space. */
  ghost predicate Sane(whitespace: char -> bool) {
    !whitespace('v') && forall c :: Decimal.IsDigit(c) ==> !whitespace(c)
  }

  function Line(fp: Fingerprint, secs: string): string {
    Join([FORMAT, fp.language, fp.version, fp.root, fp.files, secs], '|')
  }

  /** A line parses exactly when, trimmed, it is the six bar-free fields in order, the last a number. */
  lemma {:induction false} ParsesExactly(whitespace: char -> bool, raw: string, fp: Fingerprint)
    ensures ParseEncoded(whitespace, raw) == Some(fp) <==>
      NoBars(fp) && exists t :: Decimal.ParseU64(t) == Some(fp.secs) && Trim(raw, whitespace) == Line(fp, t)
  {
    var s := Trim(raw, whitespace);
    if ParseEncoded(whitespace, raw) == Some(fp) {
      var parts := Split(s, '|');
      assert parts == [FORMAT, fp.language, fp.version, fp.root, fp.files, parts[5]];
      SplitInvertsJoin(s, '|', parts);
    }
    if t :| NoBars(fp) && Decimal.ParseU64(t) == Some(fp.secs) && s == Line(fp, t) {
      NumberHasNoBar(t);
      SplitInvertsJoin(s, '|', [FORMAT, fp.language, fp.version, fp.root, fp.files, t]);
    }
  }

  lemma NumberHasNoBar(t: string)
    requires Decimal.ParseU64(t).Some?
    ensures '|' !in t
  {
  }

  lemma JoinTail(p: string, rest: seq<string>)
    requires rest != []
    ensures Join([p] + rest, '|') == p + "|" + Join(rest, '|')
  {
    assert ([p] + rest)[1..] == rest;
  }

  lemma EncodeIsLine(fp: Fingerprint)
    ensures Encode(fp) == Line(fp, Decimal.Print(fp.secs))
  {
    var t := Decimal.Print(fp.secs);
    JoinTail(fp.files, [t]);
    JoinTail(fp.root, [fp.files] + [t]);
    JoinTail(fp.version, [fp.root] + ([fp.files] + [t]));
    JoinTail(fp.language, [fp.version] + ([fp.root] + ([fp.files] + [t])));
    JoinTail(FORMAT, [fp.language] + ([fp.version] + ([fp.root] + ([fp.files] + [t]))));
    assert [FORMAT, fp.language, fp.version, fp.root, fp.files, t] ==
      [FORMAT] + ([fp.language] + ([fp.version] + ([fp.root] + ([fp.files] + [t]))));
  }

  lemma NothingToTrim(whitespace: char -> bool, fp: Fingerprint)
    requires Sane(whitespace)
    ensures Trim(Encode(fp), whitespace) == Encode(fp)
  {
    var s, t := Encode(fp), Decimal.Print(fp.secs);
    assert s[0] == 'v' && s[|s| - 1] == t[|t| - 1];
    assert Decimal.IsDigit(t[|t| - 1]);
  }

  /** What was written is read back exactly when no field contains the separator. */
  lemma {:induction false} RoundTripExactly(whitespace: char -> bool, fp: Fingerprint)
    requires Sane(whitespace) && fp.secs < Decimal.U64_LIMIT
    ensures ParseEncoded(whitespace, Encode(fp)) == Some(fp) <==> NoBars(fp)
  {
    Decimal.ParsePrint(fp.secs);
    EncodeIsLine(fp);
    NothingToTrim(whitespace, fp);
    ParsesExactly(whitespace, Encode(fp), fp);
  }

  // ----- other formats -----

  function Bars(s: string): nat {
    if s == [] then 0 else (if s[0] == '|' then 1 else 0) + Bars(s[1..])
  }

  lemma {:induction false} BarsAppend(a: string, b: string)
    ensures Bars(a + b) == Bars(a) + Bars(b)
  {
    if a == [] {
      assert a + b == b;
    } else {
      BarsAppend(a[1..], b);
      assert (a + b)[1..] == a[1..] + b;
    }
  }

  lemma {:induction false} PiecesAreBars(s: string)
    ensures |Split(s, '|')| == Bars(s) + 1
  {
    if s != [] { PiecesAreBars(s[1..]); }
  }

  lemma {:induction false} TrimKeepsBars(s: string, drop: char -> bool)
    requires !drop('|')
    ensures Bars(Trim(s, drop)) == Bars(s)
  {
    StartKeepsBars(s, drop);
    EndKeepsBars(TrimStart(s, drop), drop);
  }

  lemma {:induction false} StartKeepsBars(s: string, drop: char -> bool)
    requires !drop('|')
    ensures Bars(TrimStart(s, drop)) == Bars(s)
  {
    if s != [] && drop(s[0]) { StartKeepsBars(s[1..], drop); }
  }

  lemma {:induction false} EndKeepsBars(s: string, drop: char -> bool)
    requires !drop('|')
    ensures Bars(TrimEnd(s, drop)) == Bars(s)
  {
    if s != [] && drop(s[|s| - 1]) {
      var init := s[..|s| - 1];
      EndKeepsBars(init, drop);
      assert s == init + [s[|s| - 1]];
      BarsAppend(init, [s[|s| - 1]]);
    }
  }

  /** Only lines with exactly five separators parse; the legacy line of four fields never does. */
  lemma {:induction false} OtherFormatsRejected(whitespace: char -> bool, raw: string)
    requires !whitespace('|') && ParseEncoded(whitespace, raw).Some?
    ensures Bars(raw) == 5
  {
    PiecesAreBars(Trim(raw, whitespace));
    TrimKeepsBars(raw, whitespace);
  }
}
