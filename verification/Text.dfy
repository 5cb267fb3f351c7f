/** The string operations of the Rust standard library that the models call. */
module Text {

  predicate StartsWith(s: string, p: string) {
    p <= s
  }

  predicate EndsWith(s: string, p: string) {
    |p| <= |s| && s[|s| - |p|..] == p
  }

  predicate Contains(s: string, p: string) {
    StartsWith(s, p) || (s != [] && Contains(s[1..], p))
  }

  /** The part after the last `c`, or all of `s`: `s.rsplit(c).next()`. */
  function LastSegment(s: string, c: char): string {
    if s == [] then []
    else if c in s[1..] then LastSegment(s[1..], c)
    else if s[0] == c then s[1..]
    else s
  }

  /** `s.split(c)`: the pieces between separators; always at least one. */
  function Split(s: string, c: char): (r: seq<string>)
    ensures r != []
  {
    if s == [] then [[]]
    else
      var rest := Split(s[1..], c);
      if s[0] == c then [[]] + rest else [[s[0]] + rest[0]] + rest[1..]
  }

  /** `trim_start_matches("./")`. */
  function TrimDotSlash(s: string): (r: string)
    ensures !StartsWith(r, "./")
  {
    if StartsWith(s, "./") then TrimDotSlash(s[2..]) else s
  }

  function TrimStart(s: string, drop: char -> bool): string {
    if s != [] && drop(s[0]) then TrimStart(s[1..], drop) else s
  }

  function TrimEnd(s: string, drop: char -> bool): string {
    if s != [] && drop(s[|s| - 1]) then TrimEnd(s[..|s| - 1], drop) else s
  }

  /** `trim_matches`. */
  function Trim(s: string, drop: char -> bool): string {
    TrimEnd(TrimStart(s, drop), drop)
  }
}
