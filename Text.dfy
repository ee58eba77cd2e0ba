/** Character searches and splits on strings, as the Python and JavaScript
    string methods used by the application behave. */
module Text {

  /** Index of the first occurrence of `c` in `s`, or -1 (`str.find`, `indexOf`). */
  function Find(s: string, c: char): (i: int)
    ensures -1 <= i < |s|
    ensures i < 0 <==> c !in s
    ensures i >= 0 ==> s[i] == c && c !in s[..i]
  {
    if |s| == 0 then -1
    else if s[0] == c then 0
    else
      var k := Find(s[1..], c);
      assert s[1..][..if k < 0 then 0 else k] == s[1..1 + if k < 0 then 0 else k];
      if k < 0 then -1 else k + 1
  }

  /** Index of the last occurrence of `c` in `s`, or -1 (`str.rfind`). */
  function RFind(s: string, c: char): (i: int)
    ensures -1 <= i < |s|
    ensures i < 0 <==> c !in s
    ensures i >= 0 ==> s[i] == c && c !in s[i + 1..]
  {
    if |s| == 0 then -1
    else if s[|s| - 1] == c then |s| - 1
    else
      var k := RFind(s[..|s| - 1], c);
      assert s == s[..|s| - 1] + [s[|s| - 1]];
      k
  }

  predicate StartsWith(s: string, prefix: string) {
    |prefix| <= |s| && s[..|prefix|] == prefix
  }

  /** Lower-case of one character, for the ASCII letters. */
  function LowerChar(ch: char): (r: char)
    ensures 'A' <= ch <= 'Z' ==> 'a' <= r <= 'z' && r as int == ch as int + 32
    ensures !('A' <= ch <= 'Z') ==> r == ch
  {
    if 'A' <= ch <= 'Z' then (ch as int + 32) as char else ch
  }

  /** `str.lower()` restricted to ASCII: no other character lower-cases to one
      of the letters of "jpg" or "jpeg", so the extension test is unaffected. */
  function Lower(s: string): (r: string)
    ensures |r| == |s|
    ensures forall i :: 0 <= i < |s| ==> r[i] == LowerChar(s[i])
  {
    if s == [] then [] else [LowerChar(s[0])] + Lower(s[1..])
  }

  /** The pieces of `parts` glued with `sep` between consecutive pieces
      (JavaScript `Array.prototype.join`). */
  function JoinWith(parts: seq<string>, sep: char): string {
    if |parts| == 0 then ""
    else if |parts| == 1 then parts[0]
    else parts[0] + [sep] + JoinWith(parts[1..], sep)
  }

  /** JavaScript `s.split(sep)` for a one-character separator: the maximal
      separator-free pieces, in order; never empty. */
  function SplitOn(s: string, sep: char): (parts: seq<string>)
    ensures |parts| >= 1
    ensures forall k :: 0 <= k < |parts| ==> sep !in parts[k]
    ensures JoinWith(parts, sep) == s
    decreases |s|
  {
    var i := Find(s, sep);
    if i < 0 then [s]
    else
      var rest := SplitOn(s[i + 1..], sep);
      var parts := [s[..i]] + rest;
      assert parts[1..] == rest;
      assert JoinWith(parts, sep) == s[..i] + [sep] + JoinWith(rest, sep);
      assert s == s[..i] + [sep] + s[i + 1..];
      parts
  }

  /** The text before the first `sep` of `s` (all of `s` when it has none). */
  lemma FirstPiece(s: string, sep: char)
    ensures SplitOn(s, sep)[0] == (if sep in s then s[..Find(s, sep)] else s)
    ensures StartsWith(s, SplitOn(s, sep)[0])
  {
  }

  /** Splitting `prefix + [sep] + rest`, where `prefix` has no separator, yields
      `prefix` followed by the pieces of `rest`. */
  lemma {:induction false} SplitAfterPrefix(prefix: string, sep: char, rest: string)
    requires sep !in prefix
    ensures SplitOn(prefix + [sep] + rest, sep) == [prefix] + SplitOn(rest, sep)
  {
    var s := prefix + [sep] + rest;
    assert s[|prefix|] == sep;
    assert s[..|prefix|] == prefix;
    assert Find(s, sep) == |prefix|;
    assert s[|prefix| + 1..] == rest;
  }
}
