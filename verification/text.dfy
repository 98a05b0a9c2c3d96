/** String primitives of the language the banner code relies on:
    `indexOf`, `substr`, `replace` with a one-character pattern, and the
    case-insensitive containment test `/pat/i.test(s)` for ASCII patterns. */
module Text {

  /** `pat` occurs in `s` at position `i`. */
  predicate OccursAt(s: string, pat: string, i: nat) {
    i + |pat| <= |s| && s[i..i + |pat|] == pat
  }

  /** `s.indexOf(pat)`: the first position where `pat` occurs, or -1. */
  function IndexOf(s: string, pat: string): (r: int)
    ensures -1 <= r <= |s|
    ensures r >= 0 ==> OccursAt(s, pat, r) && forall j :: 0 <= j < r ==> !OccursAt(s, pat, j)
    ensures r == -1 <==> forall j :: 0 <= j <= |s| ==> !OccursAt(s, pat, j)
  {
    IndexFrom(s, pat, 0)
  }

  function IndexFrom(s: string, pat: string, i: nat): (r: int)
    requires i <= |s| + 1
    ensures r == -1 || i <= r <= |s|
    ensures r >= 0 ==> OccursAt(s, pat, r) && forall j :: i <= j < r ==> !OccursAt(s, pat, j)
    ensures r == -1 <==> forall j :: i <= j <= |s| ==> !OccursAt(s, pat, j)
    decreases |s| + 1 - i
  {
    if i > |s| then -1
    else if OccursAt(s, pat, i) then i
    else IndexFrom(s, pat, i + 1)
  }

  /** `s.substr(start, length)`: a negative start counts from the end, and
      the window is clipped to the string. */
  function Substr(s: string, start: int, length: int): (r: string)
    ensures |r| <= |s|
    ensures 0 <= start && 0 <= length && start + length <= |s| ==> r == s[start..start + length]
    ensures 0 <= start <= |s| && start + length > |s| ==> r == s[start..]
    ensures start >= |s| || length <= 0 ==> r == ""
  {
    var b := if start < 0 then (if |s| + start < 0 then 0 else |s| + start) else if start > |s| then |s| else start;
    var e := if length <= 0 then b else if b + length > |s| then |s| else b + length;
    s[b..e]
  }

  /** The first position of character `c` in `s`, or -1. */
  function FirstOf(s: string, c: char, from: nat := 0): (k: int)
    requires from <= |s|
    ensures k == -1 || from <= k < |s|
    ensures k == -1 <==> forall i :: from <= i < |s| ==> s[i] != c
    ensures k >= 0 ==> s[k] == c && forall j :: from <= j < k ==> s[j] != c
    decreases |s| - from
  {
    if from == |s| then -1
    else if s[from] == c then from
    else FirstOf(s, c, from + 1)
  }

  /** `s.replace(c, d)` with a one-character string pattern: only the first
      occurrence of `c` is replaced. */
  function ReplaceFirst(s: string, c: char, d: char): (r: string)
    ensures |r| == |s|
    ensures forall i :: 0 <= i < |s| ==> r[i] == if i == FirstOf(s, c) then d else s[i]
  {
    var k := FirstOf(s, c);
    if k < 0 then s else s[..k] + [d] + s[k + 1..]
  }

  /** ASCII lower-casing; the case-insensitive patterns of the banner code
      are ASCII, and the language's case-insensitive matching never maps a
      non-ASCII character onto an ASCII one. */
  function LowerAscii(c: char): (r: char)
    ensures 'A' <= c <= 'Z' ==> r as int == c as int + 32
    ensures !('A' <= c <= 'Z') ==> r == c
  {
    if 'A' <= c <= 'Z' then (c as int + 32) as char else c
  }

  /** `pat` occurs at `i` in `s`, ignoring ASCII case. */
  predicate OccursAtIgnoreCase(s: string, pat: string, i: nat) {
    i + |pat| <= |s| && forall k :: 0 <= k < |pat| ==> LowerAscii(s[i + k]) == LowerAscii(pat[k])
  }

  /** `/pat/i.test(s)`: whether `pat` occurs anywhere, ignoring ASCII case. */
  predicate ContainsIgnoreCase(s: string, pat: string) {
    exists i :: 0 <= i <= |s| && OccursAtIgnoreCase(s, pat, i)
  }

  /** A pattern whose second letter (in either ASCII case) appears nowhere
      after the first position of `s` does not occur in it. */
  lemma AbsentSecondLetter(s: string, pat: string)
    requires |pat| >= 2
    requires forall i :: 0 <= i < |s| ==> LowerAscii(s[i]) != LowerAscii(pat[1])
    ensures !ContainsIgnoreCase(s, pat)
  {
    forall i | 0 <= i <= |s|
      ensures !OccursAtIgnoreCase(s, pat, i)
    {
      if i + |pat| <= |s| {
        assert LowerAscii(s[i + 1]) != LowerAscii(pat[1]);
      }
    }
  }
}
