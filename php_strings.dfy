/**
 * The few PHP string built-ins the plugin relies on: `trim`, string truthiness (`empty`),
 * and `strtolower`, which changes ASCII letters only (from PHP 8.2 on, or under the default C locale).
 */
module PhpStrings {

  /** The characters PHP's `trim` strips by default: space, tab, LF, CR, NUL and vertical tab. */
  predicate IsTrimChar(c: char) {
    c == ' ' || c == '\t' || c == '\n' || c == '\r' || c == '\0' || c == '\U{000B}'
  }

  function TrimLeft(s: string): (r: string)
    ensures |r| <= |s| && r == s[|s| - |r|..]
    ensures r == [] || !IsTrimChar(r[0])
  {
    if s != [] && IsTrimChar(s[0]) then TrimLeft(s[1..]) else s
  }

  /** What TrimLeft drops is trim characters only. */
  lemma {:induction false} TrimLeftDropsOnlyTrimChars(s: string)
    ensures forall k :: 0 <= k < |s| - |TrimLeft(s)| ==> IsTrimChar(s[k])
    decreases |s|
  {
    if s != [] && IsTrimChar(s[0]) {
      TrimLeftDropsOnlyTrimChars(s[1..]);
      assert forall k :: 1 <= k < |s| - |TrimLeft(s)| ==> s[k] == s[1..][k - 1];
    }
  }

  function TrimRight(s: string): (r: string)
    ensures |r| <= |s| && r == s[..|r|]
    ensures r == [] || !IsTrimChar(r[|r| - 1])
  {
    if s != [] && IsTrimChar(s[|s| - 1]) then TrimRight(s[..|s| - 1]) else s
  }

  /** What TrimRight drops is trim characters only. */
  lemma {:induction false} TrimRightDropsOnlyTrimChars(s: string)
    ensures forall k :: |TrimRight(s)| <= k < |s| ==> IsTrimChar(s[k])
    decreases |s|
  {
    if s != [] && IsTrimChar(s[|s| - 1]) {
      TrimRightDropsOnlyTrimChars(s[..|s| - 1]);
      assert forall k :: |TrimRight(s)| <= k < |s| - 1 ==> s[k] == s[..|s| - 1][k];
    }
  }

  /** PHP `trim($s)`: drops the trim characters at both ends and keeps the middle untouched. */
  function Trim(s: string): (r: string)
    ensures |r| <= |s|
    ensures r == [] || (!IsTrimChar(r[0]) && !IsTrimChar(r[|r| - 1]))
    ensures (s == [] || (!IsTrimChar(s[0]) && !IsTrimChar(s[|s| - 1]))) ==> r == s
    decreases |s|
  {
    if s == [] then s
    else if IsTrimChar(s[0]) then Trim(s[1..])
    else if IsTrimChar(s[|s| - 1]) then Trim(s[..|s| - 1])
    else s
  }

  /** Trim is the right trim of the left trim: the middle of the text is kept as it is. */
  lemma {:induction false} TrimIsBothTrims(s: string)
    ensures Trim(s) == TrimRight(TrimLeft(s))
    decreases |s|
  {
    if s != [] {
      if IsTrimChar(s[0]) {
        TrimIsBothTrims(s[1..]);
      } else if IsTrimChar(s[|s| - 1]) {
        var init := s[..|s| - 1];
        TrimIsBothTrims(init);
        assert init[0] == s[0];
      }
    }
  }

  /** PHP's conversion of a string to bool: only "" and "0" are false; `empty($s)` is its negation. */
  predicate Truthy(s: string) {
    s != "" && s != "0"
  }

  /** `strtolower` on one character (PHP 8.2+, or the default C locale): each of 'A'..'Z' becomes its own lower-case letter. */
  function LowerChar(c: char): (r: char)
    ensures 'A' <= c <= 'Z' ==> 'a' <= r <= 'z' && r as int - 'a' as int == c as int - 'A' as int
    ensures !('A' <= c <= 'Z') ==> r == c
  {
    if 'A' <= c <= 'Z' then (c as int - 'A' as int + 'a' as int) as char else c
  }

  /** The smaller of two integers. */
  function Min(x: int, y: int): int {
    if x < y then x else y
  }

  /** `$s` begins with `$prefix`. */
  predicate StartsWith(s: string, prefix: string) {
    |prefix| <= |s| && s[..|prefix|] == prefix
  }
}
