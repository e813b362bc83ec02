/**
 * The JavaScript string operations the puzzle code relies on: `trim`,
 * `toLowerCase`, `startsWith`, `includes` and `slice(-2)`, over strings as
 * sequences of characters.
 */
module JsText {

  /** The characters `String.prototype.trim` removes: white space and line terminators. */
  predicate IsJsSpace(c: char) {
    || c == '\U{0009}' || c == '\U{000A}' || c == '\U{000B}' || c == '\U{000C}' || c == '\U{000D}'
    || c == '\U{0020}' || c == '\U{00A0}' || c == '\U{1680}'
    || ('\U{2000}' <= c <= '\U{200A}')
    || c == '\U{2028}' || c == '\U{2029}' || c == '\U{202F}' || c == '\U{205F}' || c == '\U{3000}'
    || c == '\U{FEFF}'
  }

  /** The index of the first character at or after `i` that is not white space, or `|s|`. */
  function SkipForward(s: string, i: nat): (k: nat)
    requires i <= |s|
    ensures i <= k <= |s|
    decreases |s| - i
  {
    if i < |s| && IsJsSpace(s[i]) then SkipForward(s, i + 1) else i
  }

  /** Everything skipped is white space, and the scan stops on something else. */
  lemma {:induction false} SkipForwardStops(s: string, i: nat)
    requires i <= |s|
    ensures forall m :: i <= m < SkipForward(s, i) ==> IsJsSpace(s[m])
    ensures SkipForward(s, i) < |s| ==> !IsJsSpace(s[SkipForward(s, i)])
    decreases |s| - i
  {
    if i < |s| && IsJsSpace(s[i]) {
      SkipForwardStops(s, i + 1);
    }
  }

  /** The end of `s[..j]` once its trailing white space is dropped. */
  function SkipBackward(s: string, j: nat): (k: nat)
    requires j <= |s|
    ensures k <= j
  {
    if j > 0 && IsJsSpace(s[j - 1]) then SkipBackward(s, j - 1) else j
  }

  /** Everything dropped is white space, and the scan stops after something else. */
  lemma {:induction false} SkipBackwardStops(s: string, j: nat)
    requires j <= |s|
    ensures forall m :: SkipBackward(s, j) <= m < j ==> IsJsSpace(s[m])
    ensures SkipBackward(s, j) > 0 ==> !IsJsSpace(s[SkipBackward(s, j) - 1])
  {
    if j > 0 && IsJsSpace(s[j - 1]) {
      SkipBackwardStops(s, j - 1);
    }
  }

  /** `trimStart`: the suffix after the leading white space. */
  function TrimStart(s: string): (r: string)
    ensures |r| <= |s| && r == s[|s| - |r|..]
  {
    s[SkipForward(s, 0)..]
  }

  /** `trimEnd`: the prefix before the trailing white space. */
  function TrimEnd(s: string): (r: string)
    ensures |r| <= |s| && r == s[..|r|]
  {
    s[..SkipBackward(s, |s|)]
  }

  /** `trim`: both ends' white space cut off. */
  function Trim(s: string): (r: string)
    ensures |r| <= |s|
  {
    TrimEnd(TrimStart(s))
  }

  /**
   * `trim` leaves a slice of `s`, everything cut off in front of it or
   * behind it being white space.
   */
  lemma TrimCuts(s: string)
    ensures exists i, j :: 0 <= i <= j <= |s| && Trim(s) == s[i..j]
                           && (forall k :: 0 <= k < i ==> IsJsSpace(s[k]))
                           && (forall k :: j <= k < |s| ==> IsJsSpace(s[k]))
  {
    var i := SkipForward(s, 0);
    var front := s[i..];
    var e := SkipBackward(front, |front|);
    SkipForwardStops(s, 0);
    SkipBackwardStops(front, |front|);
    var j := i + e;
    assert Trim(s) == front[..e] == s[i..j];
    forall k | j <= k < |s| ensures IsJsSpace(s[k]) {
      assert s[k] == front[k - i];
    }
  }

  /** What `trim` leaves neither starts nor ends with white space. */
  lemma TrimEdges(s: string)
    ensures |Trim(s)| > 0 ==> !IsJsSpace(Trim(s)[0]) && !IsJsSpace(Trim(s)[|Trim(s)| - 1])
  {
    var i := SkipForward(s, 0);
    var front := s[i..];
    var e := SkipBackward(front, |front|);
    SkipForwardStops(s, 0);
    SkipBackwardStops(front, |front|);
    assert Trim(s) == front[..e];
    if e > 0 {
      assert Trim(s)[0] == front[0] == s[i];
      assert Trim(s)[e - 1] == front[e - 1];
    }
  }

  /** Trimming a trimmed string changes nothing. */
  lemma TrimIdempotent(s: string)
    ensures Trim(Trim(s)) == Trim(s)
  {
    var r := Trim(s);
    TrimEdges(s);
    if |r| > 0 {
      assert TrimStart(r) == r;
      assert TrimEnd(r) == r;
    }
  }

  /** A string with no white space at either end is its own trim. */
  lemma TrimKeeps(s: string)
    requires |s| > 0 ==> !IsJsSpace(s[0]) && !IsJsSpace(s[|s| - 1])
    ensures Trim(s) == s
  {
    assert TrimStart(s) == s;
    assert TrimEnd(s) == s;
  }

  /** U+212A, whose lower case is the ASCII letter k. */
  const KelvinSign: char := '\U{212A}'

  /**
   * `toLowerCase` on one character: A-Z and the Kelvin sign, the one
   * non-ASCII character whose lower case is an ASCII letter, become a-z;
   * every other character is kept.
   */
  function LowerChar(c: char): (d: char)
    ensures 'a' <= d <= 'z' <==> 'a' <= c <= 'z' || 'A' <= c <= 'Z' || c == KelvinSign
  {
    if 'A' <= c <= 'Z' then (c as int - 'A' as int + 'a' as int) as char
    else if c == KelvinSign then 'k'
    else c
  }

  /** `toLowerCase`. */
  function Lower(s: string): (r: string)
    ensures |r| == |s|
    ensures forall i :: 0 <= i < |s| ==> r[i] == LowerChar(s[i])
  {
    seq(|s|, i requires 0 <= i < |s| => LowerChar(s[i]))
  }

  /** Lower-casing twice is lower-casing once. */
  lemma LowerIdempotent(s: string)
    ensures Lower(Lower(s)) == Lower(s)
  {
  }

  /** A string of a-z only is its own lower case. */
  lemma LowerOfLowerWord(s: string)
    requires IsLowerWord(s)
    ensures Lower(s) == s
  {
  }

  /** `/^[a-z]+$/.test(s)`. */
  predicate IsLowerWord(s: string) {
    |s| >= 1 && forall i :: 0 <= i < |s| ==> 'a' <= s[i] <= 'z'
  }

  /** `s.startsWith(prefix)`. */
  predicate StartsWith(s: string, prefix: string) {
    |prefix| <= |s| && s[..|prefix|] == prefix
  }

  /** `s.slice(-2)`: the last two characters, or all of a shorter string. */
  function LastTwo(s: string): (r: string)
    ensures |r| == if |s| < 2 then |s| else 2
    ensures r == s[|s| - |r|..]
  {
    if |s| < 2 then s else s[|s| - 2..]
  }

  /** `text.includes(part)` on strings: `part` occurs somewhere in `text`. */
  predicate Includes(text: string, part: string) {
    exists i :: 0 <= i <= |text| - |part| && OccursAt(text, part, i)
  }

  predicate OccursAt(text: string, part: string, i: int) {
    0 <= i <= |text| - |part| && text[i..i + |part|] == part
  }
}
