/**
 * String operations of the Java and JavaScript runtimes that the core relies
 * on, over `string` (= `seq<char>`).  Case mapping covers ASCII letters only.
 */
module Text {

  /** `Character.toLowerCase` / `String.prototype.toLowerCase` on one ASCII character. */
  function LowerChar(c: char): char {
    if 'A' <= c <= 'Z' then (c as int + 32) as char else c
  }

  /** `s.toLowerCase(Locale.ROOT)`, character by character. */
  function Lower(s: string): (r: string)
    ensures |r| == |s|
    ensures forall i :: 0 <= i < |s| ==> r[i] == LowerChar(s[i])
  {
    if s == [] then [] else [LowerChar(s[0])] + Lower(s[1..])
  }

  lemma LowerIdempotent(s: string)
    ensures Lower(Lower(s)) == Lower(s)
  {
    assert forall i :: 0 <= i < |s| ==> LowerChar(LowerChar(s[i])) == LowerChar(s[i]);
  }

  lemma {:induction false} LowerConcat(a: string, b: string)
    ensures Lower(a + b) == Lower(a) + Lower(b)
  {
    if a != [] {
      assert (a + b)[1..] == a[1..] + b;
      LowerConcat(a[1..], b);
    }
  }

  /**
   * `Character.isWhitespace`: the controls U+0009 to U+000D and U+001C to
   * U+001F, and the Unicode space, line and paragraph separators other than
   * the no-break spaces U+00A0, U+2007 and U+202F.
   */
  predicate IsWhitespace(c: char) {
    || ('\t' <= c <= '\r')
    || ('\U{1C}' <= c <= ' ')
    || c == '\U{1680}'
    || ('\U{2000}' <= c <= '\U{2006}')
    || ('\U{2008}' <= c <= '\U{200A}')
    || c == '\U{2028}' || c == '\U{2029}' || c == '\U{205F}' || c == '\U{3000}'
  }

  /** `String.isBlank`: empty or only whitespace. */
  predicate IsBlank(s: string) {
    forall i :: 0 <= i < |s| ==> IsWhitespace(s[i])
  }

  /** `String.trim` strips every character up to U+0020 from both ends. */
  predicate IsTrimmable(c: char) {
    c <= ' '
  }

  function TrimStart(s: string): (r: string)
    ensures |r| <= |s| && r == s[|s| - |r|..]
    ensures r != [] ==> !IsTrimmable(r[0])
    ensures forall i :: 0 <= i < |s| - |r| ==> IsTrimmable(s[i])
  {
    if s != [] && IsTrimmable(s[0]) then TrimStart(s[1..]) else s
  }

  function TrimEnd(s: string): (r: string)
    ensures |r| <= |s| && r == s[..|r|]
    ensures r != [] ==> !IsTrimmable(r[|r| - 1])
    ensures forall i :: |r| <= i < |s| ==> IsTrimmable(s[i])
  {
    if s != [] && IsTrimmable(s[|s| - 1]) then TrimEnd(s[..|s| - 1]) else s
  }

  /** `String.trim`. */
  function Trim(s: string): string {
    TrimEnd(TrimStart(s))
  }

  /** `haystack.contains(needle)` / `indexOf(needle) >= 0`. */
  predicate Contains(haystack: string, needle: string)
    decreases |haystack|
  {
    needle <= haystack || (haystack != [] && Contains(haystack[1..], needle))
  }

  /** `needle` occurs in `haystack` starting at position `i`. */
  ghost predicate OccursAt(haystack: string, needle: string, i: int) {
    0 <= i && i + |needle| <= |haystack| && haystack[i..i + |needle|] == needle
  }

  lemma {:induction false} ContainsIffOccurs(haystack: string, needle: string)
    ensures Contains(haystack, needle) <==> exists i :: OccursAt(haystack, needle, i)
    decreases |haystack|
  {
    if needle <= haystack {
      assert OccursAt(haystack, needle, 0);
    } else if haystack == [] {
    } else {
      ContainsIffOccurs(haystack[1..], needle);
      if exists i :: OccursAt(haystack, needle, i) {
        var i :| OccursAt(haystack, needle, i);
        assert haystack[1..][i - 1..i - 1 + |needle|] == haystack[i..i + |needle|];
        assert OccursAt(haystack[1..], needle, i - 1);
      }
      if exists j :: OccursAt(haystack[1..], needle, j) {
        var j :| OccursAt(haystack[1..], needle, j);
        assert haystack[1..][j..j + |needle|] == haystack[j + 1..j + 1 + |needle|];
        assert OccursAt(haystack, needle, j + 1);
      }
    }
  }

  /** The position of the last occurrence of `c` in `s` (`lastIndexOf`), if any. */
  function LastIndexOf(s: string, c: char): (r: int)
    ensures -1 <= r < |s|
    ensures r >= 0 ==> s[r] == c
    ensures forall i :: r < i < |s| ==> s[i] != c
  {
    if s == [] then -1
    else if s[|s| - 1] == c then |s| - 1
    else LastIndexOf(s[..|s| - 1], c)
  }

  /** The position of the first occurrence of `c` in `s` (`indexOf`), if any. */
  function IndexOf(s: string, c: char): (r: int)
    ensures -1 <= r < |s|
    ensures r >= 0 ==> s[r] == c
    ensures forall i :: 0 <= i < (if r < 0 then |s| else r) ==> s[i] != c
  {
    if s == [] then -1
    else if s[0] == c then 0
    else var k := IndexOf(s[1..], c); if k < 0 then -1 else k + 1
  }
}
