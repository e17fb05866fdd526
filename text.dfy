/** The few Python string operations the billing core relies on:
    str.strip(), str.lower() and the substring test `q in s`. */
module Text {

  /** The characters Python's str.isspace() accepts; str.strip() with no
      argument removes exactly these from both ends. */
  predicate IsSpace(c: char) {
    || c == ' '
    || ('\t' <= c <= '\r')
    || ('\U{1C}' <= c <= '\U{1F}')
    || c == '\U{85}' || c == '\U{A0}' || c == '\U{1680}'
    || ('\U{2000}' <= c <= '\U{200A}')
    || c == '\U{2028}' || c == '\U{2029}' || c == '\U{202F}' || c == '\U{205F}'
    || c == '\U{3000}'
  }

  /** The first position at or after i that does not hold white space
      (|s| when there is none). */
  function SkipSpaces(s: string, i: nat): (k: nat)
    requires i <= |s|
    ensures i <= k <= |s|
    ensures forall j :: i <= j < k ==> IsSpace(s[j])
    ensures k < |s| ==> !IsSpace(s[k])
    decreases |s| - i
  {
    if i < |s| && IsSpace(s[i]) then SkipSpaces(s, i + 1) else i
  }

  /** The end of s[lo..hi] once its trailing white space is dropped. */
  function TrimEnd(s: string, lo: nat, hi: nat): (k: nat)
    requires lo <= hi <= |s|
    ensures lo <= k <= hi
    ensures forall j :: k <= j < hi ==> IsSpace(s[j])
    ensures k > lo ==> !IsSpace(s[k - 1])
    decreases hi
  {
    if hi > lo && IsSpace(s[hi - 1]) then TrimEnd(s, lo, hi - 1) else hi
  }

  /** Python's s.strip(): s without its leading and trailing white space. */
  function Strip(s: string): string {
    var a := SkipSpaces(s, 0);
    s[a..TrimEnd(s, a, |s|)]
  }

  /** What strip() promises: the result is s with white space removed from
      its two ends only; it is blank exactly when s is all white space, and
      otherwise neither starts nor ends with white space. */
  lemma StripSpec(s: string)
    ensures |Strip(s)| <= |s|
    ensures exists a, b ::
              && 0 <= a <= b <= |s| && Strip(s) == s[a..b]
              && (forall i :: 0 <= i < a ==> IsSpace(s[i]))
              && (forall i :: b <= i < |s| ==> IsSpace(s[i]))
    ensures Strip(s) == [] <==> forall i :: 0 <= i < |s| ==> IsSpace(s[i])
    ensures Strip(s) != [] ==> !IsSpace(Strip(s)[0]) && !IsSpace(Strip(s)[|Strip(s)| - 1])
  {
    var a := SkipSpaces(s, 0);
    var b := TrimEnd(s, a, |s|);
    assert Strip(s) == s[a..b];
  }

  /** ASCII upper case to lower case; every other character is kept. */
  function LowerChar(c: char): (d: char)
    ensures 'A' <= c <= 'Z' ==> d as int == c as int + 32
    ensures !('A' <= c <= 'Z') ==> d == c
    ensures !('A' <= d <= 'Z')
  {
    if 'A' <= c <= 'Z' then (c as int + 32) as char else c
  }

  /** Python's s.lower(), restricted to ASCII letters. */
  function Lower(s: string): (r: string)
    ensures |r| == |s|
  {
    seq(|s|, i requires 0 <= i < |s| => LowerChar(s[i]))
  }

  /** lower() works character by character and leaves no upper-case ASCII
      letter behind, so applying it twice changes nothing more. */
  lemma LowerSpec(s: string)
    ensures forall i :: 0 <= i < |s| ==> Lower(s)[i] == LowerChar(s[i]) && !('A' <= Lower(s)[i] <= 'Z')
    ensures Lower(Lower(s)) == Lower(s)
  {
    assert forall i :: 0 <= i < |s| ==> Lower(Lower(s))[i] == Lower(s)[i];
  }

  /** pat occurs in text starting at position i. */
  predicate OccursAt(text: string, pat: string, i: int) {
    0 <= i && i + |pat| <= |text| && text[i..i + |pat|] == pat
  }

  /** Python's `pat in text`: true exactly when pat occurs somewhere in text
      (in particular, the empty pattern occurs in every text). */
  function Contains(text: string, pat: string): (r: bool)
    ensures r <==> exists i :: OccursAt(text, pat, i)
    decreases |text|
  {
    if |text| < |pat| then
      false
    else if text[..|pat|] == pat then
      assert OccursAt(text, pat, 0);
      true
    else
      var r := Contains(text[1..], pat);
      assert r ==> exists i :: OccursAt(text, pat, i) by {
        if r {
          var i :| OccursAt(text[1..], pat, i);
          assert text[i + 1..i + 1 + |pat|] == text[1..][i..i + |pat|];
          assert OccursAt(text, pat, i + 1);
        }
      }
      assert (exists i :: OccursAt(text, pat, i)) ==> r by {
        if exists i :: OccursAt(text, pat, i) {
          var i :| OccursAt(text, pat, i);
          assert i != 0;
          assert text[1..][i - 1..i - 1 + |pat|] == text[i..i + |pat|];
          assert OccursAt(text[1..], pat, i - 1);
        }
      }
      r
  }
}
