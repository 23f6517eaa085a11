/** The JavaScript string operations the components rely on — `trim`,
    `toLowerCase`, `toUpperCase`, `includes`, `startsWith` — restricted to
    ASCII: white space is the space and the control characters tab through
    carriage return, and only the letters A-Z and a-z change case. */
module AsciiText {

  predicate IsSpace(c: char) {
    c == ' ' || ('\t' <= c <= '\r')
  }

  /** `s.trim()` is empty: the test `!s.trim()` the forms use for a missing value. */
  predicate IsBlank(s: string) {
    forall i :: 0 <= i < |s| ==> IsSpace(s[i])
  }

  function LeadingSpaces(s: string): (n: nat)
    ensures n <= |s|
    ensures forall i :: 0 <= i < n ==> IsSpace(s[i])
    ensures n < |s| ==> !IsSpace(s[n])
  {
    if |s| > 0 && IsSpace(s[0]) then 1 + LeadingSpaces(s[1..]) else 0
  }

  function TrailingSpaces(s: string): (n: nat)
    ensures n <= |s|
    ensures forall i :: |s| - n <= i < |s| ==> IsSpace(s[i])
    ensures n < |s| ==> !IsSpace(s[|s| - 1 - n])
  {
    if |s| > 0 && IsSpace(s[|s| - 1]) then 1 + TrailingSpaces(s[..|s| - 1]) else 0
  }

  /** `s.trim()`: empty exactly for a blank string, otherwise the slice between the
      leading and the trailing run of white space. */
  function Trim(s: string): (r: string)
    ensures r == [] <==> IsBlank(s)
    ensures !IsBlank(s) ==> LeadingSpaces(s) < |s| - TrailingSpaces(s)
    ensures !IsBlank(s) ==> r == s[LeadingSpaces(s)..|s| - TrailingSpaces(s)]
  {
    var lo := LeadingSpaces(s);
    if lo == |s| then []
    else
      s[lo..|s| - TrailingSpaces(s)]
  }

  /** Trimming twice trims nothing more. */
  lemma TrimIdempotent(s: string)
    ensures Trim(Trim(s)) == Trim(s)
  {
    var t := Trim(s);
    if t != [] {
      var lo, n := LeadingSpaces(s), TrailingSpaces(s);
      assert t[0] == s[lo] && t[|t| - 1] == s[|s| - 1 - n];
      assert LeadingSpaces(t) == 0;
      assert TrailingSpaces(t) == 0;
    }
  }

  function LowerChar(c: char): char {
    if 'A' <= c <= 'Z' then (c as int + 32) as char else c
  }

  function UpperChar(c: char): char {
    if 'a' <= c <= 'z' then (c as int - 32) as char else c
  }

  /** `s.toLowerCase()`. */
  function ToLower(s: string): (r: string)
    ensures |r| == |s|
    ensures forall i :: 0 <= i < |s| ==> r[i] == LowerChar(s[i])
  {
    seq(|s|, i requires 0 <= i < |s| => LowerChar(s[i]))
  }

  /** `s.toUpperCase()`. */
  function ToUpper(s: string): (r: string)
    ensures |r| == |s|
    ensures forall i :: 0 <= i < |s| ==> r[i] == UpperChar(s[i])
  {
    seq(|s|, i requires 0 <= i < |s| => UpperChar(s[i]))
  }

  /** No lower-case letter is left in `s`. */
  predicate IsUpperCase(s: string) {
    forall i :: 0 <= i < |s| ==> !('a' <= s[i] <= 'z')
  }

  /** Lower-casing forgets whether the input was upper- or lower-cased first. */
  lemma LowerForgetsCase(s: string)
    ensures ToLower(ToUpper(s)) == ToLower(s)
    ensures ToLower(ToLower(s)) == ToLower(s)
  {
  }

  /** Upper-casing yields an upper-case string and leaves one unchanged. */
  lemma UpperCaseIsUpper(s: string)
    ensures IsUpperCase(ToUpper(s))
    ensures IsUpperCase(s) ==> ToUpper(s) == s
  {
  }

  /** Case mapping never touches white space, so trimming and upper-casing commute. */
  lemma {:induction false} TrimUpperCommute(s: string)
    ensures Trim(ToUpper(s)) == ToUpper(Trim(s))
  {
    LeadingSpacesUpper(s);
    TrailingSpacesUpper(s);
    var lo, hi := LeadingSpaces(s), |s| - TrailingSpaces(s);
    if lo < |s| {
      UpperSlice(s, lo, hi);
    }
  }

  lemma UpperSlice(s: string, lo: nat, hi: nat)
    requires lo <= hi <= |s|
    ensures ToUpper(s)[lo..hi] == ToUpper(s[lo..hi])
  {
  }

  lemma {:induction false} LeadingSpacesUpper(s: string)
    ensures LeadingSpaces(ToUpper(s)) == LeadingSpaces(s)
  {
    if |s| > 0 && IsSpace(s[0]) {
      assert ToUpper(s)[1..] == ToUpper(s[1..]);
      LeadingSpacesUpper(s[1..]);
    }
  }

  lemma {:induction false} TrailingSpacesUpper(s: string)
    ensures TrailingSpaces(ToUpper(s)) == TrailingSpaces(s)
  {
    if |s| > 0 && IsSpace(s[|s| - 1]) {
      assert ToUpper(s)[..|s| - 1] == ToUpper(s[..|s| - 1]);
      TrailingSpacesUpper(s[..|s| - 1]);
    }
  }

  /** `s.startsWith(prefix)`. */
  predicate StartsWith(s: string, prefix: string) {
    |prefix| <= |s| && s[..|prefix|] == prefix
  }

  /** `hay.includes(needle)`. */
  predicate Contains(hay: string, needle: string)
    decreases |hay|
  {
    StartsWith(hay, needle) || (|hay| > 0 && Contains(hay[1..], needle))
  }

  /** `needle` is the slice of `hay` that starts at index `k`. */
  predicate OccursAt(hay: string, needle: string, k: int) {
    0 <= k && k + |needle| <= |hay| && hay[k..k + |needle|] == needle
  }

  /** `includes` finds exactly the needles that occur at some index of the haystack. */
  lemma {:induction false} ContainsIffOccurs(hay: string, needle: string)
    ensures Contains(hay, needle) <==> exists k :: OccursAt(hay, needle, k)
    decreases |hay|
  {
    if Contains(hay, needle) {
      if StartsWith(hay, needle) {
        assert OccursAt(hay, needle, 0);
      } else {
        ContainsIffOccurs(hay[1..], needle);
        var k :| OccursAt(hay[1..], needle, k);
        assert hay[1..][k..k + |needle|] == hay[k + 1..k + 1 + |needle|];
        assert OccursAt(hay, needle, k + 1);
      }
    }
    if exists k :: OccursAt(hay, needle, k) {
      var k :| OccursAt(hay, needle, k);
      if k > 0 {
        assert hay[1..][k - 1..k - 1 + |needle|] == hay[k..k + |needle|];
        assert OccursAt(hay[1..], needle, k - 1);
        ContainsIffOccurs(hay[1..], needle);
      }
    }
  }

  /** Every string includes the empty string. */
  lemma ContainsEmpty(hay: string)
    ensures Contains(hay, "")
  {
  }

  /** A string includes whatever its substrings include. */
  lemma ContainsTransitive(a: string, b: string, c: string)
    requires Contains(a, b) && Contains(b, c)
    ensures Contains(a, c)
  {
    ContainsIffOccurs(a, b);
    ContainsIffOccurs(b, c);
    var k :| OccursAt(a, b, k);
    var m :| OccursAt(b, c, m);
    forall i | 0 <= i < |c|
      ensures a[k + m + i] == c[i]
    {
      assert c[i] == b[m + i] == a[k..k + |b|][m + i];
    }
    assert a[k + m..k + m + |c|] == c;
    assert OccursAt(a, c, k + m);
    ContainsIffOccurs(a, c);
  }
}
