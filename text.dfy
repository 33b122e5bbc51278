/**
  The string operations the two scripts rely on: Python's `str.strip()`,
  `str.lower()` and the substring test `needle in hay`.

  `strip()` removes the characters Python's `str.isspace` accepts from both
  ends.  `lower()` is modelled on ASCII letters only (see README).
 */
module Text {

  /** Python's `str.isspace` for one character: the code points that
      CPython treats as whitespace. */
  predicate IsSpace(c: char) {
    || ('\t' <= c <= '\r')                 // U+0009 .. U+000D
    || ('\U{1C}' <= c <= ' ')              // U+001C .. U+0020
    || c == '\U{85}' || c == '\U{A0}' || c == '\U{1680}'
    || ('\U{2000}' <= c <= '\U{200A}')
    || c == '\U{2028}' || c == '\U{2029}' || c == '\U{202F}'
    || c == '\U{205F}' || c == '\U{3000}'
  }

  predicate IsBlank(s: string) {
    forall i :: 0 <= i < |s| ==> IsSpace(s[i])
  }

  /** Lower-case one character (ASCII letters only). */
  function LowerChar(c: char): (r: char)
    ensures 'A' <= c <= 'Z' ==> 'a' <= r <= 'z' && r as int - c as int == 32
    ensures !('A' <= c <= 'Z') ==> r == c
  {
    if 'A' <= c <= 'Z' then (c as int + 32) as char else c
  }

  /** `s.lower()`: every character lower-cased in place, nothing added or
      removed. */
  function Lower(s: string): string {
    seq(|s|, i requires 0 <= i < |s| => LowerChar(s[i]))
  }

  /** Lower-casing twice is lower-casing once. */
  lemma LowerIdempotent(s: string)
    ensures Lower(Lower(s)) == Lower(s)
  {
    assert forall i :: 0 <= i < |s| ==> Lower(Lower(s))[i] == Lower(s)[i];
  }

  /** Lower-casing leaves whitespace where it is: a blank string stays blank. */
  lemma LowerKeepsSpace(s: string)
    ensures IsBlank(Lower(s)) <==> IsBlank(s)
  {
    assert forall i :: 0 <= i < |s| ==> (IsSpace(Lower(s)[i]) <==> IsSpace(s[i]));
  }

  /** How many whitespace characters `s` begins with: all before the result
      are whitespace, the one at the result is not. */
  function LeadingSpaces(s: string): (n: nat)
    ensures n <= |s|
    ensures forall i :: 0 <= i < n ==> IsSpace(s[i])
    ensures n < |s| ==> !IsSpace(s[n])
  {
    if s == [] || !IsSpace(s[0]) then 0 else 1 + LeadingSpaces(s[1..])
  }

  /** The length of `s` without its trailing whitespace: all from the result
      on are whitespace, the one before it is not. */
  function TrimmedLength(s: string): (n: nat)
    ensures n <= |s|
    ensures forall i :: n <= i < |s| ==> IsSpace(s[i])
    ensures 0 < n ==> !IsSpace(s[n - 1])
  {
    if s == [] || !IsSpace(s[|s| - 1]) then |s| else TrimmedLength(s[..|s| - 1])
  }

  /** `s.strip()`: the result is empty exactly when `s` is blank, and
      otherwise begins and ends with a non-whitespace character. */
  function Strip(s: string): (r: string)
    ensures |r| <= |s|
    ensures r == [] <==> IsBlank(s)
    ensures r != [] ==> !IsSpace(r[0]) && !IsSpace(r[|r| - 1])
  {
    var a := LeadingSpaces(s);
    if a == |s| then [] else s[a..TrimmedLength(s)]
  }

  /** Stripping removes whitespace from the two ends and nothing else: the
      result is the slice of `s` between a blank prefix and a blank suffix. */
  lemma StripKeepsMiddle(s: string)
    ensures var a := LeadingSpaces(s);
            && a + |Strip(s)| <= |s|
            && Strip(s) == s[a..a + |Strip(s)|]
            && IsBlank(s[..a])
            && IsBlank(s[a + |Strip(s)|..])
  {
  }

  /** A string that neither begins nor ends with whitespace is unchanged
      by stripping. */
  lemma StripNoEdgeSpace(s: string)
    requires s != [] ==> !IsSpace(s[0]) && !IsSpace(s[|s| - 1])
    ensures Strip(s) == s
  {
  }

  /** Stripping an already stripped string changes nothing. */
  lemma StripIdempotent(s: string)
    ensures Strip(Strip(s)) == Strip(s)
  {
    StripNoEdgeSpace(Strip(s));
  }

  /** Lower-casing and stripping commute: `s.lower().strip()` equals
      `s.strip().lower()`, because lower-casing keeps every whitespace
      character whitespace and every other character not. */
  lemma LowerStripCommute(s: string)
    ensures Strip(Lower(s)) == Lower(Strip(s))
  {
    var t := Lower(s);
    LowerSpacesAlike(s);
    SameLeadingSpaces(s, t);
    SameTrimmedLength(s, t);
    var a, n := LeadingSpaces(s), TrimmedLength(s);
    if a < |s| {
      LowerSlice(s, a, n);
    }
  }

  /** Lower-casing a slice is slicing the lower-cased string. */
  lemma LowerSlice(s: string, a: nat, n: nat)
    requires a <= n <= |s|
    ensures Lower(s)[a..n] == Lower(s[a..n])
  {
    assert forall i :: 0 <= i < n - a ==> Lower(s)[a..n][i] == Lower(s[a..n])[i];
  }

  /** `s` and `t` have whitespace at the same positions. */
  predicate SpacesAlike(s: string, t: string) {
    |s| == |t| && forall i :: 0 <= i < |s| ==> (IsSpace(s[i]) <==> IsSpace(t[i]))
  }

  lemma LowerSpacesAlike(s: string)
    ensures SpacesAlike(s, Lower(s))
  {
  }

  lemma SameLeadingSpaces(s: string, t: string)
    requires SpacesAlike(s, t)
    ensures LeadingSpaces(s) == LeadingSpaces(t)
  {
    var a, a' := LeadingSpaces(s), LeadingSpaces(t);
    assert a < |s| ==> (IsSpace(s[a]) <==> IsSpace(t[a]));
    assert a' < |t| ==> (IsSpace(s[a']) <==> IsSpace(t[a']));
  }

  lemma SameTrimmedLength(s: string, t: string)
    requires SpacesAlike(s, t)
    ensures TrimmedLength(s) == TrimmedLength(t)
  {
    var n, n' := TrimmedLength(s), TrimmedLength(t);
    assert 0 < n ==> (IsSpace(s[n - 1]) <==> IsSpace(t[n - 1]));
    assert 0 < n' ==> (IsSpace(s[n' - 1]) <==> IsSpace(t[n' - 1]));
  }

  /** `prefix` is the start of `s`. */
  predicate StartsWith(s: string, prefix: string) {
    |prefix| <= |s| && s[..|prefix|] == prefix
  }

  /** `needle in hay`, scanning the start positions one by one. */
  predicate IsSubstring(needle: string, hay: string)
    decreases |hay|
  {
    StartsWith(hay, needle) || (hay != [] && IsSubstring(needle, hay[1..]))
  }

  /** `needle` occurs in `hay` starting at position `i`. */
  predicate OccursAt(needle: string, hay: string, i: int) {
    0 <= i && i + |needle| <= |hay| && hay[i..i + |needle|] == needle
  }

  /** The scanning definition agrees with "some position holds an occurrence". */
  lemma {:induction false} IsSubstringIff(needle: string, hay: string)
    ensures IsSubstring(needle, hay) <==> exists i :: OccursAt(needle, hay, i)
    decreases |hay|
  {
    if StartsWith(hay, needle) {
      assert OccursAt(needle, hay, 0);
    } else if hay != [] {
      IsSubstringIff(needle, hay[1..]);
      if IsSubstring(needle, hay[1..]) {
        var i :| OccursAt(needle, hay[1..], i);
        assert hay[1..][i..i + |needle|] == hay[i + 1..i + 1 + |needle|];
        assert OccursAt(needle, hay, i + 1);
      } else {
        forall i | 1 <= i && OccursAt(needle, hay, i)
          ensures OccursAt(needle, hay[1..], i - 1)
        {
          assert hay[1..][i - 1..i - 1 + |needle|] == hay[i..i + |needle|];
        }
      }
    }
  }

  /** A non-empty string never occurs in the empty string. */
  lemma NothingInEmpty(needle: string)
    requires needle != []
    ensures !IsSubstring(needle, [])
  {
  }
}
