/**
 String helpers the application relies on from JavaScript: `String.prototype.trim`
 (used by Mongoose's `trim: true` schema option), `toLowerCase` (restricted to
 ASCII here) and `includes` (substring search). Strings are `seq<char>`.
 */
module Text {

  /** The characters `String.prototype.trim` strips: ECMAScript WhiteSpace
      (tab, vertical tab, form feed, space, no-break space, byte order mark and
      the Unicode space separators) and LineTerminator (LF, CR, LS, PS). */
  predicate IsSpace(c: char)
  {
    || c == '\t' || c == '\n' || c == '\U{B}' || c == '\U{C}' || c == '\r'
    || c == ' ' || c == '\U{A0}' || c == '\U{1680}'
    || ('\U{2000}' <= c <= '\U{200A}')
    || c == '\U{2028}' || c == '\U{2029}' || c == '\U{202F}' || c == '\U{205F}'
    || c == '\U{3000}' || c == '\U{FEFF}'
  }

  /** Neither end of `s` is a whitespace character. */
  predicate IsTrimmed(s: string)
  {
    s == [] || (!IsSpace(s[0]) && !IsSpace(s[|s| - 1]))
  }

  /** Drops leading whitespace: the result is the suffix of `s` that starts at
      the first non-space character. */
  function TrimStart(s: string): (r: string)
    ensures |r| <= |s| && r == s[|s| - |r|..]
    ensures forall i :: 0 <= i < |s| - |r| ==> IsSpace(s[i])
    ensures r == [] || !IsSpace(r[0])
  {
    if s != [] && IsSpace(s[0]) then TrimStart(s[1..]) else s
  }

  /** Drops trailing whitespace: the result is the prefix of `s` that ends at
      the last non-space character. */
  function TrimEnd(s: string): (r: string)
    ensures |r| <= |s| && r == s[..|r|]
    ensures forall i :: |r| <= i < |s| ==> IsSpace(s[i])
    ensures r == [] || !IsSpace(r[|r| - 1])
  {
    if s != [] && IsSpace(s[|s| - 1]) then TrimEnd(s[..|s| - 1]) else s
  }

  /** `r` is the slice of `s` starting at `i`, and everything of `s` outside
      that slice is whitespace. */
  predicate IsSpaceCut(s: string, r: string, i: nat)
  {
    && i + |r| <= |s|
    && r == s[i..i + |r|]
    && (forall k :: 0 <= k < i ==> IsSpace(s[k]))
    && (forall k :: i + |r| <= k < |s| ==> IsSpace(s[k]))
  }

  /** `String.prototype.trim`: a slice of `s` with no whitespace at either end,
      everything cut off on both sides being whitespace. */
  function Trim(s: string): (r: string)
    ensures IsTrimmed(r)
    ensures exists i: nat :: IsSpaceCut(s, r, i)
  {
    var a := TrimStart(s);
    var r := TrimEnd(a);
    assert r != [] ==> r[0] == a[0];
    CutBothEnds(s, a, r);
    r
  }

  /** Cutting a whitespace run off the front of `s`, giving `a`, and then one
      off the back of `a`, giving `r`, cuts whitespace off both sides of `s`. */
  lemma CutBothEnds(s: string, a: string, r: string)
    requires |a| <= |s| && a == s[|s| - |a|..]
    requires forall k :: 0 <= k < |s| - |a| ==> IsSpace(s[k])
    requires |r| <= |a| && r == a[..|r|]
    requires forall k :: |r| <= k < |a| ==> IsSpace(a[k])
    ensures IsSpaceCut(s, r, |s| - |a|)
  {
    var i := |s| - |a|;
    forall k | i + |r| <= k < |s| ensures IsSpace(s[k]) {
      assert s[k] == a[k - i];
    }
  }

  /** A string with no whitespace at either end is left as it is by `Trim`. */
  lemma TrimKeepsTrimmed(s: string)
    requires IsTrimmed(s)
    ensures Trim(s) == s
  {
    assert TrimStart(s) == s;
    assert TrimEnd(s) == s;
  }

  /** Trimming twice is trimming once, so a stored (already trimmed) field is a
      fixed point of the schema's trim setter. */
  lemma TrimIdempotent(s: string)
    ensures Trim(Trim(s)) == Trim(s)
  {
    TrimKeepsTrimmed(Trim(s));
  }

  /** ASCII lower-casing of one character. */
  function LowerChar(c: char): (d: char)
    ensures 'A' <= c <= 'Z' ==> d as int == c as int + 32
    ensures !('A' <= c <= 'Z') ==> d == c
  {
    if 'A' <= c <= 'Z' then (c as int + 32) as char else c
  }

  /** `toLowerCase` restricted to ASCII letters. */
  function ToLower(s: string): (r: string)
    ensures |r| == |s|
    ensures forall i :: 0 <= i < |s| ==> r[i] == LowerChar(s[i])
  {
    seq(|s|, i requires 0 <= i < |s| => LowerChar(s[i]))
  }

  /** Lower-casing removes every upper-case ASCII letter, so applying it again
      changes nothing. */
  lemma ToLowerIdempotent(s: string)
    ensures forall i :: 0 <= i < |s| ==> !('A' <= ToLower(s)[i] <= 'Z')
    ensures ToLower(ToLower(s)) == ToLower(s)
  {
  }

  /** `needle` occurs in `hay` starting at index `i`. */
  predicate OccursAt(hay: string, needle: string, i: nat)
  {
    i + |needle| <= |hay| && hay[i..i + |needle|] == needle
  }

  /** `String.prototype.includes`: true exactly when `needle` occurs somewhere in
      `hay`. */
  function Contains(hay: string, needle: string): (b: bool)
    ensures b <==> exists i: nat :: OccursAt(hay, needle, i)
  {
    if |needle| > |hay| then
      assert forall i: nat :: !OccursAt(hay, needle, i);
      false
    else if hay[..|needle|] == needle then
      assert OccursAt(hay, needle, 0);
      true
    else
      var rest := Contains(hay[1..], needle);
      assert forall i: nat :: OccursAt(hay[1..], needle, i) <==> OccursAt(hay, needle, i + 1) by {
        forall i: nat ensures OccursAt(hay[1..], needle, i) <==> OccursAt(hay, needle, i + 1) {
          if i + |needle| <= |hay[1..]| {
            assert hay[1..][i..i + |needle|] == hay[i + 1..i + 1 + |needle|];
          }
        }
      }
      assert !OccursAt(hay, needle, 0);
      assert (exists i: nat :: OccursAt(hay, needle, i)) ==> exists i: nat :: OccursAt(hay[1..], needle, i) by {
        if exists i: nat :: OccursAt(hay, needle, i) {
          var i: nat :| OccursAt(hay, needle, i);
          assert i > 0;
          assert OccursAt(hay[1..], needle, i - 1);
        }
      }
      rest
  }

  /** The empty string occurs in every string, so an empty search term matches
      everything. */
  lemma EmptyIsContained(hay: string)
    ensures Contains(hay, "")
  {
    assert OccursAt(hay, "", 0);
  }
}
