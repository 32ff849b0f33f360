/**
  The two operations on `java.lang.String` that the launcher relies on:
  `contains` (substring search) and `toLowerCase` (restricted here to the
  ASCII letters, see README).
 */
module JavaStrings {

  /** `needle` occurs in `s` starting at offset `i`. */
  predicate OccursAt(s: string, needle: string, i: nat) {
    i + |needle| <= |s| && s[i..i + |needle|] == needle
  }

  /** `String.contains`: `needle` occurs at some offset of `s`. */
  function Contains(s: string, needle: string): (b: bool)
    ensures b <==> exists i: nat :: OccursAt(s, needle, i)
    decreases |s|
  {
    if |s| < |needle| then
      false
    else if s[..|needle|] == needle then
      assert OccursAt(s, needle, 0);
      true
    else
      assert !OccursAt(s, needle, 0);
      assert forall i: nat :: OccursAt(s[1..], needle, i) ==> OccursAt(s, needle, i + 1);
      assert forall i: nat | 1 <= i :: OccursAt(s, needle, i) ==> OccursAt(s[1..], needle, i - 1);
      Contains(s[1..], needle)
  }

  /** A string that lacks the first character of `needle` does not contain it. */
  lemma MissingFirstChar(s: string, needle: string)
    requires |needle| > 0 && needle[0] !in s
    ensures !Contains(s, needle)
  {
  }

  /** `Character.toLowerCase` on one character, for the ASCII letters only. */
  function LowerChar(c: char): (r: char)
    ensures !('A' <= r <= 'Z')
    ensures 'A' <= c <= 'Z' ==> r as int == c as int + 32
    ensures !('A' <= c <= 'Z') ==> r == c
  {
    if 'A' <= c <= 'Z' then (c as int - 'A' as int + 'a' as int) as char else c
  }

  /** `String.toLowerCase`, mapping each character on its own. */
  function LowerAscii(s: string): (r: string)
    ensures |r| == |s|
    ensures forall i :: 0 <= i < |s| ==> r[i] == LowerChar(s[i])
  {
    if s == [] then [] else [LowerChar(s[0])] + LowerAscii(s[1..])
  }

  /** Lower-casing leaves no upper-case ASCII letter behind. */
  lemma NoUpperCaseLeft(s: string)
    ensures forall i :: 0 <= i < |LowerAscii(s)| ==> !('A' <= LowerAscii(s)[i] <= 'Z')
  {
  }

  /** Lower-casing twice is lower-casing once. */
  lemma {:induction false} LowerAsciiIdempotent(s: string)
    ensures LowerAscii(LowerAscii(s)) == LowerAscii(s)
  {
    var once := LowerAscii(s);
    forall i | 0 <= i < |s|
      ensures LowerAscii(once)[i] == once[i]
    {
    }
  }

  /**
    Matching after lower-casing is case-insensitive: wherever some spelling
    of `needle` occurs in `s`, its lower-cased form occurs in the lower-cased
    `s` at the same offset.
   */
  lemma {:induction false} LowerPreservesOccurrence(s: string, needle: string, i: nat)
    requires OccursAt(s, needle, i)
    ensures OccursAt(LowerAscii(s), LowerAscii(needle), i)
  {
    var ls, ln := LowerAscii(s), LowerAscii(needle);
    forall k | 0 <= k < |needle|
      ensures ls[i..i + |needle|][k] == ln[k]
    {
      assert s[i..i + |needle|][k] == needle[k];
    }
  }
}
