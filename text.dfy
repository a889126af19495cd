/** Text primitives of the Kotlin runtime that the log view relies on:
    `CharSequence.isBlank()` and `String.contains(other, ignoreCase = true)`.
    The runtime's per-character tables (case mapping, whitespace) are not
    modelled; they are parameters collected in `CharOps`. */
module LogText {

  /** The JVM's `Character.toUpperCase`, `Character.toLowerCase` and Kotlin's
      `Char.isWhitespace`, taken as given functions. */
  datatype CharOps = CharOps(upper: char -> char, lower: char -> char, isWhitespace: char -> bool)

  /** `Char.equals(other, ignoreCase = true)`: equal, or equal after upper-casing,
      or equal after upper- then lower-casing. */
  predicate EqualsIgnoreCase(c: CharOps, a: char, b: char)
  {
    a == b || c.upper(a) == c.upper(b) || c.lower(c.upper(a)) == c.lower(c.upper(b))
  }

  /** `isBlank()`: every character is whitespace (so the empty string is blank). */
  predicate IsBlank(c: CharOps, s: string): (r: bool)
    ensures s == [] ==> r
    ensures r <==> forall ch :: ch in s ==> c.isWhitespace(ch)
  {
    forall i :: 0 <= i < |s| ==> c.isWhitespace(s[i])
  }

  /** `needle` occurs in `hay` at offset `at`, ignoring case, and fits inside `hay`
      (`regionMatches(0, hay, at, needle.length, ignoreCase = true)`). */
  predicate RegionMatches(c: CharOps, hay: string, at: nat, needle: string)
  {
    at + |needle| <= |hay| &&
    forall k :: 0 <= k < |needle| ==> EqualsIgnoreCase(c, hay[at + k], needle[k])
  }

  /** `indexOf(needle, from, ignoreCase = true)`: the first offset at or after
      `from` where `needle` occurs, or -1. Offsets up to `|hay|` are tried. */
  function IndexOfIgnoreCase(c: CharOps, hay: string, needle: string, from: nat): (r: int)
    decreases |hay| + 1 - from
    ensures r == -1 || (from <= r <= |hay| && RegionMatches(c, hay, r, needle))
    ensures r != -1 ==> forall i :: from <= i < r ==> !RegionMatches(c, hay, i, needle)
    ensures r == -1 <==> forall i :: from <= i <= |hay| ==> !RegionMatches(c, hay, i, needle)
  {
    if from > |hay| then -1
    else if RegionMatches(c, hay, from, needle) then from
    else IndexOfIgnoreCase(c, hay, needle, from + 1)
  }

  /** `hay.contains(needle, ignoreCase = true)`, which Kotlin defines as
      `indexOf(needle, 0, ignoreCase = true) >= 0`. */
  predicate ContainsIgnoreCase(c: CharOps, hay: string, needle: string): (r: bool)
    ensures needle == [] ==> r
    ensures hay == needle ==> r
    ensures r ==> |needle| <= |hay|
  {
    IndexOfIgnoreCase(c, hay, needle, 0) >= 0
  }

  /** Containment means some offset matches, and conversely. */
  lemma ContainsIff(c: CharOps, hay: string, needle: string)
    ensures ContainsIgnoreCase(c, hay, needle) <==>
            exists i :: 0 <= i <= |hay| && RegionMatches(c, hay, i, needle)
  {
    var r := IndexOfIgnoreCase(c, hay, needle, 0);
    if r >= 0 {
      assert RegionMatches(c, hay, r, needle);
    }
  }

  /** An exact occurrence is in particular an occurrence ignoring case. */
  lemma ExactOccurrenceContained(c: CharOps, hay: string, needle: string, at: nat)
    requires at + |needle| <= |hay| && hay[at..at + |needle|] == needle
    ensures ContainsIgnoreCase(c, hay, needle)
  {
    forall k | 0 <= k < |needle| ensures EqualsIgnoreCase(c, hay[at + k], needle[k]) {
      assert hay[at..at + |needle|][k] == hay[at + k];
    }
    assert RegionMatches(c, hay, at, needle);
    ContainsIff(c, hay, needle);
  }

  /** A needle longer than the text is never contained. */
  lemma LongerNeedleNotContained(c: CharOps, hay: string, needle: string)
    requires |needle| > |hay|
    ensures !ContainsIgnoreCase(c, hay, needle)
  {
    ContainsIff(c, hay, needle);
  }
}
