/**
 * The few Python string operations the extractor relies on: `str.strip()`,
 * `str.lower()`, `str.startswith` and the substring test `t in s`.
 */
module Text {

  /** Python's `str.isspace()` for one character: exactly the characters that
      `str.strip()` with no argument removes. */
  predicate IsSpace(c: char) {
    || c == ' '
    || ('\U{9}' <= c <= '\U{D}')
    || ('\U{1C}' <= c <= '\U{1F}')
    || c == '\U{85}'
    || c == '\U{A0}'
    || c == '\U{1680}'
    || ('\U{2000}' <= c <= '\U{200A}')
    || c == '\U{2028}'
    || c == '\U{2029}'
    || c == '\U{202F}'
    || c == '\U{205F}'
    || c == '\U{3000}'
  }

  /** True when every character of `s` is whitespace (also for ""). */
  predicate AllSpace(s: string) {
    forall k :: 0 <= k < |s| ==> IsSpace(s[k])
  }

  /** Number of whitespace characters at the start of `s`. */
  function LeadingSpaces(s: string): (n: nat)
    ensures n <= |s|
    ensures forall k :: 0 <= k < n ==> IsSpace(s[k])
    ensures n < |s| ==> !IsSpace(s[n])
  {
    if s == [] || !IsSpace(s[0]) then 0 else 1 + LeadingSpaces(s[1..])
  }

  /** Number of whitespace characters at the end of `s`. */
  function TrailingSpaces(s: string): (n: nat)
    ensures n <= |s|
    ensures forall k :: |s| - n <= k < |s| ==> IsSpace(s[k])
    ensures n < |s| ==> !IsSpace(s[|s| - 1 - n])
  {
    if s == [] || !IsSpace(s[|s| - 1]) then 0 else 1 + TrailingSpaces(s[..|s| - 1])
  }

  /** Python's `s.strip()`: `s` without its leading and trailing whitespace. */
  function Strip(s: string): (r: string)
    ensures r == [] <==> AllSpace(s)
    ensures r != [] ==> !IsSpace(r[0]) && !IsSpace(r[|r| - 1])
    ensures LeadingSpaces(s) + |r| <= |s|
    ensures r != [] ==> r == s[LeadingSpaces(s)..LeadingSpaces(s) + |r|]
    ensures r != [] ==> AllSpace(s[..LeadingSpaces(s)]) && AllSpace(s[LeadingSpaces(s) + |r|..])
  {
    var lead := LeadingSpaces(s);
    if lead == |s| then
      []
    else
      var trail := TrailingSpaces(s);
      assert |s| - trail > lead;
      s[lead..|s| - trail]
  }

  /** ASCII lower-casing of one character. */
  function LowerChar(c: char): char {
    if 'A' <= c <= 'Z' then (c as int + 32) as char else c
  }

  /** `s.lower()`, restricted to ASCII letters. */
  function Lower(s: string): (r: string)
    ensures |r| == |s|
    ensures forall k :: 0 <= k < |s| ==> r[k] == LowerChar(s[k])
  {
    if s == [] then [] else [LowerChar(s[0])] + Lower(s[1..])
  }

  /** `s.startswith(p)`. */
  predicate StartsWith(s: string, p: string) {
    |p| <= |s| && s[..|p|] == p
  }

  /** `t` occurs in `s` beginning at position `i`. */
  predicate OccursAt(t: string, s: string, i: nat) {
    i + |t| <= |s| && s[i..i + |t|] == t
  }

  /** Python's substring test `t in s`. */
  function Contains(s: string, t: string): (r: bool)
    ensures r <==> exists i: nat :: OccursAt(t, s, i)
    decreases |s|
  {
    if |t| > |s| then
      assert forall i: nat :: !OccursAt(t, s, i);
      false
    else if s[..|t|] == t then
      assert OccursAt(t, s, 0);
      true
    else
      var r := Contains(s[1..], t);
      ShiftOccurrence(t, s);
      r
  }

  /** An occurrence in `s[1..]` is an occurrence in `s` one place further on. */
  lemma ShiftOccurrence(t: string, s: string)
    requires |s| > 0 && !OccursAt(t, s, 0)
    ensures (exists i: nat :: OccursAt(t, s[1..], i)) <==> (exists i: nat :: OccursAt(t, s, i))
  {
    forall i: nat | OccursAt(t, s[1..], i) ensures OccursAt(t, s, i + 1) {
      assert s[1..][i..i + |t|] == s[i + 1..i + 1 + |t|];
    }
    forall i: nat | OccursAt(t, s, i) ensures i >= 1 && OccursAt(t, s[1..], i - 1) {
      assert s[1..][i - 1..i - 1 + |t|] == s[i..i + |t|];
    }
  }
}
