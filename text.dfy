/** String predicates used by the extractor's selection logic: prefix and
    suffix tests, substring search, and lowercase folding. Strings are
    sequences of characters. */
module Text {

  /** `s` begins with `prefix` (Rust's `str::starts_with`). */
  predicate StartsWith(s: string, prefix: string)
  {
    |prefix| <= |s| && s[..|prefix|] == prefix
  }

  /** `s` ends with `suffix` (Rust's `str::ends_with`). */
  predicate EndsWith(s: string, suffix: string)
  {
    |suffix| <= |s| && s[|s| - |suffix|..] == suffix
  }

  /** `pattern` occurs in `s` at position `i`. */
  predicate OccursAt(s: string, pattern: string, i: int)
  {
    0 <= i && i + |pattern| <= |s| && s[i..i + |pattern|] == pattern
  }

  /** Case-sensitive substring search (Rust's `str::contains`), written as a
      scan that tries every start position in turn. */
  function Contains(s: string, pattern: string): (r: bool)
    ensures r <==> exists i :: OccursAt(s, pattern, i)
  {
    if StartsWith(s, pattern) then
      assert OccursAt(s, pattern, 0);
      true
    else if |s| == 0 then
      assert forall i :: OccursAt(s, pattern, i) ==> i == 0;
      false
    else
      var r := Contains(s[1..], pattern);
      assert forall i :: OccursAt(s, pattern, i) && i > 0 ==> OccursAt(s[1..], pattern, i - 1) by {
        forall i | OccursAt(s, pattern, i) && i > 0 ensures OccursAt(s[1..], pattern, i - 1) {
          assert s[1..][i - 1..i - 1 + |pattern|] == s[i..i + |pattern|];
        }
      }
      assert forall i :: OccursAt(s[1..], pattern, i) ==> OccursAt(s, pattern, i + 1) by {
        forall i | OccursAt(s[1..], pattern, i) ensures OccursAt(s, pattern, i + 1) {
          assert s[1..][i..i + |pattern|] == s[i + 1..i + 1 + |pattern|];
        }
      }
      r
  }

  /** Lowercase folding of one character. Only the ASCII letters A-Z are
      folded; see README for why this suffices for the suffix test. */
  function LowerChar(c: char): char
  {
    if 'A' <= c <= 'Z' then (c as int + 32) as char else c
  }

  /** Lowercase folding of a whole string, character by character. */
  function Lower(s: string): (r: string)
    ensures |r| == |s|
    ensures forall i :: 0 <= i < |s| ==> r[i] == LowerChar(s[i])
  {
    if s == [] then [] else [LowerChar(s[0])] + Lower(s[1..])
  }
}
