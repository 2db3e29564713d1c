/**
 * The two string operations the upload check is built from: `str.lower()`,
 * modelled as ASCII lowercasing, and `str.endswith`.
 */
module Text {

  /** ASCII lowercasing of one character; every other character is left as it is. */
  function LowerChar(c: char): char {
    if 'A' <= c <= 'Z' then (c as int + 32) as char else c
  }

  /** `s.lower()`: the same length, each character lowercased. */
  function Lower(s: string): (t: string)
    ensures |t| == |s|
    ensures forall i :: 0 <= i < |s| ==> t[i] == LowerChar(s[i])
  {
    if s == [] then [] else [LowerChar(s[0])] + Lower(s[1..])
  }

  /** No upper-case ASCII letter occurs in `s`. */
  predicate IsLowerCase(s: string) {
    forall i :: 0 <= i < |s| ==> !('A' <= s[i] <= 'Z')
  }

  /** `s.endswith(suffix)` */
  predicate EndsWith(s: string, suffix: string) {
    |suffix| <= |s| && s[|s| - |suffix|..] == suffix
  }

  /** `s.endswith(suffixes)` for a tuple of suffixes: some one of them ends `s`. */
  predicate EndsWithAny(s: string, suffixes: seq<string>) {
    exists i :: 0 <= i < |suffixes| && EndsWith(s, suffixes[i])
  }

  /** `c` is the character `l`, or `l` is a lower-case letter and `c` its capital. */
  predicate SameLetterIgnoringCase(c: char, l: char) {
    c == l || ('a' <= l <= 'z' && c as int == l as int - 32)
  }

  /** Reference definition of a case-insensitive suffix test, character by character. */
  predicate EndsWithIgnoringCase(s: string, suffix: string) {
    |suffix| <= |s| &&
    forall i :: 0 <= i < |suffix| ==> SameLetterIgnoringCase(s[|s| - |suffix| + i], suffix[i])
  }

  /** A string ends with the last character of any suffix it ends with. */
  lemma EndsWithLastChar(s: string, suffix: string)
    requires suffix != []
    ensures EndsWith(s, suffix) ==> s != [] && s[|s| - 1] == suffix[|suffix| - 1]
  {
  }

  lemma LowerCharMatches(c: char, l: char)
    requires !('A' <= l <= 'Z')
    ensures LowerChar(c) == l <==> SameLetterIgnoringCase(c, l)
  {
  }

  /** Lowercasing and then testing a lower-case suffix is the case-insensitive suffix test. */
  lemma EndsWithLowerIff(s: string, suffix: string)
    requires IsLowerCase(suffix)
    ensures EndsWith(Lower(s), suffix) <==> EndsWithIgnoringCase(s, suffix)
  {
    if |suffix| <= |s| {
      var t, off := Lower(s), |s| - |suffix|;
      forall i | 0 <= i < |suffix|
        ensures t[off + i] == suffix[i] <==> SameLetterIgnoringCase(s[off + i], suffix[i])
      {
        LowerCharMatches(s[off + i], suffix[i]);
      }
      if EndsWith(t, suffix) {
        forall i | 0 <= i < |suffix| ensures t[off + i] == suffix[i] {
          assert t[off..][i] == suffix[i];
        }
      }
      if EndsWithIgnoringCase(s, suffix) {
        assert t[off..] == suffix;
      }
    }
  }
}
