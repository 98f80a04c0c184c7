/** The few JavaScript string operations the routes use, on `seq<char>`. */
module JsStrings {

  /** Lower-cases an ASCII capital letter and leaves every other character alone.
      `toLowerCase` is only ever used here for a suffix test against an ASCII
      suffix, and no other character lower-cases into `.`, `x`, `l` or `s`. */
  function LowerChar(c: char): char {
    if 'A' <= c <= 'Z' then (c as int - 'A' as int + 'a' as int) as char else c
  }

  /** `s.toLowerCase()` for the purpose of a suffix test. */
  function Lower(s: string): string {
    seq(|s|, i requires 0 <= i < |s| => LowerChar(s[i]))
  }

  /** `s.endsWith(suffix)`. */
  predicate EndsWith(s: string, suffix: string) {
    |suffix| <= |s| && s[|s| - |suffix|..] == suffix
  }

  /** Lower-casing the whole name and then taking its last `k` characters is
      the same as lower-casing just those characters. */
  lemma LowerSuffix(s: string, k: nat)
    ensures k <= |s| ==> Lower(s)[|s| - k..] == Lower(s[|s| - k..])
  {
  }

  /** `s.replace(/\/+$/, "")`: removes the whole trailing run of `/`. The
      regular expression has no `g` flag, but its leftmost match is already the
      entire trailing run, so one replacement removes all of it. */
  function StripTrailingSlashes(s: string): (t: string)
    ensures t <= s
    ensures |t| == 0 || t[|t| - 1] != '/'
    ensures forall i | |t| <= i < |s| :: s[i] == '/'
  {
    if |s| > 0 && s[|s| - 1] == '/' then StripTrailingSlashes(s[..|s| - 1]) else s
  }

  /** Stripping twice strips nothing more. */
  lemma {:induction false} StripTrailingSlashesIdempotent(s: string)
    ensures StripTrailingSlashes(StripTrailingSlashes(s)) == StripTrailingSlashes(s)
  {
    var t := StripTrailingSlashes(s);
    assert |t| == 0 || t[|t| - 1] != '/';
  }

  /** The stripped text is empty exactly when the input is made only of `/`. */
  lemma StripTrailingSlashesEmptyIff(s: string)
    ensures StripTrailingSlashes(s) == "" <==> forall i | 0 <= i < |s| :: s[i] == '/'
  {
  }

}
