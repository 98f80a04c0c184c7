/** Filename handling in api/server.js: the upload sanitiser (multer's
    `filename` callback) and the guard the parsed, raw and delete routes apply
    to the `:name` path parameter. */
module Filenames {
  import opened JsStrings

  /** JavaScript's `\s` class: the ECMAScript white-space and line-terminator
      characters. */
  predicate IsJsSpace(c: char) {
    || c == '\t' || c == '\n' || c == '\U{000B}' || c == '\U{000C}' || c == '\r' || c == ' '
    || c == '\U{00A0}' || c == '\U{1680}' || ('\U{2000}' <= c <= '\U{200A}')
    || c == '\U{2028}' || c == '\U{2029}' || c == '\U{202F}' || c == '\U{205F}'
    || c == '\U{3000}' || c == '\U{FEFF}'
  }

  /** A character of the sanitiser's class `[a-zA-Z0-9._\-\s()%]`. */
  predicate IsUploadChar(c: char) {
    || 'a' <= c <= 'z' || 'A' <= c <= 'Z' || '0' <= c <= '9'
    || c == '.' || c == '_' || c == '-' || IsJsSpace(c)
    || c == '(' || c == ')' || c == '%'
  }

  /** Every character is one the sanitiser keeps. */
  predicate IsCleanName(s: string) {
    forall i | 0 <= i < |s| :: IsUploadChar(s[i])
  }

  /** Drops the leading run of characters the sanitiser replaces. */
  function SkipRun(s: string): (t: string)
    ensures |t| <= |s|
    ensures t == s[|s| - |t|..]
    ensures |t| == 0 || IsUploadChar(t[0])
  {
    if |s| > 0 && !IsUploadChar(s[0]) then SkipRun(s[1..]) else s
  }

  /** Everything `SkipRun` drops is a replaced character. */
  lemma {:induction false} SkipRunDropsReplaced(s: string, i: nat)
    requires i < |s| - |SkipRun(s)|
    ensures !IsUploadChar(s[i])
  {
    if i > 0 {
      SkipRunDropsReplaced(s[1..], i - 1);
    }
  }

  /** `originalname.replace(/[^a-zA-Z0-9._\-\s()%]+/g, '_')`: each maximal run of
      other characters becomes one `_`. The result is never longer than the
      input, and empty only for an empty input. */
  function Sanitize(s: string): (t: string)
    ensures |t| <= |s|
    ensures |t| == 0 <==> |s| == 0
    decreases |s|
  {
    if |s| == 0 then ""
    else if IsUploadChar(s[0]) then [s[0]] + Sanitize(s[1..])
    else "_" + Sanitize(SkipRun(s[1..]))
  }

  /** Every character of a sanitised name is one the sanitiser keeps. */
  lemma {:induction false} SanitizeIsClean(s: string)
    ensures IsCleanName(Sanitize(s))
    decreases |s|
  {
    if |s| > 0 {
      var rest := if IsUploadChar(s[0]) then s[1..] else SkipRun(s[1..]);
      var head := if IsUploadChar(s[0]) then [s[0]] else "_";
      SanitizeIsClean(rest);
      assert Sanitize(s) == head + Sanitize(rest);
      forall i | 0 <= i < |Sanitize(s)| ensures IsUploadChar(Sanitize(s)[i]) {
        if i > 0 {
          assert Sanitize(s)[i] == Sanitize(rest)[i - 1];
        }
      }
    }
  }

  /** A name that is already clean comes out unchanged. */
  lemma {:induction false} SanitizeKeepsCleanNames(s: string)
    requires IsCleanName(s)
    ensures Sanitize(s) == s
    decreases |s|
  {
    if |s| > 0 {
      SanitizeKeepsCleanNames(s[1..]);
    }
  }

  /** Sanitising twice changes nothing more. */
  lemma SanitizeIdempotent(s: string)
    ensures Sanitize(Sanitize(s)) == Sanitize(s)
  {
    SanitizeIsClean(s);
    SanitizeKeepsCleanNames(Sanitize(s));
  }

  /** A name is left unchanged exactly when it is clean. */
  lemma SanitizeFixedPointIff(s: string)
    ensures Sanitize(s) == s <==> IsCleanName(s)
  {
    SanitizeIsClean(s);
    if IsCleanName(s) {
      SanitizeKeepsCleanNames(s);
    }
  }

  /** A run made only of replaced characters becomes a single `_`. */
  lemma {:induction false} SanitizeCollapsesRun(s: string)
    requires |s| > 0
    requires forall i | 0 <= i < |s| :: !IsUploadChar(s[i])
    ensures Sanitize(s) == "_"
  {
  }

  /** Skipping a run of replaced characters stops at the first kept one. */
  lemma {:induction false} SkipRunDirty(d: string, b: string)
    requires forall i | 0 <= i < |d| :: !IsUploadChar(d[i])
    requires |b| == 0 || IsUploadChar(b[0])
    ensures SkipRun(d + b) == b
    decreases |d|
  {
    if |d| > 0 {
      assert (d + b)[0] == d[0];
      assert (d + b)[1..] == d[1..] + b;
      SkipRunDirty(d[1..], b);
    } else {
      assert d + b == b;
    }
  }

  /** The global `+` replacement: a maximal run of replaced characters, wherever
      it stands, becomes one `_`, and what follows is sanitised on its own. */
  lemma SanitizeRunThenRest(d: string, b: string)
    requires |d| > 0
    requires forall i | 0 <= i < |d| :: !IsUploadChar(d[i])
    requires |b| == 0 || IsUploadChar(b[0])
    ensures Sanitize(d + b) == "_" + Sanitize(b)
  {
    var rest := d[1..];
    assert forall i | 0 <= i < |rest| :: !IsUploadChar(rest[i]) by {
      forall i | 0 <= i < |rest| ensures !IsUploadChar(rest[i]) {
        assert rest[i] == d[i + 1];
      }
    }
    SkipRunDirty(rest, b);
    assert (d + b)[0] == d[0] && !IsUploadChar(d[0]);
    assert (d + b)[1..] == rest + b;
    assert Sanitize(d + b) == "_" + Sanitize(SkipRun(rest + b));
  }

  /** A disallowed character between kept ones becomes `_`, each side kept. */
  lemma SanitizeExamples()
    ensures Sanitize("a:b") == "a_b"
  {
    SanitizeSeparatorBetween('a', ':', 'b');
  }

  /** The three-character case of `SanitizeExamples`, for any characters. */
  lemma SanitizeSeparatorBetween(a: char, d: char, b: char)
    requires IsUploadChar(a) && !IsUploadChar(d) && IsUploadChar(b)
    ensures Sanitize([a, d, b]) == [a, '_', b]
  {
    SanitizeReplacedThenKept(d, b);
    assert [a, d, b][1..] == [d, b];
  }

  /** A replaced character followed by a kept one. */
  lemma SanitizeReplacedThenKept(d: char, b: char)
    requires !IsUploadChar(d) && IsUploadChar(b)
    ensures Sanitize([d, b]) == ['_', b]
  {
    SanitizeOneKept(b);
    assert [d, b][1..] == [b];
    assert SkipRun([b]) == [b];
  }

  /** A single kept character. */
  lemma SanitizeOneKept(b: char)
    requires IsUploadChar(b)
    ensures Sanitize([b]) == [b]
  {
    assert [b][1..] == [];
  }

  /** Unlike the guard, the sanitiser on its own does not keep a name inside
      the data directory: `.` and `..` are made of kept characters, come out
      unchanged, and name the directory itself and its parent. */
  lemma SanitizeKeepsDotSegments()
    ensures Sanitize(".") == "." && !StaysInDirectory(Sanitize("."))
    ensures Sanitize("..") == ".." && !StaysInDirectory(Sanitize(".."))
  {
    SanitizeKeepsCleanNames(".");
    SanitizeKeepsCleanNames("..");
  }

  /** Kept characters cut the name into independent pieces: after a kept
      character the rest is sanitised on its own. */
  lemma {:induction false} SanitizeSplitsAfterKeptChar(a: string, b: string)
    requires |a| > 0 && IsUploadChar(a[|a| - 1])
    ensures Sanitize(a + b) == Sanitize(a) + Sanitize(b)
    decreases |a|
  {
    if |a| == 1 {
      assert a[1..] + b == b;
      SanitizeStepKept(a, b);
    } else {
      var rest := a[1..];
      assert rest[|rest| - 1] == a[|a| - 1];
      if IsUploadChar(a[0]) {
        SanitizeSplitsAfterKeptChar(rest, b);
        SanitizeStepKept(a, b);
      } else {
        SkipRunKeepsLastKept(rest);
        SanitizeSplitsAfterKeptChar(SkipRun(rest), b);
        SanitizeStepReplaced(a, b);
      }
    }
  }

  /** The step of `SanitizeSplitsAfterKeptChar` past a kept first character. */
  lemma SanitizeStepKept(a: string, b: string)
    requires |a| > 0 && IsUploadChar(a[0])
    requires Sanitize(a[1..] + b) == Sanitize(a[1..]) + Sanitize(b)
    ensures Sanitize(a + b) == Sanitize(a) + Sanitize(b)
  {
    SanitizeUnfoldKept(a, b);
    ConcatAssoc([a[0]], Sanitize(a[1..]), Sanitize(b));
  }

  /** The step of `SanitizeSplitsAfterKeptChar` past a replaced run. */
  lemma SanitizeStepReplaced(a: string, b: string)
    requires |a| > 1 && !IsUploadChar(a[0]) && IsUploadChar(a[|a| - 1])
    requires Sanitize(SkipRun(a[1..]) + b) == Sanitize(SkipRun(a[1..])) + Sanitize(b)
    ensures Sanitize(a + b) == Sanitize(a) + Sanitize(b)
  {
    SanitizeUnfoldReplaced(a, b);
    ConcatAssoc("_", Sanitize(SkipRun(a[1..])), Sanitize(b));
  }

  /** Sequence concatenation is associative (stated on its own to keep the
      proof above small). */
  lemma ConcatAssoc(x: string, y: string, z: string)
    ensures x + (y + z) == (x + y) + z
  {
  }

  /** One step of `Sanitize(a + b)` when `a` starts with a kept character. */
  lemma SanitizeUnfoldKept(a: string, b: string)
    requires |a| > 0 && IsUploadChar(a[0])
    ensures Sanitize(a + b) == [a[0]] + Sanitize(a[1..] + b)
    ensures Sanitize(a) == [a[0]] + Sanitize(a[1..])
  {
    assert (a + b)[0] == a[0];
    assert (a + b)[1..] == a[1..] + b;
  }

  /** One step of `Sanitize(a + b)` when `a` starts with a replaced character
      and ends with a kept one. */
  lemma SanitizeUnfoldReplaced(a: string, b: string)
    requires |a| > 1 && !IsUploadChar(a[0]) && IsUploadChar(a[|a| - 1])
    ensures Sanitize(a + b) == "_" + Sanitize(SkipRun(a[1..]) + b)
    ensures Sanitize(a) == "_" + Sanitize(SkipRun(a[1..]))
  {
    assert (a + b)[0] == a[0];
    assert (a + b)[1..] == a[1..] + b;
    assert a[1..][|a[1..]| - 1] == a[|a| - 1];
    SkipRunAppend(a[1..], b);
  }

  /** Skipping a run that stops before a kept last character leaves that
      character in place. */
  lemma SkipRunKeepsLastKept(s: string)
    requires |s| > 0 && IsUploadChar(s[|s| - 1])
    ensures |SkipRun(s)| > 0 && SkipRun(s)[|SkipRun(s)| - 1] == s[|s| - 1]
  {
    if |SkipRun(s)| == 0 {
      SkipRunDropsReplaced(s, |s| - 1);
    }
  }

  /** Skipping a run that ends inside `a` does not look at `b`. */
  lemma {:induction false} SkipRunAppend(a: string, b: string)
    requires |a| > 0 && IsUploadChar(a[|a| - 1])
    ensures SkipRun(a + b) == SkipRun(a) + b
    decreases |a|
  {
    if !IsUploadChar(a[0]) {
      assert |a| > 1;
      assert (a + b)[1..] == a[1..] + b;
      SkipRunAppend(a[1..], b);
    }
  }

  /** A sanitised name never holds a path separator. */
  lemma SanitizedNameHasNoSeparator(s: string)
    ensures '/' !in Sanitize(s) && '\\' !in Sanitize(s)
  {
    var t := Sanitize(s);
    SanitizeIsClean(s);
    assert forall i | 0 <= i < |t| :: t[i] != '/' && t[i] != '\\' by {
      forall i | 0 <= i < |t| ensures t[i] != '/' && t[i] != '\\' {
        assert IsUploadChar(t[i]);
      }
    }
  }

  /** A character of the route guard's class `[\w.\- %()]`; `\w` is
      `[A-Za-z0-9_]`. */
  predicate IsGuardChar(c: char) {
    || 'A' <= c <= 'Z' || 'a' <= c <= 'z' || '0' <= c <= '9' || c == '_'
    || c == '.' || c == '-' || c == ' ' || c == '%' || c == '(' || c == ')'
  }

  /** `name.toLowerCase().endsWith('.xlsx')`, the suffix test of the guard and
      of the `GET /api/files` listing: the last five characters, lower-cased,
      are `.xlsx`. */
  predicate HasXlsxSuffix(name: string)
    ensures HasXlsxSuffix(name) <==> |name| >= 5 && Lower(name[|name| - 5..]) == ".xlsx"
  {
    LowerSuffix(name, 5);
    EndsWith(Lower(name), ".xlsx")
  }

  /** Only `.` lower-cases to `.`, so the dot of the suffix is in the name. */
  lemma XlsxSuffixHasDot(name: string)
    ensures HasXlsxSuffix(name) ==> name[|name| - 5] == '.'
  {
    if HasXlsxSuffix(name) {
      assert Lower(name[|name| - 5..])[0] == LowerChar(name[|name| - 5]);
    }
  }

  /** `/^[\w.\- %()]+$/.test(name) && name.toLowerCase().endsWith('.xlsx')`.
      The shortest accepted name is `.xlsx` itself: five characters at least,
      the fifth from the end a dot, and nothing outside the sanitiser's class. */
  predicate IsAllowedName(name: string)
    ensures IsAllowedName(name) ==> |name| >= 5 && name[|name| - 5] == '.'
  {
    XlsxSuffixHasDot(name);
    && |name| > 0
    && (forall i | 0 <= i < |name| :: IsGuardChar(name[i]))
    && HasXlsxSuffix(name)
  }

  /** The runnable form of the guard the routes apply, evaluated as they do:
      the character test first, then the suffix test. */
  method CheckName(name: string) returns (ok: bool)
    ensures ok <==> IsAllowedName(name)
  {
    if |name| == 0 {
      return false;
    }
    var i := 0;
    while i < |name|
      invariant 0 <= i <= |name|
      invariant forall j | 0 <= j < i :: IsGuardChar(name[j])
    {
      if !IsGuardChar(name[i]) {
        return false;
      }
      i := i + 1;
    }
    var lower := Lower(name);
    ok := |lower| >= 5 && lower[|lower| - 5..] == ".xlsx";
  }

  /** `path.join(dir, name)` names an entry directly inside `dir`: one
      non-empty path segment that is neither `.` nor `..`. */
  predicate StaysInDirectory(name: string) {
    && |name| > 0
    && '/' !in name && '\\' !in name
    && name != "." && name != ".."
  }

  /** Every name the guard lets through stays inside the data directory. */
  lemma AllowedNameStaysInDirectory(name: string)
    requires IsAllowedName(name)
    ensures StaysInDirectory(name)
  {
    assert |Lower(name)| >= 5;
    forall i | 0 <= i < |name| ensures name[i] != '/' && name[i] != '\\' {
      assert IsGuardChar(name[i]);
    }
  }

  /** The guard's class lies inside the sanitiser's, so a name the guard
      accepts is one the sanitiser would store unchanged. */
  lemma AllowedNameIsClean(name: string)
    requires IsAllowedName(name)
    ensures Sanitize(name) == name
  {
    assert IsCleanName(name) by {
      forall i | 0 <= i < |name| ensures IsUploadChar(name[i]) {
        assert IsGuardChar(name[i]);
      }
    }
    SanitizeKeepsCleanNames(name);
  }

  /** The suffix test ignores case; names with other suffixes, traversal
      attempts and names outside the class are refused. */
  lemma GuardExamples()
    ensures IsAllowedName("Report (1).XLSX")
    ensures !IsAllowedName("report.xls")
    ensures !IsAllowedName("../secret.xlsx")
    ensures !IsAllowedName(".xlsx\n")
  {
    assert Lower("Report (1).XLSX")[10..] == ".xlsx";
    assert Lower("report.xls")[5..] == "t.xls";
    assert !IsGuardChar("../secret.xlsx"[2]);
    assert !IsGuardChar(".xlsx\n"[5]);
  }
}
