/**
 * `PathNormalizer.normalizePath`: converts backslashes to forward slashes and
 * removes repeated separators. The Java code is two chained regular-expression
 * replacements; here each is a left-to-right pass over the characters that
 * remembers whether the previous character belonged to the run being replaced.
 */
module PathNormalizer {
  import opened Wrappers

  predicate IsSeparator(c: char) {
    c == '/' || c == '\\'
  }

  /** `replaceAll("\\\\+", "/")`: each run of backslashes becomes one `/`. */
  function BackslashRunsToSlash(s: string, inRun: bool): string
    decreases |s|
  {
    if s == [] then []
    else if s[0] == '\\' then (if inRun then [] else ['/']) + BackslashRunsToSlash(s[1..], true)
    else [s[0]] + BackslashRunsToSlash(s[1..], false)
  }

  /** `replaceAll("/+", "/")`: each run of forward slashes becomes one `/`. */
  function CollapseSlashes(s: string, inRun: bool): string
    decreases |s|
  {
    if s == [] then []
    else if s[0] == '/' then (if inRun then [] else ['/']) + CollapseSlashes(s[1..], true)
    else [s[0]] + CollapseSlashes(s[1..], false)
  }

  /** `normalizePath` on a non-null path. */
  function Normalize(path: string): string {
    CollapseSlashes(BackslashRunsToSlash(path, false), false)
  }

  /** `normalizePath`, where `None` is `null`. */
  function NormalizePath(path: Option<string>): (r: Option<string>)
    ensures path.None? ==> r.None?
    ensures path == Some("") ==> r == Some("")
    ensures path.Some? ==> r.Some? && |r.value| <= |path.value|
    ensures path.Some? ==> NoBackslash(r.value) && NoDoubleSlash(r.value)
  {
    if path.None? then None
    else
      NormalizeMatchesReference(path.value);
      ReferenceForm(path.value, false);
      ReferenceShortens(path.value, false);
      Some(Normalize(path.value))
  }

  /**
   * The reference reading of the two passes together: every maximal run of
   * separators, in any mix of `/` and `\`, becomes exactly one `/`, and every
   * other character is kept.
   */
  function SeparatorRunsToSlash(s: string, inRun: bool): string
    decreases |s|
  {
    if s == [] then []
    else if IsSeparator(s[0]) then (if inRun then [] else ['/']) + SeparatorRunsToSlash(s[1..], true)
    else [s[0]] + SeparatorRunsToSlash(s[1..], false)
  }

  predicate NoBackslash(s: string) {
    forall i :: 0 <= i < |s| ==> s[i] != '\\'
  }

  predicate NoDoubleSlash(s: string) {
    forall i :: 0 <= i < |s| - 1 ==> !(s[i] == '/' && s[i + 1] == '/')
  }

  /** The characters of `s` that are not separators, in order. */
  function NonSeparators(s: string): string
    decreases |s|
  {
    if s == [] then [] else (if IsSeparator(s[0]) then [] else [s[0]]) + NonSeparators(s[1..])
  }

  /**
   * After a prefix of the input, the first pass is inside a backslash run only
   * if the last character was a backslash, and the second pass is inside a
   * slash run exactly when the last character was a separator.
   */
  lemma {:induction false} PassesMatchReference(s: string, inBackslashes: bool, inSeparators: bool)
    requires inBackslashes ==> inSeparators
    ensures CollapseSlashes(BackslashRunsToSlash(s, inBackslashes), inSeparators)
         == SeparatorRunsToSlash(s, inSeparators)
    decreases |s|
  {
    if s != [] {
      var rest := BackslashRunsToSlash(s[1..], s[0] == '\\');
      if s[0] == '\\' && inBackslashes {
        PassesMatchReference(s[1..], true, true);
        assert BackslashRunsToSlash(s, inBackslashes) == rest;
        assert SeparatorRunsToSlash(s, inSeparators) == SeparatorRunsToSlash(s[1..], true);
      } else if IsSeparator(s[0]) {
        PassesMatchReference(s[1..], s[0] == '\\', true);
        assert BackslashRunsToSlash(s, inBackslashes) == ['/'] + rest;
        assert (['/'] + rest)[1..] == rest;
      } else {
        PassesMatchReference(s[1..], false, false);
        assert BackslashRunsToSlash(s, inBackslashes) == [s[0]] + rest;
        assert ([s[0]] + rest)[1..] == rest;
      }
    }
  }

  /** The two regular-expression passes compute the reference reading. */
  lemma NormalizeMatchesReference(path: string)
    ensures Normalize(path) == SeparatorRunsToSlash(path, false)
  {
    PassesMatchReference(path, false, false);
  }

  lemma {:induction false} ReferenceForm(s: string, inRun: bool)
    ensures NoBackslash(SeparatorRunsToSlash(s, inRun))
    ensures NoDoubleSlash(SeparatorRunsToSlash(s, inRun))
    ensures inRun && SeparatorRunsToSlash(s, inRun) != [] ==> SeparatorRunsToSlash(s, inRun)[0] != '/'
    decreases |s|
  {
    if s != [] {
      ReferenceForm(s[1..], IsSeparator(s[0]));
    }
  }

  lemma {:induction false} ReferenceShortens(s: string, inRun: bool)
    ensures |SeparatorRunsToSlash(s, inRun)| <= |s|
    decreases |s|
  {
    if s != [] {
      ReferenceShortens(s[1..], IsSeparator(s[0]));
    }
  }

  lemma {:induction false} ReferenceFixedPoint(s: string, inRun: bool)
    requires NoBackslash(s) && NoDoubleSlash(s)
    requires inRun && s != [] ==> s[0] != '/'
    ensures SeparatorRunsToSlash(s, inRun) == s
    decreases |s|
  {
    if s != [] {
      assert NoDoubleSlash(s[1..]) by {
        forall i | 0 <= i < |s[1..]| - 1 ensures !(s[1..][i] == '/' && s[1..][i + 1] == '/') {
          assert s[1..][i] == s[i + 1] && s[1..][i + 1] == s[i + 2];
        }
      }
      ReferenceFixedPoint(s[1..], IsSeparator(s[0]));
      assert s == [s[0]] + s[1..];
    }
  }

  lemma {:induction false} ReferenceKeepsNonSeparators(s: string, inRun: bool)
    ensures NonSeparators(SeparatorRunsToSlash(s, inRun)) == NonSeparators(s)
    decreases |s|
  {
    if s != [] {
      var rest := SeparatorRunsToSlash(s[1..], IsSeparator(s[0]));
      ReferenceKeepsNonSeparators(s[1..], IsSeparator(s[0]));
      if IsSeparator(s[0]) && !inRun {
        assert SeparatorRunsToSlash(s, inRun) == ['/'] + rest;
        assert (['/'] + rest)[1..] == rest;
      } else if !IsSeparator(s[0]) {
        assert SeparatorRunsToSlash(s, inRun) == [s[0]] + rest;
        assert ([s[0]] + rest)[1..] == rest;
        assert NonSeparators([s[0]] + rest) == [s[0]] + NonSeparators(rest);
        assert NonSeparators(s) == [s[0]] + NonSeparators(s[1..]);
      } else {
        assert SeparatorRunsToSlash(s, inRun) == rest;
        assert NonSeparators(s) == NonSeparators(s[1..]);
      }
    }
  }

  /** No backslash and no `//` remain, and the path never grows. */
  lemma NormalizedForm(path: string)
    ensures NoBackslash(Normalize(path)) && NoDoubleSlash(Normalize(path))
    ensures |Normalize(path)| <= |path|
  {
    NormalizeMatchesReference(path);
    ReferenceForm(path, false);
    ReferenceShortens(path, false);
  }

  /** A path without backslashes and without `//` is returned unchanged. */
  lemma NormalizeFixedPoint(path: string)
    requires NoBackslash(path) && NoDoubleSlash(path)
    ensures Normalize(path) == path
  {
    NormalizeMatchesReference(path);
    ReferenceFixedPoint(path, false);
  }

  /** Normalizing twice is normalizing once. */
  lemma NormalizeIdempotent(path: string)
    ensures Normalize(Normalize(path)) == Normalize(path)
  {
    NormalizedForm(path);
    NormalizeFixedPoint(Normalize(path));
  }

  /** The characters other than separators are kept, in order. */
  lemma NormalizeKeepsNonSeparators(path: string)
    ensures NonSeparators(Normalize(path)) == NonSeparators(path)
  {
    NormalizeMatchesReference(path);
    ReferenceKeepsNonSeparators(path, false);
  }
}
