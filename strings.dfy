/**
 * The string operations of the JDK and of commons-lang that the generator
 * relies on: `String.startsWith`, `StringUtils.replace`, `StringUtils.isNotBlank`,
 * the natural order of `String` (`compareTo`), `Collections.sort` on a list of
 * strings and `TreeSet<String>`.
 */
module Strings {
  import opened Wrappers

  /** `s.startsWith(prefix)`: a raw character prefix, not path-component aware. */
  predicate StartsWith(s: string, prefix: string) {
    |prefix| <= |s| && s[..|prefix|] == prefix
  }

  /** `search` occurs in `text` at position `i`. */
  predicate OccursAt(text: string, search: string, i: int) {
    0 <= i && i + |search| <= |text| && text[i..i + |search|] == search
  }

  /**
   * `StringUtils.replace(text, search, replacement)`: every non-overlapping
   * occurrence of `search`, found from left to right, is replaced; an empty
   * `search` leaves the text unchanged.
   */
  function Replace(text: string, search: string, replacement: string): string {
    if |search| == 0 then text else ReplaceFrom(text, search, replacement)
  }

  function ReplaceFrom(text: string, search: string, replacement: string): string
    requires |search| > 0
    decreases |text|
  {
    if |text| < |search| then text
    else if StartsWith(text, search) then replacement + ReplaceFrom(text[|search|..], search, replacement)
    else [text[0]] + ReplaceFrom(text[1..], search, replacement)
  }

  /** A text that starts with a non-empty `search` starts with `replacement` afterwards. */
  lemma ReplaceLeading(text: string, search: string, replacement: string)
    requires |search| > 0 && StartsWith(text, search)
    ensures StartsWith(Replace(text, search, replacement), replacement)
  {
    var rest := ReplaceFrom(text[|search|..], search, replacement);
    assert Replace(text, search, replacement) == replacement + rest;
    assert (replacement + rest)[..|replacement|] == replacement;
  }

  /** A text in which `search` does not occur is returned unchanged. */
  lemma {:induction false} ReplaceAbsent(text: string, search: string, replacement: string)
    requires forall i :: !OccursAt(text, search, i)
    ensures Replace(text, search, replacement) == text
    decreases |text|
  {
    if |search| > 0 && |text| >= |search| {
      assert !OccursAt(text, search, 0);
      assert !StartsWith(text, search);
      forall i ensures !OccursAt(text[1..], search, i) {
        if OccursAt(text[1..], search, i) {
          assert text[1..][i..i + |search|] == text[i + 1..i + 1 + |search|];
          assert OccursAt(text, search, i + 1);
        }
      }
      ReplaceAbsent(text[1..], search, replacement);
      assert text == [text[0]] + text[1..];
    }
  }

  /** Whitespace in the sense of `Character.isWhitespace`. */
  predicate IsWhitespace(c: char) {
    ('\t' <= c <= '\r') || ('\U{1C}' <= c <= ' ')
    || c == '\U{1680}' || ('\U{2000}' <= c <= '\U{2006}') || ('\U{2008}' <= c <= '\U{200A}')
    || c == '\U{2028}' || c == '\U{2029}' || c == '\U{205F}' || c == '\U{3000}'
  }

  /** `StringUtils.isNotBlank(s)`: not null, and some character is not whitespace. */
  predicate IsNotBlank(s: Option<string>) {
    s.Some? && exists i :: 0 <= i < |s.value| && !IsWhitespace(s.value[i])
  }

  /**
   * `a.compareTo(b) <= 0`: the first differing character decides; a proper
   * prefix comes first.
   */
  predicate AtMost(a: string, b: string)
    decreases |a|
  {
    if |a| == 0 then true
    else if |b| == 0 then false
    else if a[0] != b[0] then a[0] < b[0]
    else AtMost(a[1..], b[1..])
  }

  /** `a.compareTo(b) < 0`. */
  predicate Below(a: string, b: string) {
    AtMost(a, b) && a != b
  }

  lemma {:induction false} AtMostReflexive(a: string)
    ensures AtMost(a, a)
    decreases |a|
  {
    if |a| > 0 {
      AtMostReflexive(a[1..]);
    }
  }

  lemma {:induction false} AtMostTotal(a: string, b: string)
    ensures AtMost(a, b) || AtMost(b, a)
    decreases |a|
  {
    if |a| > 0 && |b| > 0 && a[0] == b[0] {
      AtMostTotal(a[1..], b[1..]);
    }
  }

  lemma {:induction false} AtMostAntisymmetric(a: string, b: string)
    requires AtMost(a, b) && AtMost(b, a)
    ensures a == b
    decreases |a|
  {
    if |a| > 0 && |b| > 0 {
      AtMostAntisymmetric(a[1..], b[1..]);
      assert a == [a[0]] + a[1..] && b == [b[0]] + b[1..];
    }
  }

  lemma {:induction false} AtMostTransitive(a: string, b: string, c: string)
    requires AtMost(a, b) && AtMost(b, c)
    ensures AtMost(a, c)
    decreases |a|
  {
    if |a| > 0 && a[0] == b[0] && b[0] == c[0] {
      AtMostTransitive(a[1..], b[1..], c[1..]);
    }
  }

  /** The list is in ascending natural order (duplicates allowed). */
  ghost predicate Sorted(s: seq<string>) {
    forall i, j :: 0 <= i < j < |s| ==> AtMost(s[i], s[j])
  }

  /** The list is in strictly ascending natural order: the iteration order of a `TreeSet<String>`. */
  ghost predicate StrictlySorted(s: seq<string>) {
    forall i, j :: 0 <= i < j < |s| ==> Below(s[i], s[j])
  }

  /** Places `x` in front of the first element it does not exceed. */
  function InsertOrdered(s: seq<string>, x: string): seq<string> {
    if s == [] then [x]
    else if AtMost(x, s[0]) then [x] + s
    else [s[0]] + InsertOrdered(s[1..], x)
  }

  lemma {:induction false} InsertOrderedContents(s: seq<string>, x: string)
    ensures multiset(InsertOrdered(s, x)) == multiset(s) + multiset{x}
  {
    if s != [] && !AtMost(x, s[0]) {
      InsertOrderedContents(s[1..], x);
      assert s == [s[0]] + s[1..];
    }
  }

  lemma {:induction false} InsertOrderedSorted(s: seq<string>, x: string)
    requires Sorted(s)
    ensures Sorted(InsertOrdered(s, x))
  {
    var r := InsertOrdered(s, x);
    if s == [] {
    } else if AtMost(x, s[0]) {
      forall j | 0 < j < |r| ensures AtMost(r[0], r[j]) {
        if j > 1 { AtMostTransitive(x, s[0], s[j - 1]); }
      }
    } else {
      AtMostTotal(x, s[0]);
      var t := InsertOrdered(s[1..], x);
      InsertOrderedSorted(s[1..], x);
      InsertOrderedContents(s[1..], x);
      forall j | 0 <= j < |t| ensures AtMost(s[0], t[j]) {
        assert t[j] in multiset(t);
        assert t[j] == x || t[j] in s[1..];
      }
    }
  }

  lemma {:induction false} InsertOrderedStrictlySorted(s: seq<string>, x: string)
    requires StrictlySorted(s) && x !in s
    ensures StrictlySorted(InsertOrdered(s, x))
  {
    var r := InsertOrdered(s, x);
    if s == [] {
    } else if AtMost(x, s[0]) {
      forall j | 0 < j < |r| ensures Below(r[0], r[j]) {
        if j > 1 { AtMostTransitive(x, s[0], s[j - 1]); }
      }
    } else {
      AtMostTotal(x, s[0]);
      var t := InsertOrdered(s[1..], x);
      InsertOrderedStrictlySorted(s[1..], x);
      InsertOrderedContents(s[1..], x);
      forall j | 0 <= j < |t| ensures Below(s[0], t[j]) {
        assert t[j] in multiset(t);
        assert t[j] == x || t[j] in s[1..];
      }
    }
  }

  /** `Collections.sort` on a list of strings, as insertion sort. */
  function Sort(s: seq<string>): seq<string>
    decreases |s|
  {
    if s == [] then [] else InsertOrdered(Sort(s[..|s| - 1]), s[|s| - 1])
  }

  /** The sorted list is in ascending order and holds exactly the input's strings. */
  lemma {:induction false} SortCorrect(s: seq<string>)
    ensures Sorted(Sort(s))
    ensures multiset(Sort(s)) == multiset(s)
    decreases |s|
  {
    if s != [] {
      var init, last := s[..|s| - 1], s[|s| - 1];
      SortCorrect(init);
      InsertOrderedSorted(Sort(init), last);
      InsertOrderedContents(Sort(init), last);
      assert s == init + [last];
    }
  }

  /**
   * Only one ascending order of a given collection of strings exists, so
   * `Sort` agrees with any algorithm that sorts, such as the JDK's merge sort.
   */
  lemma {:induction false} SortedUnique(a: seq<string>, b: seq<string>)
    requires Sorted(a) && Sorted(b) && multiset(a) == multiset(b)
    ensures a == b
    decreases |a|
  {
    if a != [] {
      assert |b| == |multiset(b)| == |multiset(a)| == |a|;
      SortedSameHead(a, b);
      TailMultiset(a);
      TailMultiset(b);
      SortedUnique(a[1..], b[1..]);
      assert a == [a[0]] + a[1..] && b == [b[0]] + b[1..];
    }
  }

  /** Two ascending orders of one collection start with the same string. */
  lemma SortedSameHead(a: seq<string>, b: seq<string>)
    requires Sorted(a) && Sorted(b) && multiset(a) == multiset(b) && a != [] && b != []
    ensures a[0] == b[0]
  {
    assert a[0] in multiset(b) && b[0] in multiset(a);
    var i :| 0 <= i < |b| && b[i] == a[0];
    var j :| 0 <= j < |a| && a[j] == b[0];
    assert AtMost(b[0], a[0]) by { if i > 0 { assert AtMost(b[0], b[i]); } else { AtMostReflexive(b[0]); } }
    assert AtMost(a[0], b[0]) by { if j > 0 { assert AtMost(a[0], a[j]); } else { AtMostReflexive(a[0]); } }
    AtMostAntisymmetric(a[0], b[0]);
  }

  lemma TailMultiset(a: seq<string>)
    requires a != []
    ensures multiset(a[1..]) == multiset(a) - multiset{a[0]}
  {
    assert a == [a[0]] + a[1..];
  }

  /** `TreeSet<String>.add(x)`: a present string is not added twice. */
  function TreeSetAdd(s: seq<string>, x: string): seq<string> {
    if x in s then s else InsertOrdered(s, x)
  }

  lemma TreeSetAddCorrect(s: seq<string>, x: string)
    requires StrictlySorted(s)
    ensures StrictlySorted(TreeSetAdd(s, x))
    ensures forall y :: y in TreeSetAdd(s, x) <==> y in s || y == x
  {
    if x !in s {
      InsertOrderedStrictlySorted(s, x);
      InsertOrderedContents(s, x);
      forall y ensures y in TreeSetAdd(s, x) <==> y in s || y == x {
        assert y in TreeSetAdd(s, x) <==> y in multiset(TreeSetAdd(s, x));
      }
    }
  }

  /** `TreeSet<String>.addAll(xs)`. */
  function TreeSetAddAll(s: seq<string>, xs: seq<string>): seq<string>
    decreases |xs|
  {
    if xs == [] then s else TreeSetAdd(TreeSetAddAll(s, xs[..|xs| - 1]), xs[|xs| - 1])
  }

  lemma {:induction false} TreeSetAddAllCorrect(s: seq<string>, xs: seq<string>)
    requires StrictlySorted(s)
    ensures StrictlySorted(TreeSetAddAll(s, xs))
    ensures forall y :: y in TreeSetAddAll(s, xs) <==> y in s || y in xs
    decreases |xs|
  {
    if xs != [] {
      var init := xs[..|xs| - 1];
      TreeSetAddAllCorrect(s, init);
      TreeSetAddCorrect(TreeSetAddAll(s, init), xs[|xs| - 1]);
      assert xs == init + [xs[|xs| - 1]];
    }
  }
}
