/** The string operations the script applies to titles and collection names:
    Python's `str.lower`, `str.title` and `str.replace`, and the code-point
    ordering Python uses to compare strings. Case mapping is modelled for ASCII
    letters only; every other character passes through unchanged. */
module Text {
  import Sorting

  predicate IsUpper(c: char) { 'A' <= c <= 'Z' }

  predicate IsLower(c: char) { 'a' <= c <= 'z' }

  /** A character Python calls "cased"; within ASCII these are the letters. */
  predicate IsCased(c: char) { IsUpper(c) || IsLower(c) }

  predicate IsAscii(s: string) {
    forall i :: 0 <= i < |s| ==> s[i] < 128 as char
  }

  function ToLower(c: char): char {
    if IsUpper(c) then (c as int + 32) as char else c
  }

  function ToUpper(c: char): char {
    if IsLower(c) then (c as int - 32) as char else c
  }

  /** `s.lower()`: no upper-case letter is left, and each character keeps its
      letter, ignoring case. */
  function Lower(s: string): (r: string)
    ensures |r| == |s|
    ensures forall i :: 0 <= i < |s| ==> !IsUpper(r[i]) && ToUpper(r[i]) == ToUpper(s[i])
    ensures forall i :: 0 <= i < |s| && !IsUpper(s[i]) ==> r[i] == s[i]
  {
    seq(|s|, i requires 0 <= i < |s| => ToLower(s[i]))
  }

  /** `s.replace(from, to)` for one-character `from` and `to`. */
  function ReplaceChar(s: string, from: char, to: char): (r: string)
    ensures |r| == |s|
    ensures from != to ==> from !in r
    ensures forall i :: 0 <= i < |s| && s[i] != from ==> r[i] == s[i]
    ensures forall i :: 0 <= i < |s| && s[i] == from ==> r[i] == to
  {
    seq(|s|, i requires 0 <= i < |s| => if s[i] == from then to else s[i])
  }

  /** Replacing back undoes a replacement whose target character was absent. */
  lemma ReplaceCharInverse(s: string, from: char, to: char)
    requires to !in s
    ensures ReplaceChar(ReplaceChar(s, from, to), to, from) == s
  {
    var r := ReplaceChar(s, from, to);
    forall i | 0 <= i < |s|
      ensures ReplaceChar(r, to, from)[i] == s[i]
    {
      assert s[i] != to;
    }
  }

  /** `s.title()`: a cased character is upper-cased when the character before it
      is not cased (or it is first) and lower-cased otherwise. */
  function Title(s: string): string {
    TitleAfter(s, false)
  }

  function TitleAfter(s: string, previousIsCased: bool): (r: string)
    ensures |r| == |s|
    ensures forall i :: 0 <= i < |s| ==>
      r[i] == (if (if i == 0 then previousIsCased else IsCased(s[i - 1])) then ToLower(s[i]) else ToUpper(s[i]))
    decreases |s|
  {
    if |s| == 0 then []
    else
      [if previousIsCased then ToLower(s[0]) else ToUpper(s[0])]
      + TitleAfter(s[1..], IsCased(s[0]))
  }

  predicate StartsWith(s: string, prefix: string) {
    |prefix| <= |s| && s[..|prefix|] == prefix
  }

  /** `pattern in s` */
  predicate Occurs(pattern: string, s: string)
    decreases |s|
  {
    StartsWith(s, pattern) || (|s| > 0 && Occurs(pattern, s[1..]))
  }

  /** `s.replace(pattern, '')`: scanning left to right, every occurrence of
      `pattern` that does not overlap an earlier removed one is deleted. */
  function RemoveAll(s: string, pattern: string): (r: string)
    requires |pattern| > 0
    ensures |r| <= |s|
    ensures !Occurs(pattern, s) ==> r == s
    ensures StartsWith(s, pattern) ==> r == RemoveAll(s[|pattern|..], pattern)
    decreases |s|
  {
    if StartsWith(s, pattern) then RemoveAll(s[|pattern|..], pattern)
    else if |s| == 0 then []
    else [s[0]] + RemoveAll(s[1..], pattern)
  }

  /** No occurrence of `pattern` starts at any of the first `m` positions of `s`. */
  predicate NoOccurrenceBefore(s: string, pattern: string, m: nat)
    decreases m
  {
    m == 0 || (|s| > 0 && !StartsWith(s, pattern) && NoOccurrenceBefore(s[1..], pattern, m - 1))
  }

  /** `NoOccurrenceBefore` says, position by position, that none of the first
      `m` suffixes starts with the pattern. */
  lemma {:induction false} NoOccurrenceBeforeMeans(s: string, pattern: string, m: nat)
    requires m <= |s|
    ensures NoOccurrenceBefore(s, pattern, m) <==> forall k :: 0 <= k < m ==> !StartsWith(s[k..], pattern)
    decreases m
  {
    if m > 0 {
      NoOccurrenceBeforeMeans(s[1..], pattern, m - 1);
      assert s[0..] == s;
      forall k | 0 < k < m
        ensures s[1..][k - 1..] == s[k..]
      {
      }
      if forall k :: 0 <= k < m ==> !StartsWith(s[k..], pattern) {
        forall k | 0 <= k < m - 1
          ensures !StartsWith(s[1..][k..], pattern)
        {
          assert s[1..][k..] == s[k + 1..];
        }
      }
    }
  }

  /** The scan deletes the leftmost occurrence wherever it is: text before it
      that starts no occurrence is kept as it is, and the scan resumes after it. */
  lemma RemoveAllLeftmost(s: string, pattern: string, a: string, c: string)
    requires |pattern| > 0
    requires s == a + pattern + c
    requires forall k :: 0 <= k < |a| ==> !StartsWith(s[k..], pattern)
    ensures RemoveAll(s, pattern) == a + RemoveAll(c, pattern)
  {
    NoOccurrenceBeforeMeans(s, pattern, |a|);
    SkipToOccurrence(s, pattern, a, c);
  }

  /** `RemoveAllLeftmost`, by induction on the kept prefix. */
  lemma {:induction false} SkipToOccurrence(s: string, pattern: string, a: string, c: string)
    requires |pattern| > 0
    requires s == a + pattern + c
    requires NoOccurrenceBefore(s, pattern, |a|)
    ensures RemoveAll(s, pattern) == a + RemoveAll(c, pattern)
    decreases |a|
  {
    if |a| == 0 {
      assert s == pattern + c;
      DropsOccurrence(pattern, c);
    } else {
      StepInside(s, pattern, a, c);
      SkipToOccurrence(s[1..], pattern, a[1..], c);
      KeepsHead(s, pattern);
      PrependHead(a, RemoveAll(c, pattern));
    }
  }

  /** Moving one character into the scan keeps the shape `a + pattern + c`. */
  lemma StepInside(s: string, pattern: string, a: string, c: string)
    requires |a| > 0
    requires s == a + pattern + c
    requires NoOccurrenceBefore(s, pattern, |a|)
    ensures s[1..] == a[1..] + pattern + c
    ensures NoOccurrenceBefore(s[1..], pattern, |a[1..]|)
    ensures !StartsWith(s, pattern) && s[0] == a[0]
  {
  }

  lemma PrependHead(a: string, t: string)
    requires |a| > 0
    ensures [a[0]] + (a[1..] + t) == a + t
  {
    assert a == [a[0]] + a[1..];
  }

  /** An occurrence at the front is deleted and the scan resumes after it. */
  lemma DropsOccurrence(pattern: string, c: string)
    requires |pattern| > 0
    ensures RemoveAll(pattern + c, pattern) == RemoveAll(c, pattern)
  {
    var s := pattern + c;
    assert s[..|pattern|] == pattern;
    assert s[|pattern|..] == c;
  }

  /** A string that does not start with the pattern keeps its first character. */
  lemma KeepsHead(s: string, pattern: string)
    requires |pattern| > 0 && |s| > 0
    requires !StartsWith(s, pattern)
    ensures RemoveAll(s, pattern) == [s[0]] + RemoveAll(s[1..], pattern)
  {
  }

  /** `a < b` on Python strings: the first differing code point decides, and a
      proper prefix comes first. */
  predicate LexLess(a: string, b: string)
    decreases |a|
  {
    if |a| == 0 then |b| > 0
    else if |b| == 0 then false
    else if a[0] == b[0] then LexLess(a[1..], b[1..])
    else a[0] < b[0]
  }

  /** Shorter strings first, equal lengths lexicographically. */
  predicate ShortLexLess(a: string, b: string) {
    |a| < |b| || (|a| == |b| && LexLess(a, b))
  }

  // Character-level facts about the case mappings.

  lemma CaseMappingsIgnoreCase(c: char)
    ensures ToLower(ToLower(c)) == ToLower(c)
    ensures ToUpper(ToLower(c)) == ToUpper(c)
    ensures IsCased(ToLower(c)) == IsCased(c)
  {
  }

  /** A string shorter than the pattern cannot contain it. */
  lemma {:induction false} ShortStringHasNoOccurrence(pattern: string, s: string)
    requires |s| < |pattern|
    ensures !Occurs(pattern, s)
  {
    if |s| > 0 {
      ShortStringHasNoOccurrence(pattern, s[1..]);
    }
  }

  /** Title-casing looks only at which characters are letters, so lower-casing
      first changes nothing. */
  lemma {:induction false} TitleOfLower(s: string, previousIsCased: bool)
    ensures TitleAfter(Lower(s), previousIsCased) == TitleAfter(s, previousIsCased)
  {
    if |s| > 0 {
      assert Lower(s)[1..] == Lower(s[1..]);
      CaseMappingsIgnoreCase(s[0]);
      TitleOfLower(s[1..], IsCased(s[0]));
    }
  }

  // The ordering on strings is a strict total order.

  lemma {:induction false} LexLessIrreflexive(a: string)
    ensures !LexLess(a, a)
  {
    if |a| > 0 {
      LexLessIrreflexive(a[1..]);
    }
  }

  lemma {:induction false} LexLessTransitive(a: string, b: string, c: string)
    requires LexLess(a, b) && LexLess(b, c)
    ensures LexLess(a, c)
    decreases |a|
  {
    if |a| > 0 && |b| > 0 && |c| > 0 && a[0] == b[0] && b[0] == c[0] {
      LexLessTransitive(a[1..], b[1..], c[1..]);
    }
  }

  lemma {:induction false} LexLessTotal(a: string, b: string)
    requires a != b
    ensures LexLess(a, b) || LexLess(b, a)
    decreases |a|
  {
    if |a| > 0 && |b| > 0 && a[0] == b[0] {
      assert a == [a[0]] + a[1..] && b == [b[0]] + b[1..];
      LexLessTotal(a[1..], b[1..]);
    }
  }

  lemma LexLessIsStrictTotalOrder()
    ensures Sorting.StrictTotalOrder(LexLess)
  {
    forall a: string
      ensures !LexLess(a, a)
    {
      LexLessIrreflexive(a);
    }
    forall a: string, b: string, c: string | LexLess(a, b) && LexLess(b, c)
      ensures LexLess(a, c)
    {
      LexLessTransitive(a, b, c);
    }
    forall a: string, b: string | a != b
      ensures LexLess(a, b) || LexLess(b, a)
    {
      LexLessTotal(a, b);
    }
  }

  lemma ShortLexLessIsStrictTotalOrder()
    ensures Sorting.StrictTotalOrder(ShortLexLess)
  {
    LexLessIsStrictTotalOrder();
  }

  /** A common prefix does not change the order. */
  lemma {:induction false} LexLessCommonPrefix(p: string, a: string, b: string)
    ensures LexLess(p + a, p + b) == LexLess(a, b)
  {
    if |p| > 0 {
      assert (p + a)[1..] == p[1..] + a;
      assert (p + b)[1..] == p[1..] + b;
      LexLessCommonPrefix(p[1..], a, b);
    } else {
      assert p + a == a && p + b == b;
    }
  }

  /** Between strings of equal length the order is settled inside them, so
      whatever follows them does not matter. */
  lemma {:induction false} LexLessEqualLengthAppend(a: string, b: string, u: string, v: string)
    requires |a| == |b|
    requires LexLess(a, b)
    ensures LexLess(a + u, b + v)
  {
    if a[0] == b[0] {
      assert (a + u)[1..] == a[1..] + u;
      assert (b + v)[1..] == b[1..] + v;
      LexLessEqualLengthAppend(a[1..], b[1..], u, v);
    }
  }
}
