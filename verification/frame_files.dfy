/** The still images ffmpeg writes for an uploaded video: one per second, named by
    the output pattern `frame_%04d.jpg` with numbering from 0. The script later
    recovers their time order by sorting the directory listing as strings. */
module FrameFiles {
  import opened Text
  import Sorting

  const FramePrefix := "frame_"
  const FrameSuffix := ".jpg"

  /** The field width of `%04d`. */
  const MinDigits: nat := 4

  function Pow10(k: nat): (r: nat)
    ensures r >= 1
  {
    if k == 0 then 1 else 10 * Pow10(k - 1)
  }

  /** The number of decimal digits of `n`, one for zero. */
  function Width(n: nat): (w: nat)
    ensures 1 <= w
    ensures n < Pow10(w)
    ensures w > 1 ==> Pow10(w - 1) <= n
  {
    if n < 10 then 1 else 1 + Width(n / 10)
  }

  function DigitChar(d: nat): char
    requires d < 10
  {
    ('0' as int + d) as char
  }

  predicate IsDigit(c: char) { '0' <= c <= '9' }

  function DigitValue(c: char): nat
    requires IsDigit(c)
  {
    c as int - '0' as int
  }

  /** The number a string of decimal digits denotes. */
  function DigitsValue(s: string): nat
    requires forall i :: 0 <= i < |s| ==> IsDigit(s[i])
  {
    if |s| == 0 then 0
    else 10 * DigitsValue(s[..|s| - 1]) + DigitValue(s[|s| - 1])
  }

  /** The last `w` decimal digits of `n`, most significant first, zero-filled. */
  function Pad(n: nat, w: nat): (r: string)
    ensures |r| == w
    ensures forall i :: 0 <= i < |r| ==> IsDigit(r[i])
  {
    if w == 0 then [] else Pad(n / 10, w - 1) + [DigitChar(n % 10)]
  }

  function Max(a: nat, b: nat): nat { if a < b then b else a }

  /** `'%04d' % n`: the decimal digits of `n`, zero-filled on the left to at
      least four characters. */
  function Format04(n: nat): string {
    Pad(n, Max(MinDigits, Width(n)))
  }

  /** The file ffmpeg writes for the still taken at second `i` of the video. */
  function FrameName(i: nat): string {
    FramePrefix + Format04(i) + FrameSuffix
  }

  /** The files ffmpeg writes for a video yielding `n` stills, in time order. */
  function FrameNames(n: nat): (names: seq<string>)
    ensures |names| == n
  {
    seq(n, i requires 0 <= i < n => FrameName(i))
  }

  /** `listing` is what `os.listdir` returns for the frame directory after ffmpeg
      wrote `n` stills into it: those names, each once, in no particular order. */
  predicate IsListingOf(listing: seq<string>, n: nat) {
    multiset(listing) == multiset(FrameNames(n))
  }

  // Arithmetic facts about decimal widths.

  lemma {:induction false} Pow10Monotone(j: nat, k: nat)
    requires j <= k
    ensures Pow10(j) <= Pow10(k)
    decreases k
  {
    if j < k {
      Pow10Monotone(j, k - 1);
    }
  }

  lemma {:induction false} WidthMonotone(a: nat, b: nat)
    requires a <= b
    ensures Width(a) <= Width(b)
    decreases b
  {
    if a >= 10 {
      WidthMonotone(a / 10, b / 10);
    }
  }

  lemma {:induction false} WidthAtMost(n: nat, k: nat)
    requires 1 <= k
    requires n < Pow10(k)
    ensures Width(n) <= k
  {
    if n >= 10 {
      WidthAtMost(n / 10, k - 1);
    }
  }

  // The digits `%04d` writes read back as the number.

  /** Reading back `w` padded digits gives `n` whenever `n` fits in `w` digits. */
  lemma {:induction false} PadValue(n: nat, w: nat)
    requires n < Pow10(w)
    ensures DigitsValue(Pad(n, w)) == n
  {
    if w > 0 {
      var p := Pad(n, w);
      assert p[..w - 1] == Pad(n / 10, w - 1);
      PadValue(n / 10, w - 1);
    }
  }

  /** `%04d` loses nothing: its digits read back as the number, and it is four
      characters long exactly when the number has at most four digits. */
  lemma Format04Value(n: nat)
    ensures DigitsValue(Format04(n)) == n
    ensures |Format04(n)| == Max(MinDigits, Width(n))
    ensures n < Pow10(MinDigits) <==> |Format04(n)| == MinDigits
  {
    Pow10Monotone(Width(n), Max(MinDigits, Width(n)));
    PadValue(n, Max(MinDigits, Width(n)));
    if n < Pow10(MinDigits) {
      WidthAtMost(n, MinDigits);
    }
  }

  // How string order relates to time order.

  /** For numbers of the same digit count, the padded digit strings compare as
      the numbers do. */
  lemma {:induction false} PadOrder(a: nat, b: nat, w: nat)
    requires a < b < Pow10(w)
    ensures LexLess(Pad(a, w), Pad(b, w))
  {
    if a / 10 < b / 10 {
      PadOrder(a / 10, b / 10, w - 1);
      LexLessEqualLengthAppend(Pad(a / 10, w - 1), Pad(b / 10, w - 1),
        [DigitChar(a % 10)], [DigitChar(b % 10)]);
    } else {
      var p := Pad(a / 10, w - 1);
      LexLessCommonPrefix(p, [DigitChar(a % 10)], [DigitChar(b % 10)]);
    }
  }

  lemma FrameNameOrderFollowsDigits(i: nat, j: nat)
    requires |Format04(i)| == |Format04(j)|
    requires LexLess(Format04(i), Format04(j))
    ensures LexLess(FrameName(i), FrameName(j))
  {
    LexLessEqualLengthAppend(Format04(i), Format04(j), FrameSuffix, FrameSuffix);
    LexLessCommonPrefix(FramePrefix, Format04(i) + FrameSuffix, Format04(j) + FrameSuffix);
    assert FrameName(i) == FramePrefix + (Format04(i) + FrameSuffix);
    assert FrameName(j) == FramePrefix + (Format04(j) + FrameSuffix);
  }

  /** Below 10000 every name has exactly four digits, so string order is time
      order. */
  lemma FrameNameLexOrder(i: nat, j: nat)
    requires i < j < Pow10(MinDigits)
    ensures LexLess(FrameName(i), FrameName(j))
  {
    WidthAtMost(i, MinDigits);
    WidthAtMost(j, MinDigits);
    PadOrder(i, j, MinDigits);
    FrameNameOrderFollowsDigits(i, j);
  }

  /** From 10000 on a fifth digit appears and string order breaks:
      `frame_10000.jpg` sorts before `frame_1001.jpg`. */
  lemma FrameNameLexOrderBreaks()
    ensures LexLess(FrameName(10000), FrameName(1001))
  {
    assert Width(1001) == 4;
    assert Width(10000) == 5;
    var high, low := Pad(1000, 4), Pad(1001, 4);
    assert Format04(10000) == high + [DigitChar(0)];
    assert Format04(1001) == low;
    PadOrder(1000, 1001, 4);
    LexLessEqualLengthAppend(high, low, [DigitChar(0)] + FrameSuffix, FrameSuffix);
    LexLessCommonPrefix(FramePrefix, high + ([DigitChar(0)] + FrameSuffix), low + FrameSuffix);
    assert FrameName(10000) == FramePrefix + (high + ([DigitChar(0)] + FrameSuffix));
    assert FrameName(1001) == FramePrefix + (low + FrameSuffix);
  }

  /** Ordering by length first and then as strings follows time order for every
      frame count. */
  lemma FrameNameShortLexOrder(i: nat, j: nat)
    requires i < j
    ensures ShortLexLess(FrameName(i), FrameName(j))
  {
    WidthMonotone(i, j);
    var wi, wj := Max(MinDigits, Width(i)), Max(MinDigits, Width(j));
    if wi == wj {
      Pow10Monotone(Width(j), wj);
      PadOrder(i, j, wj);
      FrameNameOrderFollowsDigits(i, j);
    }
  }

  // What `sorted(os.listdir(frame_dir))` returns.

  lemma FrameNamesLexSorted(n: nat)
    requires n <= Pow10(MinDigits)
    ensures Sorting.StrictlySorted(FrameNames(n), LexLess)
  {
    forall i, j | 0 <= i < j < n
      ensures LexLess(FrameNames(n)[i], FrameNames(n)[j])
    {
      FrameNameLexOrder(i, j);
    }
  }

  /** Up to 10000 stills, the sorted listing is the stills in time order, whatever
      order the directory listing came in. */
  lemma SortedListingInTimeOrder(listing: seq<string>, n: nat)
    requires n <= Pow10(MinDigits)
    requires IsListingOf(listing, n)
    ensures Sorting.Sort(listing, LexLess) == FrameNames(n)
  {
    LexLessIsStrictTotalOrder();
    FrameNamesLexSorted(n);
    Sorting.SortIsSortedPermutation(listing, FrameNames(n), LexLess);
  }

  lemma FrameNamesDistinct(n: nat)
    ensures Sorting.Distinct(FrameNames(n))
  {
    forall i, j | 0 <= i < j < n
      ensures FrameNames(n)[i] != FrameNames(n)[j]
    {
      FrameNameShortLexOrder(i, j);
      LexLessIrreflexive(FrameName(i));
    }
  }

  lemma FrameNamesNotLexSorted(n: nat)
    requires n > Pow10(MinDigits)
    ensures !Sorting.StrictlySorted(FrameNames(n), LexLess)
  {
    assert Pow10(MinDigits) == 10000;
    var names := FrameNames(n);
    assert names[10000] == FrameName(10000) && names[1001] == FrameName(1001);
    FrameNameLexOrderBreaks();
    if LexLess(names[1001], names[10000]) {
      LexLessTransitive(names[1001], names[10000], names[1001]);
      LexLessIrreflexive(names[1001]);
    }
  }

  /** Beyond 10000 stills, the sorted listing is NOT in time order. */
  lemma SortedListingOutOfTimeOrder(listing: seq<string>, n: nat)
    requires n > Pow10(MinDigits)
    requires IsListingOf(listing, n)
    ensures Sorting.Sort(listing, LexLess) != FrameNames(n)
  {
    LexLessIsStrictTotalOrder();
    FrameNamesDistinct(n);
    Sorting.DistinctByMultiset(listing, FrameNames(n));
    Sorting.SortSorted(listing, LexLess);
    FrameNamesNotLexSorted(n);
  }

  /** Ordering the listing by length first puts every frame count in time order. */
  lemma ShortLexSortedListingInTimeOrder(listing: seq<string>, n: nat)
    requires IsListingOf(listing, n)
    ensures Sorting.Sort(listing, ShortLexLess) == FrameNames(n)
  {
    ShortLexLessIsStrictTotalOrder();
    forall i, j | 0 <= i < j < n
      ensures ShortLexLess(FrameNames(n)[i], FrameNames(n)[j])
    {
      FrameNameShortLexOrder(i, j);
    }
    Sorting.SortIsSortedPermutation(listing, FrameNames(n), ShortLexLess);
  }
}
