/** StringUtil::Bitap: the bit-parallel search, refined against a plain search over windows.
    The bit update only ever substitutes characters, so the search decides the number of
    mismatching places in windows as long as the needle. */
module Bitap {
  import Levenshtein

  const CHAR_MAX := 127
  const MAX_NEEDLE := 31

  // ---------------------------------------------------------------- machine words

  /** The bits of an unsigned long; |Word| of them, bit 0 the lowest. */
  const WORD_BITS := 64

  type Word = w: seq<bool> | |w| == WORD_BITS witness seq(WORD_BITS, _ => false)

  function Ones(): Word { seq(WORD_BITS, _ => true) }

  /** 1UL << i */
  function Bit(i: nat): Word { seq(WORD_BITS, k => k == i) }

  function Not(v: Word): Word { seq(WORD_BITS, k requires 0 <= k < WORD_BITS => !v[k]) }

  function Or(v: Word, w: Word): Word { seq(WORD_BITS, k requires 0 <= k < WORD_BITS => v[k] || w[k]) }

  function And(v: Word, w: Word): Word { seq(WORD_BITS, k requires 0 <= k < WORD_BITS => v[k] && w[k]) }

  /** v << 1: the top bit is lost. */
  function ShiftedUp(v: Word): Word { [false] + v[..WORD_BITS - 1] }

  predicate IsZero(v: Word) { forall k :: 0 <= k < WORD_BITS ==> !v[k] }

  // ---------------------------------------------------------------- characters

  /** QChar::toLatin1 read as a char: 0 for a character outside Latin-1, negative from 128 to 255. */
  function Latin1(c: char): int {
    var n := c as int;
    if n > 255 then 0 else if n > 127 then n - 256 else n
  }

  /** Characters whose Latin-1 value can index the pattern table. */
  predicate Indexable(s: string) { forall i :: 0 <= i < |s| ==> 0 <= Latin1(s[i]) <= CHAR_MAX }

  predicate SevenBit(s: string) { forall i :: 0 <= i < |s| ==> s[i] as int <= CHAR_MAX }

  // ---------------------------------------------------------------- windows

  /** In how many places two strings of one length differ, compared by Latin-1 value. */
  function Mismatches(s: string, t: string): nat
    requires |s| == |t|
  {
    if s == [] then 0
    else Mismatches(s[..|s| - 1], t[..|t| - 1]) + if Latin1(s[|s| - 1]) == Latin1(t[|t| - 1]) then 0 else 1
  }

  /** The first i characters of the needle against the last i of the first t of the haystack. */
  predicate EndsWithin(needle: string, haystack: string, t: nat, i: nat, d: nat)
    requires t <= |haystack| && i <= |needle|
  {
    i <= t && Mismatches(needle[..i], haystack[t - i..t]) <= d
  }

  /** The needle occurs at `start` with at most `d` mismatches. */
  predicate MatchesAt(needle: string, haystack: string, start: int, d: nat) {
    0 <= start && start + |needle| <= |haystack|
    && Mismatches(needle, haystack[start..start + |needle|]) <= d
  }

  lemma EndsWithinStep(needle: string, haystack: string, t: nat, i: nat, d: nat)
    requires t < |haystack| && i < |needle|
    ensures EndsWithin(needle, haystack, t + 1, i + 1, d) <==>
            (EndsWithin(needle, haystack, t, i, d) && Latin1(needle[i]) == Latin1(haystack[t]))
            || (d > 0 && EndsWithin(needle, haystack, t, i, d - 1))
  {
    if i <= t {
      var a, b := needle[..i + 1], haystack[t - i..t + 1];
      assert a[..i] == needle[..i] && b[..i] == haystack[t - i..t];
    }
  }

  // ---------------------------------------------------------------- the automaton

  /** patternMask[c]: bit i is 0 exactly when the needle's character i is c. */
  ghost predicate MaskOf(mask: Word, needle: string, upTo: nat, c: int)
    requires upTo <= |needle|
  {
    forall i :: 0 <= i < WORD_BITS ==> (!mask[i] <==> i < upTo && Latin1(needle[i]) == c)
  }

  /** R[d] after t characters of the haystack. */
  ghost predicate RowOf(r: Word, needle: string, haystack: string, t: nat, d: nat)
    requires |needle| < WORD_BITS && t <= |haystack|
  {
    forall i :: 0 <= i <= |needle| ==> (!r[i] <==> EndsWithin(needle, haystack, t, i, d))
  }

  lemma InitialRow(needle: string, haystack: string, d: nat)
    requires |needle| < WORD_BITS
    ensures RowOf(Not(Bit(0)), needle, haystack, 0, d)
  {}

  lemma FirstRowStep(r: Word, mask: Word, needle: string, haystack: string, t: nat)
    requires |needle| < WORD_BITS && t < |haystack|
    requires MaskOf(mask, needle, |needle|, Latin1(haystack[t]))
    requires RowOf(r, needle, haystack, t, 0)
    ensures RowOf(ShiftedUp(Or(r, mask)), needle, haystack, t + 1, 0)
  {
    forall i | 0 <= i <= |needle|
      ensures !ShiftedUp(Or(r, mask))[i] <==> EndsWithin(needle, haystack, t + 1, i, 0)
    {
      if i > 0 { EndsWithinStep(needle, haystack, t, i - 1, 0); }
    }
  }

  lemma NextRowStep(below: Word, r: Word, mask: Word, needle: string, haystack: string, t: nat, d: nat)
    requires |needle| < WORD_BITS && t < |haystack| && d > 0
    requires MaskOf(mask, needle, |needle|, Latin1(haystack[t]))
    requires RowOf(below, needle, haystack, t, d - 1) && RowOf(r, needle, haystack, t, d)
    ensures RowOf(ShiftedUp(And(below, Or(r, mask))), needle, haystack, t + 1, d)
  {
    forall i | 0 <= i <= |needle|
      ensures !ShiftedUp(And(below, Or(r, mask)))[i] <==> EndsWithin(needle, haystack, t + 1, i, d)
    {
      if i > 0 { EndsWithinStep(needle, haystack, t, i - 1, d); }
    }
  }

  lemma MaskStep(mask: Word, needle: string, i: nat, c: int)
    requires i < |needle| && i < WORD_BITS
    requires MaskOf(mask, needle, i, c)
    ensures Latin1(needle[i]) == c ==> MaskOf(And(mask, Not(Bit(i))), needle, i + 1, c)
    ensures Latin1(needle[i]) != c ==> MaskOf(mask, needle, i + 1, c)
  {}

  method PatternMasks(needle: string) returns (patternMask: array<Word>)
    requires |needle| <= MAX_NEEDLE && Indexable(needle)
    ensures patternMask.Length == CHAR_MAX + 1 && fresh(patternMask)
    ensures forall c :: 0 <= c <= CHAR_MAX ==> MaskOf(patternMask[c], needle, |needle|, c)
  {
    patternMask := new Word[CHAR_MAX + 1](_ => Ones());
    for i := 0 to |needle|
      invariant forall c :: 0 <= c <= CHAR_MAX ==> MaskOf(patternMask[c], needle, i, c)
    {
      ghost var before := patternMask[..];
      var n := Latin1(needle[i]);
      patternMask[n] := And(patternMask[n], Not(Bit(i)));
      forall c | 0 <= c <= CHAR_MAX ensures MaskOf(patternMask[c], needle, i + 1, c) {
        MaskStep(before[c], needle, i, c);
      }
    }
  }

  /** One haystack character: every row moves on, each from its own old value and the old row below. */
  method Advance(R: array<Word>, mask: Word, needle: string, haystack: string, t: nat)
    requires R.Length >= 1 && |needle| < WORD_BITS && t < |haystack|
    requires MaskOf(mask, needle, |needle|, Latin1(haystack[t]))
    requires forall d :: 0 <= d < R.Length ==> RowOf(R[d], needle, haystack, t, d)
    modifies R
    ensures forall d :: 0 <= d < R.Length ==> RowOf(R[d], needle, haystack, t + 1, d)
  {
    var oldRd1 := R[0];
    FirstRowStep(R[0], mask, needle, haystack, t);
    R[0] := Or(R[0], mask);
    R[0] := ShiftedUp(R[0]);
    for d := 1 to R.Length
      invariant RowOf(oldRd1, needle, haystack, t, d - 1)
      invariant forall e :: 0 <= e < d ==> RowOf(R[e], needle, haystack, t + 1, e)
      invariant forall e :: d <= e < R.Length ==> RowOf(R[e], needle, haystack, t, e)
    {
      var tmp := R[d];
      NextRowStep(oldRd1, R[d], mask, needle, haystack, t, d);
      R[d] := ShiftedUp(And(oldRd1, Or(R[d], mask)));
      oldRd1 := tmp;
    }
  }

  /** What the search promises. */
  ghost predicate FirstMatch(needle: string, haystack: string, d: nat, result: int) {
    && (result != -1 ==> MatchesAt(needle, haystack, result, d)
                         && forall s :: 0 <= s < result ==> !MatchesAt(needle, haystack, s, d))
    && (result == -1 ==> forall s :: !MatchesAt(needle, haystack, s, d))
  }

  /** Bitap::calculate. The needle's first character is read before anything is checked, so
      it must have one; the pattern table only has entries for 7-bit values. */
  method Calculate(haystack: string, needle: string, maxDistance: nat) returns (result: int)
    requires needle != [] && Indexable(needle) && Indexable(haystack)
    ensures needle[0] == '\0' ==> result == 0
    ensures needle[0] != '\0' && |needle| > MAX_NEEDLE ==> result == -1
    ensures needle[0] != '\0' && |needle| <= MAX_NEEDLE ==> FirstMatch(needle, haystack, maxDistance, result)
  {
    result := -1;
    var m := |needle|;
    if needle[0] == '\0' { return 0; }
    if m > MAX_NEEDLE { return -1; }
    var patternMask := PatternMasks(needle);
    var R := new Word[maxDistance + 1](_ => Not(Bit(0)));
    forall d | 0 <= d < R.Length ensures RowOf(R[d], needle, haystack, 0, d) {
      InitialRow(needle, haystack, d);
    }
    for i := 0 to |haystack|
      invariant forall d :: 0 <= d < R.Length ==> RowOf(R[d], needle, haystack, i, d)
      invariant forall c :: 0 <= c <= CHAR_MAX ==> MaskOf(patternMask[c], needle, m, c)
      invariant forall s :: s + m <= i ==> !MatchesAt(needle, haystack, s, maxDistance)
    {
      Advance(R, patternMask[Latin1(haystack[i])], needle, haystack, i);
      assert needle[..m] == needle;
      var found := And(R[maxDistance], Bit(m));
      assert IsZero(found) <==> !R[maxDistance][m] by {
        assert !found[m] <==> !R[maxDistance][m];
      }
      if IsZero(found) {
        return i - m + 1;
      }
    }
  }

  /** The mask table has entries for 7-bit values, and all characters beyond Latin-1 share one of them: any two such
      characters are taken for the same. */
  lemma BeyondLatin1IsOne(a: char, b: char, c: char)
    requires a as int > 255 && b as int > 255 && 0 < c as int <= 127
    ensures Indexable([a]) && Indexable([b]) && Indexable([c])
    ensures FirstMatch([a], [b], 0, 0) && FirstMatch([c], [b], 0, -1) && FirstMatch([c], [c], 0, 0)
  {
    OneCharacter(a, b);
    OneCharacter(c, b);
    OneCharacter(c, c);
  }

  lemma OneCharacter(a: char, b: char)
    ensures forall s :: MatchesAt([a], [b], s, 0) <==> s == 0 && Latin1(a) == Latin1(b)
  {
    assert [a][..|[a]| - 1] == [] && [b][..|[b]| - 1] == [] && Mismatches([], []) == 0;
    assert Mismatches([a], [b]) == if Latin1(a) == Latin1(b) then 0 else 1;
    forall s ensures MatchesAt([a], [b], s, 0) <==> s == 0 && Latin1(a) == Latin1(b) {
      if s == 0 { assert [b][s..s + 1] == [b]; }
    }
  }

  // ---------------------------------------------------------------- against the edit distance

  lemma {:induction false} MismatchesBoundDistance(s: string, t: string)
    requires |s| == |t| && SevenBit(s) && SevenBit(t)
    ensures Levenshtein.Distance(s, t) <= Mismatches(s, t)
  {
    if s != [] { MismatchesBoundDistance(s[..|s| - 1], t[..|t| - 1]); }
  }

  /** A window the search returns lies within the requested edit distance. */
  lemma FoundWithinEditDistance(needle: string, haystack: string, d: nat, result: int)
    requires SevenBit(needle) && SevenBit(haystack)
    requires FirstMatch(needle, haystack, d, result) && result != -1
    ensures Levenshtein.Distance(needle, haystack[result..result + |needle|]) <= d
  {
    MismatchesBoundDistance(needle, haystack[result..result + |needle|]);
  }

  // ---------------------------------------------------------------- against the documentation

  /** Some stretch of the haystack lies within edit distance d of the needle. */
  ghost predicate OccursWithin(needle: string, haystack: string, d: nat) {
    exists from, to :: 0 <= from <= to <= |haystack| && Levenshtein.Distance(needle, haystack[from..to]) <= d
  }

  /** The search finds something exactly where there is something to find, in every 7-bit text. */
  ghost predicate FindsByEditDistance(needle: string, d: nat) {
    forall haystack, result :: SevenBit(haystack) && FirstMatch(needle, haystack, d, result) ==>
      (result != -1 <==> OccursWithin(needle, haystack, d))
  }

  lemma {:induction false} NoMismatchMeansEqual(s: string, t: string)
    requires |s| == |t| && SevenBit(s) && SevenBit(t)
    ensures Mismatches(s, t) == 0 <==> s == t
  {
    if s != [] {
      NoMismatchMeansEqual(s[..|s| - 1], t[..|t| - 1]);
      assert s == s[..|s| - 1] + [s[|s| - 1]] && t == t[..|t| - 1] + [t[|t| - 1]];
    }
  }

  /** With no distance allowed, both mean that the needle occurs. */
  lemma ExactSearchIsExact(needle: string, haystack: string, result: int)
    requires SevenBit(needle) && SevenBit(haystack) && FirstMatch(needle, haystack, 0, result)
    ensures result != -1 <==> OccursWithin(needle, haystack, 0)
  {
    if result != -1 {
      FoundWithinEditDistance(needle, haystack, 0, result);
      assert OccursWithin(needle, haystack, 0);
    }
    if OccursWithin(needle, haystack, 0) {
      var from, to :| 0 <= from <= to <= |haystack| && Levenshtein.Distance(needle, haystack[from..to]) <= 0;
      Levenshtein.ZeroOnlyOnEqual(needle, haystack[from..to]);
      NoMismatchMeansEqual(needle, haystack[from..to]);
      assert haystack[from..from + |needle|] == needle;
      assert MatchesAt(needle, haystack, from, 0);
    }
  }

  /** The needle without its last character is one deletion away, and too short for any window. */
  lemma ShortenedNeedleIsNotFound(needle: string, d: nat)
    requires needle != [] && SevenBit(needle) && d >= 1
    ensures var haystack := needle[..|needle| - 1];
            SevenBit(haystack) && FirstMatch(needle, haystack, d, -1) && OccursWithin(needle, haystack, d)
  {
    var haystack, e := needle[..|needle| - 1], Levenshtein.Delete(|needle| - 1);
    assert Levenshtein.Apply(e, needle) == haystack;
    Levenshtein.OneEdit(e, needle);
    assert haystack[0..|haystack|] == haystack;
  }

  /** The documented promise, a match by Levenshtein distance, is kept exactly when no distance at all
      is allowed. */
  lemma PromiseKeptExactly(needle: string, d: nat)
    requires 1 <= |needle| <= MAX_NEEDLE && SevenBit(needle) && needle[0] != '\0'
    ensures FindsByEditDistance(needle, d) <==> d == 0
  {
    if d == 0 {
      forall haystack, result | SevenBit(haystack) && FirstMatch(needle, haystack, d, result)
        ensures result != -1 <==> OccursWithin(needle, haystack, d)
      {
        ExactSearchIsExact(needle, haystack, result);
      }
    } else {
      ShortenedNeedleIsNotFound(needle, d);
    }
  }
}
