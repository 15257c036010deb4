/** The text the abbreviated format prints, as a list of fields, and what the parser's cursor
    finds in it or in any tail of it. */
module FieldText {
  import opened Text
  import opened TimeSpan

  // ---------------------------------------------------------------- fields and their text

  function Rank(unit: string): nat {
    if unit == "y" then 0 else if unit == "d" then 1 else if unit == "h" then 2
    else if unit == "m" then 3 else if unit == "s" then 4 else if unit == "ms" then 5 else 6
  }

  predicate AllLetters(s: string) { forall k :: 0 <= k < |s| ==> IsLetter(s[k]) }

  /** Non-zero fields, largest unit first. */
  predicate WellFormed(fs: seq<Field>) {
    && (forall i :: 0 <= i < |fs| ==> fs[i].value > 0 && Rank(fs[i].unit) < 6)
    && (forall i, j :: 0 <= i < j < |fs| ==> Rank(fs[i].unit) < Rank(fs[j].unit))
  }

  function Head(f: Field): string { Decimal(f.value) + f.unit }

  /** The fields with single spaces between them. */
  function TextOf(fs: seq<Field>): string {
    if fs == [] then "" else if |fs| == 1 then Head(fs[0]) else Head(fs[0]) + " " + TextOf(fs[1..])
  }

  /** The text before field j, and after it. */
  function Before(fs: seq<Field>, j: nat): string
    requires j < |fs|
  {
    if j == 0 then "" else Head(fs[0]) + " " + Before(fs[1..], j - 1)
  }

  function After(fs: seq<Field>, j: nat): string
    requires j < |fs|
  {
    if j == |fs| - 1 then "" else " " + TextOf(fs[j + 1..])
  }

  function UnitAt(fs: seq<Field>, j: nat): nat
    requires j < |fs|
  {
    |Before(fs, j)| + |Decimal(fs[j].value)|
  }

  lemma {:induction false} SplitAt(fs: seq<Field>, j: nat)
    requires j < |fs|
    ensures TextOf(fs) == Before(fs, j) + Head(fs[j]) + After(fs, j)
    decreases j
  {
    if j > 0 {
      SplitAt(fs[1..], j - 1);
      assert After(fs[1..], j - 1) == After(fs, j) by { assert fs[1..][j..] == fs[j + 1..]; }
    }
  }

  lemma UnitIsLetters(fs: seq<Field>, j: nat)
    requires WellFormed(fs) && j < |fs|
    ensures fs[j].unit != [] && AllLetters(fs[j].unit)
  {
    assert Rank(fs[j].unit) < 6;
  }

  /** What comes before a later field ends with a letter and a space. */
  lemma {:induction false} BeforeEnds(fs: seq<Field>, j: nat)
    requires WellFormed(fs) && 0 < j < |fs|
    ensures var b := Before(fs, j); |b| >= 2 && b[|b| - 1] == ' ' && IsLetter(b[|b| - 2])
    decreases j
  {
    var head, b := Head(fs[0]), Before(fs, j);
    UnitIsLetters(fs, 0);
    assert head[|head| - 1] == fs[0].unit[|fs[0].unit| - 1];
    if j == 1 {
      assert Before(fs[1..], 0) == "" && b == head + " ";
    } else {
      BeforeEnds(fs[1..], j - 1);
      assert b == head + " " + Before(fs[1..], j - 1);
    }
  }

  /** Every letter of the text belongs to a unit. */
  lemma {:induction false} LetterInUnit(fs: seq<Field>, k: nat) returns (j: nat)
    requires WellFormed(fs) && k < |TextOf(fs)| && IsLetter(TextOf(fs)[k])
    ensures j < |fs| && UnitAt(fs, j) <= k < UnitAt(fs, j) + |fs[j].unit|
    decreases |fs|
  {
    var digits, head, s := Decimal(fs[0].value), Head(fs[0]), TextOf(fs);
    DecimalFacts(fs[0].value);
    if k < |head| {
      j := 0;
      assert forall i :: 0 <= i < |digits| ==> s[i] == digits[i];
    } else {
      assert s == head + " " + TextOf(fs[1..]);
      assert s[|head|] == ' ';
      var i := LetterInUnit(fs[1..], k - |head| - 1);
      j := i + 1;
    }
  }

  // ---------------------------------------------------------------- what the cursor finds

  /** In any tail of the text, a token is found only where a field has it for its unit. */
  lemma FoundIsUnit(fs: seq<Field>, o: nat, token: string) returns (j: nat)
    requires WellFormed(fs) && o <= |TextOf(fs)| && token != [] && Found(TextOf(fs)[o..], token)
    requires AllLetters(token)
    ensures j < |fs| && fs[j].unit == token && o + IndexOf(TextOf(fs)[o..], token) == UnitAt(fs, j)
  {
    var s := TextOf(fs);
    var index := IndexOf(s[o..], token);
    FoundAtLetter(s, o, token);
    j := LetterInUnit(fs, o + index);
    UnitFound(fs, j, s, o, index, token);
  }

  lemma FoundAtLetter(s: string, o: nat, token: string)
    requires o <= |s| && token != [] && AllLetters(token) && Found(s[o..], token)
    ensures o + IndexOf(s[o..], token) < |s| && IsLetter(s[o + IndexOf(s[o..], token)])
  {
    var x := s[o..];
    var index := IndexOf(x, token);
    assert x[index..index + |token|][0] == token[0];
  }

  lemma UnitFound(fs: seq<Field>, j: nat, s: string, o: nat, index: nat, token: string)
    requires WellFormed(fs) && j < |fs| && s == TextOf(fs) && UnitAt(fs, j) <= o + index < UnitAt(fs, j) + |fs[j].unit|
    requires o <= |s| && 0 < index < |s[o..]| && !IsLetter(s[o..][index - 1])
    requires LetterRun(s[o..], index) == |token| && Occurs(s[o..], token, index)
    ensures fs[j].unit == token && o + index == UnitAt(fs, j)
  {
    SplitAt(fs, j);
    UnitIsLetters(fs, j);
    AfterStarts(fs, j);
    var a := Before(fs, j) + Decimal(fs[j].value);
    assert s == a + fs[j].unit + After(fs, j);
    AtUnitStart(a, fs[j].unit, After(fs, j), s, o, index, token);
  }

  lemma AfterStarts(fs: seq<Field>, j: nat)
    requires j < |fs|
    ensures After(fs, j) != [] ==> After(fs, j)[0] == ' '
  {}

  /** A position inside a unit with no letter before it is the unit's start. */
  lemma AtUnitStart(a: string, unit: string, b: string, s: string, o: nat, index: nat, token: string)
    requires s == a + unit + b && |a| <= o + index < |a| + |unit| && AllLetters(unit)
    requires b != [] ==> !IsLetter(b[0])
    requires o <= |s| && 0 < index < |s[o..]| && !IsLetter(s[o..][index - 1])
    requires LetterRun(s[o..], index) == |token| && Occurs(s[o..], token, index)
    ensures o + index == |a| && unit == token
  {
    var x := s[o..];
    assert forall k :: |a| <= k < |a| + |unit| ==> s[k] == unit[k - |a|];
    assert x[index - 1] == s[o + index - 1];
    assert o + index == |a|;
    assert forall k :: 0 <= k < |unit| ==> x[index + k] == unit[k];
    RunOf(x, index, |unit|);
    assert x[index..index + |unit|] == unit;
  }

  lemma RunOf(x: string, index: nat, n: nat)
    requires index + n <= |x| && forall k :: index <= k < index + n ==> IsLetter(x[k])
    requires index + n < |x| ==> !IsLetter(x[index + n])
    ensures LetterRun(x, index) == n
  {}
}
