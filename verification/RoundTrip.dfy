/** When fromString(toAbbreviatedFormat(true)) gives back the span it was printed from. */
module RoundTrip {
  import opened Text
  import opened TimeSpan
  import opened FieldText

  // ---------------------------------------------------------------- the six fields of a span

  function UnitName(k: nat): string
    requires k < 6
  {
    if k == 0 then "y" else if k == 1 then "d" else if k == 2 then "h"
    else if k == 3 then "m" else if k == 4 then "s" else "ms"
  }

  function UnitOf(k: nat): int
    requires k < 6
  {
    if k == 1 then NS_PER_DAY else if k == 2 then NS_PER_HOUR else if k == 3 then NS_PER_MINUTE
    else if k == 4 then NS_PER_SECOND else if k == 5 then NS_PER_MILLISECOND else 0
  }

  /** The values of the last units: six for a whole span, years first. */
  type Values = vs: seq<nat> | |vs| <= 6

  /** The unit the first of the values counts. */
  function First(vs: Values): nat
    requires vs != []
  {
    6 - |vs|
  }

  function One(v: nat, k: nat): seq<Field>
    requires k < 6
  {
    if v == 0 then [] else [Field(v, UnitName(k))]
  }

  /** The fields that are printed: those that are not 0. */
  function Lay(vs: Values): seq<Field> {
    if vs == [] then [] else One(vs[0], First(vs)) + Lay(vs[1..])
  }

  lemma RankOfUnit(k: nat)
    requires k < 6
    ensures Rank(UnitName(k)) == k && UnitName(k) != [] && AllLetters(UnitName(k))
  {}

  lemma LayCases(vs: Values)
    requires vs != []
    ensures vs[0] == 0 ==> Lay(vs) == Lay(vs[1..])
    ensures vs[0] > 0 ==>
              Lay(vs) != [] && Lay(vs)[0] == Field(vs[0], UnitName(First(vs))) && Lay(vs)[1..] == Lay(vs[1..])
  {}

  lemma {:induction false} LayIsWellFormed(vs: Values)
    ensures FieldText.WellFormed(Lay(vs))
    ensures forall j :: 0 <= j < |Lay(vs)| ==> Rank(Lay(vs)[j].unit) >= 6 - |vs|
  {
    if vs != [] {
      LayIsWellFormed(vs[1..]);
      RankOfUnit(First(vs));
    }
  }

  /** The value a list of fields has for a unit. */
  function ValueOf(fs: seq<Field>, unit: string): nat {
    if fs == [] then 0 else if fs[0].unit == unit then fs[0].value else ValueOf(fs[1..], unit)
  }

  lemma {:induction false} ValueOfField(fs: seq<Field>, j: nat)
    requires FieldText.WellFormed(fs) && j < |fs|
    ensures ValueOf(fs, fs[j].unit) == fs[j].value
  {
    if j > 0 { ValueOfField(fs[1..], j - 1); }
  }

  lemma {:induction false} ValueInLay(vs: Values, i: nat)
    requires i < |vs|
    ensures ValueOf(Lay(vs), UnitName(First(vs) + i)) == vs[i]
  {
    LayCases(vs);
    if i > 0 {
      DifferentUnits(First(vs), First(vs) + i);
      ValueInLay(vs[1..], i - 1);
    } else if vs[0] == 0 {
      NotInLay(vs[1..], First(vs));
    }
  }

  lemma DifferentUnits(k: nat, i: nat)
    requires k < i < 6
    ensures UnitName(k) != UnitName(i)
  {
    RankOfUnit(k);
    RankOfUnit(i);
  }

  lemma NotInLay(vs: Values, k: nat)
    requires k < 6 - |vs|
    ensures ValueOf(Lay(vs), UnitName(k)) == 0
    ensures forall j :: 0 <= j < |Lay(vs)| ==> Lay(vs)[j].unit != UnitName(k)
  {
    LayIsWellFormed(vs);
    RankOfUnit(k);
    NoValue(Lay(vs), UnitName(k));
  }

  lemma {:induction false} NoValue(fs: seq<Field>, unit: string)
    requires forall j :: 0 <= j < |fs| ==> fs[j].unit != unit
    ensures ValueOf(fs, unit) == 0
  {
    if fs != [] { NoValue(fs[1..], unit); }
  }

  // ---------------------------------------------------------------- the printed text

  function Joined(fs: seq<Field>): string {
    if fs == [] then "" else FieldString(fs[0]) + Joined(fs[1..])
  }

  lemma {:induction false} JoinedIsText(fs: seq<Field>)
    requires fs != []
    ensures Joined(fs) == TextOf(fs) + " "
  {
    if |fs| > 1 {
      JoinedIsText(fs[1..]);
      assert Joined(fs) == Head(fs[0]) + " " + (TextOf(fs[1..]) + " ");
    } else {
      assert Joined(fs[1..]) == "";
      assert FieldString(fs[0]) + "" == Head(fs[0]) + " ";
    }
  }

  function PrintedAll(vs: Values): string {
    if vs == [] then "" else Printed(vs[0], UnitName(First(vs))) + PrintedAll(vs[1..])
  }

  lemma {:induction false} JoinedLay(vs: Values)
    ensures Joined(Lay(vs)) == PrintedAll(vs)
  {
    if vs != [] {
      JoinedLay(vs[1..]);
      LayCases(vs);
      if vs[0] > 0 { JoinedFirst(Lay(vs), Lay(vs[1..]), vs[0], UnitName(First(vs))); }
    }
  }

  lemma JoinedFirst(fs: seq<Field>, rest: seq<Field>, v: nat, unit: string)
    requires fs != [] && v > 0 && unit != [] && fs[0] == Field(v, unit) && fs[1..] == rest
    ensures Joined(fs) == Printed(v, unit) + Joined(rest)
  {}

  lemma SixInARow(a: string, b: string, c: string, d: string, e: string, f: string)
    ensures a + b + c + d + e + f == a + (b + (c + (d + (e + (f + "")))))
  {
    assert e + (f + "") == e + f;
    assert d + (e + f) == d + e + f;
    assert c + (d + e + f) == c + d + e + f;
    assert b + (c + d + e + f) == b + c + d + e + f;
  }

  lemma TextEnds(fs: seq<Field>)
    requires FieldText.WellFormed(fs) && fs != []
    ensures TextOf(fs) != [] && IsDigit(TextOf(fs)[0]) && IsLetter(TextOf(fs)[|TextOf(fs)| - 1])
  {
    var last := |fs| - 1;
    SplitAt(fs, last);
    UnitIsLetters(fs, last);
    SplitAt(fs, 0);
    var s, unit := TextOf(fs), fs[last].unit;
    DecimalFacts(fs[0].value);
    assert s[|s| - 1] == unit[|unit| - 1];
    assert s[0] == Decimal(fs[0].value)[0];
  }

  lemma PrintedIsFields(vs: Values)
    requires |vs| == 6
    ensures PrintedAll(vs) == FieldsText(vs[0], vs[1], vs[2], vs[3], vs[4], vs[5])
  {
    SixInARow(Printed(vs[0], "y"), Printed(vs[1], "d"), Printed(vs[2], "h"), Printed(vs[3], "m"),
              Printed(vs[4], "s"), Printed(vs[5], "ms"));
    assert vs[5..] == [vs[5]] && vs[5..][1..] == [];
    assert vs[4..][1..] == vs[5..] && vs[3..][1..] == vs[4..] && vs[2..][1..] == vs[3..] && vs[1..][1..] == vs[2..];
    assert PrintedAll(vs[5..]) == Printed(vs[5], "ms") + "";
    assert PrintedAll(vs[4..]) == Printed(vs[4], "s") + PrintedAll(vs[5..]);
    assert PrintedAll(vs[3..]) == Printed(vs[3], "m") + PrintedAll(vs[4..]);
    assert PrintedAll(vs[2..]) == Printed(vs[2], "h") + PrintedAll(vs[3..]);
    assert PrintedAll(vs[1..]) == Printed(vs[1], "d") + PrintedAll(vs[2..]);
  }

  lemma PrintedText(vs: Values)
    requires |vs| == 6 && Lay(vs) != []
    ensures Trimmed(FieldsText(vs[0], vs[1], vs[2], vs[3], vs[4], vs[5])) == TextOf(Lay(vs))
  {
    PrintedIsFields(vs);
    JoinedLay(vs);
    JoinedIsText(Lay(vs));
    LayIsWellFormed(vs);
    TrimmedText(Lay(vs));
  }

  lemma TrimmedText(fs: seq<Field>)
    requires FieldText.WellFormed(fs) && fs != []
    ensures Trimmed(TextOf(fs) + " ") == TextOf(fs) == Trimmed(TextOf(fs))
  {
    TextEnds(fs);
    TrimmedIsItself(TextOf(fs));
  }

  // ---------------------------------------------------------------- reading a field that is there, or is not

  lemma OccursFirst(s: string, token: string, k: nat)
    requires token != []
    ensures Occurs(s, token, k) ==> s[k] == token[0]
  {
    if Occurs(s, token, k) { assert s[k..k + |token|][0] == token[0]; }
  }

  lemma IndexAfterDigits(digits: string, token: string, rest: string)
    requires AllDigits(digits) && token != [] && AllLetters(token)
    ensures IndexOf(digits + token + rest, token) == |digits|
  {
    var s := digits + token + rest;
    assert Occurs(s, token, |digits|);
    forall k | 0 <= k < |digits| ensures !Occurs(s, token, k) {
      assert s[k] == digits[k];
      OccursFirst(s, token, k);
    }
  }

  /** The token behind the number at the head of a text is found. */
  lemma FoundAfterDigits(digits: string, token: string, rest: string)
    requires digits != [] && AllDigits(digits)
    requires token != [] && AllLetters(token) && (rest == [] || rest[0] == ' ')
    ensures Found(digits + token + rest, token) && IndexOf(digits + token + rest, token) == |digits|
  {
    var s := digits + token + rest;
    IndexAfterDigits(digits, token, rest);
    TokenRun(digits, token, rest);
    assert s[|digits| - 1] == digits[|digits| - 1];
  }

  lemma TokenRun(digits: string, token: string, rest: string)
    requires AllLetters(token) && (rest == [] || rest[0] == ' ')
    ensures LetterRun(digits + token + rest, |digits|) == |token|
  {
    var s := digits + token + rest;
    assert forall k :: |digits| <= k < |digits| + |token| ==> s[k] == token[k - |digits|];
    RunOf(s, |digits|, |token|);
  }

  /** A field before the last of at most two digits is read, and the cursor lands behind it. */
  lemma Hit(fs: seq<Field>, token: string)
    requires FieldText.WellFormed(fs) && fs != [] && fs[0].unit == token && |token| == 1 && AllLetters(token)
    requires fs[0].value < 0x8000_0000 && (|fs| == 1 || fs[0].value < 100)
    ensures IntToToken(TextOf(fs), token) == (fs[0].value as int, TextOf(fs[1..]))
  {
    DecimalReads(fs[0].value);
    if |fs| == 1 {
      HitLast(Decimal(fs[0].value), token);
    } else {
      HitHead(fs, token);
    }
  }

  lemma DecimalReads(n: nat)
    requires n < 0x8000_0000
    ensures Decimal(n) != [] && AllDigits(Decimal(n)) && ToInt(Decimal(n)) == n
    ensures |Decimal(n)| <= 2 <==> n < 100
  {
    DecimalFacts(n);
    DigitsToInt(Decimal(n));
  }

  lemma HitHead(fs: seq<Field>, token: string)
    requires FieldText.WellFormed(fs) && |fs| > 1 && fs[0].unit == token && |token| == 1 && AllLetters(token)
    requires 1 <= |Decimal(fs[0].value)| <= 2 && AllDigits(Decimal(fs[0].value))
    ensures IntToToken(TextOf(fs), token) == (ToInt(Decimal(fs[0].value)), TextOf(fs[1..]))
  {
    assert FieldText.WellFormed(fs[1..]);
    TextEnds(fs[1..]);
    HitBeforeOthers(Decimal(fs[0].value), token, TextOf(fs[1..]));
  }

  lemma HitLast(digits: string, token: string)
    requires digits != [] && AllDigits(digits) && |token| == 1 && AllLetters(token)
    ensures IntToToken(digits + token, token) == (ToInt(digits), "")
  {
    FoundAfterDigits(digits, token, "");
    assert digits + token + "" == digits + token;
    assert (digits + token)[..|digits|] == digits;
  }

  lemma HitBeforeOthers(digits: string, token: string, tail: string)
    requires 1 <= |digits| <= 2 && AllDigits(digits) && |token| == 1 && AllLetters(token)
    requires tail != [] && IsDigit(tail[0]) && IsLetter(tail[|tail| - 1])
    ensures IntToToken(digits + token + " " + tail, token) == (ToInt(digits), tail)
  {
    FoundAfterDigits(digits, token, " " + tail);
    assert digits + token + " " + tail == digits + token + (" " + tail);
    CursorLands(digits, token, tail);
  }

  lemma CursorLands(digits: string, token: string, tail: string)
    requires 1 <= |digits| <= 2 && |token| == 1 && tail != [] && IsDigit(tail[0]) && IsLetter(tail[|tail| - 1])
    ensures Cut(digits + token + (" " + tail), |digits|) == (ToInt(digits), tail)
  {
    var s := digits + token + (" " + tail);
    TrimmedIsItself(tail);
    assert s[..|digits|] == digits;
    assert |digits| == 1 ==> s[2..] == " " + tail;
    assert |digits| == 2 ==> s[4..] == tail;
  }

  /** A unit that no field has is not found, and nothing is consumed. */
  lemma Miss(fs: seq<Field>, token: string)
    requires FieldText.WellFormed(fs) && token != [] && AllLetters(token)
    requires forall j :: 0 <= j < |fs| ==> fs[j].unit != token
    ensures IntToToken(TextOf(fs), token) == (-1, TextOf(fs))
  {
    var s := TextOf(fs);
    assert s[0..] == s;
    if Found(s, token) { var j := FoundIsUnit(fs, 0, token); }
  }

  // ---------------------------------------------------------------- reading a whole text

  lemma TakeOne(vs: Values)
    requires 2 <= |vs| <= 5 && vs[0] < 0x8000_0000 && (vs[0] < 100 || Lay(vs[1..]) == [])
    ensures IntToToken(TextOf(Lay(vs)), UnitName(First(vs))) ==
            (if vs[0] > 0 then vs[0] as int else -1, TextOf(Lay(vs[1..])))
  {
    var k, fs := First(vs), Lay(vs);
    LayCases(vs);
    LayIsWellFormed(vs);
    RankOfUnit(k);
    if vs[0] > 0 {
      Hit(fs, UnitName(k));
    } else {
      NotInLay(vs[1..], k);
      Miss(fs, UnitName(k));
    }
  }

  /** What one reading does to a text that starts at or after the unit it looks for. */
  lemma ReadOne(vs: Values, r: Reading, token: string, unit: int) returns (next: Reading)
    requires 2 <= |vs| <= 5 && vs[0] < 0x8000_0000 && (vs[0] < 100 || Lay(vs[1..]) == [])
    requires r.remaining == TextOf(Lay(vs)) && token == UnitName(First(vs)) && token != [] && unit == UnitOf(First(vs))
    ensures next == Read(r, token, unit)
    ensures next == Reading(r.sum + vs[0] * unit, r.valid || vs[0] > 0, TextOf(Lay(vs[1..])))
  {
    TakeOne(vs);
    next := Read(r, token, unit);
  }

  /** The milliseconds come last, where the cursor no longer matters. */
  lemma TakeLast(v: nat)
    requires v < 1000
    ensures IntToToken(TextOf(Lay([v])), "ms").0 == if v > 0 then v as int else -1
  {
    if v > 0 {
      DecimalReads(v);
      TakeLastDigits(Decimal(v));
      LastText(v);
    } else {
      assert Lay([v]) == [];
      Miss([], "ms");
    }
  }

  lemma LastText(v: nat)
    requires v > 0
    ensures TextOf(Lay([v])) == Decimal(v) + "ms"
  {
    LayCases([v]);
    assert Lay([v]) == [Field(v, "ms")];
  }

  lemma TakeLastDigits(digits: string)
    requires digits != [] && AllDigits(digits)
    ensures IntToToken(digits + "ms", "ms").0 == ToInt(digits)
  {
    assert digits + "ms" == digits + "ms" + "";
    FoundAfterDigits(digits, "ms", "");
    assert (digits + "ms")[..|digits|] == digits;
  }

  function Sum(vs: Values): int {
    if vs == [] then 0 else vs[0] * UnitOf(First(vs)) + Sum(vs[1..])
  }

  predicate InRange(vs: Values) {
    |vs| == 5 && vs[1] < 24 && vs[2] < 60 && vs[3] < 60 && vs[4] < 1000 && vs[0] < 0x8000_0000
  }

  /** Days of at most two digits, or nothing after them: the text is read back to the sum of its fields. */
  lemma ReadsBack(vs: Values)
    requires InRange(vs) && Lay(vs) != [] && (vs[0] < 100 || Lay(vs[1..]) == [])
    ensures var r := ReadAll(TextOf(Lay(vs))); r.sum == Sum(vs) && r.valid
  {
    LayIsWellFormed(vs);
    TrimmedText(Lay(vs));
    var r := ReadsFour(vs);
    ReadLast(r, vs[4]);
    SumOfFive(vs);
    SomeOfFive(vs);
    AllRead(TextOf(Lay(vs)), r);
  }

  lemma AllRead(s: string, r: Reading)
    requires Trimmed(s) == s
    requires r == Read(Read(Read(Read(Reading(0, false, s),
                    "d", NS_PER_DAY), "h", NS_PER_HOUR), "m", NS_PER_MINUTE), "s", NS_PER_SECOND)
    ensures ReadAll(s) == Read(r, "ms", NS_PER_MILLISECOND)
  {}

  lemma ReadLast(r: Reading, v: nat)
    requires r.remaining == TextOf(Lay([v])) && v < 1000
    ensures var last := Read(r, "ms", NS_PER_MILLISECOND);
            last.sum == r.sum + v * NS_PER_MILLISECOND && last.valid == (r.valid || v > 0)
  {
    TakeLast(v);
  }

  lemma ReadsFour(vs: Values) returns (r: Reading)
    requires InRange(vs) && (vs[0] < 100 || Lay(vs[1..]) == [])
    ensures r == Read(Read(Read(Read(Reading(0, false, TextOf(Lay(vs))),
                   "d", NS_PER_DAY), "h", NS_PER_HOUR), "m", NS_PER_MINUTE), "s", NS_PER_SECOND)
    ensures r.sum == vs[0] * NS_PER_DAY + vs[1] * NS_PER_HOUR + vs[2] * NS_PER_MINUTE + vs[3] * NS_PER_SECOND
    ensures r.valid <==> vs[0] > 0 || vs[1] > 0 || vs[2] > 0 || vs[3] > 0
    ensures r.remaining == TextOf(Lay([vs[4]]))
  {
    var v2 := vs[2..];
    r := ReadsDaysAndHours(vs, v2, Reading(0, false, TextOf(Lay(vs))));
    r := ReadsMinutesAndSeconds(v2, r);
  }

  lemma ReadsDaysAndHours(vs: Values, v2: Values, start: Reading) returns (r: Reading)
    requires InRange(vs) && (vs[0] < 100 || Lay(vs[1..]) == []) && v2 == vs[2..] && start.remaining == TextOf(Lay(vs))
    ensures r == Read(Read(start, "d", NS_PER_DAY), "h", NS_PER_HOUR)
    ensures r == Reading(start.sum + vs[0] * NS_PER_DAY + vs[1] * NS_PER_HOUR,
                         start.valid || vs[0] > 0 || vs[1] > 0, TextOf(Lay(v2)))
  {
    var v1 := vs[1..];
    assert v1[1..] == v2;
    r := ReadOne(vs, start, "d", NS_PER_DAY);
    r := ReadOne(v1, r, "h", NS_PER_HOUR);
  }

  lemma ReadsMinutesAndSeconds(v2: Values, start: Reading) returns (r: Reading)
    requires |v2| == 3 && v2[0] < 60 && v2[1] < 60 && start.remaining == TextOf(Lay(v2))
    ensures r == Read(Read(start, "m", NS_PER_MINUTE), "s", NS_PER_SECOND)
    ensures r == Reading(start.sum + v2[0] * NS_PER_MINUTE + v2[1] * NS_PER_SECOND,
                         start.valid || v2[0] > 0 || v2[1] > 0, TextOf(Lay([v2[2]])))
  {
    var v3 := v2[1..];
    assert v3[1..] == [v2[2]];
    r := ReadOne(v2, start, "m", NS_PER_MINUTE);
    r := ReadOne(v3, r, "s", NS_PER_SECOND);
  }

  lemma SumOfFive(vs: Values)
    requires |vs| == 5
    ensures Sum(vs) == vs[0] * NS_PER_DAY + vs[1] * NS_PER_HOUR + vs[2] * NS_PER_MINUTE
                       + vs[3] * NS_PER_SECOND + vs[4] * NS_PER_MILLISECOND
  {
    var v1, v2, v3, v4 := vs[1..], vs[2..], vs[3..], vs[4..];
    assert v1[1..] == v2 && v2[1..] == v3 && v3[1..] == v4 && v4[1..] == [];
    assert Sum(v4) == vs[4] * NS_PER_MILLISECOND;
    assert Sum(v3) == vs[3] * NS_PER_SECOND + Sum(v4);
    assert Sum(v2) == vs[2] * NS_PER_MINUTE + Sum(v3);
    assert Sum(v1) == vs[1] * NS_PER_HOUR + Sum(v2);
  }

  lemma SomeOfFive(vs: Values)
    requires |vs| == 5 && Lay(vs) != []
    ensures vs[0] > 0 || vs[1] > 0 || vs[2] > 0 || vs[3] > 0 || vs[4] > 0
  {
    SomethingPrinted(vs);
  }

  lemma {:induction false} SomethingPrinted(vs: Values)
    requires Lay(vs) != []
    ensures exists i :: 0 <= i < |vs| && vs[i] > 0
  {
    LayCases(vs);
    if vs[0] == 0 {
      SomethingPrinted(vs[1..]);
      var i :| 0 <= i < |vs[1..]| && vs[1..][i] > 0;
      assert vs[i + 1] > 0;
    }
  }
}
