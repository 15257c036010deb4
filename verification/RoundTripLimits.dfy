/** When the round trip holds, exactly: which spans the parser reads back and which it misreads. */
module RoundTripLimits {
  import opened Options
  import opened Text
  import opened TimeSpan
  import opened FieldText
  import opened RoundTrip

  // ---------------------------------------------------------------- which parser is chosen

  function Units(fs: seq<Field>): seq<string> {
    if fs == [] then [] else [fs[0].unit] + Units(fs[1..])
  }

  lemma {:induction false} TokensAfterDigits(digits: string, rest: string)
    requires AllDigits(digits)
    ensures Tokens(digits + rest) == Tokens(rest)
  {
    if digits == [] {
      assert digits + rest == rest;
    } else {
      TokensAfterDigits(digits[1..], rest);
      assert (digits + rest)[1..] == digits[1..] + rest && !IsLetter(digits[0]);
    }
  }

  lemma {:induction false} TokensOfText(fs: seq<Field>)
    requires FieldText.WellFormed(fs)
    ensures Tokens(TextOf(fs)) == Units(fs)
  {
    if fs != [] {
      TokensOfText(fs[1..]);
      TextInParts(fs);
      DecimalFacts(fs[0].value);
      UnitIsLetters(fs, 0);
      TokensOfHead(Decimal(fs[0].value), fs[0].unit, After(fs, 0), TextOf(fs[1..]));
    }
  }

  lemma TextInParts(fs: seq<Field>)
    requires fs != []
    ensures TextOf(fs) == Decimal(fs[0].value) + (fs[0].unit + After(fs, 0))
    ensures After(fs, 0) == if |fs| > 1 then " " + TextOf(fs[1..]) else ""
  {
    SplitAt(fs, 0);
    Regrouped(Decimal(fs[0].value), fs[0].unit, After(fs, 0));
  }

  lemma Regrouped(a: string, b: string, c: string)
    ensures "" + (a + b) + c == a + (b + c)
  {}

  lemma TokensOfHead(digits: string, unit: string, rest: string, tail: string)
    requires AllDigits(digits) && unit != [] && AllLetters(unit)
    requires rest == " " + tail || (rest == "" && tail == "")
    ensures Tokens(digits + (unit + rest)) == [unit] + Tokens(tail)
  {
    TokensAfterDigits(digits, unit + rest);
    TokenEnds(unit, rest);
    assert rest != [] ==> rest[1..] == tail;
  }

  lemma {:induction false} UnitPresent(fs: seq<Field>, unit: string)
    requires FieldText.WellFormed(fs)
    ensures unit in Units(fs) <==> ValueOf(fs, unit) > 0
  {
    if fs != [] { UnitPresent(fs[1..], unit); }
  }

  lemma TokensOfLay(vs: Values, i: nat)
    requires i < |vs|
    ensures UnitName(First(vs) + i) in Tokens(TextOf(Lay(vs))) <==> vs[i] > 0
  {
    LayIsWellFormed(vs);
    TokensOfText(Lay(vs));
    UnitPresent(Lay(vs), UnitName(First(vs) + i));
    ValueInLay(vs, i);
  }

  // ---------------------------------------------------------------- what a misplaced cursor can read

  lemma TrimKeeps(s: string, c: char)
    requires c in s && !IsSpace(c)
    ensures c in Trimmed(s)
  {
    TrimRightKeeps(s, c);
    TrimLeftKeeps(TrimRight(s), c);
  }

  lemma {:induction false} TrimRightKeeps(s: string, c: char)
    requires c in s && !IsSpace(c)
    ensures c in TrimRight(s)
  {
    if IsSpace(s[|s| - 1]) {
      assert c in s[..|s| - 1];
      TrimRightKeeps(s[..|s| - 1], c);
    }
  }

  lemma {:induction false} TrimLeftKeeps(s: string, c: char)
    requires c in s && !IsSpace(c)
    ensures c in TrimLeft(s)
  {
    if IsSpace(s[0]) {
      assert c in s[1..];
      TrimLeftKeeps(s[1..], c);
    }
  }

  /** Text with a letter in it is no number. */
  lemma LettersAreNoNumber(s: string, c: char)
    requires c in s && IsLetter(c)
    ensures Number(s) == None && ToInt(s) == 0
  {
    TrimKeeps(s, c);
    var t := Trimmed(s);
    assert c in t && t[0] in t;
    if t[0] == '-' || t[0] == '+' { assert c in t[1..]; }
  }

  lemma DigitsReadAtMost(s: string)
    requires s != [] && AllDigits(s)
    ensures 0 <= ToInt(s) <= Value(s) && ToInt(" " + s) == ToInt(s)
  {
    TrimmedIsItself(s);
  }

  /** The number before the unit of field j, from any point of the text on: at most the value of
      the field, less if the point is inside the number, nothing if the point is far before it. */
  lemma PartValue(fs: seq<Field>, j: nat, o: nat)
    requires FieldText.WellFormed(fs) && j < |fs| && o < UnitAt(fs, j)
    ensures UnitAt(fs, j) <= |TextOf(fs)|
    ensures var n := ToInt(TextOf(fs)[o..UnitAt(fs, j)]);
            && n <= fs[j].value
            && (|Before(fs, j)| < o ==> n < fs[j].value)
            && (j > 0 && o == 0 ==> n <= 0)
  {
    var b, digits := Before(fs, j), Decimal(fs[j].value);
    PartIs(fs, j, o);
    DecimalFacts(fs[j].value);
    if o >= |b| {
      TailOfConcat(b, digits, o);
      TailReadsAtMost(digits, o - |b|);
    } else {
      assert j > 0;
      BeforeEnds(fs, j);
      FarPart(b, digits, o);
    }
  }

  lemma PartIs(fs: seq<Field>, j: nat, o: nat)
    requires j < |fs| && o < UnitAt(fs, j)
    ensures UnitAt(fs, j) <= |TextOf(fs)|
    ensures TextOf(fs)[o..UnitAt(fs, j)] == (Before(fs, j) + Decimal(fs[j].value))[o..]
  {
    SplitAt(fs, j);
  }

  lemma TailOfConcat(b: string, digits: string, o: nat)
    requires |b| <= o <= |b| + |digits|
    ensures (b + digits)[o..] == digits[o - |b|..]
  {}

  lemma TailReadsAtMost(digits: string, k: nat)
    requires k < |digits| && AllDigits(digits) && digits[0] != '0'
    ensures ToInt(digits[k..]) <= Value(digits) && (k > 0 ==> ToInt(digits[k..]) < Value(digits))
  {
    SuffixValue(digits, k);
    DigitsReadAtMost(digits[k..]);
  }

  lemma FarPart(b: string, digits: string, o: nat)
    requires |b| >= 2 && b[|b| - 1] == ' ' && IsLetter(b[|b| - 2]) && o < |b|
    requires digits != [] && AllDigits(digits)
    ensures ToInt((b + digits)[o..]) <= Value(digits)
    ensures o < |b| - 1 ==> ToInt((b + digits)[o..]) == 0
  {
    var part := (b + digits)[o..];
    if o == |b| - 1 {
      assert part == " " + digits;
      DigitsReadAtMost(digits);
    } else {
      assert part[|b| - 2 - o] == b[|b| - 2];
      LettersAreNoNumber(part, b[|b| - 2]);
    }
  }

  /** Whatever point of the text a reading starts from, it reads at most the value of its unit
      and leaves a tail of the text. From inside the first number it reads less of the first
      unit; from the start it reads nothing of a later one. */
  lemma Contribution(fs: seq<Field>, o: nat, token: string) returns (next: nat)
    requires FieldText.WellFormed(fs) && o <= |TextOf(fs)| && token != [] && AllLetters(token)
    ensures var (n, rest) := IntToToken(TextOf(fs)[o..], token);
            && o <= next <= |TextOf(fs)| && rest == TextOf(fs)[next..]
            && n <= ValueOf(fs, token)
            && (o >= 1 && fs != [] && fs[0].unit == token ==> n < fs[0].value)
            && (o == 0 && fs != [] && fs[0].unit != token ==> n <= 0)
  {
    var s := TextOf(fs);
    if Found(s[o..], token) {
      next := ContributionFound(fs, o, token);
    } else {
      next := o;
    }
  }

  lemma ContributionFound(fs: seq<Field>, o: nat, token: string) returns (next: nat)
    requires FieldText.WellFormed(fs) && o <= |TextOf(fs)| && token != [] && AllLetters(token)
    requires Found(TextOf(fs)[o..], token)
    ensures var (n, rest) := Cut(TextOf(fs)[o..], IndexOf(TextOf(fs)[o..], token));
            && o <= next <= |TextOf(fs)| && rest == TextOf(fs)[next..]
            && n <= ValueOf(fs, token) && fs != []
            && (o >= 1 && fs[0].unit == token ==> n < fs[0].value)
            && (o == 0 && fs[0].unit != token ==> n <= 0)
  {
    var s := TextOf(fs);
    var index := IndexOf(s[o..], token);
    var j := FoundIsUnit(fs, o, token);
    TextEnds(fs);
    next := CutLeavesTail(s, o, index);
    TailThenHead(s, o, index);
    ContributionBounds(fs, o, j, s[o..][..index], ToInt(s[o..][..index]));
    ValueOfField(fs, j);
  }

  lemma ContributionBounds(fs: seq<Field>, o: nat, j: nat, part: string, n: int)
    requires FieldText.WellFormed(fs) && j < |fs| && o < UnitAt(fs, j) <= |TextOf(fs)|
    requires part == TextOf(fs)[o..UnitAt(fs, j)] && n == ToInt(part)
    ensures n <= fs[j].value
    ensures o >= 1 && fs[0].unit == fs[j].unit ==> n < fs[0].value
    ensures o == 0 && fs[0].unit != fs[j].unit ==> n <= 0
  {
    PartValue(fs, j, o);
    FirstIsOnly(fs, j);
  }

  lemma TailThenHead(s: string, o: nat, index: nat)
    requires o + index <= |s|
    ensures s[o..][..index] == s[o..o + index]
  {}

  lemma FirstIsOnly(fs: seq<Field>, j: nat)
    requires FieldText.WellFormed(fs) && j < |fs|
    ensures fs[0].unit == fs[j].unit <==> j == 0
    ensures j == 0 ==> Before(fs, j) == ""
  {
    if j > 0 { assert Rank(fs[0].unit) < Rank(fs[j].unit); }
  }

  lemma TailOfTail(s: string, o: nat, j: nat)
    requires o + j <= |s|
    ensures s[o..][j..] == s[o + j..]
  {}

  lemma TrimmedTail(y: string) returns (k: nat)
    requires y != [] ==> !IsSpace(y[|y| - 1])
    ensures k <= |y| && Trimmed(y) == y[k..]
  {
    assert TrimRight(y) == y;
    TrimLeftIsSuffix(y);
    k :| 0 <= k <= |y| && TrimLeft(y) == y[k..];
  }

  lemma CutLeavesTail(s: string, o: nat, index: nat) returns (next: nat)
    requires o <= |s| && index <= |s[o..]| && (s != [] ==> !IsSpace(s[|s| - 1]))
    ensures o <= next <= |s| && Cut(s[o..], index).1 == s[next..]
    ensures next >= o + index + index || next == |s|
  {
    if o + index + index < |s| {
      var at := o + index + index;
      TailOfTail(s, o, index + index);
      var k := TrimmedTail(s[at..]);
      TailOfTail(s, at, k);
      next := at + k;
    } else {
      next := |s|;
    }
  }

  // ---------------------------------------------------------------- a cursor inside the first number

  /** One reading of a tail of the text adds at most its unit's share. */
  lemma ReadTail(fs: seq<Field>, o: nat, r: Reading, token: string, unit: int) returns (q: Reading, next: nat)
    requires FieldText.WellFormed(fs) && o <= |TextOf(fs)| && token != [] && AllLetters(token) && unit > 0
    requires r.remaining == TextOf(fs)[o..] && fs != []
    ensures q == Read(r, token, unit)
    ensures o <= next <= |TextOf(fs)| && q.remaining == TextOf(fs)[next..]
    ensures q.sum <= r.sum + ValueOf(fs, token) * unit
    ensures o >= 1 && fs[0].unit == token && fs[0].value > 0 ==> q.sum < r.sum + ValueOf(fs, token) * unit
    ensures o == 0 && fs[0].unit != token ==> q.sum <= r.sum
  {
    next := Contribution(fs, o, token);
    q := Read(r, token, unit);
    var n := IntToToken(r.remaining, token).0;
    assert q.sum == r.sum + Gain(n, unit);
    GainAtMost(n, ValueOf(fs, token), unit);
  }

  function Gain(n: int, unit: int): int { if n >= 0 then n * unit else 0 }

  lemma GainAtMost(n: int, v: nat, unit: int)
    requires unit > 0 && n <= v
    ensures Gain(n, unit) <= v * unit
    ensures n < v && v > 0 ==> Gain(n, unit) < v * unit
    ensures n <= 0 ==> Gain(n, unit) == 0
  {
    assert (v - n) * unit == v * unit - n * unit;
  }

  /** The first printed field. */
  lemma {:induction false} HeadOfLay(vs: Values) returns (f: nat)
    requires Lay(vs) != []
    ensures f < |vs| && vs[f] > 0 && Lay(vs)[0] == Field(vs[f], UnitName(First(vs) + f))
  {
    LayCases(vs);
    if vs[0] > 0 {
      f := 0;
    } else {
      var g := HeadOfLay(vs[1..]);
      f := g + 1;
    }
  }

  function ReadSmall(r: Reading): Reading {
    Read(Read(Read(Read(r, "h", NS_PER_HOUR), "m", NS_PER_MINUTE), "s", NS_PER_SECOND), "ms", NS_PER_MILLISECOND)
  }

  function SmallSum(h: int, m: int, s: int, ms: int): int {
    h * NS_PER_HOUR + m * NS_PER_MINUTE + s * NS_PER_SECOND + ms * NS_PER_MILLISECOND
  }

  /** Hours to milliseconds, read from a tail of a text, never come to more than that text's
      fields, and to less when the tail starts inside the first of them. */
  lemma TailReads(fs: seq<Field>, o: nat, r: Reading)
    requires FieldText.WellFormed(fs) && fs != [] && o <= |TextOf(fs)| && r.remaining == TextOf(fs)[o..]
    ensures var total := SmallSum(ValueOf(fs, "h"), ValueOf(fs, "m"), ValueOf(fs, "s"), ValueOf(fs, "ms"));
            && ReadSmall(r).sum <= r.sum + total
            && (o >= 1 && fs[0].unit in ["h", "m", "s", "ms"] ==> ReadSmall(r).sum < r.sum + total)
  {
    var q, next := ReadTail(fs, o, r, "h", NS_PER_HOUR);
    q, next := ReadTail(fs, next, q, "m", NS_PER_MINUTE);
    q, next := ReadTail(fs, next, q, "s", NS_PER_SECOND);
    q, next := ReadTail(fs, next, q, "ms", NS_PER_MILLISECOND);
  }

  /** A number of three or more digits before another field: the cursor lands inside that field. */
  lemma CursorOvershoots(fs: seq<Field>) returns (o: nat)
    requires FieldText.WellFormed(fs) && |fs| > 1 && fs[0].unit == "d" && 100 <= fs[0].value < 0x8000_0000
    ensures 1 <= o <= |TextOf(fs[1..])|
    ensures IntToToken(TextOf(fs), "d") == (fs[0].value as int, TextOf(fs[1..])[o..])
  {
    var digits, tail := Decimal(fs[0].value), TextOf(fs[1..]);
    DecimalReads(fs[0].value);
    assert FieldText.WellFormed(fs[1..]);
    TextEnds(fs[1..]);
    assert digits + "d" + (" " + tail) == TextOf(fs);
    o := OvershootsBy(digits, tail);
  }

  lemma OvershootsBy(digits: string, tail: string) returns (o: nat)
    requires |digits| >= 3 && AllDigits(digits) && tail != [] && !IsSpace(tail[|tail| - 1])
    ensures 1 <= o <= |tail|
    ensures IntToToken(digits + "d" + (" " + tail), "d") == (ToInt(digits), tail[o..])
  {
    var s := digits + "d" + (" " + tail);
    FoundAfterDigits(digits, "d", " " + tail);
    assert s[..|digits|] == digits && s[0..] == s;
    var next := CutLeavesTail(s, 0, |digits|);
    o := next - |digits| - 2;
    assert s[next..] == tail[o..];
  }

  /** Days of three or more digits with anything after them are read back as less than they are. */
  lemma Misread(vs: Values)
    requires InRange(vs) && vs[0] >= 100 && Lay(vs[1..]) != []
    ensures ReadAll(TextOf(Lay(vs))).sum < Sum(vs)
  {
    var fs, small := Lay(vs), Lay(vs[1..]);
    LayCases(vs);
    LayIsWellFormed(vs);
    LayIsWellFormed(vs[1..]);
    TrimmedText(fs);
    assert fs[0].unit == "d" && fs[1..] == small;
    var o := CursorOvershoots(fs);
    var r := Read(Reading(0, false, TextOf(fs)), "d", NS_PER_DAY);
    TailReads(small, o, r);
    SmallValues(vs[1..]);
    SumOfFive(vs);
    assert ReadAll(TextOf(fs)) == ReadSmall(r);
  }

  lemma SmallValues(vs: Values)
    requires |vs| == 4 && Lay(vs) != []
    ensures ValueOf(Lay(vs), "h") == vs[0] && ValueOf(Lay(vs), "m") == vs[1]
    ensures ValueOf(Lay(vs), "s") == vs[2] && ValueOf(Lay(vs), "ms") == vs[3]
    ensures Lay(vs)[0].unit in ["h", "m", "s", "ms"]
  {
    ValueUnder(vs, 0, "h");
    ValueUnder(vs, 1, "m");
    ValueUnder(vs, 2, "s");
    ValueUnder(vs, 3, "ms");
    SmallUnit(vs);
  }

  lemma ValueUnder(vs: Values, i: nat, unit: string)
    requires i < |vs| && unit == UnitName(First(vs) + i)
    ensures ValueOf(Lay(vs), unit) == vs[i]
  {
    ValueInLay(vs, i);
  }

  lemma SmallUnit(vs: Values)
    requires |vs| == 4 && Lay(vs) != []
    ensures Lay(vs)[0].unit in ["h", "m", "s", "ms"]
  {
    var f := HeadOfLay(vs);
    var units := ["h", "m", "s", "ms"];
    assert UnitName(2 + f) == units[f];
  }

  /** A text that starts with years is read back as less than a day. */
  lemma YearsMisread(vs: Values)
    requires |vs| == 6 && vs[0] > 0 && vs[2] < 24 && vs[3] < 60 && vs[4] < 60 && vs[5] < 1000
    ensures ReadAll(TextOf(Lay(vs))).sum < NS_PER_DAY
  {
    var fs := Lay(vs);
    LayCases(vs);
    LayIsWellFormed(vs);
    TrimmedText(fs);
    FirstTail(fs);
    SixValues(vs);
    LessThanADay(vs[2], vs[3], vs[4], vs[5]);
  }

  lemma LessThanADay(h: nat, m: nat, s: nat, ms: nat)
    requires h < 24 && m < 60 && s < 60 && ms < 1000
    ensures SmallSum(h, m, s, ms) < NS_PER_DAY
  {}

  lemma SixValues(vs: Values)
    requires |vs| == 6
    ensures ValueOf(Lay(vs), "h") == vs[2] && ValueOf(Lay(vs), "m") == vs[3]
    ensures ValueOf(Lay(vs), "s") == vs[4] && ValueOf(Lay(vs), "ms") == vs[5]
  {
    ValueUnder(vs, 2, "h");
    ValueUnder(vs, 3, "m");
    ValueUnder(vs, 4, "s");
    ValueUnder(vs, 5, "ms");
  }

  lemma FirstTail(fs: seq<Field>)
    requires FieldText.WellFormed(fs) && fs != [] && fs[0].unit == "y" && Trimmed(TextOf(fs)) == TextOf(fs)
    ensures ReadAll(TextOf(fs)).sum <= SmallSum(ValueOf(fs, "h"), ValueOf(fs, "m"), ValueOf(fs, "s"), ValueOf(fs, "ms"))
  {
    var s := TextOf(fs);
    assert s[0..] == s;
    var r, next := ReadTail(fs, 0, Reading(0, false, s), "d", NS_PER_DAY);
    TailReads(fs, next, r);
    assert ReadAll(s) == ReadSmall(r);
  }

  // ---------------------------------------------------------------- the round trip

  /** What toDouble must do on the texts that reach it here. */
  ghost predicate LibraryFits(lib: Library) {
    && (forall n: nat :: n < 1000 ==> lib.toDouble(Decimal(n)) == n as real)
    && (forall s: string :: 'y' in s ==> lib.toDouble(s) == 0.0)
  }

  ghost predicate RoundTrips(lib: Library, ns: int) {
    FromString(lib, Abbreviated(ns, true)) == Parsed(ns, Some(true))
  }

  function Small(ns: int): Values
    requires ns >= 0 && ns % NS_PER_MILLISECOND == 0
  {
    FieldsMakeTheSpan(ns);
    [Days(ns), Hours(ns), Minutes(ns), Seconds(ns), Milliseconds(ns)]
  }

  /** Up to a year the days printed are the whole days; beyond it there are years. */
  lemma YearsAndDays(ns: int)
    requires ns >= 0
    ensures TotalDays(ns) <= DAYS_PER_YEAR ==> WholeYears(ns) == 0 && DaysBesideYears(ns) == Days(ns)
    ensures TotalDays(ns) > DAYS_PER_YEAR ==> WholeYears(ns) > 0 && DaysBesideYears(ns) >= 0 && ns > 365 * NS_PER_DAY
    ensures TotalDays(ns) <= DAYS_PER_YEAR ==> Days(ns) <= 365
  {
    var d := Days(ns);
    assert ns == d * NS_PER_DAY + ns % NS_PER_DAY;
    assert TotalDays(ns) == d as real + (ns % NS_PER_DAY) as real / NS_PER_DAY as real;
    if TotalDays(ns) > DAYS_PER_YEAR {
      var years := TotalDays(ns) / DAYS_PER_YEAR;
      assert years > 1.0;
      assert years * DAYS_PER_YEAR == TotalDays(ns);
      assert years.Floor as real * DAYS_PER_YEAR <= years * DAYS_PER_YEAR;
    }
  }

  /** Beyond a year, of 365.242 days, what is printed is the whole years in the span and the whole days left then. */
  lemma YearsInTheSpan(ns: int)
    requires ns >= 0 && TotalDays(ns) > DAYS_PER_YEAR
    ensures WholeYears(ns) as real * DAYS_PER_YEAR <= TotalDays(ns) < (WholeYears(ns) + 1) as real * DAYS_PER_YEAR
    ensures var days := TotalDays(ns) - WholeYears(ns) as real * DAYS_PER_YEAR;
            0 <= DaysBesideYears(ns) <= 365 && DaysBesideYears(ns) as real <= days < DaysBesideYears(ns) as real + 1.0
  {
    YearsAndDays(ns);
    var years := TotalDays(ns) / DAYS_PER_YEAR;
    assert years * DAYS_PER_YEAR == TotalDays(ns);
    assert years.Floor as real <= years < years.Floor as real + 1.0;
  }

  lemma TextUpToAYear(ns: int)
    requires 0 < ns && ns % NS_PER_MILLISECOND == 0 && TotalDays(ns) <= DAYS_PER_YEAR
    ensures Lay(Small(ns)) != [] && Abbreviated(ns, true) == TextOf(Lay(Small(ns)))
    ensures InRange(Small(ns)) && Sum(Small(ns)) == ns
  {
    YearsAndDays(ns);
    FieldsMakeTheSpan(ns);
    var vs := Small(ns);
    SumOfFive(vs);
    if Lay(vs) == [] { NothingPrinted(vs); }
    var six := [0] + vs;
    LayCases(six);
    assert six[1..] == vs;
    PrintedText(six);
    NoSign(FieldsText(0, vs[0], vs[1], vs[2], vs[3], vs[4]));
  }

  lemma NoSign(s: string)
    ensures "" + s == s
  {}

  lemma {:induction false} NothingPrinted(vs: Values)
    ensures Lay(vs) == [] <==> forall i :: 0 <= i < |vs| ==> vs[i] == 0
  {
    if vs != [] {
      LayCases(vs);
      NothingPrinted(vs[1..]);
      assert forall i :: 0 < i < |vs| ==> vs[i] == vs[1..][i - 1];
    }
  }

  lemma TextBeyondAYear(ns: int) returns (six: Values)
    requires 0 < ns && ns % NS_PER_MILLISECOND == 0 && TotalDays(ns) > DAYS_PER_YEAR
    ensures |six| == 6 && six[0] > 0 && six[2] < 24 && six[3] < 60 && six[4] < 60 && six[5] < 1000
    ensures Lay(six) != [] && Abbreviated(ns, true) == TextOf(Lay(six))
  {
    YearsAndDays(ns);
    FieldsMakeTheSpan(ns);
    six := [WholeYears(ns), DaysBesideYears(ns), Hours(ns), Minutes(ns), Seconds(ns), Milliseconds(ns)];
    LayCases(six);
    PrintedText(six);
    NoSign(FieldsText(six[0], six[1], six[2], six[3], six[4], six[5]));
  }

  /** A text of days, hours, minutes or seconds goes to the abbreviated parser. */
  predicate HasSmallUnits(tokens: seq<string>) { "d" in tokens || "h" in tokens || "m" in tokens || "s" in tokens }

  lemma SmallUnitsDecide(lib: Library, s: string)
    requires HasSmallUnits(Tokens(s))
    ensures FromString(lib, s) == Parsed(ReadAll(s).sum, Some(ReadAll(s).valid))
  {}

  lemma PrintedUnit(vs: Values, i: nat, unit: string)
    requires i < |vs| && vs[i] > 0 && unit == UnitName(First(vs) + i)
    ensures unit in Tokens(TextOf(Lay(vs)))
  {
    TokensOfLay(vs, i);
  }

  lemma ParsedAsAbbreviated(lib: Library, vs: Values)
    requires |vs| == 5 && (vs[0] > 0 || vs[1] > 0 || vs[2] > 0 || vs[3] > 0)
    ensures FromString(lib, TextOf(Lay(vs))) ==
            Parsed(ReadAll(TextOf(Lay(vs))).sum, Some(ReadAll(TextOf(Lay(vs))).valid))
  {
    if vs[0] > 0 { PrintedUnit(vs, 0, "d"); }
    if vs[1] > 0 { PrintedUnit(vs, 1, "h"); }
    if vs[2] > 0 { PrintedUnit(vs, 2, "m"); }
    if vs[3] > 0 { PrintedUnit(vs, 3, "s"); }
    SmallUnitsDecide(lib, TextOf(Lay(vs)));
  }

  lemma OneUnit(digits: string, unit: string, s: string)
    requires digits != [] && AllDigits(digits) && (unit == "ms" || unit == "us") && s == digits + unit
    ensures Tokens(s) == [unit] && IndexOf(s, unit) == |digits| && s[..|digits|] == digits
    ensures ':' !in s && IsDigit(s[0])
  {
    TokensAfterDigits(digits, unit);
    TokenEnds(unit, "");
    assert unit + "" == unit && s == digits + unit + "";
    IndexAfterDigits(digits, unit, "");
  }

  /** Before "ms" or "us" the number may be any that toDouble makes of it; what it comes to is truncated. */
  lemma ReadScaled(lib: Library, digits: string, unit: string)
    requires digits != [] && AllDigits(digits) && (unit == "ms" || unit == "us")
    ensures FromString(lib, digits + unit) ==
            Parsed(Truncated(lib.toDouble(digits) * (if unit == "us" then 1000.0 else 1_000_000.0)), Some(true))
  {
    OneUnit(digits, unit, digits + unit);
    TrimmedIsItself(digits);
  }

  lemma ReadBare(lib: Library, digits: string, v: nat)
    requires digits != [] && AllDigits(digits) && Value(digits) == v
    ensures FromString(lib, digits) ==
            if v < 0x8000_0000 then Parsed(v * NS_PER_MILLISECOND, Some(true)) else Parsed(0, Some(false))
  {
    TokensAfterDigits(digits, "");
    assert digits + "" == digits;
    TrimmedIsItself(digits);
  }

  /** A text that starts with no digit and has neither a unit of the abbreviated format nor a colon is no time at all,
      and says nothing about whether it was read. */
  lemma NothingToRead(lib: Library, s: string)
    requires !HasSmallUnits(Tokens(s)) && ':' !in s && (s == [] || !IsDigit(s[0]))
    ensures FromString(lib, s) == Parsed(0, None)
  {}

  /** A number alone is milliseconds, if it fits into 32 bits, and nothing otherwise; with "us" after it, it is
      microseconds, and with "ms" milliseconds. */
  lemma NumbersAlone(lib: Library, v: nat)
    requires lib.toDouble(Decimal(v)) == v as real
    ensures FromString(lib, Decimal(v)) ==
            if v < 0x8000_0000 then Parsed(v * NS_PER_MILLISECOND, Some(true)) else Parsed(0, Some(false))
    ensures FromString(lib, Decimal(v) + "us") == Parsed(v * 1000, Some(true))
    ensures FromString(lib, Decimal(v) + "ms") == Parsed(v * NS_PER_MILLISECOND, Some(true))
  {
    DecimalFacts(v);
    ReadBare(lib, Decimal(v), v);
    ReadScaled(lib, Decimal(v), "us");
    ReadScaled(lib, Decimal(v), "ms");
  }

  lemma OnlyMilliseconds(vs: Values)
    requires |vs| == 5 && vs[0] == 0 && vs[1] == 0 && vs[2] == 0 && vs[3] == 0 && Lay(vs) != []
    ensures vs[4] > 0 && TextOf(Lay(vs)) == Decimal(vs[4]) + "ms" && Sum(vs) == vs[4] * NS_PER_MILLISECOND
  {
    SomeOfFive(vs);
    SumOfFive(vs);
    assert vs[4..] == [vs[4]];
    assert vs[1..][1..] == vs[2..] && vs[2..][1..] == vs[3..] && vs[3..][1..] == vs[4..];
    LayCases(vs);
    LayCases(vs[1..]);
    LayCases(vs[2..]);
    LayCases(vs[3..]);
    LastText(vs[4]);
  }

  lemma {:induction false} NoColon(fs: seq<Field>)
    requires FieldText.WellFormed(fs)
    ensures ':' !in TextOf(fs)
  {
    if fs != [] {
      DecimalFacts(fs[0].value);
      UnitIsLetters(fs, 0);
      NoColon(fs[1..]);
      SplitAt(fs, 0);
    }
  }

  lemma NoMicroseconds(fs: seq<Field>)
    requires FieldText.WellFormed(fs)
    ensures "us" !in Tokens(TextOf(fs))
  {
    TokensOfText(fs);
    UnitPresent(fs, "us");
    NoValue(fs, "us");
  }

  /** Before "ms" in a text that starts with years, there is the letter y. */
  lemma YearsBeforeMilliseconds(digits: string, rest: string)
    requires AllDigits(digits)
    ensures var s := digits + "y" + rest; IndexOf(s, "ms") > 0 ==> 'y' in Trimmed(s[..IndexOf(s, "ms")])
    ensures Number(digits + "y" + rest) == None
  {
    var s := digits + "y" + rest;
    var index := IndexOf(s, "ms");
    assert s[|digits|] == 'y';
    LettersAreNoNumber(s, 'y');
    if index > 0 {
      OccursFirst(s, "ms", index);
      assert forall k :: 0 <= k < |digits| ==> s[k] == digits[k];
      assert s[..index][|digits|] == 'y';
      TrimKeeps(s[..index], 'y');
    }
  }

  lemma YearsAlone(lib: Library, s: string, digits: string, rest: string)
    requires LibraryFits(lib) && s == digits + "y" + rest && digits != [] && AllDigits(digits)
    requires ':' !in s && "us" !in Tokens(s)
    requires "d" !in Tokens(s) && "h" !in Tokens(s) && "m" !in Tokens(s) && "s" !in Tokens(s)
    ensures FromString(lib, s).nanoseconds == 0
  {
    YearsBeforeMilliseconds(digits, rest);
    assert IsDigit(s[0]) by { assert s[0] == digits[0]; }
    if "ms" in Tokens(s) && IndexOf(s, "ms") > 0 {
      assert lib.toDouble(Trimmed(s[..IndexOf(s, "ms")])) == 0.0;
    }
  }

  lemma YearsWithoutUnits(lib: Library, vs: Values, s: string)
    requires LibraryFits(lib) && vs != [] && First(vs) == 0 && vs[0] > 0 && s == TextOf(Lay(vs))
             && !HasSmallUnits(Tokens(s))
    ensures FromString(lib, s).nanoseconds == 0
  {
    LayIsWellFormed(vs);
    LayCases(vs);
    DecimalFacts(vs[0]);
    NoColon(Lay(vs));
    NoMicroseconds(Lay(vs));
    SplitAt(Lay(vs), 0);
    YearsAlone(lib, s, Decimal(vs[0]), After(Lay(vs), 0));
  }

  /** A text with years in it is read back as less than a day. */
  lemma YearsAreLost(lib: Library, vs: Values)
    requires LibraryFits(lib) && |vs| == 6 && vs[0] > 0 && vs[2] < 24 && vs[3] < 60 && vs[4] < 60 && vs[5] < 1000
    ensures FromString(lib, TextOf(Lay(vs))).nanoseconds < NS_PER_DAY
  {
    if HasSmallUnits(Tokens(TextOf(Lay(vs)))) {
      YearsMisread(vs);
    } else {
      YearsWithoutUnits(lib, vs, TextOf(Lay(vs)));
    }
  }

  lemma ZeroRoundTrips(lib: Library)
    ensures RoundTrips(lib, 0)
  {
    TrimmedIsItself("0m");
    NotFound("0m", "d");
    NotFound("0m", "h");
    NotFound("", "s");
    NotFound("", "ms");
    assert Decimal(0) == "0";
    DecimalReads(0);
    HitLast("0", "m");
    assert "0" + "m" == "0m";
    TokensAfterDigits("0", "m");
    assert Tokens("m") == ["m"] by { TokenEnds("m", ""); assert "m" + "" == "m"; }
    var r := Read(Read(Reading(0, false, "0m"), "d", NS_PER_DAY), "h", NS_PER_HOUR);
    assert r == Reading(0, false, "0m");
    assert Read(r, "m", NS_PER_MINUTE) == Reading(0, true, "");
    assert ReadAll("0m") == Reading(0, true, "");
  }

  lemma NotFound(s: string, token: string)
    requires token != [] && forall k :: 0 <= k < |s| ==> s[k] != token[0]
    ensures IntToToken(s, token) == (-1, s)
  {
    if IndexOf(s, token) >= 0 { OccursFirst(s, token, IndexOf(s, token)); }
  }

  /** Reading back what was printed, up to a year. */
  lemma UpToAYear(lib: Library, ns: int)
    requires LibraryFits(lib) && 0 < ns && ns % NS_PER_MILLISECOND == 0 && TotalDays(ns) <= DAYS_PER_YEAR
    ensures RoundTrips(lib, ns) <==> Days(ns) < 100 || Lay(Small(ns)[1..]) == []
  {
    var vs := Small(ns);
    TextUpToAYear(ns);
    if vs[0] > 0 || vs[1] > 0 || vs[2] > 0 || vs[3] > 0 {
      ParsedAsAbbreviated(lib, vs);
      if vs[0] < 100 || Lay(vs[1..]) == [] { ReadsBack(vs); } else { Misread(vs); }
    } else {
      OnlyMilliseconds(vs);
      NumbersAlone(lib, vs[4]);
    }
  }

  /** A whole-millisecond span is read back from its text exactly when it is under 100 days, or
      a whole number of days up to a year. */
  lemma RoundTripExactly(lib: Library, ns: int)
    requires LibraryFits(lib) && 0 <= ns && ns % NS_PER_MILLISECOND == 0
    ensures RoundTrips(lib, ns) <==> ns < 100 * NS_PER_DAY || (ns <= 365 * NS_PER_DAY && ns % NS_PER_DAY == 0)
  {
    YearsAndDays(ns);
    if ns == 0 {
      ZeroRoundTrips(lib);
    } else if TotalDays(ns) <= DAYS_PER_YEAR {
      UpToAYear(lib, ns);
      FieldsMakeTheSpan(ns);
      NothingPrinted(Small(ns)[1..]);
      WholeDays(ns);
    } else {
      var six := TextBeyondAYear(ns);
      YearsAreLost(lib, six);
    }
  }

  lemma WholeDays(ns: int)
    requires 0 <= ns && ns % NS_PER_MILLISECOND == 0
    ensures Lay(Small(ns)[1..]) == [] <==> ns % NS_PER_DAY == 0
    ensures Days(ns) < 100 <==> ns < 100 * NS_PER_DAY
    ensures ns % NS_PER_DAY == 0 ==> (Days(ns) <= 365 <==> ns <= 365 * NS_PER_DAY)
  {
    var small := Small(ns)[1..];
    NothingPrinted(small);
    FieldsMakeTheSpan(ns);
    assert small == [Hours(ns), Minutes(ns), Seconds(ns), Milliseconds(ns)];
    if small[0] == 0 && small[1] == 0 && small[2] == 0 && small[3] == 0 {
      assert forall i :: 0 <= i < |small| ==> small[i] == 0;
    }
  }
}
