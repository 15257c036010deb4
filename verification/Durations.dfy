/** The two ends of the round trip: toAbbreviatedFormat and parseAbbreviatedString, told by the fields of
    a span. */
module Durations {
  import opened Options
  import opened Text
  import opened TimeSpan
  import opened FieldText
  import opened RoundTrip
  import opened RoundTripLimits

  /** Years, days, hours, minutes, seconds and milliseconds of a span without its sign. */
  function FieldValues(ns: int, showMilliseconds: bool): Values
    requires ns > 0
  {
    YearsAndDays(ns);
    FieldRanges(ns);
    [WholeYears(ns), DaysBesideYears(ns), Hours(ns), Minutes(ns), Seconds(ns),
     if showMilliseconds then Milliseconds(ns) else 0]
  }

  lemma FieldRanges(ns: int)
    requires ns >= 0
    ensures 0 <= Days(ns) && 0 <= Hours(ns) < 24 && 0 <= Minutes(ns) < 60
    ensures 0 <= Seconds(ns) < 60 && 0 <= Milliseconds(ns) < 1000
  {}

  /** The text printed for a span: its sign, and its fields other than 0 with one space between them. */
  lemma AbbreviatedIs(ns: int, showMilliseconds: bool)
    requires ns != 0
    ensures Abbreviated(ns, showMilliseconds) ==
            (if ns < 0 then "-" else "") + TextOf(Lay(FieldValues(if ns < 0 then -ns else ns, showMilliseconds)))
  {
    var ts := if ns < 0 then -ns else ns;
    var vs := FieldValues(ts, showMilliseconds);
    PrintedIsFields(vs);
    JoinedLay(vs);
    SignedText(if ns < 0 then "-" else "", Lay(vs), FieldsText(vs[0], vs[1], vs[2], vs[3], vs[4], vs[5]), vs);
  }

  lemma SignedText(sign: string, fs: seq<Field>, printed: string, vs: Values)
    requires sign == "" || sign == "-"
    requires fs == Lay(vs) && printed == Joined(fs)
    ensures Trimmed(sign + printed) == sign + TextOf(fs)
  {
    LayIsWellFormed(vs);
    if fs == [] {
      assert printed == "" && sign + printed == sign && sign + TextOf(fs) == sign;
      TrimmedIsItself(sign);
    } else {
      JoinedIsText(fs);
      TextEnds(fs);
      assert sign + printed == (sign + TextOf(fs)) + " ";
      SignedTrimmed(sign, TextOf(fs));
    }
  }

  lemma SignedTrimmed(sign: string, text: string)
    requires (sign == "" || sign == "-") && text != [] && !IsSpace(text[0]) && !IsSpace(text[|text| - 1])
    ensures Trimmed((sign + text) + " ") == sign + text
  {
    var s := sign + text;
    assert s[|s| - 1] == text[|text| - 1] && s[0] == if sign == "" then text[0] else '-';
    TrimmedIsItself(s);
  }

  /** toAbbreviatedFormat: "0m", or the sign and the fields other than 0, largest unit first, one space between them. */
  method ToAbbreviatedFormat(ns: int, showMilliseconds: bool) returns (result: string)
    ensures result == Abbreviated(ns, showMilliseconds)
    ensures ns == 0 ==> result == "0m"
    ensures ns != 0 ==>
              result == (if ns < 0 then "-" else "")
                  + TextOf(Lay(FieldValues(if ns < 0 then -ns else ns, showMilliseconds)))
  {
    if ns == 0 {
      TrimmedIsItself("0m");
      return Trimmed("0m");
    }
    AbbreviatedIs(ns, showMilliseconds);
    var ts := if ns < 0 then -ns else ns;
    var years, days := SplitYears(ts);
    var fields := PrintFields(years, days, Hours(ts), Minutes(ts), Seconds(ts),
                              if showMilliseconds then Milliseconds(ts) else 0);
    result := Trimmed((if ns < 0 then "-" else "") + fields);
  }

  /** Texts of fields in range that the parser reads back: days of at most two digits, or alone. */
  predicate Readable(vs: Values) { InRange(vs) && Lay(vs) != [] && (vs[0] < 100 || Lay(vs[1..]) == []) }

  /** Texts of fields in range that it reads as less than they say. */
  predicate Unreadable(vs: Values) { InRange(vs) && vs[0] >= 100 && Lay(vs[1..]) != [] }

  lemma PrintedFieldsRead(s: string)
    ensures forall vs: Values :: Readable(vs) && s == TextOf(Lay(vs)) ==> ReadAll(s).sum == Sum(vs) && ReadAll(s).valid
    ensures forall vs: Values :: Unreadable(vs) && s == TextOf(Lay(vs)) ==> ReadAll(s).sum < Sum(vs)
  {
    forall vs: Values | Readable(vs) && s == TextOf(Lay(vs)) ensures ReadAll(s).sum == Sum(vs) && ReadAll(s).valid {
      ReadsBack(vs);
    }
    forall vs: Values | Unreadable(vs) && s == TextOf(Lay(vs)) ensures ReadAll(s).sum < Sum(vs) {
      Misread(vs);
    }
  }

  /** parseAbbreviatedString: the printed text of fields gives their sum, unless the days take three digits or
      more and something follows them; then it gives less. */
  method ParseAbbreviatedString(timeString: string) returns (result: Parsed)
    ensures result == Parsed(ReadAll(timeString).sum, Some(ReadAll(timeString).valid))
    ensures forall vs: Values :: Readable(vs) && timeString == TextOf(Lay(vs)) ==> result == Parsed(Sum(vs), Some(true))
    ensures forall vs: Values :: Unreadable(vs) && timeString == TextOf(Lay(vs)) ==> result.nanoseconds < Sum(vs)
  {
    PrintedFieldsRead(timeString);
    var r := Reading(0, false, Trimmed(timeString));
    r := ReadUnit(r, "d", NS_PER_DAY);
    r := ReadUnit(r, "h", NS_PER_HOUR);
    r := ReadUnit(r, "m", NS_PER_MINUTE);
    r := ReadUnit(r, "s", NS_PER_SECOND);
    r := ReadUnit(r, "ms", NS_PER_MILLISECOND);
    result := Parsed(r.sum, Some(r.valid));
  }

  // ---------------------------------------------------------------- the round trip of any span

  predicate Whole(ns: int) { ns % NS_PER_MILLISECOND == 0 }

  /** Each unit read adds whole milliseconds. */
  lemma ReadAddsMilliseconds(r: Reading, token: string, unit: int, k: int)
    requires token != [] && unit == k * NS_PER_MILLISECOND && k > 0
    requires r.sum >= 0 && Whole(r.sum)
    ensures Read(r, token, unit).sum >= 0 && Whole(Read(r, token, unit).sum)
  {
    var value := IntToToken(r.remaining, token).0;
    if value >= 0 {
      assert value * unit == (value * k) * NS_PER_MILLISECOND;
      Multiple(r.sum, value * k);
    }
  }

  lemma Multiple(a: int, m: int)
    requires Whole(a)
    ensures Whole(a + m * NS_PER_MILLISECOND)
  {}

  lemma ReadAllIsMilliseconds(s: string)
    ensures ReadAll(s).sum >= 0 && Whole(ReadAll(s).sum)
  {
    var r0 := Reading(0, false, Trimmed(s));
    ReadAddsMilliseconds(r0, "d", NS_PER_DAY, 86_400_000);
    var r1 := Read(r0, "d", NS_PER_DAY);
    ReadAddsMilliseconds(r1, "h", NS_PER_HOUR, 3_600_000);
    var r2 := Read(r1, "h", NS_PER_HOUR);
    ReadAddsMilliseconds(r2, "m", NS_PER_MINUTE, 60_000);
    var r3 := Read(r2, "m", NS_PER_MINUTE);
    ReadAddsMilliseconds(r3, "s", NS_PER_SECOND, 1000);
    ReadAddsMilliseconds(Read(r3, "s", NS_PER_SECOND), "ms", NS_PER_MILLISECOND, 1);
  }

  /** The text of a negative span is never read as one. */
  lemma NegativeTextRead(lib: Library, fs: seq<Field>)
    requires FieldText.WellFormed(fs)
    ensures FromString(lib, "-" + TextOf(fs)).nanoseconds >= 0
  {
    var s := "-" + TextOf(fs);
    NoColon(fs);
    assert s[0] == '-' && ':' !in s;
    ReadAllIsMilliseconds(s);
  }

  /** Nor is a printed text ever read as anything but whole milliseconds. */
  lemma PrintedTextRead(lib: Library, vs: Values)
    requires LibraryFits(lib) && |vs| == 6 && vs[2] < 24 && vs[3] < 60 && vs[4] < 60 && vs[5] < 1000
    ensures Whole(FromString(lib, TextOf(Lay(vs))).nanoseconds)
  {
    var s := TextOf(Lay(vs));
    ReadAllIsMilliseconds(s);
    if !HasSmallUnits(Tokens(s)) {
      if vs[0] > 0 {
        YearsWithoutUnits(lib, vs, s);
      } else {
        LayCases(vs);
        NoYearsRead(lib, vs[1..], s);
      }
    }
  }

  lemma SmallFieldsHaveUnits(five: Values)
    requires |five| == 5 && (five[0] > 0 || five[1] > 0 || five[2] > 0 || five[3] > 0)
    ensures HasSmallUnits(Tokens(TextOf(Lay(five))))
  {
    if five[0] > 0 {
      PrintedUnit(five, 0, "d");
    } else if five[1] > 0 {
      PrintedUnit(five, 1, "h");
    } else if five[2] > 0 {
      PrintedUnit(five, 2, "m");
    } else {
      PrintedUnit(five, 3, "s");
    }
  }

  lemma NoYearsRead(lib: Library, five: Values, s: string)
    requires LibraryFits(lib) && |five| == 5 && five[4] < 1000 && s == TextOf(Lay(five)) && !HasSmallUnits(Tokens(s))
    ensures Whole(FromString(lib, s).nanoseconds)
  {
    if five[0] > 0 || five[1] > 0 || five[2] > 0 || five[3] > 0 {
      SmallFieldsHaveUnits(five);
    } else if Lay(five) != [] {
      OnlyMilliseconds(five);
      NumbersAlone(lib, five[4]);
      ManyMilliseconds(FromString(lib, s), five[4]);
    }
  }

  lemma ManyMilliseconds(p: Parsed, v: nat)
    requires p == Parsed(v * NS_PER_MILLISECOND, Some(true))
    ensures Whole(p.nanoseconds)
  {}

  /** Any span at all: it is read back from its text exactly when it is not negative, made of whole milliseconds, and
      under 100 days or a whole number of days up to a year. */
  lemma AnyRoundTripExactly(lib: Library, ns: int)
    requires LibraryFits(lib)
    ensures RoundTrips(lib, ns) <==>
              && 0 <= ns && ns % NS_PER_MILLISECOND == 0
              && (ns < 100 * NS_PER_DAY || (ns <= 365 * NS_PER_DAY && ns % NS_PER_DAY == 0))
  {
    if 0 <= ns && ns % NS_PER_MILLISECOND == 0 {
      RoundTripExactly(lib, ns);
    } else {
      var vs := FieldValues(if ns < 0 then -ns else ns, true);
      AbbreviatedIs(ns, true);
      FieldRanges(if ns < 0 then -ns else ns);
      LayIsWellFormed(vs);
      if ns < 0 {
        NegativeTextRead(lib, Lay(vs));
      } else {
        assert "" + TextOf(Lay(vs)) == TextOf(Lay(vs));
        PrintedTextRead(lib, vs);
      }
    }
  }

  // ---------------------------------------------------------------- signed fields

  lemma SignedNumber(sign: char, digits: string)
    requires (sign == '-' || sign == '+') && digits != [] && AllDigits(digits) && Value(digits) < 0x8000_0000
    ensures ToInt([sign] + digits) == if sign == '-' then -(Value(digits) as int) else Value(digits)
  {
    var s := [sign] + digits;
    assert s[|s| - 1] == digits[|digits| - 1] && s[1..] == digits;
    TrimmedIsItself(s);
  }

  lemma SignedIndex(sign: char, digits: string, unit: string, s: string)
    requires !IsLetter(sign) && AllDigits(digits) && |unit| == 1 && IsLetter(unit[0]) && s == [sign] + digits + unit
    ensures IndexOf(s, unit) == |digits| + 1 && LetterRun(s, |digits| + 1) == 1
  {
    var n := |digits| + 1;
    assert s[n..n + 1] == unit && Occurs(s, unit, n);
    assert s[n] == unit[0];
    forall k | 0 <= k < n ensures !Occurs(s, unit, k) {
      assert s[k] == if k == 0 then sign else digits[k - 1];
      OccursFirst(s, unit, k);
    }
    RunOf(s, n, 1);
  }

  lemma SignedFound(sign: char, digits: string, unit: string, s: string)
    requires (sign == '-' || sign == '+') && digits != [] && AllDigits(digits) && Value(digits) < 0x8000_0000
    requires |unit| == 1 && IsLetter(unit[0]) && s == [sign] + digits + unit
    ensures IntToToken(s, unit) == (if sign == '-' then -(Value(digits) as int) else Value(digits), "")
  {
    var n := |digits| + 1;
    SignedIndex(sign, digits, unit, s);
    assert s[..n] == [sign] + digits && s[n - 1] == digits[n - 2];
    SignedNumber(sign, digits);
  }

  lemma SignedTokens(sign: char, digits: string, unit: string, s: string)
    requires (sign == '-' || sign == '+') && digits != [] && AllDigits(digits)
    requires |unit| == 1 && IsLetter(unit[0]) && s == [sign] + digits + unit
    ensures Trimmed(s) == s && Tokens(s) == [unit]
  {
    assert s[|s| - 1] == unit[0] && s[1..] == digits + unit;
    TrimmedIsItself(s);
    TokensAfterDigits(digits, unit);
    TokenEnds(unit, "");
    assert unit + "" == unit;
  }

  lemma PassedOver(r: Reading, token: string, unit: int)
    requires token != [] && forall k :: 0 <= k < |r.remaining| ==> r.remaining[k] != token[0]
    ensures Read(r, token, unit) == r
  {
    NotFound(r.remaining, token);
  }

  function LengthOf(unit: string): int {
    if unit == "d" then NS_PER_DAY else if unit == "h" then NS_PER_HOUR else if unit == "m" then NS_PER_MINUTE
    else NS_PER_SECOND
  }

  lemma OneFieldRead(s: string, unit: string, value: int)
    requires unit in ["d", "h", "m", "s"] && Trimmed(s) == s && IntToToken(s, unit) == (value, "")
    requires forall k :: 0 <= k < |s| ==> s[k] == unit[0] || !IsLetter(s[k])
    ensures ReadAll(s) == if value >= 0 then Reading(value * LengthOf(unit), true, "") else Reading(0, false, "")
  {
    var r := Reading(0, false, s);
    var next := Read(r, unit, LengthOf(unit));
    PassedOver(next, "h", NS_PER_HOUR);
    PassedOver(next, "m", NS_PER_MINUTE);
    PassedOver(next, "s", NS_PER_SECOND);
    PassedOver(next, "ms", NS_PER_MILLISECOND);
    if unit != "d" {
      PassedOver(r, "d", NS_PER_DAY);
      if unit != "h" {
        PassedOver(r, "h", NS_PER_HOUR);
        if unit != "m" { PassedOver(r, "m", NS_PER_MINUTE); }
      }
    }
  }

  /** A field with a minus before it is passed over, and one with a plus is read. */
  lemma SignedField(lib: Library, sign: char, v: nat, unit: string)
    requires (sign == '-' || sign == '+') && 0 < v < 0x8000_0000 && unit in ["d", "h", "m", "s"]
    ensures FromString(lib, [sign] + Decimal(v) + unit) ==
            if sign == '-' then Parsed(0, Some(false)) else Parsed(v * LengthOf(unit), Some(true))
  {
    var s := [sign] + Decimal(v) + unit;
    DecimalFacts(v);
    SignedFound(sign, Decimal(v), unit, s);
    SignedTokens(sign, Decimal(v), unit, s);
    SignedLetters(sign, Decimal(v), unit, s);
    var value: int := if sign == '-' then -(v as int) else v;
    OneFieldRead(s, unit, value);
    SmallUnitsDecide(lib, s);
  }

  lemma SignedLetters(sign: char, digits: string, unit: string, s: string)
    requires !IsLetter(sign) && AllDigits(digits) && |unit| == 1 && s == [sign] + digits + unit
    ensures forall k :: 0 <= k < |s| ==> s[k] == unit[0] || !IsLetter(s[k])
  {
    forall k | 0 <= k < |s| ensures s[k] == unit[0] || !IsLetter(s[k]) {
      assert s[k] == if k == 0 then sign else if k <= |digits| then digits[k - 1] else unit[0];
    }
  }
}
