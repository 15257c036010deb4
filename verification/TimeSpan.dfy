/** TimeSpan: a signed count of nanoseconds, its field accessors, the abbreviated format it
    prints and the parser that reads it back. */
module TimeSpan {
  import opened Options
  import opened Text

  const NS_PER_MILLISECOND := 1_000_000
  const NS_PER_SECOND := 1_000_000_000
  const NS_PER_MINUTE := 60_000_000_000
  const NS_PER_HOUR := 3_600_000_000_000
  const NS_PER_DAY := 86_400_000_000_000
  const DAYS_PER_YEAR := 365.242

  // ---------------------------------------------------------------- fields

  /** Integer division as C++ has it, toward zero. */
  function Quotient(a: int, b: int): int
    requires b > 0
  {
    if a >= 0 then a / b else -((-a) / b)
  }

  function Days(ns: int): int { Quotient(ns, NS_PER_DAY) }

  function Hours(ns: int): int { Quotient(ns - Days(ns) * NS_PER_DAY, NS_PER_HOUR) }

  function Minutes(ns: int): int {
    Quotient(ns - Days(ns) * NS_PER_DAY - Hours(ns) * NS_PER_HOUR, NS_PER_MINUTE)
  }

  function Seconds(ns: int): int {
    Quotient(ns - Days(ns) * NS_PER_DAY - Hours(ns) * NS_PER_HOUR - Minutes(ns) * NS_PER_MINUTE, NS_PER_SECOND)
  }

  function Milliseconds(ns: int): int {
    Quotient(ns - Days(ns) * NS_PER_DAY - Hours(ns) * NS_PER_HOUR - Minutes(ns) * NS_PER_MINUTE
                - Seconds(ns) * NS_PER_SECOND, NS_PER_MILLISECOND)
  }

  /** A span of whole milliseconds is the sum of its fields, each in its range. */
  lemma FieldsMakeTheSpan(ns: int)
    requires 0 <= ns && ns % NS_PER_MILLISECOND == 0
    ensures 0 <= Days(ns) && 0 <= Hours(ns) < 24 && 0 <= Minutes(ns) < 60
    ensures 0 <= Seconds(ns) < 60 && 0 <= Milliseconds(ns) < 1000
    ensures ns == Days(ns) * NS_PER_DAY + Hours(ns) * NS_PER_HOUR + Minutes(ns) * NS_PER_MINUTE
                  + Seconds(ns) * NS_PER_SECOND + Milliseconds(ns) * NS_PER_MILLISECOND
  {}

  // ---------------------------------------------------------------- printing

  function TotalDays(ns: int): real { ns as real / NS_PER_DAY as real }

  function WholeYears(ns: int): int
    requires ns >= 0
  {
    if TotalDays(ns) > DAYS_PER_YEAR then (TotalDays(ns) / DAYS_PER_YEAR).Floor else 0
  }

  /** The days printed: those left of the total once the years are taken out. */
  function DaysBesideYears(ns: int): int
    requires ns >= 0
  {
    (TotalDays(ns) - WholeYears(ns) as real * DAYS_PER_YEAR).Floor
  }

  /** A printed field: its value and its unit. */
  datatype Field = Field(value: nat, unit: string)

  function FieldString(f: Field): string { Decimal(f.value) + f.unit + " " }

  /** `if(value != 0) output << value << unit << ' '` */
  function Printed(value: int, unit: string): string {
    if value == 0 then ""
    else (if value < 0 then "-" else "") + Decimal(if value < 0 then -value else value) + unit + " "
  }

  method PrintField(output: string, value: int, unit: string) returns (result: string)
    ensures result == output + Printed(value, unit)
  {
    result := output;
    if value != 0 {
      result := result + ((if value < 0 then "-" else "") + Decimal(if value < 0 then -value else value) + unit + " ");
    }
  }

  /** The fields after one another, largest unit first. */
  function FieldsText(years: int, days: int, hours: int, minutes: int, seconds: int, milliseconds: int): string {
    Printed(years, "y") + Printed(days, "d") + Printed(hours, "h")
    + Printed(minutes, "m") + Printed(seconds, "s") + Printed(milliseconds, "ms")
  }

  method PrintFields(years: int, days: int, hours: int, minutes: int, seconds: int, milliseconds: int)
    returns (result: string)
    ensures result == FieldsText(years, days, hours, minutes, seconds, milliseconds)
  {
    result := PrintField("", years, "y");
    result := PrintField(result, days, "d");
    result := PrintField(result, hours, "h");
    result := PrintField(result, minutes, "m");
    result := PrintField(result, seconds, "s");
    result := PrintField(result, milliseconds, "ms");
    assert "" + Printed(years, "y") == Printed(years, "y");
  }

  method SplitYears(ns: int) returns (years: int, wholeDays: int)
    requires ns >= 0
    ensures years == WholeYears(ns) && wholeDays == DaysBesideYears(ns)
  {
    var days := TotalDays(ns);
    years := 0;
    if days > DAYS_PER_YEAR {
      years := (days / DAYS_PER_YEAR).Floor;
      days := days - years as real * DAYS_PER_YEAR;
    }
    wholeDays := days.Floor;
  }

  /** toAbbreviatedFormat */
  function Abbreviated(ns: int, showMilliseconds: bool): string {
    if ns == 0 then Trimmed("0m")
    else
      var ts := if ns < 0 then -ns else ns;
      Trimmed((if ns < 0 then "-" else "")
              + FieldsText(WholeYears(ts), DaysBesideYears(ts), Hours(ts), Minutes(ts), Seconds(ts),
                           if showMilliseconds then Milliseconds(ts) else 0))
  }

  // ---------------------------------------------------------------- parsing

  /** What fromString yields, and what it stores through `parsed`: nothing on its last line. */
  datatype Parsed = Parsed(nanoseconds: int, parsed: Option<bool>)

  /** Conversions that are not modelled: QString::toDouble, and the colon format. */
  datatype Library = Library(toDouble: string -> real, parseColonDelimited: string -> Parsed)

  function Truncated(r: real): int { if r >= 0.0 then r.Floor else -((-r).Floor) }

  /** Toward zero: never larger than the number, less than 1 smaller, and of its sign. */
  lemma TruncatedTowardZero(r: real)
    ensures r >= 0.0 ==> 0.0 <= Truncated(r) as real <= r < Truncated(r) as real + 1.0
    ensures r <= 0.0 ==> Truncated(r) as real - 1.0 < r <= Truncated(r) as real <= 0.0
  {
    assert (-r).Floor as real <= -r < (-r).Floor as real + 1.0;
  }

  /** getTokens: the runs of letters. */
  function Tokens(s: string): seq<string> {
    if s == [] then []
    else if IsLetter(s[0]) then [s[..LetterRun(s, 0)]] + Tokens(s[LetterRun(s, 0)..])
    else Tokens(s[1..])
  }

  method GetTokens(timeString: string) returns (result: seq<string>)
    ensures result == Tokens(timeString)
  {
    result := [];
    var token := "";
    StartAndEnd(timeString);
    for i := 0 to |timeString|
      invariant forall k :: 0 <= k < |token| ==> IsLetter(token[k])
      invariant result + Tokens(token + timeString[i..]) == Tokens(timeString)
    {
      var c := timeString[i];
      if IsLetter(c) {
        LetterJoins(token, timeString, i);
        token := token + [c];
      } else {
        TokenEndsAt(result, token, timeString, i);
        if token != [] {
          result := result + [token];
          token := "";
        }
      }
    }
    TokenEnds(token, timeString[|timeString|..]);
    if token != [] { result := result + [token]; }
  }

  lemma StartAndEnd(s: string)
    ensures "" + s[0..] == s && s[|s|..] == "" && [] + Tokens(s) == Tokens(s)
  {}

  lemma LetterJoins(token: string, s: string, i: nat)
    requires i < |s|
    ensures token + s[i..] == (token + [s[i]]) + s[i + 1..]
  {}

  lemma TokenEndsAt(result: seq<string>, token: string, s: string, i: nat)
    requires i < |s| && !IsLetter(s[i]) && forall k :: 0 <= k < |token| ==> IsLetter(token[k])
    ensures token != [] ==> (result + [token]) + Tokens("" + s[i + 1..]) == result + Tokens(token + s[i..])
    ensures token == [] ==> result + Tokens("" + s[i + 1..]) == result + Tokens(token + s[i..])
  {
    var rest := s[i..];
    TokenEnds(token, rest);
    assert rest[1..] == s[i + 1..] && "" + s[i + 1..] == s[i + 1..];
    PutInFront(result, token, Tokens(s[i + 1..]));
  }

  lemma PutInFront(result: seq<string>, token: string, rest: seq<string>)
    ensures (result + [token]) + rest == result + ([token] + rest)
    ensures [] + rest == rest
  {}

  lemma TokenEnds(token: string, rest: string)
    requires forall k :: 0 <= k < |token| ==> IsLetter(token[k])
    requires rest != [] ==> !IsLetter(rest[0])
    ensures Tokens(token + rest) == (if token == [] then [] else [token]) + Tokens(if rest == [] then [] else rest[1..])
  {
    var s := token + rest;
    if token == [] {
      assert s == rest;
    } else {
      TokenRunIs(s, token, rest);
      assert Tokens(s) == [token] + Tokens(rest);
    }
  }

  lemma TokenRunIs(s: string, token: string, rest: string)
    requires s == token + rest && forall k :: 0 <= k < |token| ==> IsLetter(token[k])
    requires rest != [] ==> !IsLetter(rest[0])
    ensures LetterRun(s, 0) == |token| && s[..|token|] == token && s[|token|..] == rest
  {
    assert forall k :: 0 <= k < |token| ==> s[k] == token[k];
    assert rest != [] ==> s[|token|] == rest[0];
  }

  /** parseIntToToken takes its branch: the token stands alone, behind something that is no letter. */
  predicate Found(s: string, token: string)
    requires token != []
  {
    var index := IndexOf(s, token);
    index > 0 && !IsLetter(s[index - 1]) && LetterRun(s, index) == |token|
  }

  /** The number before the token, and what remains. The cursor moves to index + part.length(),
      not to the end of the token. */
  function Cut(s: string, index: nat): (int, string)
    requires index <= |s|
  {
    (ToInt(s[..index]), if index + index < |s| then Trimmed(s[index + index..]) else "")
  }

  /** parseIntToToken: the value read, -1 when there is none, and what remains. */
  function IntToToken(remaining: string, token: string): (int, string)
    requires token != []
  {
    if Found(remaining, token) then Cut(remaining, IndexOf(remaining, token)) else (-1, remaining)
  }

  method TokenSizeAt(s: string, index: nat) returns (tokenSizeAtLocation: nat)
    requires index <= |s|
    ensures tokenSizeAtLocation == LetterRun(s, index)
  {
    tokenSizeAtLocation := 0;
    while index + tokenSizeAtLocation < |s| && IsLetter(s[index + tokenSizeAtLocation])
      invariant index + tokenSizeAtLocation <= |s|
      invariant tokenSizeAtLocation + LetterRun(s, index + tokenSizeAtLocation) == LetterRun(s, index)
    {
      tokenSizeAtLocation := tokenSizeAtLocation + 1;
    }
  }

  method ParseIntToToken(remaining: string, token: string) returns (result: int, rest: string)
    requires token != []
    ensures (result, rest) == IntToToken(remaining, token)
  {
    result, rest := -1, remaining;
    var index := IndexOf(remaining, token);
    if index > 0 && !IsLetter(remaining[index - 1]) {
      var tokenSizeAtLocation := TokenSizeAt(remaining, index);
      if tokenSizeAtLocation == |token| {
        var part := remaining[..index];
        result := ToInt(part);
        rest := if |part| + index < |remaining| then Trimmed(remaining[index + |part|..]) else "";
      }
    }
  }

  /** One unit of parseAbbreviatedString: the sum so far, whether anything was read, what remains. */
  datatype Reading = Reading(sum: int, valid: bool, remaining: string)

  function Read(r: Reading, token: string, unit: int): Reading
    requires token != []
  {
    var (value, rest) := IntToToken(r.remaining, token);
    if value >= 0 then Reading(r.sum + value * unit, true, rest) else Reading(r.sum, r.valid, rest)
  }

  function ReadAll(s: string): Reading {
    Read(Read(Read(Read(Read(Reading(0, false, Trimmed(s)),
      "d", NS_PER_DAY), "h", NS_PER_HOUR), "m", NS_PER_MINUTE), "s", NS_PER_SECOND), "ms", NS_PER_MILLISECOND)
  }

  method ReadUnit(r: Reading, token: string, unit: int) returns (next: Reading)
    requires token != []
    ensures next == Read(r, token, unit)
  {
    var value, remaining := ParseIntToToken(r.remaining, token);
    next := r.(remaining := remaining);
    if value >= 0 {
      next := next.(sum := next.sum + value * unit, valid := true);
    }
  }

  /** parseMicrosecondString and parseMillisecondString */
  function ScaledNumber(lib: Library, s: string, token: string, unit: int): Parsed
    requires token != []
  {
    var index := IndexOf(s, token);
    if index > 0 then Parsed(Truncated(lib.toDouble(Trimmed(s[..index])) * unit as real), Some(true))
    else Parsed(0, Some(false))
  }

  /** fromString */
  function FromString(lib: Library, s: string): Parsed {
    var tokens := Tokens(s);
    if "d" in tokens || "h" in tokens || "m" in tokens || "s" in tokens then
      Parsed(ReadAll(s).sum, Some(ReadAll(s).valid))
    else if ':' in s then lib.parseColonDelimited(s)
    else if s != [] && IsDigit(s[0]) then
      if "us" in tokens then ScaledNumber(lib, s, "us", 1000)
      else if "ms" in tokens then ScaledNumber(lib, s, "ms", NS_PER_MILLISECOND)
      else Parsed(ToInt(s) * NS_PER_MILLISECOND, Some(IsNumber(s)))
    else Parsed(0, None)
  }
}
