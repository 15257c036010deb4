/** The string operations of Qt that the duration parser relies on, for ASCII text. */
module Text {
  import opened Options

  predicate IsDigit(c: char) { '0' <= c <= '9' }

  predicate IsLetter(c: char) { 'a' <= c <= 'z' || 'A' <= c <= 'Z' }

  predicate IsSpace(c: char) { c == ' ' || '\t' <= c <= '\r' }

  predicate AllDigits(s: string) { forall i :: 0 <= i < |s| ==> IsDigit(s[i]) }

  // ---------------------------------------------------------------- searching and trimming

  predicate Occurs(s: string, token: string, at: int) {
    0 <= at && at + |token| <= |s| && s[at..at + |token|] == token
  }

  /** QString::indexOf */
  function IndexOf(s: string, token: string, from: nat := 0): (index: int)
    requires from <= |s| && token != []
    ensures index == -1 || (from <= index && Occurs(s, token, index))
    ensures forall k :: from <= k && (index == -1 || k < index) ==> !Occurs(s, token, k)
    decreases |s| - from
  {
    if from + |token| > |s| then -1
    else if Occurs(s, token, from) then from
    else IndexOf(s, token, from + 1)
  }

  /** How many letters in a row stand at i. */
  function LetterRun(s: string, i: nat): (n: nat)
    requires i <= |s|
    ensures i + n <= |s| && forall k :: i <= k < i + n ==> IsLetter(s[k])
    ensures i + n < |s| ==> !IsLetter(s[i + n])
    decreases |s| - i
  {
    if i < |s| && IsLetter(s[i]) then 1 + LetterRun(s, i + 1) else 0
  }

  function TrimLeft(s: string): string {
    if s != [] && IsSpace(s[0]) then TrimLeft(s[1..]) else s
  }

  function TrimRight(s: string): string {
    if s != [] && IsSpace(s[|s| - 1]) then TrimRight(s[..|s| - 1]) else s
  }

  /** QString::trimmed */
  function Trimmed(s: string): string { TrimLeft(TrimRight(s)) }

  lemma TrimmedIsItself(s: string)
    requires s != [] ==> !IsSpace(s[0]) && !IsSpace(s[|s| - 1])
    ensures Trimmed(s) == s && Trimmed(" " + s) == s && Trimmed(s + " ") == s
  {
    assert TrimRight(s) == s;
    assert (s + " ")[..|s|] == s;
    assert (" " + s)[1..] == s;
    if s == [] {
      assert " " + s == " " && s + " " == " " && " "[..0] == "";
    } else {
      assert TrimRight(" " + s) == " " + s;
    }
  }

  lemma {:induction false} TrimLeftIsSuffix(s: string)
    ensures exists k :: 0 <= k <= |s| && TrimLeft(s) == s[k..]
  {
    if s != [] && IsSpace(s[0]) {
      TrimLeftIsSuffix(s[1..]);
      var k :| 0 <= k <= |s[1..]| && TrimLeft(s[1..]) == s[1..][k..];
      assert s[1..][k..] == s[k + 1..];
    } else {
      assert s[0..] == s;
    }
  }

  // ---------------------------------------------------------------- numbers

  function Digit(n: nat): char
    requires n < 10
  {
    '0' + n as char
  }

  function DigitValue(c: char): nat
    requires IsDigit(c)
  {
    c as nat - '0' as nat
  }

  /** QString::number for a non-negative integer */
  function Decimal(n: nat): string {
    if n < 10 then [Digit(n)] else Decimal(n / 10) + [Digit(n % 10)]
  }

  /** The text of a number is digits that are worth it, with no leading 0 unless it is 0. */
  lemma {:induction false} DecimalFacts(n: nat)
    ensures Decimal(n) != [] && AllDigits(Decimal(n)) && Value(Decimal(n)) == n
    ensures (|Decimal(n)| == 1 <==> n < 10) && (|Decimal(n)| <= 2 <==> n < 100)
    ensures n > 0 ==> Decimal(n)[0] != '0'
  {
    if n >= 10 {
      DecimalFacts(n / 10);
      assert Decimal(n)[..|Decimal(n)| - 1] == Decimal(n / 10);
    }
  }

  function Value(s: string): nat
    requires AllDigits(s)
  {
    if s == [] then 0 else 10 * Value(s[..|s| - 1]) + DigitValue(s[|s| - 1])
  }

  /** A 32-bit number in text: spaces around it, a sign, digits. */
  function Number(s: string): Option<int> {
    var t := Trimmed(s);
    var signed := t != [] && (t[0] == '-' || t[0] == '+');
    var digits := if signed then t[1..] else t;
    if digits == [] || !AllDigits(digits) then None
    else
      var n := if signed && t[0] == '-' then -(Value(digits) as int) else Value(digits);
      if -0x8000_0000 <= n < 0x8000_0000 then Some(n) else None
  }

  /** QString::toInt: 0 for text that is no such number. */
  function ToInt(s: string): int { if Number(s).Some? then Number(s).value else 0 }

  predicate IsNumber(s: string) { Number(s).Some? }

  /** A suffix of digits is worth no more, and less once a leading digit other than 0 is gone. */
  lemma {:induction false} SuffixValue(s: string, k: nat)
    requires AllDigits(s) && k <= |s|
    ensures Value(s[k..]) <= Value(s)
    ensures k > 0 && s != [] && s[0] != '0' ==> Value(s[k..]) < Value(s)
    decreases |s|
  {
    if k == |s| {
      assert s[k..] == [];
      if s != [] && s[0] != '0' { PositiveValue(s); }
    } else {
      var init := s[..|s| - 1];
      SuffixValue(init, k);
      assert s[k..][..|s| - k - 1] == init[k..];
    }
  }

  lemma {:induction false} PositiveValue(s: string)
    requires AllDigits(s) && s != [] && s[0] != '0'
    ensures Value(s) > 0
  {
    if |s| > 1 { PositiveValue(s[..|s| - 1]); }
  }

  lemma DigitsToInt(s: string)
    requires s != [] && AllDigits(s) && Value(s) < 0x8000_0000
    ensures ToInt(s) == Value(s)
  {
    TrimmedIsItself(s);
  }
}
