/** AbstractThreadClass::threadName: keeping the tail of a UTF-8 tag that is too long for the
    operating system. Well-formedness is the grammar of section 4 of RFC 3629. */
module ThreadName {

  const MAXIMUM_THREAD_NAME_BYTES := 15

  type Byte = b: int | 0 <= b < 256

  /** (b & 0xC0) == 0x80 */
  predicate Continuation(b: Byte) { b / 64 == 2 }

  /** How many bytes the well-formed character at the head of s takes; 0 if there is none. */
  function HeadLength(s: seq<Byte>): (n: nat)
    ensures n <= |s| && n <= 4
    ensures n > 0 ==> !Continuation(s[0]) && forall k :: 1 <= k < n ==> Continuation(s[k])
  {
    if s == [] then 0
    else if s[0] <= 0x7F then 1
    else if |s| >= 2 && 0xC2 <= s[0] <= 0xDF && Continuation(s[1]) then 2
    else if |s| >= 3 && Continuation(s[1]) && Continuation(s[2])
            && (if s[0] == 0xE0 then s[1] >= 0xA0 else if s[0] == 0xED then s[1] <= 0x9F else 0xE1 <= s[0] <= 0xEF)
    then 3
    else if |s| >= 4 && Continuation(s[1]) && Continuation(s[2]) && Continuation(s[3])
            && (if s[0] == 0xF0 then s[1] >= 0x90 else if s[0] == 0xF4 then s[1] <= 0x8F else 0xF1 <= s[0] <= 0xF3)
    then 4
    else 0
  }

  predicate WellFormed(s: seq<Byte>) {
    s == [] || (HeadLength(s) > 0 && WellFormed(s[HeadLength(s)..]))
  }

  /** A suffix of well-formed text is well-formed exactly when it does not start inside a character. */
  lemma {:induction false} SuffixWellFormed(s: seq<Byte>, from: nat)
    requires WellFormed(s) && from <= |s|
    ensures WellFormed(s[from..]) <==> from == |s| || !Continuation(s[from])
    decreases |s|
  {
    if from < |s| {
      var n := HeadLength(s);
      if from >= n {
        assert s[n..][from - n..] == s[from..];
        SuffixWellFormed(s[n..], from - n);
      } else if from == 0 {
        assert s[0..] == s;
      }
    }
  }

  /** In well-formed text, four bytes in a row never all continue. */
  lemma {:induction false} ShortRuns(s: seq<Byte>, from: nat)
    requires WellFormed(s) && from + 4 <= |s|
    ensures exists k :: from <= k < from + 4 && !Continuation(s[k])
    decreases |s|
  {
    var n := HeadLength(s);
    if from >= n {
      ShortRuns(s[n..], from - n);
      var k :| from - n <= k < from - n + 4 && !Continuation(s[n..][k]);
      assert !Continuation(s[n + k]);
    } else if from == 0 {
      assert !Continuation(s[0]);
    } else if n < |s| {
      assert WellFormed(s[n..]) && !Continuation(s[n..][0]);
      assert !Continuation(s[n]);
    }
  }

  /** `kept` is the longest well-formed suffix of `tag` that fits. */
  ghost predicate LongestFittingSuffix(tag: seq<Byte>, kept: seq<Byte>) {
    && |kept| <= |tag| && |kept| <= MAXIMUM_THREAD_NAME_BYTES
    && kept == tag[|tag| - |kept|..] && WellFormed(kept)
    && forall from :: 0 <= from < |tag| - |kept| && |tag| - from <= MAXIMUM_THREAD_NAME_BYTES
         ==> !WellFormed(tag[from..])
  }

  /** The byte budget of threadName, on the bytes toUtf8() gives. */
  method Truncated(tag: seq<Byte>) returns (utf8: seq<Byte>)
    requires WellFormed(tag)
    ensures LongestFittingSuffix(tag, utf8)
    ensures |tag| <= MAXIMUM_THREAD_NAME_BYTES ==> utf8 == tag
    ensures |tag| > MAXIMUM_THREAD_NAME_BYTES ==> |utf8| >= MAXIMUM_THREAD_NAME_BYTES - 3
  {
    utf8 := tag;
    if |utf8| > MAXIMUM_THREAD_NAME_BYTES {
      utf8 := utf8[|utf8| - MAXIMUM_THREAD_NAME_BYTES..];
      ghost var cut := |tag| - MAXIMUM_THREAD_NAME_BYTES;
      while utf8 != [] && Continuation(utf8[0])
        invariant |utf8| <= MAXIMUM_THREAD_NAME_BYTES && utf8 == tag[|tag| - |utf8|..]
        invariant forall k :: cut <= k < |tag| - |utf8| ==> Continuation(tag[k])
      {
        utf8 := utf8[1..];
      }
      ShortRuns(tag, cut);
      CutWhereItStarts(tag, cut, |tag| - |utf8|);
    } else {
      assert tag[0..] == tag;
    }
  }

  lemma CutWhereItStarts(tag: seq<Byte>, cut: nat, start: nat)
    requires WellFormed(tag) && cut <= start <= |tag|
    requires forall k :: cut <= k < start ==> Continuation(tag[k])
    requires start == |tag| || !Continuation(tag[start])
    ensures WellFormed(tag[start..])
    ensures forall k :: cut <= k < start ==> !WellFormed(tag[k..])
  {
    SuffixWellFormed(tag, start);
    forall k | cut <= k < start ensures !WellFormed(tag[k..]) {
      SuffixWellFormed(tag, k);
    }
  }
}
