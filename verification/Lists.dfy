/** What is needed of QList. */
module Lists {

  predicate Distinct<T(==)>(s: seq<T>) { forall i, j :: 0 <= i < j < |s| ==> s[i] != s[j] }

  /** QList::removeOne */
  function RemoveOne<T(==)>(s: seq<T>, x: T): seq<T> {
    if s == [] then [] else if s[0] == x then s[1..] else [s[0]] + RemoveOne(s[1..], x)
  }

  /** Where the element was, the rest has closed up. */
  lemma {:induction false} RemoveOneClosesUp<T>(s: seq<T>, x: T) returns (i: nat)
    requires x in s
    ensures i < |s| && s[i] == x && RemoveOne(s, x) == s[..i] + s[i + 1..]
  {
    if s[0] == x {
      i := 0;
    } else {
      var j := RemoveOneClosesUp(s[1..], x);
      i := j + 1;
    }
  }
}
