/** TimeSpanRange::List::consolidated and DateRange::List::consolidated: one algorithm, over
    nanosecond offsets in the first and millisecond timestamps in the second. Endpoints are
    integers; coverage is read over all real instants between them. */
module RangeList {

  datatype Range = Range(start: int, end: int)

  function Max(a: int, b: int): int { if a < b then b else a }

  predicate WellFormed(xs: seq<Range>) { forall i :: 0 <= i < |xs| ==> xs[i].start <= xs[i].end }

  predicate InStartOrder(xs: seq<Range>) { forall i, j :: 0 <= i < j < |xs| ==> xs[i].start <= xs[j].start }

  /** Strictly ordered, with a gap between any two. */
  predicate Gapped(xs: seq<Range>) { forall i, j :: 0 <= i < j < |xs| ==> xs[i].end < xs[j].start }

  predicate Holds(r: Range, t: real) { r.start as real <= t <= r.end as real }

  predicate Inside(r: Range, outer: Range) { outer.start <= r.start && r.end <= outer.end }

  ghost predicate Covers(xs: seq<Range>, t: real) { exists i :: 0 <= i < |xs| && Holds(xs[i], t) }

  ghost predicate SameInstants(xs: seq<Range>, ys: seq<Range>) { forall t :: Covers(xs, t) <==> Covers(ys, t) }

  // ---------------------------------------------------------------- the walk

  /** The loop's state: what has been emitted, and the range being grown. */
  datatype Walk = Walk(result: seq<Range>, current: Range) {
    function All(): seq<Range> { result + [current] }
  }

  function Step(w: Walk, next: Range): Walk {
    if w.current.end >= next.start
    then w.(current := Range(w.current.start, Max(w.current.end, next.end)))
    else Walk(w.result + [w.current], next)
  }

  function After(xs: seq<Range>): Walk
    requires xs != []
  {
    if |xs| == 1 then Walk([], xs[0]) else Step(After(xs[..|xs| - 1]), xs[|xs| - 1])
  }

  function Canonical(xs: seq<Range>): seq<Range> {
    if |xs| < 2 then xs else After(xs).All()
  }

  /** consolidated(). The sorted copy the source makes is only used for lists of fewer than two
      ranges, where it equals the list; the loop walks the list itself. */
  method Consolidated(list: seq<Range>) returns (result: seq<Range>)
    ensures result == Canonical(list)
    ensures WellFormed(list) ==> WellFormed(result) && Gapped(result)
    ensures WellFormed(list) && InStartOrder(list) ==> SameInstants(list, result)
  {
    Facts(list);
    if |list| < 2 { return list; }
    result := [];
    var current := list[0];
    for i := 1 to |list|
      invariant Walk(result, current) == After(list[..i])
    {
      var next := list[i];
      assert list[..i + 1][..i] == list[..i];
      if current.end >= next.start {
        current := Range(current.start, Max(current.end, next.end));
      } else {
        result := result + [current];
        current := next;
      }
    }
    assert list[..|list|] == list;
    result := result + [current];
  }

  // ---------------------------------------------------------------- shape and coverage

  lemma Facts(xs: seq<Range>)
    ensures WellFormed(xs) ==> WellFormed(Canonical(xs)) && Gapped(Canonical(xs))
    ensures WellFormed(xs) && InStartOrder(xs) ==> SameInstants(xs, Canonical(xs))
  {
    if WellFormed(xs) && |xs| >= 2 {
      Shape(xs);
      if InStartOrder(xs) {
        OrderMakesFaithful(xs);
        FaithfulExactly(xs);
      }
    }
  }

  /** Whatever the order of the list, the result is ordered with gaps. */
  lemma {:induction false} Shape(xs: seq<Range>)
    requires xs != [] && WellFormed(xs)
    ensures WellFormed(After(xs).All()) && Gapped(After(xs).All())
  {
    if |xs| > 1 {
      Shape(xs[..|xs| - 1]);
      var w := After(xs[..|xs| - 1]);
      assert forall i :: 0 <= i < |w.result| ==> w.All()[i] == w.result[i];
      assert w.All()[|w.result|] == w.current;
    }
  }

  /** The merge is harmless here: the next range does not start before the one it is merged
      into, or lies inside a range already emitted. */
  predicate Harmless(w: Walk, next: Range) {
    w.current.end >= next.start && next.start < w.current.start ==>
      exists k :: 0 <= k < |w.result| && Inside(next, w.result[k])
  }

  predicate Faithful(xs: seq<Range>) {
    forall i :: 0 < i < |xs| ==> Harmless(After(xs[..i]), xs[i])
  }

  lemma StepCovers(w: Walk, next: Range, t: real)
    requires WellFormed(w.All()) && next.start <= next.end
    ensures Covers(Step(w, next).All(), t) ==> Covers(w.All(), t) || Holds(next, t)
    ensures Covers(w.All(), t) ==> Covers(Step(w, next).All(), t)
    ensures Harmless(w, next) && Holds(next, t) ==> Covers(Step(w, next).All(), t)
    ensures Holds(next, t) && t >= w.current.start as real ==> Covers(Step(w, next).All(), t)
  {
    var before, after := w.All(), Step(w, next).All();
    assert before[|w.result|] == w.current;
    assert forall k :: 0 <= k < |w.result| ==> before[k] == w.result[k] == after[k];
    assert Step(w, next).current == after[|after| - 1];
    if w.current.end < next.start {
      assert after[|w.result|] == w.current;
    }
  }

  /** The result covers the same instants exactly when every merge is harmless. */
  lemma FaithfulExactly(xs: seq<Range>)
    requires xs != [] && WellFormed(xs)
    ensures SameInstants(xs, After(xs).All()) <==> Faithful(xs)
  {
    if Faithful(xs) {
      forall t ensures Covers(xs, t) <==> Covers(After(xs).All(), t) {
        NothingAdded(xs, t);
        NothingLost(xs, t);
      }
    } else {
      var i :| 0 < i < |xs| && !Harmless(After(xs[..i]), xs[i]);
      var t := LostInstant(xs, i);
      StaysLost(xs, i, t);
      assert Holds(xs[i], t) && Covers(xs, t);
    }
  }

  lemma {:induction false} NothingAdded(xs: seq<Range>, t: real)
    requires xs != [] && WellFormed(xs)
    ensures Covers(After(xs).All(), t) ==> Covers(xs, t)
  {
    if |xs| > 1 {
      var init := xs[..|xs| - 1];
      NothingAdded(init, t);
      Shape(init);
      StepCovers(After(init), xs[|xs| - 1], t);
      if Covers(init, t) {
        var k :| 0 <= k < |init| && Holds(init[k], t);
        assert Holds(xs[k], t);
      }
    } else if Covers(After(xs).All(), t) {
      assert Holds(xs[0], t);
    }
  }

  lemma {:induction false} NothingLost(xs: seq<Range>, t: real)
    requires xs != [] && WellFormed(xs) && Faithful(xs)
    ensures Covers(xs, t) ==> Covers(After(xs).All(), t)
  {
    if |xs| > 1 {
      var init := xs[..|xs| - 1];
      assert forall i :: 0 <= i <= |init| ==> init[..i] == xs[..i];
      NothingLost(init, t);
      Shape(init);
      StepCovers(After(init), xs[|xs| - 1], t);
      if Covers(xs, t) {
        var k :| 0 <= k < |xs| && Holds(xs[k], t);
        if k < |init| { assert Holds(init[k], t); }
      }
    } else if Covers(xs, t) {
      assert After(xs).All()[0] == xs[0];
    }
  }

  /** No instant strictly between two neighbouring ranges is covered. */
  lemma GapIsFree(xs: seq<Range>, k: nat, t: real)
    requires WellFormed(xs) && Gapped(xs) && k + 1 < |xs|
    requires xs[k].end as real < t < xs[k + 1].start as real
    ensures !Covers(xs, t)
  {
    forall m | 0 <= m < |xs| ensures !Holds(xs[m], t) {
      if m < k { assert xs[m].end < xs[k].start; }
      if m > k + 1 { assert xs[k + 1].end < xs[m].start; }
    }
  }

  /** A harmful merge drops an instant before the range merged into. */
  lemma LostInstant(xs: seq<Range>, i: nat) returns (t: real)
    requires WellFormed(xs) && 0 < i < |xs| && !Harmless(After(xs[..i]), xs[i])
    ensures Holds(xs[i], t) && t < After(xs[..i]).current.start as real
    ensures !Covers(After(xs[..i]).All(), t)
  {
    var w, next := After(xs[..i]), xs[i];
    Shape(xs[..i]);
    var all := w.All();
    assert all[|w.result|] == w.current;
    t := next.start as real;
    if Covers(all, t) {
      var k :| 0 <= k < |all| && Holds(all[k], t);
      assert k < |w.result| && all[k] == w.result[k] && !Inside(next, w.result[k]);
      assert k + 1 < |w.result| ==> all[k + 1].end < all[|w.result|].start;
      t := UpperGap(all, k, next.end);
    }
  }

  lemma UpperGap(xs: seq<Range>, k: nat, end: int) returns (t: real)
    requires WellFormed(xs) && Gapped(xs) && k + 1 < |xs| && xs[k].end < end
    ensures xs[k].end as real < t < xs[k + 1].start as real && t < end as real
    ensures !Covers(xs, t)
  {
    var stop := if end < xs[k + 1].start then end else xs[k + 1].start;
    t := (xs[k].end as real + stop as real) / 2.0;
    GapIsFree(xs, k, t);
  }

  /** What lies before the current range and is not yet covered never will be. */
  lemma {:induction false} StaysLost(xs: seq<Range>, i: nat, t: real)
    requires WellFormed(xs) && 0 < i <= |xs|
    requires t < After(xs[..i]).current.start as real && !Covers(After(xs[..i]).All(), t)
    ensures t < After(xs).current.start as real && !Covers(After(xs).All(), t)
    decreases |xs|
  {
    if i == |xs| {
      assert xs[..i] == xs;
    } else {
      var init := xs[..|xs| - 1];
      assert init[..i] == xs[..i];
      StaysLost(init, i, t);
      var w, v := After(init), After(xs);
      Shape(init);
      assert WellFormed([w.All()[|w.result|]]) && w.All()[|w.result|] == w.current;
      forall k | 0 <= k < |v.All()| ensures !Holds(v.All()[k], t) {
        if k < |w.result| { assert w.All()[k] == v.All()[k]; }
      }
    }
  }

  lemma {:induction false} OrderMakesFaithful(xs: seq<Range>)
    requires xs != [] && InStartOrder(xs)
    ensures Faithful(xs)
    ensures exists k :: 0 <= k < |xs| && After(xs).current.start == xs[k].start
  {
    if |xs| > 1 {
      var init := xs[..|xs| - 1];
      assert forall i :: 0 <= i <= |init| ==> init[..i] == xs[..i];
      OrderMakesFaithful(init);
      var k :| 0 <= k < |init| && After(init).current.start == init[k].start;
      assert xs[k].start <= xs[|xs| - 1].start;
      forall i | 0 < i < |xs| ensures Harmless(After(xs[..i]), xs[i]) {
        if i < |init| { assert Harmless(After(init[..i]), init[i]); }
      }
      assert After(xs).current.start == xs[k].start || After(xs).current.start == xs[|xs| - 1].start;
    } else {
      assert After(xs).current.start == xs[0].start;
    }
  }

  /** The documented result on an unsorted list is sorted and covers the list; this one loses a range. */
  lemma UnsortedLosesARange()
    ensures Canonical([Range(5, 6), Range(1, 2)]) == [Range(5, 6)]
    ensures !SameInstants([Range(5, 6), Range(1, 2)], [Range(5, 6)])
  {
    var xs := [Range(5, 6), Range(1, 2)];
    assert xs[..1] == [Range(5, 6)];
    assert Holds(xs[1], 1.0);
    assert Covers(xs, 1.0) && !Covers([Range(5, 6)], 1.0);
  }

  // ---------------------------------------------------------------- minimal and stable

  lemma {:induction false} GappedIsFixed(xs: seq<Range>)
    requires xs != [] && WellFormed(xs) && Gapped(xs)
    ensures After(xs).result == xs[..|xs| - 1] && After(xs).current == xs[|xs| - 1]
    ensures After(xs).All() == xs
  {
    if |xs| > 1 {
      var init, last := xs[..|xs| - 1], xs[|xs| - 1];
      GappedIsFixed(init);
      assert After(init).current == xs[|xs| - 2];
      assert xs[..|xs| - 1] == init[..|init| - 1] + [init[|init| - 1]];
    }
    assert xs == xs[..|xs| - 1] + [xs[|xs| - 1]];
  }

  /** A second call changes nothing. */
  lemma Idempotent(xs: seq<Range>)
    requires WellFormed(xs)
    ensures Canonical(Canonical(xs)) == Canonical(xs)
  {
    Facts(xs);
    if |Canonical(xs)| >= 2 { GappedIsFixed(Canonical(xs)); }
  }

  /** Two ranges with a gap between them are never held by one range of a list that covers no more. */
  lemma OneRangeEach(xs: seq<Range>, cover: seq<Range>, i: nat, j: nat, k: nat)
    requires WellFormed(xs) && Gapped(xs) && SameInstants(xs, cover)
    requires i < j < |xs| && k < |cover|
    ensures !(Holds(cover[k], xs[i].start as real) && Holds(cover[k], xs[j].start as real))
  {
    var t := (xs[j - 1].end as real + xs[j].start as real) / 2.0;
    assert xs[i].start <= xs[j - 1].start by { if i < j - 1 { assert xs[i].end < xs[j - 1].start; } }
    GapIsFree(xs, j - 1, t);
    assert !Covers(cover, t);
  }

  ghost predicate Assigned(xs: seq<Range>, cover: seq<Range>, i: int, k: int) {
    0 <= i < |xs| && 0 <= k < |cover| && Holds(cover[k], xs[i].start as real)
  }

  /** The first n ranges need n different ranges of the cover. */
  lemma {:induction false} DistinctHolders(xs: seq<Range>, cover: seq<Range>, n: nat) returns (used: set<nat>)
    requires WellFormed(xs) && Gapped(xs) && SameInstants(xs, cover) && n <= |xs|
    ensures |used| == n
    ensures forall k :: k in used ==> exists i :: i < n && Assigned(xs, cover, i, k)
  {
    used := {};
    if n > 0 {
      var rest := DistinctHolders(xs, cover, n - 1);
      assert Holds(xs[n - 1], xs[n - 1].start as real);
      assert Covers(cover, xs[n - 1].start as real);
      var k: nat :| k < |cover| && Holds(cover[k], xs[n - 1].start as real);
      assert Assigned(xs, cover, n - 1, k);
      if k in rest {
        var i :| i < n - 1 && Assigned(xs, cover, i, k);
        OneRangeEach(xs, cover, i, n - 1, k);
      }
      used := rest + {k};
    }
  }

  lemma {:induction false} BoundedSetIsSmall(s: set<nat>, n: nat)
    requires forall k :: k in s ==> k < n
    ensures |s| <= n
  {
    if n == 0 {
      assert s == {};
    } else {
      BoundedSetIsSmall(s - {n - 1}, n - 1);
      assert s <= (s - {n - 1}) + {n - 1};
      if n - 1 in s { assert |s| == |s - {n - 1}| + 1; } else { assert s - {n - 1} == s; }
    }
  }

  /** Where nothing is lost, as on any list in start order, no list of ranges covering the same instants is shorter. */
  lemma Minimal(xs: seq<Range>, cover: seq<Range>)
    requires WellFormed(xs) && (xs == [] || Faithful(xs)) && SameInstants(xs, cover)
    ensures |Canonical(xs)| <= |cover|
  {
    Facts(xs);
    if xs != [] { FaithfulExactly(xs); }
    var c := Canonical(xs);
    assert SameInstants(c, cover);
    var used := DistinctHolders(c, cover, |c|);
    BoundedSetIsSmall(used, |cover|);
  }
}
