/** When mergeAdjacentLines keeps the two ends of a path, and leaves a connected path at all, whatever turns
    back in between. */
module MergeEnds {
  import opened Lines
  import opened LineMerging

  /** The lines merged into the first line of the result. */
  function FirstRun(ls: seq<Line>): (run: seq<Line>)
    requires ls != []
    ensures run != [] && run <= ls
  {
    ls[..RunEnd(ls, ls[0], 1)]
  }

  /** The lines merged into the last line of the result. */
  function LastRun(ls: seq<Line>): (run: seq<Line>)
    requires ls != []
    ensures run != [] && run[|run| - 1] == ls[|ls| - 1]
  {
    var k := RunEnd(ls, ls[0], 1);
    if k == |ls| then ls else LastRun(ls[k..])
  }

  /** Along the axis of the run, in the direction of its first line: p comes no later than q. */
  predicate NoLater(run: seq<Line>, p: Point, q: Point)
    requires run != []
  {
    var v := IsVertical(run[0]);
    if Forward(v, run[0]) then Along(v, p) <= Along(v, q) else Along(v, q) <= Along(v, p)
  }

  /** No line of the run goes back behind the start of the first one. */
  predicate NothingBehind(run: seq<Line>)
    requires run != []
  {
    forall i :: 0 <= i < |run| ==> NoLater(run, run[0].p1, run[i].p2)
  }

  /** No line of the run goes beyond the end of the last one. */
  predicate NothingBeyond(run: seq<Line>)
    requires run != []
  {
    && NoLater(run, run[0].p1, run[|run| - 1].p2)
    && forall i :: 0 <= i < |run| ==> NoLater(run, run[i].p2, run[|run| - 1].p2)
  }

  /** The last line of the run ends as far back as any line of it gets. */
  predicate EndsBehind(run: seq<Line>)
    requires run != []
  {
    && NoLater(run, run[|run| - 1].p2, run[0].p1)
    && forall i :: 0 <= i < |run| ==> NoLater(run, run[|run| - 1].p2, run[i].p2)
  }

  /** No line of any run but the first goes back behind the start of the run. */
  predicate RunsMeet(ls: seq<Line>)
    requires ls != []
  {
    var k := RunEnd(ls, ls[0], 1);
    k == |ls| || (NothingBehind(FirstRun(ls[k..])) && RunsMeet(ls[k..]))
  }

  /** No run but the last ends as far back as any line of it gets. */
  predicate RunsAdvance(ls: seq<Line>)
    requires ls != []
  {
    var k := RunEnd(ls, ls[0], 1);
    k == |ls| || (!EndsBehind(FirstRun(ls)) && RunsAdvance(ls[k..]))
  }

  lemma {:induction false} LowestIs(v: bool, ls: seq<Line>, m: int)
    requires ls != [] && Chain(ls)
    ensures m <= Lowest(v, ls) <==> m <= Along(v, ls[0].p1) && forall i :: 0 <= i < |ls| ==> m <= Along(v, ls[i].p2)
    decreases |ls|
  {
    if |ls| > 1 {
      var init, last := ls[..|ls| - 1], ls[|ls| - 1];
      LowestIs(v, init, m);
      assert last.p1 == init[|init| - 1].p2;
      assert forall i :: 0 <= i < |init| ==> init[i] == ls[i];
    }
  }

  lemma {:induction false} HighestIs(v: bool, ls: seq<Line>, m: int)
    requires ls != [] && Chain(ls)
    ensures Highest(v, ls) <= m <==> Along(v, ls[0].p1) <= m && forall i :: 0 <= i < |ls| ==> Along(v, ls[i].p2) <= m
    decreases |ls|
  {
    if |ls| > 1 {
      var init, last := ls[..|ls| - 1], ls[|ls| - 1];
      HighestIs(v, init, m);
      assert last.p1 == init[|init| - 1].p2;
      assert forall i :: 0 <= i < |init| ==> init[i] == ls[i];
    }
  }

  /** The line built for a run starts, or ends, where the run does exactly when nothing lies behind, or beyond. */
  lemma MergedLineEnds(v: bool, c: int, run: seq<Line>)
    requires Track(v, c, run) && v == IsVertical(run[0])
    ensures MergedLine(run).p1 == run[0].p1 <==> NothingBehind(run)
    ensures MergedLine(run).p2 == run[|run| - 1].p2 <==> NothingBeyond(run)
    ensures MergedLine(run).p1 == run[|run| - 1].p2 <==> EndsBehind(run)
  {
    var first, last := run[0].p1, run[|run| - 1].p2;
    MergedSpans(v, c, run);
    TrackExtent(v, c, run);
    LowestIs(v, run, Along(v, first));
    LowestIs(v, run, Along(v, last));
    HighestIs(v, run, Along(v, first));
    HighestIs(v, run, Along(v, last));
    assert MergedLine(run).p1 == first <==> Along(v, MergedLine(run).p1) == Along(v, first);
    assert MergedLine(run).p2 == last <==> Along(v, MergedLine(run).p2) == Along(v, last);
    assert MergedLine(run).p1 == last <==> Along(v, MergedLine(run).p1) == Along(v, last);
  }

  lemma SingleRun(l: Line)
    ensures NothingBehind([l]) && NothingBeyond([l])
  {}

  lemma StartKept(ls: seq<Line>)
    requires GridPath(ls)
    ensures Merged(ls) != [] && (Merged(ls)[0].p1 == ls[0].p1 <==> NothingBehind(FirstRun(ls)))
  {
    var k := RunEnd(ls, ls[0], 1);
    if k == 1 {
      assert FirstRun(ls) == [ls[0]];
      SingleRun(ls[0]);
    } else {
      HeadIsTrack(ls, k);
      MergedLineEnds(IsVertical(ls[0]), Across(IsVertical(ls[0]), ls[0].p1), ls[..k]);
    }
  }

  lemma {:induction false} EndKept(ls: seq<Line>)
    requires GridPath(ls)
    ensures Merged(ls) != []
    ensures Merged(ls)[|Merged(ls)| - 1].p2 == ls[|ls| - 1].p2 <==> NothingBeyond(LastRun(ls))
    decreases |ls|
  {
    var k := RunEnd(ls, ls[0], 1);
    if |ls| == 1 {
      SingleRun(ls[0]);
      assert ls == [ls[0]];
    } else if k == |ls| {
      assert ls[..k] == ls && ls[k..] == [];
      HeadIsTrack(ls, k);
      MergedLineEnds(IsVertical(ls[0]), Across(IsVertical(ls[0]), ls[0].p1), ls);
      assert Merged(ls) == [MergedLine(ls)];
    } else {
      EndKept(ls[k..]);
      assert Merged(ls)[1..] == Merged(ls[k..]);
    }
  }

  /** Merging keeps both ends of a path exactly when nothing in the first run lies behind its start and
      nothing in the last run beyond its end. */
  lemma MergeKeepsEndsExactly(ls: seq<Line>)
    requires GridPath(ls)
    ensures SameEnds(ls, Merged(ls)) <==> NothingBehind(FirstRun(ls)) && NothingBeyond(LastRun(ls))
  {
    StartKept(ls);
    EndKept(ls);
  }

  // ---------------------------------------------------------------- whether a path comes out

  /** The line a run that is not the last is merged into: it ends where the next line starts, lies on the axis of the
      run, and has no length exactly when the run ends as far back as it gets. */
  lemma HeadLine(ls: seq<Line>, k: nat)
    requires GridPath(ls) && k == RunEnd(ls, ls[0], 1) && k < |ls|
    ensures var head := Merged(ls)[0];
            head.p2 == ls[k].p1 && AxisAligned(head) && (IsZero(head) <==> EndsBehind(FirstRun(ls)))
  {
    assert ls[k - 1].p2 == ls[k].p1;
    if k == 1 {
      assert FirstRun(ls) == [ls[0]];
    } else {
      var v, run := IsVertical(ls[0]), ls[..k];
      HeadIsTrack(ls, k);
      MergedLineEnds(v, Across(v, ls[0].p1), run);
      MergedSpans(v, Across(v, ls[0].p1), run);
      assert run[k - 1] == ls[k - 1];
    }
  }

  lemma LastLine(ls: seq<Line>)
    requires GridPath(ls) && RunEnd(ls, ls[0], 1) == |ls|
    ensures |Merged(ls)| == 1 && AxisAligned(Merged(ls)[0]) && !IsZero(Merged(ls)[0])
  {
    if |ls| > 1 {
      var v := IsVertical(ls[0]);
      assert ls[..|ls|] == ls && ls[|ls|..] == [];
      HeadIsTrack(ls, |ls|);
      MergedSpans(v, Across(v, ls[0].p1), ls);
      TrackExtent(v, Across(v, ls[0].p1), ls);
    }
  }

  lemma RestIsPath(ls: seq<Line>, k: nat)
    requires GridPath(ls) && k < |ls|
    ensures GridPath(ls[k..])
  {}

  lemma ChainOnward(head: Line, rest: seq<Line>)
    requires rest != []
    ensures Chain([head] + rest) <==> head.p2 == rest[0].p1 && Chain(rest)
    ensures NoneZero([head] + rest) <==> !IsZero(head) && NoneZero(rest)
    ensures AllAxisAligned([head] + rest) <==> AxisAligned(head) && AllAxisAligned(rest)
  {
    var all := [head] + rest;
    assert all[0] == head && forall i :: 0 <= i < |rest| ==> rest[i] == all[1..][i];
    forall i | 0 <= i < |rest| ensures rest[i] == all[i + 1] {}
    if Chain(all) {
      assert all[0].p2 == all[1].p1;
      forall i | 0 <= i < |rest| - 1 ensures rest[i].p2 == rest[i + 1].p1 {
        assert all[i + 1].p2 == all[i + 1 + 1].p1;
      }
    }
    if NoneZero(all) {
      forall i | 0 <= i < |rest| ensures !IsZero(rest[i]) { assert !IsZero(all[i + 1]); }
    }
    if AllAxisAligned(all) {
      forall i | 0 <= i < |rest| ensures AxisAligned(rest[i]) { assert AxisAligned(all[i + 1]); }
    }
  }

  /** What comes out is connected exactly when no run but the first goes behind its start, and has no line without
      length exactly when no run but the last ends as far back as it gets. */
  lemma {:induction false} MergeConnectsExactly(ls: seq<Line>)
    requires GridPath(ls)
    ensures Merged(ls) != [] && AllAxisAligned(Merged(ls))
    ensures Chain(Merged(ls)) <==> RunsMeet(ls)
    ensures NoneZero(Merged(ls)) <==> RunsAdvance(ls)
    decreases |ls|
  {
    var k := RunEnd(ls, ls[0], 1);
    if k == |ls| {
      LastLine(ls);
    } else {
      RestIsPath(ls, k);
      MergeConnectsExactly(ls[k..]);
      HeadLine(ls, k);
      StartKept(ls[k..]);
      ChainOnward(Merged(ls)[0], Merged(ls[k..]));
    }
  }

  /** The first line of the result lies on the axis of the first line. */
  lemma HeadAxis(ls: seq<Line>)
    requires GridPath(ls)
    ensures Merged(ls) != [] && if IsVertical(ls[0]) then IsVertical(Merged(ls)[0]) else IsHorizontal(Merged(ls)[0])
  {
    var k := RunEnd(ls, ls[0], 1);
    if k == |ls| {
      if k > 1 {
        assert ls[..k] == ls && ls[k..] == [];
        HeadIsTrack(ls, k);
        MergedSpans(IsVertical(ls[0]), Across(IsVertical(ls[0]), ls[0].p1), ls);
      }
    } else {
      HeadLine(ls, k);
      if k > 1 {
        HeadIsTrack(ls, k);
        MergedSpans(IsVertical(ls[0]), Across(IsVertical(ls[0]), ls[0].p1), ls[..k]);
        assert ls[k - 1].p2 == ls[k].p1 && ls[..k][k - 1] == ls[k - 1];
      }
    }
  }

  /** Unless lines without length come out, no two neighbours on one axis do: the lines turn at every point. */
  lemma {:induction false} MergeLeavesTurns(ls: seq<Line>)
    requires GridPath(ls) && NoneZero(Merged(ls))
    ensures NoSharedAxis(Merged(ls))
    decreases |ls|
  {
    var k := RunEnd(ls, ls[0], 1);
    HeadAxis(ls);
    if k < |ls| {
      var head, rest := Merged(ls)[0], Merged(ls[k..]);
      RestIsPath(ls, k);
      HeadAxis(ls[k..]);
      ChainOnward(head, rest);
      MergeLeavesTurns(ls[k..]);
      NextTurns(ls, k);
      assert !SharesAxis(head, rest[0]);
      assert Merged(ls) == [head] + rest;
    }
  }

  /** The line after a run turns off its axis. */
  lemma NextTurns(ls: seq<Line>, k: nat)
    requires GridPath(ls) && k == RunEnd(ls, ls[0], 1) && k < |ls|
    ensures IsVertical(ls[k]) <==> !IsVertical(ls[0])
  {
    assert k == 1 || SharesAxis(ls[0], ls[k - 1]);
    assert ls[k - 1].p2 == ls[k].p1 && !SharesAxis(ls[0], ls[k]);
  }

  /** Nothing to merge, nothing merged. */
  lemma {:induction false} MergedIsFixed(ls: seq<Line>)
    requires NoSharedAxis(ls)
    ensures Merged(ls) == ls
    decreases |ls|
  {
    if |ls| > 1 {
      assert !SharesAxis(ls[0], ls[1]);
      assert RunEnd(ls, ls[0], 1) == 1;
      MergedIsFixed(ls[1..]);
    }
  }
}
