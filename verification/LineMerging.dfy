/** PathRouter::mergeAdjacentLines: every run of neighbouring lines on one axis becomes one line. */
module LineMerging {
  import opened Lines

  // ---------------------------------------------------------------- the extents of a list

  function Along(vertical: bool, p: Point): int { if vertical then p.y else p.x }

  function Across(vertical: bool, p: Point): int { if vertical then p.x else p.y }

  /** minY() for vertical, minX() for horizontal */
  function Lowest(vertical: bool, ls: seq<Line>): int
    requires ls != []
  {
    var l := ls[|ls| - 1];
    var m := Min(Along(vertical, l.p1), Along(vertical, l.p2));
    if |ls| == 1 then m else Min(Lowest(vertical, ls[..|ls| - 1]), m)
  }

  /** maxY() for vertical, maxX() for horizontal */
  function Highest(vertical: bool, ls: seq<Line>): int
    requires ls != []
  {
    var l := ls[|ls| - 1];
    var m := Max(Along(vertical, l.p1), Along(vertical, l.p2));
    if |ls| == 1 then m else Max(Highest(vertical, ls[..|ls| - 1]), m)
  }

  // ---------------------------------------------------------------- the algorithm

  /** The line built for a run, in the direction of its first line. */
  function MergedLine(run: seq<Line>): Line
    requires run != []
  {
    var first := run[0];
    var x := if IsHorizontal(first) || !IsVertical(first) then -1 else first.p1.x;
    var y := if IsHorizontal(first) then first.p1.y else -1;
    match DirectionOf(first)
    case ToLeft => Line(Point(Highest(false, run), y), Point(Lowest(false, run), y))
    case ToRight => Line(Point(Lowest(false, run), y), Point(Highest(false, run), y))
    case Up => Line(Point(x, Highest(true, run)), Point(x, Lowest(true, run)))
    case Down => Line(Point(x, Lowest(true, run)), Point(x, Highest(true, run)))
    case NoDirection => Line(Point(x, y), Point(x, y))
  }

  /** The first index from j on whose line does not share the axis. */
  function RunEnd(ls: seq<Line>, axis: Line, j: nat): (k: nat)
    requires j <= |ls|
    ensures j <= k <= |ls|
    ensures forall i :: j <= i < k ==> SharesAxis(axis, ls[i])
    ensures k < |ls| ==> !SharesAxis(axis, ls[k])
    decreases |ls| - j
  {
    if j < |ls| && SharesAxis(axis, ls[j]) then RunEnd(ls, axis, j + 1) else j
  }

  /** A merged line is cut or stretched to end where the line after the run starts. */
  function Joined(l: Line, rest: seq<Line>): Line {
    if rest != [] && l.p2 != rest[0].p1 then Line(l.p1, rest[0].p1) else l
  }

  function Merged(ls: seq<Line>): seq<Line> {
    if |ls| <= 1 then ls
    else
      var k := RunEnd(ls, ls[0], 1);
      [if k == 1 then ls[0] else Joined(MergedLine(ls[..k]), ls[k..])] + Merged(ls[k..])
  }

  method MergeAdjacentLines(original: seq<Line>) returns (lines: seq<Line>)
    ensures lines == Merged(original)
    ensures GridPath(original) && SameWay(original) ==> SamePath(original, lines) && NoSharedAxis(lines)
    ensures GridPath(original) ==> TotalLength(lines) <= TotalLength(original)
    ensures GridPath(original) ==> (TotalLength(lines) == TotalLength(original) <==> SameWay(original))
  {
    if GridPath(original) { MergeKeepsPath(original); }
    lines := original;
    var i := 0;
    while i < |lines| - 1
      invariant 0 <= i <= |lines|
      invariant lines[..i] + Merged(lines[i..]) == Merged(original)
      decreases |lines| - i
    {
      lines := MergeRunAt(lines, i);
      i := i + 1;
    }
    MergedShort(lines, i);
  }

  /** One turn of the loop: the run that starts at i is replaced by its one line. */
  method MergeRunAt(lines: seq<Line>, i: nat) returns (merged: seq<Line>)
    requires i < |lines| - 1
    ensures i < |merged| <= |lines|
    ensures merged[..i + 1] + Merged(merged[i + 1..]) == lines[..i] + Merged(lines[i..])
  {
    var linesToMerge, j := RunFrom(lines, i);
    MergedUnfolds(lines, i, j, lines[..i] + [RunHead(lines, i, j)] + lines[j..]);
    if linesToMerge != [] {
      var newLine := LineOfRun(lines, i, j, linesToMerge);
      merged := lines[..i] + [newLine] + lines[j..];
    } else {
      merged := lines;
      assert lines[..i] + [lines[i]] + lines[j..] == lines;
    }
  }

  /** The one line for a run, led on to where the next line starts. */
  method LineOfRun(lines: seq<Line>, i: nat, j: nat, others: seq<Line>) returns (newLine: Line)
    requires i + 1 < j <= |lines| && others == lines[i + 1..j]
    ensures newLine == RunHead(lines, i, j)
  {
    var linesToMerge := [lines[i]] + others;
    assert linesToMerge == lines[i..j];
    newLine := MergedLine(linesToMerge);
    if j < |lines| && newLine.p2 != lines[j].p1 {
      newLine := Line(newLine.p1, lines[j].p1);
    }
  }

  /** The inner loop: the lines after i that share its axis, and the index they end at. */
  method RunFrom(lines: seq<Line>, i: nat) returns (linesToMerge: seq<Line>, j: nat)
    requires i < |lines|
    ensures i < j <= |lines| && linesToMerge == lines[i + 1..j]
    ensures j - i == RunEnd(lines[i..], lines[i], 1)
  {
    var thisLine := lines[i];
    linesToMerge := [];
    j := i + 1;
    while j < |lines| && SharesAxis(thisLine, lines[j])
      invariant i < j <= |lines| && linesToMerge == lines[i + 1..j]
      invariant RunEnd(lines[i..], thisLine, j - i) == RunEnd(lines[i..], thisLine, 1)
    {
      linesToMerge := linesToMerge + [lines[j]];
      j := j + 1;
    }
  }

  lemma MergedShort(lines: seq<Line>, i: nat)
    requires |lines| - 1 <= i <= |lines|
    ensures lines[..i] + Merged(lines[i..]) == lines
  {}

  function RunHead(lines: seq<Line>, i: nat, j: nat): Line
    requires i < j <= |lines|
  {
    if j == i + 1 then lines[i] else Joined(MergedLine(lines[i..j]), lines[j..])
  }

  lemma MergedAt(lines: seq<Line>, i: nat, j: nat)
    requires i + 1 < |lines| && i < j <= |lines| && j - i == RunEnd(lines[i..], lines[i], 1)
    ensures Merged(lines[i..]) == [RunHead(lines, i, j)] + Merged(lines[j..])
  {
    var tail := lines[i..];
    assert tail[..j - i] == lines[i..j] && tail[j - i..] == lines[j..];
  }

  lemma Glue(a: seq<Line>, head: Line, rest: seq<Line>, m: seq<Line>)
    ensures (a + [head] + rest)[..|a| + 1] == a + [head]
    ensures (a + [head] + rest)[|a| + 1..] == rest
    ensures a + ([head] + m) == (a + [head]) + m
  {}

  /** One turn of the outer loop, seen from the function: the run from i to j becomes one line. */
  lemma MergedUnfolds(lines: seq<Line>, i: nat, j: nat, next: seq<Line>)
    requires i + 1 < |lines| && i < j <= |lines| && j - i == RunEnd(lines[i..], lines[i], 1)
    requires next == lines[..i] + [RunHead(lines, i, j)] + lines[j..]
    ensures next[..i + 1] + Merged(next[i + 1..]) == lines[..i] + Merged(lines[i..])
  {
    MergedAt(lines, i, j);
    Glue(lines[..i], RunHead(lines, i, j), lines[j..], Merged(lines[j..]));
  }

  // ---------------------------------------------------------------- what is kept

  /** A connected chain of non-zero axis-aligned lines. */
  predicate GridPath(ls: seq<Line>) { ls != [] && Chain(ls) && AllAxisAligned(ls) && NoneZero(ls) }

  /** Neighbours on one axis run the same way. */
  predicate SameWay(ls: seq<Line>) {
    forall i :: 0 <= i < |ls| - 1 && SharesAxis(ls[i], ls[i + 1]) ==> DirectionOf(ls[i]) == DirectionOf(ls[i + 1])
  }

  predicate NoSharedAxis(ls: seq<Line>) { forall i :: 0 <= i < |ls| - 1 ==> !SharesAxis(ls[i], ls[i + 1]) }

  /** Two chains with the same ends, the same length and the same points. */
  ghost predicate SamePath(a: seq<Line>, b: seq<Line>) {
    && SameEnds(a, b) && GridPath(b)
    && TotalLength(a) == TotalLength(b)
    && forall x, y :: Covers(a, x, y) <==> Covers(b, x, y)
  }

  // ---------------------------------------------------------------- one run

  /** A chain of non-zero lines that all lie on one vertical or horizontal line of the grid. */
  predicate Track(v: bool, c: int, ls: seq<Line>) {
    && ls != [] && Chain(ls) && NoneZero(ls)
    && forall i :: 0 <= i < |ls| ==> Across(v, ls[i].p1) == c == Across(v, ls[i].p2)
  }

  predicate Forward(v: bool, l: Line) { Along(v, l.p1) < Along(v, l.p2) }

  predicate OneDirection(v: bool, ls: seq<Line>) {
    forall i, j :: 0 <= i < j < |ls| ==> Forward(v, ls[i]) == Forward(v, ls[j])
  }

  /** A track without its last line is one as well, and ends where that line starts. */
  lemma TrackInit(v: bool, c: int, ls: seq<Line>, init: seq<Line>)
    requires Track(v, c, ls) && |ls| > 1 && init == ls[..|ls| - 1]
    ensures Track(v, c, init) && init[|init| - 1].p2 == ls[|ls| - 1].p1 && init[0] == ls[0]
  {
    assert forall i :: 0 <= i < |init| ==> init[i] == ls[i];
  }

  lemma {:induction false} TrackExtent(v: bool, c: int, ls: seq<Line>)
    requires Track(v, c, ls)
    ensures var lo, hi, first, last := Lowest(v, ls), Highest(v, ls), Along(v, ls[0].p1), Along(v, ls[|ls| - 1].p2);
            && lo <= first <= hi && lo <= last <= hi && lo < hi
            && hi - lo <= TotalLength(ls)
            && (OneDirection(v, ls) <==> hi - lo == TotalLength(ls))
            && (OneDirection(v, ls) ==>
                  if Forward(v, ls[0]) then first == lo && last == hi else first == hi && last == lo)
    decreases |ls|
  {
    var l := ls[|ls| - 1];
    assert Length(l) == Abs(Along(v, l.p1) - Along(v, l.p2));
    if |ls| == 1 {
      assert ls[..0] == [];
    } else {
      var init := ls[..|ls| - 1];
      TrackInit(v, c, ls, init);
      TrackExtent(v, c, init);
      OneDirectionWith(v, init, l, ls);
    }
  }

  lemma OneDirectionWith(v: bool, init: seq<Line>, l: Line, ls: seq<Line>)
    requires init != [] && ls == init + [l]
    ensures OneDirection(v, ls) <==> OneDirection(v, init) && Forward(v, l) == Forward(v, ls[0])
  {
    assert init[0] == ls[0] && ls[|init|] == l;
    if OneDirection(v, ls) {
      forall i, j | 0 <= i < j < |init| ensures Forward(v, init[i]) == Forward(v, init[j]) {
        assert Forward(v, ls[i]) == Forward(v, ls[j]);
      }
    }
    if OneDirection(v, init) && Forward(v, l) == Forward(v, ls[0]) {
      forall i, j | 0 <= i < j < |ls| ensures Forward(v, ls[i]) == Forward(v, ls[j]) {
        assert i > 0 ==> Forward(v, init[0]) == Forward(v, init[i]);
        assert j < |init| ==> Forward(v, init[0]) == Forward(v, init[j]);
      }
    }
  }

  predicate Within(v: bool, c: int, lo: int, hi: int, x: real, y: real) {
    if v then x == c as real && lo as real <= y <= hi as real else y == c as real && lo as real <= x <= hi as real
  }

  lemma OnTrackLine(v: bool, c: int, l: Line, x: real, y: real)
    requires Across(v, l.p1) == c == Across(v, l.p2)
    ensures Covers([l], x, y) <==>
            Within(v, c, Min(Along(v, l.p1), Along(v, l.p2)), Max(Along(v, l.p1), Along(v, l.p2)), x, y)
  {
    assert Covers([l], x, y) <==> On([l][0], x, y);
  }

  lemma {:induction false} TrackCovers(v: bool, c: int, ls: seq<Line>, x: real, y: real)
    requires Track(v, c, ls)
    ensures Covers(ls, x, y) <==> Within(v, c, Lowest(v, ls), Highest(v, ls), x, y)
    decreases |ls|
  {
    var l := ls[|ls| - 1];
    OnTrackLine(v, c, l, x, y);
    if |ls| == 1 {
      assert ls == [l];
    } else {
      var init := ls[..|ls| - 1];
      TrackInit(v, c, ls, init);
      TrackCovers(v, c, init, x, y);
      assert Lowest(v, init) <= Along(v, l.p1) <= Highest(v, init) by {
        TrackExtent(v, c, init);
      }
      assert ls == init + [l];
      CoversConcat(init, [l], x, y);
    }
  }

  // ---------------------------------------------------------------- the run at the head

  /** The head run of a path is a track, and its neighbours all share its axis. */
  lemma HeadIsTrack(ls: seq<Line>, k: nat)
    requires GridPath(ls) && 1 <= k <= |ls| && forall i :: 1 <= i < k ==> SharesAxis(ls[0], ls[i])
    ensures Track(IsVertical(ls[0]), Across(IsVertical(ls[0]), ls[0].p1), ls[..k])
    ensures forall i :: 0 <= i < k - 1 ==> SharesAxis(ls[i], ls[i + 1])
    ensures SameWay(ls[..k]) <==> OneDirection(IsVertical(ls[0]), ls[..k])
  {
    var v, run := IsVertical(ls[0]), ls[..k];
    var c := Across(v, ls[0].p1);
    forall i | 0 <= i < k ensures Across(v, run[i].p1) == c == Across(v, run[i].p2) {
      assert i > 0 ==> SharesAxis(ls[0], ls[i]);
    }
    assert forall i, j :: 0 <= i < k && 0 <= j < k ==>
        (DirectionOf(run[i]) == DirectionOf(run[j]) <==> Forward(v, run[i]) == Forward(v, run[j]));
    if SameWay(run) { SameWayChains(v, run); }
  }

  lemma {:induction false} SameWayChains(v: bool, run: seq<Line>)
    requires run != [] && forall i :: 0 <= i < |run| - 1 ==> Forward(v, run[i]) == Forward(v, run[i + 1])
    ensures OneDirection(v, run)
  {
    if |run| > 1 {
      var init := run[..|run| - 1];
      SameWayChains(v, init);
      forall i, j | 0 <= i < j < |run| ensures Forward(v, run[i]) == Forward(v, run[j]) {
        assert i < |init| - 1 ==> Forward(v, init[i]) == Forward(v, init[|init| - 1]);
        assert j < |init| ==> Forward(v, init[i]) == Forward(v, init[j]);
      }
    }
  }

  /** The line a track is merged into spans its extent. */
  lemma MergedSpans(v: bool, c: int, run: seq<Line>)
    requires Track(v, c, run) && v == IsVertical(run[0])
    ensures var l := MergedLine(run);
            && Across(v, l.p1) == c == Across(v, l.p2)
            && (if Forward(v, run[0]) then Along(v, l.p1) == Lowest(v, run) && Along(v, l.p2) == Highest(v, run)
                else Along(v, l.p1) == Highest(v, run) && Along(v, l.p2) == Lowest(v, run))
  {}

  lemma PointsEqual(v: bool, p: Point, q: Point)
    requires Along(v, p) == Along(v, q) && Across(v, p) == Across(v, q)
    ensures p == q
  {}

  /** A run all one way becomes the line from its start to its end, over the same points. */
  lemma OneWayRun(v: bool, c: int, run: seq<Line>, rest: seq<Line>)
    requires Track(v, c, run) && v == IsVertical(run[0]) && OneDirection(v, run)
    requires rest != [] ==> run[|run| - 1].p2 == rest[0].p1
    ensures Joined(MergedLine(run), rest) == Line(run[0].p1, run[|run| - 1].p2)
    ensures SamePath(run, [Joined(MergedLine(run), rest)])
  {
    TrackExtent(v, c, run);
    MergedSpans(v, c, run);
    var l := MergedLine(run);
    PointsEqual(v, l.p1, run[0].p1);
    PointsEqual(v, l.p2, run[|run| - 1].p2);
    assert [l][..0] == [] && TotalLength([l]) == Length(l) == Highest(v, run) - Lowest(v, run);
    forall x, y ensures Covers(run, x, y) <==> Covers([l], x, y) {
      TrackCovers(v, c, run, x, y);
      assert Covers([l], x, y) <==> On([l][0], x, y);
    }
  }

  /** A run that turns back loses length. */
  lemma TurningRun(v: bool, c: int, run: seq<Line>, rest: seq<Line>)
    requires Track(v, c, run) && v == IsVertical(run[0]) && !OneDirection(v, run)
    requires rest != [] ==> run[|run| - 1].p2 == rest[0].p1
    ensures Length(Joined(MergedLine(run), rest)) < TotalLength(run)
  {
    TrackExtent(v, c, run);
    MergedSpans(v, c, run);
    assert Across(v, run[|run| - 1].p2) == c;
  }

  // ---------------------------------------------------------------- the whole list

  /** Merging never adds length. It keeps the length exactly when no neighbours on one axis turn
      back on each other, and then it keeps the path: its ends, its connections and its points. */
  lemma {:induction false} MergeKeepsPath(ls: seq<Line>)
    requires GridPath(ls)
    ensures TotalLength(Merged(ls)) <= TotalLength(ls)
    ensures TotalLength(Merged(ls)) == TotalLength(ls) <==> SameWay(ls)
    ensures SameWay(ls) ==> SamePath(ls, Merged(ls)) && NoSharedAxis(Merged(ls))
    ensures SameWay(ls) ==> Merged(ls)[0].p1 == ls[0].p1 && SharesAxis(Merged(ls)[0], ls[0])
    decreases |ls|
  {
    if |ls| > 1 {
      var v, c, run, rest, head := HeadRun(ls);
      TotalOfConcat(run, rest);
      assert TotalLength([head]) == Length(head) by { assert [head][..0] == []; }
      TotalOfConcat([head], Merged(rest));
      if rest != [] { MergeKeepsPath(rest); }
      HeadLength(v, c, run, rest, head);
      if SameWay(ls) { JoinHead(v, c, run, rest, head); }
    }
  }

  /** A path is its head run, which becomes one line, and a shorter path. */
  lemma HeadRun(ls: seq<Line>) returns (v: bool, c: int, run: seq<Line>, rest: seq<Line>, head: Line)
    requires GridPath(ls) && |ls| > 1
    ensures ls == run + rest && run != [] && run[0] == ls[0] && (rest != [] ==> GridPath(rest))
    ensures Merged(ls) == [head] + Merged(rest)
    ensures head == if |run| == 1 then run[0] else Joined(MergedLine(run), rest)
    ensures Track(v, c, run) && v == IsVertical(run[0]) && AllAxisAligned(run)
    ensures rest != [] ==> run[|run| - 1].p2 == rest[0].p1 && !SharesAxis(run[0], rest[0])
    ensures SameWay(ls) <==> OneDirection(v, run) && SameWay(rest)
  {
    var k := RunEnd(ls, ls[0], 1);
    v := IsVertical(ls[0]);
    c := Across(v, ls[0].p1);
    HeadIsTrack(ls, k);
    SplitSameWay(ls, k);
    run, rest, head := CutAt(ls, k);
  }

  lemma CutAt(ls: seq<Line>, k: nat) returns (run: seq<Line>, rest: seq<Line>, head: Line)
    requires GridPath(ls) && |ls| > 1 && k == RunEnd(ls, ls[0], 1)
    ensures run == ls[..k] && rest == ls[k..] && ls == run + rest && run[0] == ls[0]
    ensures Merged(ls) == [head] + Merged(rest)
    ensures head == if |run| == 1 then run[0] else Joined(MergedLine(run), rest)
    ensures AllAxisAligned(run)
    ensures rest != [] ==> GridPath(rest) && run[|run| - 1].p2 == rest[0].p1 && !SharesAxis(run[0], rest[0])
  {
    run, rest := ls[..k], ls[k..];
    head := if k == 1 then ls[0] else Joined(MergedLine(run), rest);
  }

  lemma SplitSameWay(ls: seq<Line>, k: nat)
    requires GridPath(ls) && 1 <= k <= |ls| && (forall i :: 1 <= i < k ==> SharesAxis(ls[0], ls[i]))
    requires k < |ls| ==> !SharesAxis(ls[0], ls[k])
    ensures SameWay(ls) <==> SameWay(ls[..k]) && SameWay(ls[k..])
    ensures k < |ls| ==> !SharesAxis(ls[k - 1], ls[k])
  {
    var run, rest := ls[..k], ls[k..];
    assert k < |ls| ==> !SharesAxis(ls[k - 1], ls[k]) by {
      if k > 1 { assert SharesAxis(ls[0], ls[k - 1]); }
    }
    if SameWay(ls) {
      forall i | 0 <= i < |rest| - 1 && SharesAxis(rest[i], rest[i + 1])
        ensures DirectionOf(rest[i]) == DirectionOf(rest[i + 1]) {
        assert SharesAxis(ls[k + i], ls[k + i + 1]);
      }
    }
    if SameWay(run) && SameWay(rest) {
      forall i | 0 <= i < |ls| - 1 && SharesAxis(ls[i], ls[i + 1])
        ensures DirectionOf(ls[i]) == DirectionOf(ls[i + 1]) {
        if i < k - 1 {
          assert SharesAxis(run[i], run[i + 1]);
        } else {
          assert i != k - 1;
          assert SharesAxis(rest[i - k], rest[i - k + 1]);
        }
      }
    }
  }

  lemma HeadLength(v: bool, c: int, run: seq<Line>, rest: seq<Line>, head: Line)
    requires Track(v, c, run) && v == IsVertical(run[0]) && (rest != [] ==> run[|run| - 1].p2 == rest[0].p1)
    requires head == if |run| == 1 then run[0] else Joined(MergedLine(run), rest)
    ensures Length(head) <= TotalLength(run)
    ensures Length(head) == TotalLength(run) <==> OneDirection(v, run)
  {
    if |run| == 1 {
      assert run[..0] == [];
    } else if OneDirection(v, run) {
      OneWayRun(v, c, run, rest);
      assert TotalLength([head]) == Length(head) by { assert [head][..0] == []; }
    } else {
      TurningRun(v, c, run, rest);
    }
  }

  lemma JoinHead(v: bool, c: int, run: seq<Line>, rest: seq<Line>, head: Line)
    requires Track(v, c, run) && v == IsVertical(run[0]) && OneDirection(v, run)
    requires rest != [] ==> run[|run| - 1].p2 == rest[0].p1 && !SharesAxis(run[0], rest[0])
    requires head == if |run| == 1 then run[0] else Joined(MergedLine(run), rest)
    requires rest != [] ==> SamePath(rest, Merged(rest)) && NoSharedAxis(Merged(rest))
    requires rest != [] ==> Merged(rest)[0].p1 == rest[0].p1 && SharesAxis(Merged(rest)[0], rest[0])
    requires AllAxisAligned(run)
    ensures SamePath(run + rest, [head] + Merged(rest)) && NoSharedAxis([head] + Merged(rest))
    ensures SharesAxis(head, run[0])
  {
    var m := [head] + Merged(rest);
    if |run| == 1 {
      assert run == [head];
    } else {
      OneWayRun(v, c, run, rest);
    }
    assert SamePath(run, [head]) && [head][0] == head;
    HeadOnAxis(v, c, run, head);
    TotalOfConcat(run, rest);
    TotalOfConcat([head], Merged(rest));
    forall x, y ensures Covers(run + rest, x, y) <==> Covers(m, x, y) {
      CoversConcat(run, rest, x, y);
      CoversConcat([head], Merged(rest), x, y);
    }
    if rest != [] { assert !SharesAxis(m[0], m[1]); }
  }

  lemma HeadOnAxis(v: bool, c: int, run: seq<Line>, head: Line)
    requires Track(v, c, run) && v == IsVertical(run[0]) && SamePath(run, [head])
    requires head.p1 == run[0].p1 && head.p2 == run[|run| - 1].p2
    ensures IsVertical(head) == v && SharesAxis(head, run[0]) && Across(v, head.p1) == c == Across(v, head.p2)
  {
    assert !IsZero([head][0]);
  }

  lemma MergedPair(a: Line, b: Line)
    requires SharesAxis(a, b)
    ensures Merged([a, b]) == [MergedLine([a, b])]
    ensures forall v ::
              Lowest(v, [a, b]) == Min(Min(Along(v, a.p1), Along(v, a.p2)), Min(Along(v, b.p1), Along(v, b.p2)))
    ensures forall v ::
              Highest(v, [a, b]) == Max(Max(Along(v, a.p1), Along(v, a.p2)), Max(Along(v, b.p1), Along(v, b.p2)))
  {
    assert [a, b][..2] == [a, b] && [a, b][..1] == [a] && [a, b][2..] == [];
  }

  /** Two lines that turn back: the end of the path moves. */
  lemma TurningBackMovesTheEnd()
    ensures Merged([Line(Point(0, 0), Point(9, 0)), Line(Point(9, 0), Point(5, 0))]) == [Line(Point(0, 0), Point(9, 0))]
  {
    MergedPair(Line(Point(0, 0), Point(9, 0)), Line(Point(9, 0), Point(5, 0)));
  }
}
