/** What the second of setOrigin() and setDestination() does to the distances the first one has left. */
module SecondCall {
  import opened Options
  import opened Network
  import opened NetworkSplit
  import opened Segments
  import opened ClosestLine
  import opened Lists
  import opened Wiring
  import opened Attachment

  /** Either call splits a line, and the two lines join the same points. */
  predicate SplitsParallel(p: Plan, q: Plan, name: Point -> Name, first: Point, one: Option<Hit>,
                           second: Point, two: Option<Hit>) {
    && IsSplit(p, name, first, one) && IsSplit(q, name, second, two) && SameEnds(two.value.line, one.value.line)
  }

  // ---------------------------------------------------------------- the line that is hit second

  lemma LinesAfterSplit(lines: seq<Line>, l: Line, c: Point, k: Line)
    requires l in lines && k in RemoveOne(lines, l) + [Line(l.p1, c), Line(c, l.p2)]
    ensures k in lines || k == Line(l.p1, c) || k == Line(c, l.p2)
  {
    var i := RemoveOneClosesUp(lines, l);
  }

  /** Unless it joins the same points as the line split first, its ends sit where it says. */
  lemma SecondHitIsDrawn(p: Plan, q: Plan, name: Point -> Name, first: Point, toward: Direction, one: Option<Hit>,
                         k: Line)
    requires Fits(p, name) && Called(p, q, name, first, toward, one)
    requires k in q.lines && k.p1 != k.p2
    requires IsSplit(p, name, first, one) ==> !SameEnds(k, one.value.line)
    ensures Drawn(q, name, k)
  {
    if name(first) in p.wires {
    } else if IsSplit(p, name, first, one) {
      SplitSplices(p, name, first, one);
      LinesAfterSplit(p.lines, one.value.line, one.value.point, k);
      if k in p.lines {
        OtherLineDrawn(p, q, name, one.value.line, one.value.point, first, k);
      } else {
        PiecesDrawn(p, q, name, one.value.line, one.value.point, first);
      }
    } else {
      UnsplitFits(p, name, first, one);
    }
  }

  lemma CalledCloses(p: Plan, q: Plan, name: Point -> Name, point: Point, direction: Direction, best: Option<Hit>)
    requires Closed(p, name) && Called(p, q, name, point, direction, best)
    ensures Closed(q, name) && p.wires.Keys <= q.wires.Keys
  {
    AttachedCloses(p, name, point, best);
  }

  lemma SecondKeepsDistances(p: Plan, q: Plan, r: Plan, name: Point -> Name, metric: (Point, Point) -> real,
                             first: Point, toward: Direction, one: Option<Hit>,
                             second: Point, onward: Direction, two: Option<Hit>)
    requires Fits(p, name) && NonNegative(metric) && Straight(metric)
    requires Called(p, q, name, first, toward, one) && Called(q, r, name, second, onward, two)
    requires !SplitsParallel(p, q, name, first, one, second, two)
    ensures SameDistances(NetOf(q, metric), NetOf(r, metric))
  {
    CalledCloses(p, q, name, first, toward, one);
    if name(second) in q.wires {
    } else if IsSplit(q, name, second, two) {
      SecondHitIsDrawn(p, q, name, first, toward, one, two.value.line);
      AttachedKeepsDistances(q, name, metric, second, two);
    } else {
      UnsplitKeepsDistances(q, name, metric, second, two);
    }
  }

  // ---------------------------------------------------------------- lines that join the same points

  /** k is h with another line between the same two vertices split. */
  predicate SplitsAgain(h: Plan, k: Plan, a: Name, b: Name, d: Name, second: Name) {
    && a in h.wires && b in h.wires && a != b && d !in h.wires && second !in h.wires && d != second
    && k.wires == h.wires[a := h.wires[a][b := d]][b := h.wires[b][a := d]]
                         [d := map[a := a, b := b, second := second]][second := map[d := d]]
  }

  /** That is what attaching a vertice to such a line comes to, whoever its ends know by now. */
  lemma AttachedSplitsAgain(h: Plan, name: Point -> Name, point: Point, best: Option<Hit>)
    requires EndsExist(h.wires, name, best) && IsSplit(h, name, point, best)
    requires name(best.value.line.p1) != name(best.value.line.p2)
    ensures SplitsAgain(h, Attached(h, name, point, best), name(best.value.line.p1), name(best.value.line.p2),
                        name(best.value.point), name(point))
  {
    var l := best.value.line;
    SplicedShape(h.wires, name(l.p1), name(l.p2), name(best.value.point), name(point));
  }

  lemma SplitsAgainTurned(h: Plan, k: Plan, a: Name, b: Name, d: Name, second: Name)
    requires SplitsAgain(h, k, a, b, d, second)
    ensures SplitsAgain(h, k, b, a, d, second)
  {
    assert map[a := a, b := b, second := second] == map[b := b, a := a, second := second];
  }

  /** Whichever way the second line runs, it splits between the ends of the first. */
  lemma ParallelSplitsAgain(p: Plan, q: Plan, r: Plan, name: Point -> Name, first: Point, toward: Direction,
                            one: Option<Hit>, second: Point, onward: Direction, two: Option<Hit>)
    requires Fits(p, name) && Called(p, q, name, first, toward, one) && Called(q, r, name, second, onward, two)
    requires SplitsParallel(p, q, name, first, one, second, two)
    ensures Splices(p, q, name, one.value.line, one.value.point, first)
    ensures SplitsAgain(q, r, name(one.value.line.p1), name(one.value.line.p2), name(two.value.point), name(second))
  {
    SplitSplices(p, name, first, one);
    AttachedSplitsAgain(q, name, second, two);
    if two.value.line.p1 != one.value.line.p1 {
      SplitsAgainTurned(q, r, name(two.value.line.p1), name(two.value.line.p2), name(two.value.point), name(second));
    }
  }

  /** What a vertice knows after both splits. */
  lemma KnownAfterBoth(p: Plan, h: Plan, k: Plan, name: Point -> Name, l: Line, c: Point, first: Point,
                       d: Name, second: Name, x: Name, j: Name)
    requires Splices(p, h, name, l, c, first) && SplitsAgain(h, k, name(l.p1), name(l.p2), d, second)
    requires x in k.wires && j in k.wires[x]
    ensures var a, b, m, v, n := name(l.p1), name(l.p2), name(c), name(first), k.wires[x][j];
            && (x in p.wires ==> n == d || (j in p.wires[x] && n == p.wires[x][j]))
            && (x !in p.wires ==>
                  (x == m && n in {a, b, v}) || (x == v && n == m)
                  || (x == d && n in {a, b, second}) || (x == second && n == d))
  {}

  /** After the second of two lines between the same points has been split as well, only the middle of
      the first and the vertice attached there know each other; no old vertice knows either. */
  lemma ParallelLineHidesTheMiddle(p: Plan, h: Plan, k: Plan, name: Point -> Name, l: Line, c: Point, first: Point,
                                   d: Name, second: Name, x: Name, n: Name)
    requires Closed(p, name) && Splices(p, h, name, l, c, first)
    requires SplitsAgain(h, k, name(l.p1), name(l.p2), d, second)
    requires x in k.wires && n in k.wires[x].Values && (n == name(c) || n == name(first))
    ensures x == if n == name(c) then name(first) else name(c)
  {
    var j :| j in k.wires[x] && k.wires[x][j] == n;
    assert x in p.wires ==> Filed(p, name, x);
    KnownAfterBoth(p, h, k, name, l, c, first, d, second, x, j);
  }

  /** Two vertices that nobody else knows are reached from nowhere else. */
  lemma {:induction false} CutOff(g: Net, m: Name, v: Name, x: Name, y: Name, w: seq<Name>)
    requires forall z, n :: z in g.next && n in g.next[z] && (n == m || n == v) ==> z == m || z == v
    requires IsWalk(g, x, y, w) && (y == m || y == v)
    ensures x == m || x == v
    decreases |w|
  {
    if |w| > 1 {
      assert IsWalk(g, w[1], y, w[1..]) && w[1] in g.next[x];
      CutOff(g, m, v, w[1], y, w[1..]);
    }
  }

  /** When both calls split lines between the same points, the vertice attached first and the closest point it was
      joined to are reached from nowhere else any more, though both ends of the line had that point for a neighbour. */
  lemma ParallelLineCutsOff(p: Plan, q: Plan, r: Plan, name: Point -> Name, metric: (Point, Point) -> real,
                            first: Point, toward: Direction, one: Option<Hit>,
                            second: Point, onward: Direction, two: Option<Hit>, x: Name, y: Name, w: seq<Name>)
    requires Fits(p, name) && Called(p, q, name, first, toward, one) && Called(q, r, name, second, onward, two)
    requires SplitsParallel(p, q, name, first, one, second, two)
    requires y == name(one.value.point) || y == name(first)
    requires IsWalk(NetOf(r, metric), x, y, w)
    ensures x == name(one.value.point) || x == name(first)
  {
    ParallelSplitsAgain(p, q, r, name, first, toward, one, second, onward, two);
    var l, c, g := one.value.line, one.value.point, NetOf(r, metric);
    forall z, n | z in g.next && n in g.next[z] && (n == name(c) || n == name(first))
      ensures z == name(c) || z == name(first)
    {
      ParallelLineHidesTheMiddle(p, q, r, name, l, c, first, name(two.value.point), name(second), z, n);
    }
    CutOff(g, name(c), name(first), x, y, w);
  }

  lemma WalkOfFive(g: Net, a: Name, b: Name, c: Name, d: Name, e: Name)
    requires Valid(g) && {a, b, c, d, e} <= g.next.Keys
    requires b in g.next[a] && c in g.next[b] && d in g.next[c] && e in g.next[d]
    ensures IsWalk(g, a, e, [a, b, c, d, e])
  {}

  /** The other way round one still gets there: over both closest points and an end of the line. */
  lemma ParallelLineLeadsOn(p: Plan, q: Plan, r: Plan, name: Point -> Name, metric: (Point, Point) -> real,
                            first: Point, toward: Direction, one: Option<Hit>,
                            second: Point, onward: Direction, two: Option<Hit>)
    requires Fits(p, name) && NonNegative(metric)
    requires Called(p, q, name, first, toward, one) && Called(q, r, name, second, onward, two)
    requires SplitsParallel(p, q, name, first, one, second, two)
    ensures IsWalk(NetOf(r, metric), name(first), name(second),
                   [name(first), name(one.value.point), name(one.value.line.p1), name(two.value.point), name(second)])
  {
    ParallelSplitsAgain(p, q, r, name, first, toward, one, second, onward, two);
    CalledCloses(p, q, name, first, toward, one);
    CalledCloses(q, r, name, second, onward, two);
    ClosedIsValid(r, name, metric);
    var l, c, d := one.value.line, one.value.point, two.value.point;
    SplicedKnows(p, q, name, l, c, first);
    SplitAgainKnows(q, r, name(l.p1), name(l.p2), name(d), name(second));
    WalkOfFive(NetOf(r, metric), name(first), name(c), name(l.p1), name(d), name(second));
  }

  lemma SplicedKnows(p: Plan, h: Plan, name: Point -> Name, l: Line, c: Point, first: Point)
    requires Splices(p, h, name, l, c, first)
    ensures {name(l.p1), name(c), name(first)} <= h.wires.Keys && name(l.p1) !in {name(c), name(first)}
    ensures name(l.p2) !in {name(c), name(first)}
    ensures name(c) in h.wires[name(first)].Values && name(l.p1) in h.wires[name(c)].Values
  {
    SplicedNeighbors(p, h, name, l, c, first);
  }

  lemma SplitAgainKnows(h: Plan, k: Plan, a: Name, b: Name, d: Name, second: Name)
    requires SplitsAgain(h, k, a, b, d, second)
    ensures {a, b, d, second} <= k.wires.Keys && d in k.wires[a].Values && second in k.wires[d].Values
    ensures forall n :: n in h.wires && n != a && n != b ==> n in k.wires && k.wires[n] == h.wires[n]
  {
    assert k.wires[a][b] == d;
    assert k.wires[d][second] == second;
  }

  lemma ParallelLosesADistance(p: Plan, q: Plan, r: Plan, name: Point -> Name, metric: (Point, Point) -> real,
                               first: Point, toward: Direction, one: Option<Hit>,
                               second: Point, onward: Direction, two: Option<Hit>)
    requires Fits(p, name) && NonNegative(metric)
    requires Called(p, q, name, first, toward, one) && Called(q, r, name, second, onward, two)
    requires SplitsParallel(p, q, name, first, one, second, two)
    ensures !SameDistances(NetOf(q, metric), NetOf(r, metric))
  {
    var l, c, g, h := one.value.line, one.value.point, NetOf(q, metric), NetOf(r, metric);
    var a, m := name(l.p1), name(c);
    SplitSplices(p, name, first, one);
    SplicedNeighbors(p, q, name, l, c, first);
    CalledCloses(p, q, name, first, toward, one);
    ClosedIsValid(q, name, metric);
    StayWithin(g, m, 0.0);
    StepThen(g, a, m, m, 0.0);
    if Within(h, a, m, Step(g, a, m)) {
      var w, y :| Walks(h, a, m, w, y) && y <= Step(g, a, m);
      ParallelLineCutsOff(p, q, r, name, metric, first, toward, one, second, onward, two, a, m, w);
    }
  }

  /** A second call keeps all the distances of the first, exactly unless it splits a line that joins the same
      points as the line the first call split. */
  lemma SecondCallExactly(p: Plan, q: Plan, r: Plan, name: Point -> Name, metric: (Point, Point) -> real,
                          first: Point, toward: Direction, one: Option<Hit>,
                          second: Point, onward: Direction, two: Option<Hit>)
    requires Fits(p, name) && NonNegative(metric) && Straight(metric)
    requires Called(p, q, name, first, toward, one) && Called(q, r, name, second, onward, two)
    ensures SameDistances(NetOf(q, metric), NetOf(r, metric)) <==> !SplitsParallel(p, q, name, first, one, second, two)
  {
    if SplitsParallel(p, q, name, first, one, second, two) {
      ParallelLosesADistance(p, q, r, name, metric, first, toward, one, second, onward, two);
    } else {
      SecondKeepsDistances(p, q, r, name, metric, first, toward, one, second, onward, two);
    }
  }

  // ---------------------------------------------------------------- between the ends of the lines

  /** The plan with the second of the two lines split alone. */
  function SecondAlone(p: Plan, name: Point -> Name, l: Line, d: Point, second: Point): Plan
    requires name(l.p1) in p.wires && name(l.p2) in p.wires
  {
    var a, b, n, v := name(l.p1), name(l.p2), name(d), name(second);
    Plan(p.wires[a := p.wires[a][b := n]][b := p.wires[b][a := n]][n := map[a := a, b := b, v := v]][v := map[n := n]],
         p.at[v := second][n := d], RemoveOne(p.lines, l) + [Line(l.p1, d), Line(d, l.p2)])
  }

  /** The second split undoes what the first did to the ends of the line. */
  lemma EndsAfterBoth(p: Plan, h: Plan, k: Plan, name: Point -> Name, l: Line, c: Point, first: Point,
                      d: Point, second: Point, x: Name)
    requires Splices(p, h, name, l, c, first)
    requires SplitsAgain(h, k, name(l.p1), name(l.p2), name(d), name(second))
    requires x in SecondAlone(p, name, l, d, second).wires
    ensures x in k.wires && k.wires[x] == SecondAlone(p, name, l, d, second).wires[x]
  {
    var a, b, m, n := name(l.p1), name(l.p2), name(c), name(d);
    assert p.wires[a][b := m][b := n] == p.wires[a][b := n];
    assert p.wires[b][a := m][a := n] == p.wires[b][a := n];
  }

  lemma AlongTurned(l: Line, k: Line, t: real)
    requires k.p1 == l.p2 && k.p2 == l.p1
    ensures Along(k, t) == Along(l, 1.0 - t)
  {}

  /** The closest point is on the other line between the same points as well. */
  lemma OnBothLines(l: Line, k: Line, c: Point, t: real) returns (u: real)
    requires SameEnds(k, l) && 0.0 <= t <= 1.0 && c == Along(k, t)
    ensures 0.0 <= u <= 1.0 && c == Along(l, u)
  {
    if k == l {
      u := t;
    } else {
      AlongTurned(l, k, t);
      u := 1.0 - t;
    }
  }

  lemma SecondPointOnFirstLine(q: Plan, name: Point -> Name, second: Point, onward: Direction, two: Option<Hit>,
                               l: Line)
    requires two.Some? && IsClosest(q.lines, second, onward, two) && SameEnds(two.value.line, l)
    ensures exists t :: 0.0 <= t <= 1.0 && two.value.point == Along(l, t)
  {
    var k := two.value.line;
    ProperLine(k);
    ClosestIsAlong(k, second);
    var u := OnBothLines(l, k, two.value.point, Clamp(Foot(k, second)));
  }

  lemma SplitAtPlaces(q: Plan, name: Point -> Name, point: Point, best: Option<Hit>)
    requires EndsExist(q.wires, name, best) && IsSplit(q, name, point, best)
    ensures Attached(q, name, point, best).at == q.at[name(point) := point][name(best.value.point) := best.value.point]
  {}

  lemma PlacesAfterBoth(at: map<Name, Point>, m: Name, c: Point, v: Name, first: Point,
                        n: Name, d: Point, u: Name, second: Point, x: Name)
    requires m !in at && v !in at && {m, v} !! {n, u}
    requires x in at[u := second][n := d]
    ensures at[v := first][m := c][u := second][n := d][x] == at[u := second][n := d][x]
  {}

  lemma AlonePlaces(p: Plan, q: Plan, r: Plan, name: Point -> Name, l: Line, c: Point, first: Point, d: Point,
                    second: Point, x: Name)
    requires Splices(p, q, name, l, c, first) && SplitsAgain(q, r, name(l.p1), name(l.p2), name(d), name(second))
    requires r.at == q.at[name(second) := second][name(d) := d]
    requires x in SecondAlone(p, name, l, d, second).at
    ensures x in r.at && r.at[x] == SecondAlone(p, name, l, d, second).at[x]
  {
    assert {name(c), name(first)} <= q.wires.Keys;
    PlacesAfterBoth(p.at, name(c), c, name(first), first, name(d), d, name(second), second, x);
  }

  lemma SamePart(k: Plan, r: Plan, metric: (Point, Point) -> real)
    requires Valid(NetOf(k, metric)) && Valid(NetOf(r, metric)) && k.wires.Keys == k.at.Keys
    requires forall x :: x in k.wires ==> x in r.wires && r.wires[x] == k.wires[x]
    requires forall x :: x in k.at ==> x in r.at && r.at[x] == k.at[x]
    ensures PartOf(NetOf(k, metric), NetOf(r, metric))
  {}

  lemma AloneIsPart(p: Plan, q: Plan, r: Plan, k: Plan, name: Point -> Name, metric: (Point, Point) -> real,
                    l: Line, c: Point, first: Point, d: Point, second: Point)
    requires Valid(NetOf(k, metric)) && Valid(NetOf(r, metric)) && k.wires.Keys == k.at.Keys
    requires Splices(p, q, name, l, c, first) && SplitsAgain(q, r, name(l.p1), name(l.p2), name(d), name(second))
    requires k == SecondAlone(p, name, l, d, second)
    requires r.at == q.at[name(second) := second][name(d) := d]
    ensures PartOf(NetOf(k, metric), NetOf(r, metric))
  {
    forall x | x in k.wires ensures x in r.wires && r.wires[x] == k.wires[x] {
      EndsAfterBoth(p, q, r, name, l, c, first, d, second, x);
    }
    forall x | x in k.at ensures x in r.at && r.at[x] == k.at[x] {
      AlonePlaces(p, q, r, name, l, c, first, d, second, x);
    }
    SamePart(k, r, metric);
  }

  lemma BothParallel(p: Plan, q: Plan, r: Plan, name: Point -> Name, metric: (Point, Point) -> real,
                     first: Point, toward: Direction, one: Option<Hit>,
                     second: Point, onward: Direction, two: Option<Hit>)
    requires Fits(p, name) && NonNegative(metric) && Straight(metric)
    requires Called(p, q, name, first, toward, one) && Called(q, r, name, second, onward, two)
    requires SplitsParallel(p, q, name, first, one, second, two)
    ensures SameDistances(NetOf(p, metric), NetOf(r, metric))
  {
    var l, c, d := one.value.line, one.value.point, two.value.point;
    var k := SecondAlone(p, name, l, d, second);
    ParallelSplitsAgain(p, q, r, name, first, toward, one, second, onward, two);
    SecondPointOnFirstLine(q, name, second, onward, two, l);
    CalledCloses(p, q, name, first, toward, one);
    CalledCloses(q, r, name, second, onward, two);
    SplitAtPlaces(q, name, second, two);
    assert Splices(p, k, name, l, d, second);
    SpliceCloses(p, k, name, l, d, second);
    ClosedIsValid(k, name, metric);
    ClosedIsValid(r, name, metric);
    AloneIsPart(p, q, r, k, name, metric, l, c, first, d, second);
    PartKeepsDistances(NetOf(k, metric), NetOf(r, metric));
    SplicedLineSplits(p, k, name, metric, l, d, second);
    SplitKeepsDistances(NetOf(p, metric), NetOf(k, metric), name(l.p1), name(l.p2), name(d), name(second));
    SameDistancesTwice(NetOf(p, metric), NetOf(k, metric), NetOf(r, metric));
  }

  lemma FirstKeepsDistances(p: Plan, q: Plan, name: Point -> Name, metric: (Point, Point) -> real,
                            first: Point, toward: Direction, one: Option<Hit>)
    requires Fits(p, name) && NonNegative(metric) && Straight(metric) && Called(p, q, name, first, toward, one)
    ensures SameDistances(NetOf(p, metric), NetOf(q, metric))
  {
    if name(first) !in p.wires {
      AttachedKeepsDistances(p, name, metric, first, one);
    }
  }

  /** Between the ends of the lines themselves both calls together change no distance, whatever lines they split. */
  lemma BothKeepDistances(p: Plan, q: Plan, r: Plan, name: Point -> Name, metric: (Point, Point) -> real,
                          from: Point, direction: Direction, to: Point, originFirst: bool)
    requires Fits(p, name) && NonNegative(metric) && Straight(metric)
    requires BothAttached(p, q, r, name, from, direction, to, originFirst)
    ensures SameDistances(NetOf(p, metric), NetOf(r, metric))
  {
    var first, toward := if originFirst then from else to, if originFirst then direction else NoDirection;
    var second, onward := if originFirst then to else from, if originFirst then NoDirection else direction;
    var one :| Called(p, q, name, first, toward, one);
    var two :| Called(q, r, name, second, onward, two);
    CallsKeepDistances(p, q, r, name, metric, first, toward, one, second, onward, two);
  }

  lemma CallsKeepDistances(p: Plan, q: Plan, r: Plan, name: Point -> Name, metric: (Point, Point) -> real,
                           first: Point, toward: Direction, one: Option<Hit>,
                           second: Point, onward: Direction, two: Option<Hit>)
    requires Fits(p, name) && NonNegative(metric) && Straight(metric)
    requires Called(p, q, name, first, toward, one) && Called(q, r, name, second, onward, two)
    ensures SameDistances(NetOf(p, metric), NetOf(r, metric))
  {
    if SplitsParallel(p, q, name, first, one, second, two) {
      BothParallel(p, q, r, name, metric, first, toward, one, second, onward, two);
    } else {
      FirstKeepsDistances(p, q, name, metric, first, toward, one);
      SecondKeepsDistances(p, q, r, name, metric, first, toward, one, second, onward, two);
      CalledCloses(p, q, name, first, toward, one);
      SameDistancesTwice(NetOf(p, metric), NetOf(q, metric), NetOf(r, metric));
    }
  }

  // ---------------------------------------------------------------- from one new vertice to the other

  function CutOf(name: Point -> Name, point: Point, best: Option<Hit>): Cut
    requires best.Some?
  {
    Cut(name(best.value.line.p1), name(best.value.line.p2), name(best.value.point), name(point))
  }

  lemma EndsAmongOld(known: set<Name>, name: Point -> Name, l: Line, c: Point, k: Line)
    requires name(l.p1) in known && name(l.p2) in known
    requires k == Line(l.p1, c) || k == Line(c, l.p2)
    ensures name(k.p1) in known || name(k.p1) == name(c)
    ensures name(k.p2) in known || name(k.p2) == name(c)
  {}

  lemma SecondOverOldEnds(p: Plan, q: Plan, name: Point -> Name, metric: (Point, Point) -> real,
                          first: Point, toward: Direction, one: Option<Hit>, second: Point, two: Option<Hit>)
    requires Fits(p, name) && Called(p, q, name, first, toward, one) && IsSplit(p, name, first, one)
    requires two.Some? && two.value.line in q.lines && two.value.line.p1 != two.value.line.p2
    ensures OverOldEnds(NetOf(p, metric), CutOf(name, first, one), CutOf(name, second, two))
  {
    SplitSplices(p, name, first, one);
    var l, c, k := one.value.line, one.value.point, two.value.line;
    LinesAfterSplit(p.lines, l, c, k);
    if k in p.lines {
      assert Drawn(p, name, k);
    } else {
      EndsAmongOld(p.wires.Keys, name, l, c, k);
    }
  }

  lemma CalledSplits(p: Plan, q: Plan, name: Point -> Name, metric: (Point, Point) -> real,
                     point: Point, direction: Direction, best: Option<Hit>)
    requires Closed(p, name) && NonNegative(metric) && Straight(metric)
    requires Called(p, q, name, point, direction, best) && IsSplit(p, name, point, best)
             && Drawn(p, name, best.value.line)
    ensures SplitBy(NetOf(p, metric), NetOf(q, metric), CutOf(name, point, best))
  {
    SplitSplits(p, name, metric, point, best);
    CutIsThere(NetOf(p, metric), NetOf(q, metric), CutOf(name, point, best));
  }

  lemma CutIsThere(g: Net, h: Net, c: Cut)
    requires Split(g, h, c.a, c.b, c.foot, c.spur)
    ensures SplitBy(g, h, c)
  {}

  /** When both calls split lines, and not between the same points, the ways between the two new vertices are told by
      the lines alone: over either closest point, and between the ends of the two lines through the original network. */
  lemma ThroughBothFeet(p: Plan, q: Plan, r: Plan, name: Point -> Name, metric: (Point, Point) -> real,
                        first: Point, toward: Direction, one: Option<Hit>,
                        second: Point, onward: Direction, two: Option<Hit>, d: real)
    requires Fits(p, name) && NonNegative(metric) && Straight(metric)
    requires Called(p, q, name, first, toward, one) && Called(q, r, name, second, onward, two)
    requires IsSplit(p, name, first, one) && IsSplit(q, name, second, two) && !SameEnds(two.value.line, one.value.line)
    ensures SplitBy(NetOf(p, metric), NetOf(q, metric), CutOf(name, first, one))
    ensures SplitBy(NetOf(q, metric), NetOf(r, metric), CutOf(name, second, two))
    ensures Within(NetOf(r, metric), name(first), name(second), d) <==>
              ToSecond(NetOf(p, metric), NetOf(q, metric), NetOf(r, metric), CutOf(name, first, one),
                       CutOf(name, second, two), d)
    ensures Within(NetOf(r, metric), name(second), name(first), d) <==>
              ToFirst(NetOf(p, metric), NetOf(q, metric), NetOf(r, metric), CutOf(name, first, one),
                      CutOf(name, second, two), d)
  {
    CalledSplits(p, q, name, metric, first, toward, one);
    CalledCloses(p, q, name, first, toward, one);
    SecondHitIsDrawn(p, q, name, first, toward, one, two.value.line);
    CalledSplits(q, r, name, metric, second, onward, two);
    SecondOverOldEnds(p, q, name, metric, first, toward, one, second, two);
    var g, h, k := NetOf(p, metric), NetOf(q, metric), NetOf(r, metric);
    SpurToSpur(g, h, k, CutOf(name, first, one), CutOf(name, second, two), d);
    SpurBackToSpur(g, h, k, CutOf(name, first, one), CutOf(name, second, two), d);
  }

  /** So the distance from the one attached first to the other is the least of those, and infinite when there are
      none. */
  lemma ShortestThroughBothFeet(p: Plan, q: Plan, r: Plan, name: Point -> Name, metric: (Point, Point) -> real,
                                first: Point, toward: Direction, one: Option<Hit>,
                                second: Point, onward: Direction, two: Option<Hit>, there: Distance, back: Distance)
    requires Fits(p, name) && NonNegative(metric) && Straight(metric)
    requires Called(p, q, name, first, toward, one) && Called(q, r, name, second, onward, two)
    requires IsSplit(p, name, first, one) && IsSplit(q, name, second, two) && !SameEnds(two.value.line, one.value.line)
    requires Shortest(NetOf(r, metric), name(first), name(second), there)
    requires Shortest(NetOf(r, metric), name(second), name(first), back)
    ensures OnMap(NetOf(q, metric), CutOf(name, first, one)) && OnMap(NetOf(r, metric), CutOf(name, second, two))
    ensures forall d :: AtMost(there, Finite(d)) <==>
              ToSecond(NetOf(p, metric), NetOf(q, metric), NetOf(r, metric), CutOf(name, first, one),
                       CutOf(name, second, two), d)
    ensures forall d :: AtMost(back, Finite(d)) <==>
              ToFirst(NetOf(p, metric), NetOf(q, metric), NetOf(r, metric), CutOf(name, first, one),
                      CutOf(name, second, two), d)
  {
    ThroughBothFeet(p, q, r, name, metric, first, toward, one, second, onward, two, 0.0);
    var g, h, k, c, e := NetOf(p, metric), NetOf(q, metric), NetOf(r, metric), CutOf(name, first, one),
        CutOf(name, second, two);
    forall d
      ensures AtMost(there, Finite(d)) <==> ToSecond(g, h, k, c, e, d)
      ensures AtMost(back, Finite(d)) <==> ToFirst(g, h, k, c, e, d)
    {
      ThroughBothFeet(p, q, r, name, metric, first, toward, one, second, onward, two, d);
      WithinIsAtMost(k, name(first), name(second), there, d);
      WithinIsAtMost(k, name(second), name(first), back, d);
    }
  }

  lemma WithinIsAtMost(g: Net, a: Name, b: Name, distance: Distance, d: real)
    requires Shortest(g, a, b, distance)
    ensures Within(g, a, b, d) <==> AtMost(distance, Finite(d))
  {
    ShortestByBounds(g, a, b, distance);
    if distance.Finite? && distance.length <= d { WithinMore(g, a, b, distance.length, d); }
  }
}
