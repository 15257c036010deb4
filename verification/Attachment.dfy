/** What addAdHocVertice() keeps: the fit of lines and vertices, and every distance. */
module Attachment {
  import opened Options
  import opened Network
  import opened NetworkSplit
  import opened Segments
  import opened ClosestLine
  import opened Lists
  import opened Wiring

  /** The hit findClosestPointInLines() comes up with, on a line whose ends are where it says. */
  ghost predicate Hits(p: Plan, name: Point -> Name, point: Point, best: Option<Hit>) {
    && Closed(p, name)
    && (exists direction :: IsClosest(p.lines, point, direction, best))
    && (best.Some? ==> Drawn(p, name, best.value.line))
  }

  lemma HitIsProper(p: Plan, name: Point -> Name, point: Point, best: Option<Hit>)
    requires Hits(p, name, point, best) && best.Some?
    ensures best.value.line in p.lines && best.value.line.p1 != best.value.line.p2
    ensures exists t :: 0.0 <= t <= 1.0 && best.value.point == Along(best.value.line, t)
  {
    var l := best.value.line;
    ProperLine(l);
    ClosestIsAlong(l, point);
  }

  lemma ClosestHits(p: Plan, name: Point -> Name, point: Point, direction: Direction, best: Option<Hit>)
    requires Fits(p, name) && IsClosest(p.lines, point, direction, best)
    ensures Hits(p, name, point, best)
  {}

  lemma ClosestEndsExist(p: Plan, name: Point -> Name, point: Point, direction: Direction, best: Option<Hit>)
    requires Rooted(p, name) && IsClosest(p.lines, point, direction, best)
    ensures EndsExist(p.wires, name, best)
  {}

  /** The line is split when the closest point is none of the vertices yet. */
  predicate IsSplit(p: Plan, name: Point -> Name, point: Point, best: Option<Hit>) {
    && name(point) !in p.wires && best.Some? && best.value.point != Point(0.0, 0.0)
    && name(best.value.point) !in p.wires && name(best.value.point) != name(point)
  }

  lemma ClosedIsValid(p: Plan, name: Point -> Name, metric: (Point, Point) -> real)
    requires Closed(p, name) && NonNegative(metric)
    ensures Valid(NetOf(p, metric))
  {
    forall k, n | k in p.wires && n in p.wires[k].Values ensures n in p.wires {
      assert Filed(p, name, k);
      var j :| j in p.wires[k] && p.wires[k][j] == n;
    }
  }

  // ---------------------------------------------------------------- the split

  lemma SplitSplices(p: Plan, name: Point -> Name, point: Point, best: Option<Hit>)
    requires Hits(p, name, point, best) && IsSplit(p, name, point, best)
    ensures Splices(p, Attached(p, name, point, best), name, best.value.line, best.value.point, point)
  {
    HitIsProper(p, name, point, best);
    var l := best.value.line;
    SplicedShape(p.wires, name(l.p1), name(l.p2), name(best.value.point), name(point));
  }

  lemma SplitSplits(p: Plan, name: Point -> Name, metric: (Point, Point) -> real, point: Point, best: Option<Hit>)
    requires Hits(p, name, point, best) && IsSplit(p, name, point, best) && NonNegative(metric) && Straight(metric)
    ensures Split(NetOf(p, metric), NetOf(Attached(p, name, point, best), metric),
                  name(best.value.line.p1), name(best.value.line.p2), name(best.value.point), name(point))
  {
    SplitSplices(p, name, point, best);
    HitIsProper(p, name, point, best);
    SplicedLineSplits(p, Attached(p, name, point, best), name, metric, best.value.line, best.value.point, point);
  }

  lemma SplicedLineSplits(p: Plan, h: Plan, name: Point -> Name, metric: (Point, Point) -> real,
                          l: Line, c: Point, point: Point)
    requires Closed(p, name) && Splices(p, h, name, l, c, point) && NonNegative(metric) && Straight(metric)
    requires exists t :: 0.0 <= t <= 1.0 && c == Along(l, t)
    ensures Split(NetOf(p, metric), NetOf(h, metric), name(l.p1), name(l.p2), name(c), name(point))
  {
    SpliceCloses(p, h, name, l, c, point);
    ClosedIsValid(p, name, metric);
    ClosedIsValid(h, name, metric);
    SpliceSplits(p, h, name, l, c, point, metric);
  }

  // ---------------------------------------------------------------- no split

  lemma AloneKeepsDistances(g: Net, h: Net, v: Name)
    requires Valid(g) && Valid(h) && h.metric == g.metric && v !in g.next && h.next.Keys == g.next.Keys + {v}
    requires forall n :: n in g.next ==> h.at[n] == g.at[n] && h.next[n] == g.next[n]
    requires h.next[v] <= {v}
    ensures SameDistances(g, h)
  {
    if c :| c in g.next {
      BesideKeepsDistances(g, h, v, c);
    }
  }

  /** The attached vertice knows at most one other, which knows it in turn. */
  lemma UnsplitShape(p: Plan, name: Point -> Name, point: Point, best: Option<Hit>)
    requires Closed(p, name) && name(point) !in p.wires && !IsSplit(p, name, point, best)
             && EndsExist(p.wires, name, best)
    ensures var v, h := name(point), Attached(p, name, point, best);
            && h.at == p.at[v := point] && h.lines == p.lines
            && h.wires == if best.None? || best.value.point == Point(0.0, 0.0) then p.wires[v := map[]]
                          else var m := name(best.value.point);
                               if m == v then p.wires[v := map[v := v]]
                               else p.wires[v := map[m := m]][m := p.wires[m][v := v]]
  {
    if best.Some? && best.value.point != Point(0.0, 0.0) && name(best.value.point) != name(point) {
      assert Filed(p, name, name(best.value.point));
    }
  }

  lemma UnsplitKeepsDistances(p: Plan, name: Point -> Name, metric: (Point, Point) -> real, point: Point,
                              best: Option<Hit>)
    requires Closed(p, name) && !IsSplit(p, name, point, best) && NonNegative(metric) && EndsExist(p.wires, name, best)
    ensures SameDistances(NetOf(p, metric), NetOf(Attached(p, name, point, best), metric))
  {
    var v, h := name(point), Attached(p, name, point, best);
    AttachedCloses(p, name, point, best);
    ClosedIsValid(p, name, metric);
    ClosedIsValid(h, name, metric);
    if v !in p.wires {
      UnsplitShape(p, name, point, best);
      if best.None? || best.value.point == Point(0.0, 0.0) || name(best.value.point) == v {
        NewcomerAlone(p, h, metric, v, point);
      } else {
        NewcomerBeside(p, h, metric, v, name(best.value.point), point);
      }
    }
  }

  lemma NewcomerAlone(p: Plan, h: Plan, metric: (Point, Point) -> real, v: Name, point: Point)
    requires p.wires.Keys == p.at.Keys && Valid(NetOf(p, metric)) && Valid(NetOf(h, metric))
    requires v !in p.wires && h.at == p.at[v := point]
    requires h.wires == p.wires[v := map[]] || h.wires == p.wires[v := map[v := v]]
    ensures SameDistances(NetOf(p, metric), NetOf(h, metric))
  {
    assert map[v := v][v] == v;
    AloneKeepsDistances(NetOf(p, metric), NetOf(h, metric), v);
  }

  lemma NewcomerBeside(p: Plan, h: Plan, metric: (Point, Point) -> real, v: Name, m: Name, point: Point)
    requires p.wires.Keys == p.at.Keys && Valid(NetOf(p, metric)) && Valid(NetOf(h, metric))
    requires v !in p.wires && m in p.wires && v !in p.wires[m] && h.at == p.at[v := point]
    requires h.wires == p.wires[v := map[m := m]][m := p.wires[m][v := v]]
    ensures SameDistances(NetOf(p, metric), NetOf(h, metric))
  {
    assert map[m := m][m] == m;
    JoinedValues(p.wires[m], v);
    BesideKeepsDistances(NetOf(p, metric), NetOf(h, metric), v, m);
  }

  lemma JoinedValues(known: map<Name, Name>, v: Name)
    requires v !in known
    ensures known[v := v].Values == known.Values + {v}
  {
    var after := known[v := v];
    assert after[v] == v;
    forall n | n in known.Values ensures n in after.Values {
      var j :| j in known && known[j] == n;
      assert after[j] == n;
    }
  }

  lemma UnsplitKnows(w: Wires, u: Wires, v: Name, m: Name, a: Name, b: Name)
    requires Knows(w, a, b) && v !in w && b != v && m in w
    requires u == w[v := map[m := m]][m := w[m][v := v]] && v !in w[m]
    ensures Knows(u, a, b)
  {
    JoinedValues(w[m], v);
  }

  lemma UnsplitDrawn(p: Plan, name: Point -> Name, point: Point, best: Option<Hit>, k: Line)
    requires Closed(p, name) && name(point) !in p.wires && !IsSplit(p, name, point, best) && Drawn(p, name, k)
    requires EndsExist(p.wires, name, best)
    ensures Drawn(Attached(p, name, point, best), name, k)
  {
    UnsplitShape(p, name, point, best);
    var v, h := name(point), Attached(p, name, point, best);
    if best.Some? && best.value.point != Point(0.0, 0.0) && name(best.value.point) != v {
      var m := name(best.value.point);
      assert Filed(p, name, m);
      UnsplitKnows(p.wires, h.wires, v, m, name(k.p1), name(k.p2));
      UnsplitKnows(p.wires, h.wires, v, m, name(k.p2), name(k.p1));
    }
  }

  lemma UnsplitFits(p: Plan, name: Point -> Name, point: Point, best: Option<Hit>)
    requires Fits(p, name) && !IsSplit(p, name, point, best) && EndsExist(p.wires, name, best)
    ensures Fits(Attached(p, name, point, best), name)
  {
    AttachedCloses(p, name, point, best);
    if name(point) !in p.wires {
      UnsplitLines(p, name, point, best);
      forall k | k in p.lines && k.p1 != k.p2 ensures Drawn(Attached(p, name, point, best), name, k) {
        UnsplitDrawn(p, name, point, best, k);
      }
    }
  }

  lemma UnsplitLines(p: Plan, name: Point -> Name, point: Point, best: Option<Hit>)
    requires !IsSplit(p, name, point, best) && EndsExist(p.wires, name, best)
    ensures Attached(p, name, point, best).lines == p.lines
  {}

  // ---------------------------------------------------------------- the main results

  /** Attaching a vertice leaves a tree that fits its lines, unless two of them join the same points. */
  lemma AttachedFits(p: Plan, name: Point -> Name, point: Point, best: Option<Hit>)
    requires Fits(p, name) && Hits(p, name, point, best) && Apart(p.lines)
    ensures Fits(Attached(p, name, point, best), name) && Apart(Attached(p, name, point, best).lines)
  {
    if best.Some? { HitIsProper(p, name, point, best); }
    if IsSplit(p, name, point, best) {
      SplitSplices(p, name, point, best);
      SpliceFits(p, Attached(p, name, point, best), name, best.value.line, best.value.point, point);
    } else {
      UnsplitFits(p, name, point, best);
      UnsplitLines(p, name, point, best);
    }
  }

  /** Attaching a vertice changes no distance between the vertices that were there before. */
  lemma AttachedKeepsDistances(p: Plan, name: Point -> Name, metric: (Point, Point) -> real, point: Point,
                               best: Option<Hit>)
    requires Hits(p, name, point, best) && NonNegative(metric) && Straight(metric)
    ensures SameDistances(NetOf(p, metric), NetOf(Attached(p, name, point, best), metric))
  {
    if IsSplit(p, name, point, best) {
      var l := best.value.line;
      SplitSplits(p, name, metric, point, best);
      SplitKeepsDistances(NetOf(p, metric), NetOf(Attached(p, name, point, best), metric),
                          name(l.p1), name(l.p2), name(best.value.point), name(point));
    } else {
      UnsplitKeepsDistances(p, name, metric, point, best);
    }
  }

  // ---------------------------------------------------------------- setOrigin() and setDestination()

  /** q is p once a vertice at the point has been looked up, or attached where the closest hit is. */
  ghost predicate Called(p: Plan, q: Plan, name: Point -> Name, point: Point, direction: Direction, best: Option<Hit>) {
    && EndsExist(p.wires, name, best) && q == Attached(p, name, point, best)
    && (name(point) in p.wires || IsClosest(p.lines, point, direction, best))
  }

  ghost predicate Attaches(p: Plan, q: Plan, name: Point -> Name, point: Point, direction: Direction) {
    exists best :: Called(p, q, name, point, direction, best)
  }

  /** The same on any tree, when vertices of the point's kind go first. */
  ghost predicate Tries(p: Plan, q: Plan, gone: set<Name>, name: Point -> Name, point: Point, direction: Direction,
                        best: Option<Hit>) {
    q == Tried(p, gone, name, point, best) && (name(point) in p.wires || IsClosest(p.lines, point, direction, best))
  }

  /** The call ends in an exception. */
  predicate Refused(p: Plan, gone: set<Name>, name: Point -> Name, point: Point, best: Option<Hit>) {
    name(point) !in p.wires && Fails(Placed(Dropped(p, gone), name(point), point).wires, name, best)
  }

  /** With nothing to drop, and the ends of all lines there, no call is refused. */
  lemma TriesAttaches(p: Plan, q: Plan, name: Point -> Name, point: Point, direction: Direction, best: Option<Hit>)
    requires Rooted(p, name) && Tries(p, q, {}, name, point, direction, best)
    ensures Attaches(p, q, name, point, direction) && !Refused(p, {}, name, point, best)
  {
    if name(point) in p.wires {
      AlreadyThere(p, name, point, direction);
    } else {
      ClosestEndsExist(p, name, point, direction, best);
      TriedIsAttached(p, name, point, best);
      AttachesThus(p, name, point, direction, best);
    }
  }

  /** No call for the point is refused. */
  ghost predicate Accepts(p: Plan, name: Point -> Name, point: Point, direction: Direction) {
    forall q, best :: Tries(p, q, {}, name, point, direction, best) ==>
      Attaches(p, q, name, point, direction) && !Refused(p, {}, name, point, best)
  }

  lemma NeverRefused(p: Plan, name: Point -> Name, point: Point, direction: Direction)
    requires Rooted(p, name)
    ensures Accepts(p, name, point, direction)
  {
    forall q, best | Tries(p, q, {}, name, point, direction, best)
      ensures Attaches(p, q, name, point, direction) && !Refused(p, {}, name, point, best)
    {
      TriesAttaches(p, q, name, point, direction, best);
    }
  }

  /** Both calls, in either order. */
  ghost predicate BothAttached(p: Plan, q: Plan, r: Plan, name: Point -> Name,
                               from: Point, direction: Direction, to: Point, originFirst: bool) {
    if originFirst then Attaches(p, q, name, from, direction) && Attaches(q, r, name, to, NoDirection)
    else Attaches(p, q, name, to, NoDirection) && Attaches(q, r, name, from, direction)
  }

  lemma AlreadyThere(p: Plan, name: Point -> Name, point: Point, direction: Direction)
    requires name(point) in p.wires
    ensures Attaches(p, p, name, point, direction)
  {
    assert Called(p, p, name, point, direction, None);
  }

  lemma AttachesThus(p: Plan, name: Point -> Name, point: Point, direction: Direction, best: Option<Hit>)
    requires EndsExist(p.wires, name, best) && IsClosest(p.lines, point, direction, best)
    ensures Attaches(p, Attached(p, name, point, best), name, point, direction)
  {
    assert Called(p, Attached(p, name, point, best), name, point, direction, best);
  }

  /** No call meets a line whose vertices are missing, whatever was called before. */
  lemma AttachesStaysRooted(p: Plan, q: Plan, name: Point -> Name, point: Point, direction: Direction)
    requires Rooted(p, name) && Attaches(p, q, name, point, direction)
    ensures Rooted(q, name) && p.wires.Keys <= q.wires.Keys && name(point) in q.wires
  {
    var best :| Called(p, q, name, point, direction, best);
    if name(point) !in p.wires {
      AttachedStaysRooted(p, name, point, best);
    }
  }

  lemma AttachesAccepts(p: Plan, q: Plan, name: Point -> Name, first: Point, second: Point, direction: Direction)
    requires Rooted(p, name) && Attaches(p, q, name, first, direction)
    ensures Accepts(q, name, second, direction)
  {
    AttachesStaysRooted(p, q, name, first, direction);
    NeverRefused(q, name, second, direction);
  }

  /** Calling setOrigin() or setDestination() changes no distance between the vertices that were there. */
  lemma AttachesKeepsDistances(p: Plan, q: Plan, name: Point -> Name, metric: (Point, Point) -> real,
                               point: Point, direction: Direction, best: Option<Hit>)
    requires Closed(p, name) && Called(p, q, name, point, direction, best) && NonNegative(metric) && Straight(metric)
    requires name(point) !in p.wires && best.Some? ==> Drawn(p, name, best.value.line)
    ensures SameDistances(NetOf(p, metric), NetOf(q, metric))
  {
    if name(point) !in p.wires {
      AttachedKeepsDistances(p, name, metric, point, best);
    }
  }

  /** On any tree: the new vertice knows just the vertice of the closest point, if it is joined at all, and that point
      lies in the preferred direction. A vertice that is new there sits at that very point. */
  lemma JoinedTowards(p: Plan, q: Plan, gone: set<Name>, name: Point -> Name, point: Point, direction: Direction,
                      best: Option<Hit>)
    requires Tries(p, q, gone, name, point, direction, best) && name(point) !in p.wires
    ensures name(point) in q.wires && name(point) in q.at
    ensures q.wires[name(point)].Values ==
            if best.None? || best.value.point == Point(0.0, 0.0) || Refused(p, gone, name, point, best) then {}
            else {name(best.value.point)}
    ensures best.Some? && direction == Up ==> best.value.point.y < point.y
    ensures best.Some? && direction == Down ==> best.value.point.y > point.y
    ensures best.Some? && direction == ToLeft ==> best.value.point.x < point.x
    ensures best.Some? && direction == ToRight ==> best.value.point.x > point.x
    ensures best.Some? && name(best.value.point) in q.at && name(best.value.point) !in p.at ==>
              q.at[name(best.value.point)] == if name(best.value.point) == name(point) then point else best.value.point
  {
    var v, h := name(point), Placed(Dropped(p, gone), name(point), point);
    HitLiesThere(p.lines, point, direction, best);
    if best.Some? && best.value.point != Point(0.0, 0.0) && !Fails(h.wires, name, best) {
      var m := name(best.value.point);
      assert q == JoinedToClosest(h, name, v, best);
      if m in h.wires { JoinedOnce(h.wires, v, m); } else { SplicedOnce(h.wires, name, v, best.value); }
    }
  }

  lemma JoinedOnce(w: Wires, v: Name, m: Name)
    requires v in w && m in w && w[v] == map[]
    ensures Joined(Joined(w, v, m), m, v)[v].Values == {m}
  {
    assert Joined(w, v, m)[v] == map[m := m];
    assert map[m := m][m] == m;
  }

  lemma SplicedOnce(w: Wires, name: Point -> Name, v: Name, hit: Hit)
    requires v in w && w[v] == map[] && EndsExist(w, name, Some(hit)) && name(hit.point) !in w
    ensures var m := name(hit.point);
            Spliced(w[m := map[]], name(hit.line.p1), name(hit.line.p2), m, v)[v].Values == {m}
  {
    var m := name(hit.point);
    var after := Spliced(w[m := map[]], name(hit.line.p1), name(hit.line.p2), m, v);
    assert m in after[v] && after[v][m] == m;
    assert forall j :: j in after[v] ==> after[v][j] == m;
  }

  /** The new vertice comes to know another one exactly when there is a closest point other than
      (0, 0) that does not go by the new vertice's own name. */
  lemma NewcomerConnects(p: Plan, name: Point -> Name, metric: (Point, Point) -> real, point: Point, best: Option<Hit>)
    requires Hits(p, name, point, best) && name(point) !in p.wires
    ensures var v, h := name(point), NetOf(Attached(p, name, point, best), metric);
            v in h.next && ((exists n :: n in h.next[v] && n != v)
              <==> best.Some? && best.value.point != Point(0.0, 0.0) && name(best.value.point) != v)
  {
    var v := name(point);
    if IsSplit(p, name, point, best) {
      SplitSplices(p, name, point, best);
      SplicedNeighbors(p, Attached(p, name, point, best), name, best.value.line, best.value.point, point);
    } else {
      UnsplitShape(p, name, point, best);
      if best.Some? && best.value.point != Point(0.0, 0.0) {
        var m := name(best.value.point);
        assert map[m := m][m] == m;
      }
    }
  }

  /** A newcomer whose closest point goes by its own name, as when it lies on the network without being a
      vertice of it, is left on its own: it knows nobody else and nobody else knows it. */
  lemma PointOnALineIsLeftAlone(p: Plan, name: Point -> Name, metric: (Point, Point) -> real, point: Point,
                                best: Option<Hit>)
    requires Hits(p, name, point, best) && name(point) !in p.wires && best.Some?
             && name(best.value.point) == name(point)
    ensures var v, h := name(point), NetOf(Attached(p, name, point, best), metric);
            h.next[v] <= {v} && forall n :: n in h.next && v in h.next[n] ==> n == v
  {
    NewcomerConnects(p, name, metric, point, best);
    UnsplitShape(p, name, point, best);
    NobodyKnows(p, name, name(point));
  }

  lemma NobodyKnows(p: Plan, name: Point -> Name, v: Name)
    requires Closed(p, name) && v !in p.wires
    ensures forall n :: n in p.wires ==> v !in p.wires[n].Values
  {
    forall n | n in p.wires ensures v !in p.wires[n].Values {
      assert Filed(p, name, n);
    }
  }
}
