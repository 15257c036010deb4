/** Which vertice is filed under which name among another's neighbours, and what attaching an ad-hoc
    vertice does to that. */
module Wiring {
  import opened Options
  import opened Network
  import opened NetworkSplit
  import opened Segments
  import opened ClosestLine
  import opened Lists

  type Wires = map<Name, map<Name, Name>>

  /** A tree: its neighbour maps, where its vertices are, and the lines it was built from. */
  datatype Plan = Plan(wires: Wires, at: map<Name, Point>, lines: seq<Line>)

  function NetOf(p: Plan, metric: (Point, Point) -> real): Net {
    Net(map k | k in p.wires :: p.wires[k].Values, p.at, metric)
  }

  /** The part of it that is left when vertices have been dropped: neighbours that still are vertices of the tree. */
  function LiveNet(p: Plan, metric: (Point, Point) -> real): Net {
    Net(map k | k in p.wires :: p.wires[k].Values * p.wires.Keys, p.at, metric)
  }

  // ---------------------------------------------------------------- plans that fit their lines

  /** Vertices are filed under their names and know only each other. */
  predicate Closed(p: Plan, name: Point -> Name) {
    p.wires.Keys == p.at.Keys && forall k :: k in p.at ==> Filed(p, name, k)
  }

  predicate Filed(p: Plan, name: Point -> Name, k: Name) {
    && k in p.at && k in p.wires && name(p.at[k]) == k
    && forall j :: j in p.wires[k] ==> j in p.at && p.wires[k][j] in p.at
  }

  /** The vertices at the ends of every line exist, whatever point they sit at. */
  predicate Rooted(p: Plan, name: Point -> Name) {
    Closed(p, name) && forall l :: l in p.lines && l.p1 != l.p2 ==> name(l.p1) in p.wires && name(l.p2) in p.wires
  }

  /** a knows b, and has nothing else filed under b's name. */
  predicate Knows(w: Wires, a: Name, b: Name) {
    a in w && b in w[a].Values && (b in w[a] ==> w[a][b] == b)
  }

  /** The ends of the line are vertices at just these points, and know each other. */
  predicate Drawn(p: Plan, name: Point -> Name, l: Line) {
    var a, b := name(l.p1), name(l.p2);
    && a in p.at && b in p.at && p.at[a] == l.p1 && p.at[b] == l.p2
    && Knows(p.wires, a, b) && Knows(p.wires, b, a)
  }

  predicate SameEnds(l: Line, k: Line) { (l.p1 == k.p1 && l.p2 == k.p2) || (l.p1 == k.p2 && l.p2 == k.p1) }

  predicate Fits(p: Plan, name: Point -> Name) {
    Closed(p, name) && forall l :: l in p.lines && l.p1 != l.p2 ==> Drawn(p, name, l)
  }

  /** No two lines join the same points. */
  predicate Apart(lines: seq<Line>) {
    forall i, j :: 0 <= i < j < |lines| && lines[i].p1 != lines[i].p2 ==> !SameEnds(lines[i], lines[j])
  }

  // ---------------------------------------------------------------- the steps

  /** A new vertice, without neighbours. */
  function Placed(p: Plan, n: Name, point: Point): Plan {
    p.(wires := p.wires[n := map[]], at := p.at[n := point])
  }

  /** a.tryAddNeighbor(b) */
  function Joined(w: Wires, a: Name, b: Name): Wires
    requires a in w
  {
    if b in w[a] then w else w[a := w[a][b := b]]
  }

  /** a.tryReplaceNeighbor(b, m) */
  function Replaced(w: Wires, a: Name, b: Name, m: Name): Wires
    requires a in w
  {
    w[a := w[a][b := m]]
  }

  /** The line between a and b is split at m, and v joined to m. */
  function Spliced(w: Wires, a: Name, b: Name, m: Name, v: Name): Wires
    requires a in w && b in w && m in w && v in w
  {
    var r := Replaced(Replaced(w, a, b, m), b, a, m);
    Joined(Joined(Joined(Joined(r, m, a), m, b), m, v), v, m)
  }

  predicate EndsExist(w: Wires, name: Point -> Name, best: Option<Hit>) {
    best.Some? ==> name(best.value.line.p1) in w && name(best.value.line.p2) in w
  }

  /** The line gives way to two, which meet in a new vertice that v is joined to. */
  function SplitAt(p: Plan, name: Point -> Name, v: Name, hit: Hit): Plan
    requires v in p.wires && EndsExist(p.wires, name, Some(hit))
  {
    var l, c := hit.line, hit.point;
    Plan(Spliced(p.wires[name(c) := map[]], name(l.p1), name(l.p2), name(c), v), p.at[name(c) := c],
         RemoveOne(p.lines, l) + [Line(l.p1, c), Line(c, l.p2)])
  }

  /** The exception: a line is to be split and one of its ends is not there. */
  predicate Fails(w: Wires, name: Point -> Name, best: Option<Hit>) {
    best.Some? && best.value.point != Point(0.0, 0.0) && name(best.value.point) !in w && !EndsExist(w, name, best)
  }

  /** The vertice v is joined to the closest point of the closest line. */
  function JoinedToClosest(p: Plan, name: Point -> Name, v: Name, best: Option<Hit>): Plan
    requires v in p.wires && !Fails(p.wires, name, best)
  {
    if best.None? || best.value.point == Point(0.0, 0.0) then p
    else
      var m := name(best.value.point);
      if m in p.wires then p.(wires := Joined(Joined(p.wires, v, m), m, v)) else SplitAt(p, name, v, best.value)
  }

  /** addAdHocVertice(): the tree once `point` has been attached to the closest of the lines. */
  function Attached(p: Plan, name: Point -> Name, point: Point, best: Option<Hit>): Plan
    requires EndsExist(p.wires, name, best)
  {
    if name(point) in p.wires then p else JoinedToClosest(Placed(p, name(point), point), name, name(point), best)
  }

  /** clearAdHocVertices(): some vertices are dropped, while whoever knew them goes on doing so. */
  function Dropped(p: Plan, gone: set<Name>): Plan { p.(wires := p.wires - gone, at := p.at - gone) }

  /** addAdHocVertice() on any tree: vertices of the kind go first, and the new one stays alone if it fails. */
  function Tried(p: Plan, gone: set<Name>, name: Point -> Name, point: Point, best: Option<Hit>): Plan {
    if name(point) in p.wires then p
    else
      var h := Placed(Dropped(p, gone), name(point), point);
      if Fails(h.wires, name, best) then h else JoinedToClosest(h, name, name(point), best)
  }

  function Ensured(p: Plan, name: Point -> Name, point: Point): Plan {
    if name(point) in p.wires then p else Placed(p, name(point), point)
  }

  /** initializeFromLines(): one more line. */
  function WithLine(p: Plan, name: Point -> Name, l: Line): Plan {
    var q := Ensured(Ensured(p, name, l.p1), name, l.p2);
    q.(wires := Joined(Joined(q.wires, name(l.p1), name(l.p2)), name(l.p2), name(l.p1)))
  }

  /** The vertices at the ends of the lines. */
  function FromLines(lines: seq<Line>, name: Point -> Name): Plan {
    if lines == [] then Plan(map[], map[], [])
    else WithLine(FromLines(lines[..|lines| - 1], name), name, lines[|lines| - 1])
  }

  lemma OneLineMore(lines: seq<Line>, i: nat, name: Point -> Name)
    requires i < |lines|
    ensures FromLines(lines[..i + 1], name) == WithLine(FromLines(lines[..i], name), name, lines[i])
  {
    assert lines[..i + 1][..i] == lines[..i];
  }

  /** The tree a list of lines gives. */
  function TreeOf(lines: seq<Line>, name: Point -> Name): Plan { FromLines(lines, name).(lines := lines) }

  // ---------------------------------------------------------------- nobody knows a stranger

  predicate Inside(w: Wires) { forall k, j :: k in w && j in w[k] ==> j in w && w[k][j] in w }

  lemma ClosedIsInside(p: Plan, name: Point -> Name)
    ensures Closed(p, name) <==>
              p.wires.Keys == p.at.Keys && Inside(p.wires) && forall k :: k in p.at ==> name(p.at[k]) == k
  {
    if Closed(p, name) {
      forall k, j | k in p.wires && j in p.wires[k] ensures j in p.wires && p.wires[k][j] in p.wires {
        assert Filed(p, name, k);
      }
    }
  }

  lemma PlacedInside(w: Wires, n: Name)
    requires Inside(w) && n !in w
    ensures Inside(w[n := map[]])
  {}

  lemma JoinedInside(w: Wires, a: Name, b: Name)
    requires Inside(w) && a in w && b in w
    ensures Inside(Joined(w, a, b)) && Joined(w, a, b).Keys == w.Keys
  {}

  lemma ReplacedInside(w: Wires, a: Name, b: Name, m: Name)
    requires Inside(w) && a in w && b in w && m in w
    ensures Inside(Replaced(w, a, b, m)) && Replaced(w, a, b, m).Keys == w.Keys
  {}

  lemma JoinedTwiceInside(w: Wires, a: Name, b: Name, c: Name, d: Name)
    requires Inside(w) && a in w && b in w && c in w && d in w
    ensures Inside(Joined(Joined(w, a, b), c, d)) && Joined(Joined(w, a, b), c, d).Keys == w.Keys
  {
    JoinedInside(w, a, b);
    JoinedInside(Joined(w, a, b), c, d);
  }

  lemma SplicedInside(w: Wires, a: Name, b: Name, m: Name, v: Name)
    requires Inside(w) && a in w && b in w && m in w && v in w
    ensures Inside(Spliced(w, a, b, m, v)) && Spliced(w, a, b, m, v).Keys == w.Keys
  {
    var r := Replaced(w, a, b, m);
    ReplacedInside(w, a, b, m);
    ReplacedInside(r, b, a, m);
    var u := Replaced(r, b, a, m);
    JoinedTwiceInside(u, m, a, m, b);
    JoinedTwiceInside(Joined(Joined(u, m, a), m, b), m, v, v, m);
  }

  lemma SplitAtCloses(p: Plan, name: Point -> Name, v: Name, hit: Hit)
    requires Closed(p, name) && v in p.wires && EndsExist(p.wires, name, Some(hit)) && name(hit.point) !in p.wires
    ensures Closed(SplitAt(p, name, v, hit), name)
  {
    var m := name(hit.point);
    ClosedIsInside(p, name);
    PlacedInside(p.wires, m);
    SplicedInside(p.wires[m := map[]], name(hit.line.p1), name(hit.line.p2), m, v);
    ClosedIsInside(SplitAt(p, name, v, hit), name);
  }

  lemma JoinedToClosestCloses(p: Plan, name: Point -> Name, v: Name, best: Option<Hit>)
    requires Closed(p, name) && v in p.wires && !Fails(p.wires, name, best)
    ensures Closed(JoinedToClosest(p, name, v, best), name)
  {
    if best.Some? && best.value.point != Point(0.0, 0.0) {
      var m := name(best.value.point);
      if m in p.wires {
        ClosedIsInside(p, name);
        JoinedTwiceInside(p.wires, v, m, m, v);
        ClosedIsInside(JoinedToClosest(p, name, v, best), name);
      } else {
        SplitAtCloses(p, name, v, best.value);
      }
    }
  }

  lemma PlacedCloses(p: Plan, name: Point -> Name, point: Point)
    requires Closed(p, name) && name(point) !in p.wires
    ensures Closed(Placed(p, name(point), point), name)
  {
    ClosedIsInside(p, name);
    PlacedInside(p.wires, name(point));
    ClosedIsInside(Placed(p, name(point), point), name);
  }

  /** Attaching a vertice keeps everyone's neighbours within the tree, whatever line is hit. */
  lemma AttachedCloses(p: Plan, name: Point -> Name, point: Point, best: Option<Hit>)
    requires Closed(p, name) && EndsExist(p.wires, name, best)
    ensures Closed(Attached(p, name, point, best), name)
  {
    if name(point) !in p.wires {
      PlacedCloses(p, name, point);
      JoinedToClosestCloses(Placed(p, name(point), point), name, name(point), best);
    }
  }

  /** With the ends of the closest line there and nothing to drop, attaching does not fail. */
  lemma TriedIsAttached(p: Plan, name: Point -> Name, point: Point, best: Option<Hit>)
    requires EndsExist(p.wires, name, best)
    ensures Tried(p, {}, name, point, best) == Attached(p, name, point, best)
    ensures !Fails(Placed(Dropped(p, {}), name(point), point).wires, name, best)
  {
    assert p.wires - {} == p.wires && p.at - {} == p.at;
  }

  /** Vertices stay, and the lines are those before and the two pieces of the line hit. */
  lemma AttachedLines(p: Plan, name: Point -> Name, point: Point, best: Option<Hit>, k: Line)
    requires EndsExist(p.wires, name, best) && (best.Some? ==> best.value.line in p.lines)
    ensures p.wires.Keys <= Attached(p, name, point, best).wires.Keys
    ensures k in Attached(p, name, point, best).lines ==>
              k in p.lines
              || (best.Some? && name(best.value.point) in Attached(p, name, point, best).wires
                  && k in [Line(best.value.line.p1, best.value.point), Line(best.value.point, best.value.line.p2)])
  {
    if best.Some? { var i := RemoveOneClosesUp(p.lines, best.value.line); }
  }

  /** The ends of all lines go on existing, so attaching never meets a line whose vertices are missing. */
  lemma AttachedStaysRooted(p: Plan, name: Point -> Name, point: Point, best: Option<Hit>)
    requires Rooted(p, name) && EndsExist(p.wires, name, best) && (best.Some? ==> best.value.line in p.lines)
    ensures Rooted(Attached(p, name, point, best), name)
  {
    AttachedCloses(p, name, point, best);
    var h := Attached(p, name, point, best);
    forall k | k in h.lines && k.p1 != k.p2 ensures name(k.p1) in h.wires && name(k.p2) in h.wires {
      AttachedLines(p, name, point, best, k);
    }
  }

  // ---------------------------------------------------------------- the line that is split

  /** The length of a line is the sum of the lengths of its parts. */
  ghost predicate Straight(metric: (Point, Point) -> real) {
    forall l: Line, t: real :: 0.0 <= t <= 1.0 ==>
      && metric(l.p1, Along(l, t)) + metric(Along(l, t), l.p2) == metric(l.p1, l.p2)
      && metric(l.p2, Along(l, t)) + metric(Along(l, t), l.p1) == metric(l.p2, l.p1)
  }

  /** h is p with the line l split at c, and a vertice at `point` joined to c. */
  predicate Splices(p: Plan, h: Plan, name: Point -> Name, l: Line, c: Point, point: Point) {
    var a, b, m, v := name(l.p1), name(l.p2), name(c), name(point);
    && p.wires.Keys == p.at.Keys && Drawn(p, name, l) && a != b && m !in p.at && v !in p.at && m != v
    && h.wires == p.wires[a := p.wires[a][b := m]][b := p.wires[b][a := m]]
                  [m := map[a := a, b := b, v := v]][v := map[m := m]]
    && h.at == p.at[v := point][m := c]
    && h.lines == RemoveOne(p.lines, l) + [Line(l.p1, c), Line(c, l.p2)]
  }

  lemma SplicedShape(w: Wires, a: Name, b: Name, m: Name, v: Name)
    requires a in w && b in w && a != b && m !in w && v !in w && m != v
    ensures Spliced(w[v := map[]][m := map[]], a, b, m, v) ==
            w[a := w[a][b := m]][b := w[b][a := m]][m := map[a := a, b := b, v := v]][v := map[m := m]]
  {}

  /** One end's neighbours: the other end may go, the new vertice comes. */
  lemma OneEnd(w: Wires, a: Name, b: Name, m: Name)
    requires Knows(w, a, b)
    ensures w[a].Values - {b} <= w[a][b := m].Values <= w[a].Values + {m} && m in w[a][b := m].Values
  {
    var after := w[a][b := m];
    assert after[b] == m;
    forall n | n in w[a].Values && n != b ensures n in after.Values {
      var j :| j in w[a] && w[a][j] == n;
      assert after[j] == n;
    }
  }

  lemma SplicedNeighbors(p: Plan, h: Plan, name: Point -> Name, l: Line, c: Point, point: Point)
    requires Splices(p, h, name, l, c, point)
    ensures var w, u, a, b, m, v := p.wires, h.wires, name(l.p1), name(l.p2), name(c), name(point);
            && u.Keys == w.Keys + {m, v} && (forall n :: n in w && n != a && n != b ==> u[n] == w[n])
            && w[a].Values - {b} <= u[a].Values <= w[a].Values + {m} && m in u[a].Values
            && w[b].Values - {a} <= u[b].Values <= w[b].Values + {m} && m in u[b].Values
            && u[m].Values == {a, b, v} && u[v].Values == {m}
  {
    var a, b, m, v := name(l.p1), name(l.p2), name(c), name(point);
    OneEnd(p.wires, a, b, m);
    OneEnd(p.wires, b, a, m);
    var mine := map[a := a, b := b, v := v];
    assert mine.Values == {a, b, v} by { assert mine[a] == a && mine[b] == b && mine[v] == v; }
    var spur := map[m := m];
    assert spur.Values == {m} by { assert spur[m] == m; }
  }

  lemma SpliceCloses(p: Plan, h: Plan, name: Point -> Name, l: Line, c: Point, point: Point)
    requires Closed(p, name) && Splices(p, h, name, l, c, point)
    ensures Closed(h, name)
  {
    var a, b, m, v := name(l.p1), name(l.p2), name(c), name(point);
    SplicedShape(p.wires, a, b, m, v);
    ClosedIsInside(p, name);
    PlacedInside(p.wires, v);
    PlacedInside(p.wires[v := map[]], m);
    SplicedInside(p.wires[v := map[]][m := map[]], a, b, m, v);
    SplicedAt(p, h, name, l, c, point);
    ClosedIsInside(h, name);
  }

  lemma SplicedAt(p: Plan, h: Plan, name: Point -> Name, l: Line, c: Point, point: Point)
    requires Closed(p, name) && Splices(p, h, name, l, c, point)
    ensures h.wires.Keys == h.at.Keys && forall k :: k in h.at ==> name(h.at[k]) == k
  {
    SplicedNeighbors(p, h, name, l, c, point);
    ClosedIsInside(p, name);
    PlacedTwice(p.at, h.at, name, c, point);
  }

  lemma PlacedTwice(at: map<Name, Point>, after: map<Name, Point>, name: Point -> Name, c: Point, point: Point)
    requires after == at[name(point) := point][name(c) := c] && forall k :: k in at ==> name(at[k]) == k
    ensures after.Keys == at.Keys + {name(c), name(point)} && forall k :: k in after ==> name(after[k]) == k
  {}

  lemma SpliceSplits(p: Plan, h: Plan, name: Point -> Name, l: Line, c: Point, point: Point,
                     metric: (Point, Point) -> real)
    requires Splices(p, h, name, l, c, point) && Valid(NetOf(p, metric)) && Valid(NetOf(h, metric))
    requires metric(l.p1, c) + metric(c, l.p2) == metric(l.p1, l.p2)
    requires metric(l.p2, c) + metric(c, l.p1) == metric(l.p2, l.p1)
    ensures Split(NetOf(p, metric), NetOf(h, metric), name(l.p1), name(l.p2), name(c), name(point))
  {
    SplicedNeighbors(p, h, name, l, c, point);
  }

  // ---------------------------------------------------------------- lines and vertices still fit

  /** A line other than the one that was split. */
  lemma OtherLineDrawn(p: Plan, h: Plan, name: Point -> Name, l: Line, c: Point, point: Point, k: Line)
    requires Splices(p, h, name, l, c, point) && Drawn(p, name, k) && !SameEnds(k, l)
    ensures Drawn(h, name, k)
  {
    SplicedNeighbors(p, h, name, l, c, point);
  }

  /** The two pieces. */
  lemma PiecesDrawn(p: Plan, h: Plan, name: Point -> Name, l: Line, c: Point, point: Point)
    requires Closed(p, name) && Splices(p, h, name, l, c, point)
    ensures Drawn(h, name, Line(l.p1, c)) && Drawn(h, name, Line(c, l.p2))
  {
    var a, b, m := name(l.p1), name(l.p2), name(c);
    assert Filed(p, name, a) && Filed(p, name, b);
    EndKnowsMiddle(p.wires[a], b, m);
    EndKnowsMiddle(p.wires[b], a, m);
    assert h.wires[m][a] == a && h.wires[m][b] == b;
  }

  lemma EndKnowsMiddle(known: map<Name, Name>, b: Name, m: Name)
    requires m !in known && m != b
    ensures m in known[b := m].Values && m !in known[b := m]
  {
    assert known[b := m][b] == m;
  }

  lemma RestApart(lines: seq<Line>, l: Line)
    requires Apart(lines) && l in lines
    ensures Apart(RemoveOne(lines, l))
  {
    var i := RemoveOneClosesUp(lines, l);
  }

  lemma RestAreOthers(lines: seq<Line>, l: Line, k: Line)
    requires Apart(lines) && l in lines && l.p1 != l.p2 && k in RemoveOne(lines, l)
    ensures k in lines && !SameEnds(k, l)
  {
    var i := RemoveOneClosesUp(lines, l);
    var j :| 0 <= j < |lines| - 1 && RemoveOne(lines, l)[j] == k;
    assert k == if j < i then lines[j] else lines[j + 1];
  }

  lemma PiecesApart(lines: seq<Line>, l: Line, c: Point)
    requires Apart(lines) && l.p1 != l.p2 && c != l.p1
    requires forall k :: k in lines && k.p1 != k.p2 ==> c != k.p1 && c != k.p2
    ensures Apart(lines + [Line(l.p1, c), Line(c, l.p2)])
  {
    var more := lines + [Line(l.p1, c), Line(c, l.p2)];
    forall i, j | 0 <= i < j < |more| && more[i].p1 != more[i].p2 ensures !SameEnds(more[i], more[j]) {
      if i < |lines| {
        assert more[i] in lines;
      }
    }
  }

  lemma SpliceApart(p: Plan, h: Plan, name: Point -> Name, l: Line, c: Point, point: Point)
    requires Fits(p, name) && Apart(p.lines) && l in p.lines && l.p1 != l.p2 && Splices(p, h, name, l, c, point)
    ensures Apart(h.lines)
  {
    RestApart(p.lines, l);
    forall k | k in RemoveOne(p.lines, l) && k.p1 != k.p2 ensures c != k.p1 && c != k.p2 {
      RestAreOthers(p.lines, l, k);
      assert Drawn(p, name, k);
    }
    PiecesApart(RemoveOne(p.lines, l), l, c);
  }

  lemma SpliceDraws(p: Plan, h: Plan, name: Point -> Name, l: Line, c: Point, point: Point, k: Line)
    requires Fits(p, name) && Apart(p.lines) && l in p.lines && l.p1 != l.p2 && Splices(p, h, name, l, c, point)
    requires k in h.lines && k.p1 != k.p2
    ensures Drawn(h, name, k)
  {
    if k in RemoveOne(p.lines, l) {
      RestAreOthers(p.lines, l, k);
      OtherLineDrawn(p, h, name, l, c, point, k);
    } else {
      PiecesDrawn(p, h, name, l, c, point);
    }
  }

  lemma SpliceFits(p: Plan, h: Plan, name: Point -> Name, l: Line, c: Point, point: Point)
    requires Fits(p, name) && Apart(p.lines) && l in p.lines && l.p1 != l.p2 && Splices(p, h, name, l, c, point)
    ensures Fits(h, name) && Apart(h.lines)
  {
    SpliceCloses(p, h, name, l, c, point);
    SpliceApart(p, h, name, l, c, point);
    forall k | k in h.lines && k.p1 != k.p2 ensures Drawn(h, name, k) {
      SpliceDraws(p, h, name, l, c, point, k);
    }
  }
}
