/** Lines and points for which attaching an origin or a destination goes wrong. */
module CornerCases {
  import opened Options
  import opened Network
  import opened NetworkSplit
  import opened Segments
  import opened ClosestLine
  import opened Lists
  import opened Wiring
  import opened Attachment
  import opened LaidOut
  import opened SecondCall
  import opened Reattachment
  import SplitSymmetry
  import SourceLinks

  // ---------------------------------------------------------------- horizontal lines

  lemma FootOnHorizontal(l: Line, from: Point)
    requires l.p1.x < l.p2.x && l.p1.y == l.p2.y
    ensures Squared(l.p2, l.p1) > 0.0 && Foot(l, from) * (l.p2.x - l.p1.x) == from.x - l.p1.x
  {
    ProperLine(l);
    FootTimesLength(l, from);
    var d, e := l.p2.x - l.p1.x, from.x - l.p1.x;
    CancelFactor(d, Foot(l, from), e);
  }

  lemma CancelFactor(d: real, t: real, e: real)
    requires d > 0.0 && d * d * t == e * d
    ensures t * d == e
  {}

  lemma SignOfFactor(d: real, t: real, e: real)
    requires d > 0.0 && t * d == e
    ensures t < 0.0 <==> e < 0.0
    ensures t > 1.0 <==> e > d
  {
    if t > 1.0 {
      ProductOfPositives(t - 1.0, d);
      assert Product(t - 1.0, d) == t * d - d;
    } else {
      Monotone(d, t, 1.0);
    }
  }

  lemma TimesNothing(t: real, d: real)
    requires d == 0.0
    ensures t * d == 0.0
  {}

  lemma AlongHorizontal(l: Line, from: Point, t: real)
    requires l.p1.y == l.p2.y && t * (l.p2.x - l.p1.x) == from.x - l.p1.x
    ensures Along(l, t) == Point(from.x, l.p1.y)
  {
    TimesNothing(t, l.p2.y - l.p1.y);
  }

  /** The closest point of a horizontal line is right below or above, held to its ends. */
  lemma OnHorizontal(l: Line, from: Point)
    requires l.p1.x < l.p2.x && l.p1.y == l.p2.y
    ensures ClosestOn(l, from) ==
            Some(Point(if from.x < l.p1.x then l.p1.x else if from.x > l.p2.x then l.p2.x else from.x, l.p1.y))
  {
    FootOnHorizontal(l, from);
    var t := Foot(l, from);
    SignOfFactor(l.p2.x - l.p1.x, t, from.x - l.p1.x);
    AlongHorizontal(l, from, t);
    assert t < 0.0 <==> from.x < l.p1.x;
    assert t > 1.0 <==> from.x > l.p2.x;
    assert Point(l.p1.x, l.p1.y) == l.p1 && Point(l.p2.x, l.p1.y) == l.p2;
  }

  lemma EndsOfOneLine(lines: seq<Line>, l: Line, e: Point)
    requires lines != [] && forall k :: k in lines ==> k == l
    ensures IsEnd(lines, e) <==> e == l.p1 || e == l.p2
  {
    assert lines[0] in lines;
  }

  lemma VerticesOfOneLine(at: map<Name, Point>, name: Point -> Name, lines: seq<Line>, l: Line)
    requires lines != [] && (forall k :: k in lines ==> k == l) && EndsPlaced(at, name, lines)
    ensures at.Keys == {name(l.p1), name(l.p2)}
  {
    EndsOfOneLine(lines, l, l.p1);
    EndsOfOneLine(lines, l, l.p2);
    forall k | k in at ensures k in {name(l.p1), name(l.p2)} {
      EndsOfOneLine(lines, l, at[k]);
    }
  }

  lemma TreeOfOneLine(lines: seq<Line>, l: Line, name: Point -> Name)
    requires lines != [] && (forall k :: k in lines ==> k == l) && name(l.p1) != name(l.p2)
    ensures Fits(TreeOf(lines, name), name) && TreeOf(lines, name).wires.Keys == {name(l.p1), name(l.p2)}
  {
    forall e, f | IsEnd(lines, e) && IsEnd(lines, f) && name(e) == name(f) ensures e == f {
      EndsOfOneLine(lines, l, e);
      EndsOfOneLine(lines, l, f);
    }
    OwnNamesFit(lines, name);
    FromLinesLaid(lines, name);
    VerticesOfOneLine(TreeOf(lines, name).at, name, lines, l);
  }

  // ---------------------------------------------------------------- a line, and points beside it

  /** The point of a horizontal line right above or below another. */
  function Level(l: Line, p: Point): Point { Point(p.x, l.p1.y) }

  predicate Beneath(l: Line, p: Point) {
    l.p1.y == l.p2.y && l.p1.x < p.x < l.p2.x && Level(l, p) != Point(0.0, 0.0)
  }

  lemma LevelIsClosest(l: Line, x: real, p: Point)
    ensures Squared(Level(l, p), p) <= Squared(Point(x, l.p1.y), p)
    ensures x != p.x ==> Squared(Level(l, p), p) < Squared(Point(x, l.p1.y), p)
  {
    SquareIsPositive(x - p.x);
    SquareIsPositive(p.x - p.x);
  }

  predicate PieceOf(k: Line, l: Line) { k.p1.x < k.p2.x && k.p1.y == k.p2.y == l.p1.y }

  lemma OnPiece(k: Line, l: Line, p: Point)
    requires PieceOf(k, l)
    ensures ClosestOn(k, p).Some? && ClosestOn(k, p).value.y == l.p1.y
    ensures k.p1.x <= p.x <= k.p2.x ==> ClosestOn(k, p) == Some(Level(l, p))
    ensures !(k.p1.x <= p.x <= k.p2.x) ==> ClosestOn(k, p).value.x != p.x
    ensures Squared(Level(l, p), p) <= Squared(ClosestOn(k, p).value, p)
  {
    OnHorizontal(k, p);
    LevelIsClosest(l, ClosestOn(k, p).value.x, p);
  }

  /** Of some pieces of a line the first that the point is beneath is hit. */
  lemma FirstIsClosest(lines: seq<Line>, l: Line, i: nat, p: Point)
    requires i < |lines| && lines[i].p1.x <= p.x <= lines[i].p2.x
    requires forall k :: k in lines ==> PieceOf(k, l)
    requires forall j :: 0 <= j < i ==> !(lines[j].p1.x <= p.x <= lines[j].p2.x)
    ensures IsClosest(lines, p, NoDirection, Some(Hit(lines[i], Level(l, p))))
  {
    OnPiece(lines[i], l, p);
    forall k | k in lines ensures Squared(Level(l, p), p) <= Squared(ClosestOn(k, p).value, p) {
      OnPiece(k, l, p);
    }
    forall j | 0 <= j < i ensures Squared(Level(l, p), p) < Squared(ClosestOn(lines[j], p).value, p) {
      OnPiece(lines[j], l, p);
      LevelIsClosest(l, ClosestOn(lines[j], p).value.x, p);
    }
  }

  /** That is what a call comes up with. */
  lemma CallHits(p: Plan, q: Plan, name: Point -> Name, point: Point, best: Option<Hit>, l: Line, i: nat)
    requires Called(p, q, name, point, NoDirection, best) && name(point) !in p.wires
    requires i < |p.lines| && p.lines[i].p1.x <= point.x <= p.lines[i].p2.x
    requires forall k :: k in p.lines ==> PieceOf(k, l)
    requires forall j :: 0 <= j < i ==> !(p.lines[j].p1.x <= point.x <= p.lines[j].p2.x)
    ensures best == Some(Hit(p.lines[i], Level(l, point)))
  {
    FirstIsClosest(p.lines, l, i, point);
    ClosestIsUnique(p.lines, point, NoDirection, best, Some(Hit(p.lines[i], Level(l, point))));
  }

  /** A tree over one line, which may have been given more than once. */
  ghost predicate OverLine(p: Plan, name: Point -> Name, l: Line) {
    && Fits(p, name) && p.wires.Keys == {name(l.p1), name(l.p2)}
    && p.lines != [] && p.lines[0] == l && forall k :: k in p.lines ==> k == l
  }

  lemma TreeOverLine(lines: seq<Line>, name: Point -> Name, l: Line)
    requires name(l.p1) != name(l.p2) && lines != [] && forall k :: k in lines ==> k == l
    ensures OverLine(TreeOf(lines, name), name, l)
  {
    assert lines[0] in lines;
    TreeOfOneLine(lines, l, name);
  }

  /** The point, the one level with it on the line, and the ends of the line have names of their own. */
  predicate OwnNamesAt(name: Point -> Name, l: Line, p: Point) {
    && name(l.p1) != name(l.p2) && name(p) != name(Level(l, p))
    && name(p) !in {name(l.p1), name(l.p2)} && name(Level(l, p)) !in {name(l.p1), name(l.p2)}
  }

  /** The first call splits the line. */
  lemma FirstCall(p: Plan, name: Point -> Name, q: Plan, l: Line, first: Point, one: Option<Hit>)
    requires Beneath(l, first) && OverLine(p, name, l) && OwnNamesAt(name, l, first)
    requires Called(p, q, name, first, NoDirection, one)
    ensures one == Some(Hit(l, Level(l, first))) && IsSplit(p, name, first, one)
    ensures q.wires.Keys == {name(l.p1), name(l.p2), name(first), name(Level(l, first))}
    ensures q.lines == p.lines[1..] + [Line(l.p1, Level(l, first)), Line(Level(l, first), l.p2)]
  {
    CallHits(p, q, name, first, one, l, 0);
    SplitOfLine(p, name, q, l, first, one);
  }

  lemma SplitOfLine(p: Plan, name: Point -> Name, q: Plan, l: Line, first: Point, one: Option<Hit>)
    requires OverLine(p, name, l) && Called(p, q, name, first, NoDirection, one) && IsSplit(p, name, first, one)
    requires one.value.line == l
    ensures q.wires.Keys == p.wires.Keys + {name(one.value.point), name(first)}
    ensures q.lines == p.lines[1..] + [Line(l.p1, one.value.point), Line(one.value.point, l.p2)]
  {
    SplitSplices(p, name, first, one);
    SplicedNeighbors(p, q, name, l, one.value.point, first);
    assert RemoveOne(p.lines, l) == p.lines[1..];
  }

  predicate OtherNames(name: Point -> Name, l: Line, first: Point, second: Point) {
    {name(first), name(Level(l, first))} !! {name(second), name(Level(l, second))}
  }

  lemma AllPieces(lines: seq<Line>, l: Line, first: Point)
    requires Beneath(l, first)
    requires forall k :: k in lines ==> k == l || k == Line(l.p1, Level(l, first)) || k == Line(Level(l, first), l.p2)
    ensures forall k :: k in lines ==> PieceOf(k, l)
  {}

  predicate AfterFirst(q: Plan, name: Point -> Name, l: Line, first: Point) {
    q.wires.Keys == {name(l.p1), name(l.p2), name(first), name(Level(l, first))}
  }

  lemma SecondIsSplit(q: Plan, name: Point -> Name, l: Line, first: Point, second: Point, two: Option<Hit>)
    requires AfterFirst(q, name, l, first) && OwnNamesAt(name, l, second) && OtherNames(name, l, first, second)
    requires two.Some? && two.value.point == Level(l, second) && two.value.point != Point(0.0, 0.0)
    ensures IsSplit(q, name, second, two)
  {}

  /** With the line given twice the second call splits it again. */
  lemma SecondCallSplitsAgain(p: Plan, name: Point -> Name, q: Plan, r: Plan, l: Line, first: Point, one: Option<Hit>,
                              second: Point, two: Option<Hit>)
    requires Beneath(l, first) && Beneath(l, second) && OverLine(p, name, l) && |p.lines| == 2
    requires OwnNamesAt(name, l, first) && OwnNamesAt(name, l, second) && OtherNames(name, l, first, second)
    requires Called(p, q, name, first, NoDirection, one) && Called(q, r, name, second, NoDirection, two)
    ensures one == Some(Hit(l, Level(l, first))) && SplitsParallel(p, q, name, first, one, second, two)
  {
    FirstCall(p, name, q, l, first, one);
    SecondLine(p, q, l, first);
    SecondHits(q, r, name, l, first, second, two);
  }

  lemma SecondHits(q: Plan, r: Plan, name: Point -> Name, l: Line, first: Point, second: Point, two: Option<Hit>)
    requires Beneath(l, second) && OwnNamesAt(name, l, second) && OtherNames(name, l, first, second)
    requires AfterFirst(q, name, l, first) && Called(q, r, name, second, NoDirection, two)
    requires |q.lines| > 0 && q.lines[0] == l && forall k :: k in q.lines ==> PieceOf(k, l)
    ensures two == Some(Hit(l, Level(l, second))) && IsSplit(q, name, second, two)
  {
    CallHits(q, r, name, second, two, l, 0);
    SecondIsSplit(q, name, l, first, second, two);
  }

  lemma SecondLine(p: Plan, q: Plan, l: Line, first: Point)
    requires Beneath(l, first) && |p.lines| == 2 && forall k :: k in p.lines ==> k == l
    requires q.lines == p.lines[1..] + [Line(l.p1, Level(l, first)), Line(Level(l, first), l.p2)]
    ensures |q.lines| > 0 && q.lines[0] == l && forall k :: k in q.lines ==> PieceOf(k, l)
  {
    assert p.lines[1] in p.lines;
    AllPieces(q.lines, l, first);
  }

  lemma NoWayBack(p: Plan, name: Point -> Name, metric: (Point, Point) -> real, q: Plan, r: Plan, l: Line,
                  first: Point, one: Option<Hit>, second: Point, two: Option<Hit>)
    requires NonNegative(metric) && OtherNames(name, l, first, second)
    requires Fits(p, name) && SplitsParallel(p, q, name, first, one, second, two) && one.value.point == Level(l, first)
    requires Called(p, q, name, first, NoDirection, one) && Called(q, r, name, second, NoDirection, two)
    ensures forall w :: !IsWalk(NetOf(r, metric), name(second), name(first), w)
  {
    forall w | IsWalk(NetOf(r, metric), name(second), name(first), w) ensures false {
      ParallelLineCutsOff(p, q, r, name, metric, first, NoDirection, one, second, NoDirection, two,
                          name(second), name(first), w);
    }
  }

  /** Two lines between the same points, and the destination set first: there is no path to it. */
  lemma DestinationIsCutOff(lines: seq<Line>, name: Point -> Name, metric: (Point, Point) -> real, q: Plan, r: Plan,
                            l: Line, from: Point, to: Point, distance: Distance, path: seq<Line>)
    requires NonNegative(metric) && |lines| == 2 && (forall k :: k in lines ==> k == l) && Beneath(l, from)
             && Beneath(l, to)
    requires OwnNamesAt(name, l, from) && OwnNamesAt(name, l, to) && OtherNames(name, l, to, from)
    requires BothAttached(TreeOf(lines, name), q, r, name, from, NoDirection, to, false)
    requires name(from) in r.at && name(to) in r.at && Shortest(NetOf(r, metric), name(from), name(to), distance)
    requires SourceLinks.PathFound(NetOf(r, metric), name(from), name(to), distance, path)
    ensures distance == Infinite && path == []
  {
    var p := TreeOf(lines, name);
    TreeOverLine(lines, name, l);
    var one :| Called(p, q, name, to, NoDirection, one);
    var two :| Called(q, r, name, from, NoDirection, two);
    SecondCallSplitsAgain(p, name, q, r, l, to, one, from, two);
    NoWayBack(p, name, metric, q, r, l, to, one, from, two);
  }

  /** With the origin set first there is one. */
  lemma DestinationIsFound(lines: seq<Line>, name: Point -> Name, metric: (Point, Point) -> real, q: Plan, r: Plan,
                           l: Line, from: Point, to: Point, distance: Distance, path: seq<Line>)
    requires NonNegative(metric) && |lines| == 2 && (forall k :: k in lines ==> k == l) && Beneath(l, from)
             && Beneath(l, to)
    requires OwnNamesAt(name, l, from) && OwnNamesAt(name, l, to) && OtherNames(name, l, from, to)
    requires BothAttached(TreeOf(lines, name), q, r, name, from, NoDirection, to, true)
    requires name(from) in r.at && name(to) in r.at && Shortest(NetOf(r, metric), name(from), name(to), distance)
    requires SourceLinks.PathFound(NetOf(r, metric), name(from), name(to), distance, path)
    ensures distance.Finite? && path != []
  {
    var p := TreeOf(lines, name);
    TreeOverLine(lines, name, l);
    var one :| Called(p, q, name, from, NoDirection, one);
    var two :| Called(q, r, name, to, NoDirection, two);
    SecondCallSplitsAgain(p, name, q, r, l, from, one, to, two);
    ParallelLineLeadsOn(p, q, r, name, metric, from, NoDirection, one, to, NoDirection, two);
  }

  // ---------------------------------------------------------------- the same call twice

  /** One line, and setOrigin() called for a point beneath it and then for one further right: the second call fails. */
  lemma SecondOriginIsRefused(lines: seq<Line>, name: Point -> Name, p: Plan, q: Plan, r: Plan, l: Line,
                              first: Point, one: Option<Hit>, second: Point, two: Option<Hit>)
    requires |lines| == 1 && lines[0] == l && p == TreeOf(lines, name) && Beneath(l, first) && Beneath(l, second)
    requires first.x < second.x
    requires OwnNamesAt(name, l, first) && OwnNamesAt(name, l, second) && OtherNames(name, l, first, second)
    requires Called(p, q, name, first, NoDirection, one)
    requires Tries(q, r, Added(p, q), name, second, NoDirection, two)
    ensures Refused(q, Added(p, q), name, second, two)
  {
    TreeOverLine(lines, name, l);
    SecondCallFails(p, q, name, l, first, one, second, two);
  }

  lemma SecondCallFails(p: Plan, q: Plan, name: Point -> Name, l: Line, first: Point, one: Option<Hit>,
                        second: Point, two: Option<Hit>)
    requires OverLine(p, name, l) && |p.lines| == 1 && Beneath(l, first) && Beneath(l, second) && first.x < second.x
    requires OwnNamesAt(name, l, first) && OwnNamesAt(name, l, second) && OtherNames(name, l, first, second)
    requires Called(p, q, name, first, NoDirection, one)
    requires name(second) in q.wires || IsClosest(q.lines, second, NoDirection, two)
    ensures Refused(q, Added(p, q), name, second, two)
  {
    FirstCall(p, name, q, l, first, one);
    NewNames(p, q, name, l, first, second);
    SecondPieceIsHit(p, q, l, first, second, two);
    PieceIsRefused(p, q, name, first, one, second, two);
  }

  lemma NewNames(p: Plan, q: Plan, name: Point -> Name, l: Line, first: Point, second: Point)
    requires p.wires.Keys == {name(l.p1), name(l.p2)} && AfterFirst(q, name, l, first)
    requires OwnNamesAt(name, l, second) && OtherNames(name, l, first, second)
    ensures name(second) !in q.wires && name(Level(l, second)) !in p.wires.Keys + {name(second)}
  {}

  lemma PieceIsRefused(p: Plan, q: Plan, name: Point -> Name, first: Point, one: Option<Hit>, second: Point,
                       two: Option<Hit>)
    requires Fits(p, name) && Called(p, q, name, first, NoDirection, one) && IsSplit(p, name, first, one)
    requires name(second) !in q.wires && two.Some? && two.value.point != Point(0.0, 0.0)
    requires name(two.value.point) !in p.wires.Keys + {name(second)}
    requires two.value.line == Line(one.value.point, one.value.line.p2) && IsClosest(q.lines, second, NoDirection, two)
    ensures Refused(q, Added(p, q), name, second, two)
  {
    RefusedExactly(p, q, name, first, NoDirection, one, second, NoDirection, two);
  }

  lemma SecondPieceIsHit(p: Plan, q: Plan, l: Line, first: Point, second: Point, two: Option<Hit>)
    requires Beneath(l, first) && Beneath(l, second) && first.x < second.x && |p.lines| == 1
    requires q.lines == p.lines[1..] + [Line(l.p1, Level(l, first)), Line(Level(l, first), l.p2)]
    requires IsClosest(q.lines, second, NoDirection, two)
    ensures two == Some(Hit(Line(Level(l, first), l.p2), Level(l, second)))
  {
    AllPieces(q.lines, l, first);
    FirstIsClosest(q.lines, l, 1, second);
    ClosestIsUnique(q.lines, second, NoDirection, two, Some(Hit(q.lines[1], Level(l, second))));
  }

  // ---------------------------------------------------------------- a piece that is split again

  lemma FirstPieceIsHit(p: Plan, q: Plan, l: Line, first: Point, second: Point, two: Option<Hit>)
    requires Beneath(l, first) && Beneath(l, second) && second.x < first.x && |p.lines| == 1
    requires q.lines == p.lines[1..] + [Line(l.p1, Level(l, first)), Line(Level(l, first), l.p2)]
    requires IsClosest(q.lines, second, NoDirection, two)
    ensures two == Some(Hit(Line(l.p1, Level(l, first)), Level(l, second)))
  {
    AllPieces(q.lines, l, first);
    FirstIsClosest(q.lines, l, 0, second);
    ClosestIsUnique(q.lines, second, NoDirection, two, Some(Hit(q.lines[0], Level(l, second))));
  }

  lemma PieceSplices(p: Plan, q: Plan, r: Plan, name: Point -> Name, l: Line, first: Point, one: Option<Hit>,
                     second: Point, two: Option<Hit>)
    requires Fits(p, name) && one.Some? && two.Some?
    requires Called(p, q, name, first, NoDirection, one) && Called(q, r, name, second, NoDirection, two)
    requires IsSplit(p, name, first, one) && IsSplit(q, name, second, two)
    requires two.value.line == Line(one.value.line.p1, one.value.point)
    ensures Splices(p, q, name, one.value.line, one.value.point, first)
    ensures Splices(q, r, name, two.value.line, two.value.point, second)
  {
    SplitSplices(p, name, first, one);
    CalledCloses(p, q, name, first, NoDirection, one);
    PiecesDrawn(p, q, name, one.value.line, one.value.point, first);
    SplitSplices(q, name, second, two);
  }

  /** One line, and a second point beneath it to the left of the first: the left end still knows the middle of the first
      split, which does not know it any more. */
  lemma SecondSplitIsOneWay(lines: seq<Line>, name: Point -> Name, p: Plan, q: Plan, r: Plan, l: Line,
                            first: Point, one: Option<Hit>, second: Point, two: Option<Hit>)
    requires |lines| == 1 && lines[0] == l && p == TreeOf(lines, name) && Beneath(l, first) && Beneath(l, second)
    requires second.x < first.x
    requires OwnNamesAt(name, l, first) && OwnNamesAt(name, l, second) && OtherNames(name, l, first, second)
    requires Called(p, q, name, first, NoDirection, one) && Called(q, r, name, second, NoDirection, two)
    ensures var a, m := name(l.p1), name(Level(l, first));
            a in r.wires && m in r.wires && m in r.wires[a].Values && a !in r.wires[m].Values
  {
    TreeOverLine(lines, name, l);
    OneWayOverLine(p, q, r, name, l, first, one, second, two);
  }

  lemma OneWayOverLine(p: Plan, q: Plan, r: Plan, name: Point -> Name, l: Line, first: Point, one: Option<Hit>,
                       second: Point, two: Option<Hit>)
    requires OverLine(p, name, l) && |p.lines| == 1 && Beneath(l, first) && Beneath(l, second) && second.x < first.x
    requires OwnNamesAt(name, l, first) && OwnNamesAt(name, l, second) && OtherNames(name, l, first, second)
    requires Called(p, q, name, first, NoDirection, one) && Called(q, r, name, second, NoDirection, two)
    ensures var a, m := name(l.p1), name(Level(l, first));
            a in r.wires && m in r.wires && m in r.wires[a].Values && a !in r.wires[m].Values
  {
    FirstCall(p, name, q, l, first, one);
    NewNames(p, q, name, l, first, second);
    FirstPieceIsHit(p, q, l, first, second, two);
    SecondIsSplit(q, name, l, first, second, two);
    PieceSplices(p, q, r, name, l, first, one, second, two);
    SplitSymmetry.SecondSplitIsLopsided(p, q, r, name, l, Level(l, first), first, Level(l, second), second);
  }

  // ---------------------------------------------------------------- a point on the line

  /** A point of the line itself is attached to nothing. */
  lemma PointOfTheLineIsLeftAlone(lines: seq<Line>, name: Point -> Name, metric: (Point, Point) -> real, q: Plan,
                                  l: Line, point: Point)
    requires |lines| == 1 && lines[0] == l && Beneath(l, point) && point.y == l.p1.y
    requires name(l.p1) != name(l.p2) && name(point) !in {name(l.p1), name(l.p2)}
    requires Attaches(TreeOf(lines, name), q, name, point, NoDirection)
    ensures var v, h := name(point), NetOf(q, metric);
            v in h.next && h.next[v] <= {v} && forall n :: n in h.next && v in h.next[n] ==> n == v
  {
    var p := TreeOf(lines, name);
    TreeOverLine(lines, name, l);
    var best :| Called(p, q, name, point, NoDirection, best);
    CallHits(p, q, name, point, best, l, 0);
    ClosestHits(p, name, point, NoDirection, best);
    NewcomerConnects(p, name, metric, point, best);
    PointOnALineIsLeftAlone(p, name, metric, point, best);
  }

  // ---------------------------------------------------------------- with numbers

  lemma TwoPointsBeneath(l: Line, from: Point, to: Point)
    requires l == Line(Point(10.0, 10.0), Point(20.0, 10.0)) && from == Point(17.0, 12.0) && to == Point(13.0, 12.0)
    ensures Beneath(l, from) && Beneath(l, to)
  {}

  /** The line (10, 10)-(20, 10) twice, the destination (13, 12) set before the origin (17, 12). */
  lemma CutOffWithNumbers(lines: seq<Line>, name: Point -> Name, metric: (Point, Point) -> real, q: Plan, r: Plan,
                          l: Line, from: Point, to: Point, distance: Distance, path: seq<Line>)
    requires l == Line(Point(10.0, 10.0), Point(20.0, 10.0)) && |lines| == 2 && forall k :: k in lines ==> k == l
    requires from == Point(17.0, 12.0) && to == Point(13.0, 12.0) && NonNegative(metric)
    requires OwnNamesAt(name, l, from) && OwnNamesAt(name, l, to) && OtherNames(name, l, to, from)
    requires BothAttached(TreeOf(lines, name), q, r, name, from, NoDirection, to, false)
    requires name(from) in r.at && name(to) in r.at && Shortest(NetOf(r, metric), name(from), name(to), distance)
    requires SourceLinks.PathFound(NetOf(r, metric), name(from), name(to), distance, path)
    ensures distance == Infinite && path == []
  {
    TwoPointsBeneath(l, from, to);
    DestinationIsCutOff(lines, name, metric, q, r, l, from, to, distance, path);
  }

  /** With a line above and a nearer one below, the preferred direction decides. */
  lemma DirectionWithNumbers(lines: seq<Line>, above: Line, below: Line, from: Point, direction: Direction,
                             best: Option<Hit>)
    requires above == Line(Point(0.0, 2.0), Point(10.0, 2.0)) && below == Line(Point(0.0, 20.0), Point(10.0, 20.0))
    requires lines == [above, below] && from == Point(5.0, 12.0) && IsClosest(lines, from, direction, best)
    ensures direction == Up ==> best == Some(Hit(above, Point(5.0, 2.0)))
    ensures direction == Down ==> best == Some(Hit(below, Point(5.0, 20.0)))
    ensures direction == ToLeft || direction == ToRight ==> best == None
  {
    assert lines[0] == above && lines[1] == below;
    OnHorizontal(above, from);
    OnHorizontal(below, from);
    HitLiesThere(lines, from, direction, best);
  }

  /** The line (1, 1)-(3, 1) and its own point (2, 1). */
  lemma LeftAloneWithNumbers(lines: seq<Line>, name: Point -> Name, metric: (Point, Point) -> real, q: Plan, l: Line,
                             point: Point)
    requires l == Line(Point(1.0, 1.0), Point(3.0, 1.0)) && |lines| == 1 && lines[0] == l && point == Point(2.0, 1.0)
    requires name(l.p1) != name(l.p2) && name(point) !in {name(l.p1), name(l.p2)}
    requires Attaches(TreeOf(lines, name), q, name, point, NoDirection)
    ensures name(point) in NetOf(q, metric).next && NetOf(q, metric).next[name(point)] <= {name(point)}
  {
    PointOfTheLineIsLeftAlone(lines, name, metric, q, l, point);
  }
}
