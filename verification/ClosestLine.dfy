/** The point of some lines that is closest to a given one. */
module ClosestLine {
  import opened Options
  import opened Network
  import opened Segments

  datatype Direction = NoDirection | Up | Down | ToLeft | ToRight

  /** The point a fraction of the way along the line. */
  function Along(l: Line, t: real): Point {
    Point(l.p1.x + t * (l.p2.x - l.p1.x), l.p1.y + t * (l.p2.y - l.p1.y))
  }

  function Product(a: real, b: real): real { a * b }

  /** The square of the distance. */
  function Squared(a: Point, b: Point): real {
    Product(a.x - b.x, a.x - b.x) + Product(a.y - b.y, a.y - b.y)
  }

  /** Where the perpendicular from the point meets the line: the t of Line::closestPointTo. */
  function Foot(l: Line, p: Point): real
    requires Squared(l.p2, l.p1) != 0.0
  {
    ((p.x - l.p1.x) * (l.p2.x - l.p1.x) + (p.y - l.p1.y) * (l.p2.y - l.p1.y)) / Squared(l.p2, l.p1)
  }

  lemma ProductOfPositives(a: real, b: real)
    requires a > 0.0 && b > 0.0
    ensures Product(a, b) > 0.0
  {}

  lemma ProductOfNegatives(a: real, b: real)
    requires a < 0.0 && b < 0.0
    ensures Product(a, b) > 0.0
  {}

  lemma SquareIsPositive(d: real)
    ensures Product(d, d) >= 0.0 && (d == 0.0 <==> Product(d, d) == 0.0)
  {
    if d < 0.0 {
      ProductOfNegatives(d, d);
    } else if d > 0.0 {
      ProductOfPositives(d, d);
    }
  }

  lemma ProperLine(l: Line)
    ensures l.p1 != l.p2 <==> Squared(l.p2, l.p1) > 0.0
  {
    SquareIsPositive(l.p2.x - l.p1.x);
    SquareIsPositive(l.p2.y - l.p1.y);
  }

  /** Line::closestPointTo; a line without length has none (its t is not a number). */
  function ClosestOn(l: Line, p: Point): (c: Option<Point>)
    ensures c == None <==> l.p1 == l.p2
  {
    ProperLine(l);
    if l.p1 == l.p2 then None
    else
      var t := Foot(l, p);
      if t < 0.0 then Some(l.p1) else if t > 1.0 then Some(l.p2) else Some(Along(l, t))
  }

  lemma Expand(e: real, d: real, t: real)
    ensures (e - t * d) * (e - t * d) == e * e - 2.0 * t * (e * d) + t * t * (d * d)
  {}

  lemma Quadratic(ex: real, ey: real, dx: real, dy: real, d: real, s: real, t: real)
    requires d == dx * dx + dy * dy && d * s == ex * dx + ey * dy
    ensures (ex - t * dx) * (ex - t * dx) + (ey - t * dy) * (ey - t * dy)
            == ex * ex + ey * ey + d * (t * t - 2.0 * t * s)
  {
    Expand(ex, dx, t);
    Expand(ey, dy, t);
    assert 2.0 * t * (ex * dx) + 2.0 * t * (ey * dy) == 2.0 * t * (d * s);
    assert t * t * (dx * dx) + t * t * (dy * dy) == t * t * d;
    assert d * (t * t - 2.0 * t * s) == t * t * d - 2.0 * t * (d * s);
  }

  lemma OffTheLine(l: Line, p: Point, t: real)
    ensures p.x - Along(l, t).x == (p.x - l.p1.x) - t * (l.p2.x - l.p1.x)
    ensures p.y - Along(l, t).y == (p.y - l.p1.y) - t * (l.p2.y - l.p1.y)
  {}

  /** The squared distance along a line: least at the foot of the perpendicular. */
  lemma SquaredAt(l: Line, p: Point, t: real, s: real)
    requires Squared(l.p2, l.p1) * s == (p.x - l.p1.x) * (l.p2.x - l.p1.x) + (p.y - l.p1.y) * (l.p2.y - l.p1.y)
    ensures Squared(p, Along(l, t)) == Squared(p, l.p1) + Squared(l.p2, l.p1) * (t * t - 2.0 * t * s)
  {
    OffTheLine(l, p, t);
    Quadratic(p.x - l.p1.x, p.y - l.p1.y, l.p2.x - l.p1.x, l.p2.y - l.p1.y, Squared(l.p2, l.p1), s, t);
  }

  lemma FootTimesLength(l: Line, p: Point)
    requires Squared(l.p2, l.p1) > 0.0
    ensures Squared(l.p2, l.p1) * Foot(l, p) ==
            (p.x - l.p1.x) * (l.p2.x - l.p1.x) + (p.y - l.p1.y) * (l.p2.y - l.p1.y)
  {
    Quotient((p.x - l.p1.x) * (l.p2.x - l.p1.x) + (p.y - l.p1.y) * (l.p2.y - l.p1.y), Squared(l.p2, l.p1));
  }

  lemma Quotient(a: real, b: real)
    requires b != 0.0
    ensures b * (a / b) == a
  {}

  lemma NearerAlong(l: Line, p: Point, c: real, t: real, s: real)
    requires Squared(l.p2, l.p1) * s == (p.x - l.p1.x) * (l.p2.x - l.p1.x) + (p.y - l.p1.y) * (l.p2.y - l.p1.y)
    requires Squared(l.p2, l.p1) > 0.0 && c * c - 2.0 * c * s <= t * t - 2.0 * t * s
    ensures Squared(p, Along(l, c)) <= Squared(p, Along(l, t))
  {
    SquaredAt(l, p, t, s);
    SquaredAt(l, p, c, s);
    Monotone(Squared(l.p2, l.p1), c * c - 2.0 * c * s, t * t - 2.0 * t * s);
  }

  lemma Monotone(d: real, a: real, b: real)
    requires d > 0.0 && a <= b
    ensures d * a <= d * b
  {}

  /** How far along the line its closest point is. */
  function Clamp(s: real): real { if s < 0.0 then 0.0 else if s > 1.0 then 1.0 else s }

  lemma ClosestIsAlong(l: Line, p: Point)
    requires l.p1 != l.p2 && Squared(l.p2, l.p1) != 0.0
    ensures ClosestOn(l, p) == Some(Along(l, Clamp(Foot(l, p))))
  {}

  /** No point of the line is closer than the closest point, which is a point of the line. */
  lemma ClosestOnIsClosest(l: Line, p: Point, t: real)
    requires l.p1 != l.p2 && 0.0 <= t <= 1.0
    ensures Squared(p, ClosestOn(l, p).value) <= Squared(p, Along(l, t))
  {
    ProperLine(l);
    ClosestIsAlong(l, p);
    FootTimesLength(l, p);
    Clamped(Foot(l, p), Clamp(Foot(l, p)), t);
    NearerAlong(l, p, Clamp(Foot(l, p)), t, Foot(l, p));
  }

  lemma Clamped(s: real, c: real, t: real)
    requires 0.0 <= t <= 1.0 && c == Clamp(s)
    ensures c * c - 2.0 * c * s <= t * t - 2.0 * t * s
  {
    assert (t * t - 2.0 * t * s) - (c * c - 2.0 * c * s) == (t - c) * (t + c - 2.0 * s);
    if t >= c && t + c >= 2.0 * s {
      assert (t - c) * (t + c - 2.0 * s) >= 0.0;
    } else {
      assert (c - t) * (2.0 * s - t - c) >= 0.0;
    }
  }

  // ---------------------------------------------------------------- the closest of several lines

  datatype Hit = Hit(line: Line, point: Point)

  /** Whether a point lies in the preferred direction from another; y grows downward. */
  predicate Preferred(direction: Direction, p: Point, from: Point) {
    match direction
    case NoDirection => true
    case Up => p.y < from.y
    case Down => p.y > from.y
    case ToLeft => p.x < from.x
    case ToRight => p.x > from.x
  }

  predicate Candidate(l: Line, from: Point, direction: Direction) {
    l.p1 != l.p2 && Preferred(direction, ClosestOn(l, from).value, from)
  }

  /** The first of the candidates none of the others is closer than. */
  ghost predicate IsClosest(lines: seq<Line>, from: Point, direction: Direction, best: Option<Hit>) {
    match best
    case None => forall l :: l in lines ==> !Candidate(l, from, direction)
    case Some(hit) =>
      && hit.line in lines && Candidate(hit.line, from, direction) && ClosestOn(hit.line, from) == Some(hit.point)
      && (forall l :: l in lines && Candidate(l, from, direction) ==>
            Squared(hit.point, from) <= Squared(ClosestOn(l, from).value, from))
      && exists i :: 0 <= i < |lines| && lines[i] == hit.line
                     && forall j :: 0 <= j < i && Candidate(lines[j], from, direction) ==>
                          Squared(hit.point, from) < Squared(ClosestOn(lines[j], from).value, from)
  }

  /** Where the hit lies, by coordinates: above or below, left or right of the point, with y growing downward. Among the
      lines whose closest point lies there none is nearer, and there is no hit only when there are no such lines. */
  lemma HitLiesThere(lines: seq<Line>, from: Point, direction: Direction, best: Option<Hit>)
    requires IsClosest(lines, from, direction, best)
    ensures best.Some? ==>
              && best.value.line in lines && best.value.line.p1 != best.value.line.p2
              && ClosestOn(best.value.line, from) == Some(best.value.point)
    ensures best.Some? && direction == Up ==> best.value.point.y < from.y
    ensures best.Some? && direction == Down ==> best.value.point.y > from.y
    ensures best.Some? && direction == ToLeft ==> best.value.point.x < from.x
    ensures best.Some? && direction == ToRight ==> best.value.point.x > from.x
    ensures forall l :: l in lines && l.p1 != l.p2 ==>
              var c := ClosestOn(l, from).value;
              direction == NoDirection || (direction == Up && c.y < from.y) || (direction == Down && c.y > from.y)
              || (direction == ToLeft && c.x < from.x) || (direction == ToRight && c.x > from.x) ==>
                best.Some? && Squared(best.value.point, from) <= Squared(c, from)
  {}

  /** SpanningTree::findClosestPointInLines. Distances are compared by their squares. */
  method FindClosestPointInLines(lines: seq<Line>, from: Point, direction: Direction) returns (best: Option<Hit>)
    ensures IsClosest(lines, from, direction, best)
    ensures best.Some? && direction == Up ==> best.value.point.y < from.y
    ensures best.Some? && direction == Down ==> best.value.point.y > from.y
    ensures best.Some? && direction == ToLeft ==> best.value.point.x < from.x
    ensures best.Some? && direction == ToRight ==> best.value.point.x > from.x
  {
    best := None;
    for i := 0 to |lines|
      invariant IsClosest(lines[..i], from, direction, best)
    {
      assert lines[..i + 1] == lines[..i] + [lines[i]];
      ghost var before := best;
      var p := ClosestOn(lines[i], from);
      if p.Some? && (best.None? || Squared(p.value, from) < Squared(best.value.point, from)) {
        if Preferred(direction, p.value, from) {
          best := Some(Hit(lines[i], p.value));
        }
      }
      OneLineMore(lines[..i], lines[i], from, direction, before, best);
    }
    assert lines[..|lines|] == lines;
  }

  lemma OneLineMore(lines: seq<Line>, l: Line, from: Point, direction: Direction, best: Option<Hit>,
                    better: Option<Hit>)
    requires IsClosest(lines, from, direction, best)
    requires better == if Candidate(l, from, direction)
                          && (best.None? || Squared(ClosestOn(l, from).value, from) < Squared(best.value.point, from))
                       then Some(Hit(l, ClosestOn(l, from).value)) else best
    ensures IsClosest(lines + [l], from, direction, better)
  {
    var more := lines + [l];
    if better == best && best.Some? {
      var i :| 0 <= i < |lines| && lines[i] == best.value.line
               && forall j :: 0 <= j < i && Candidate(lines[j], from, direction) ==>
                    Squared(best.value.point, from) < Squared(ClosestOn(lines[j], from).value, from);
      assert more[i] == best.value.line;
    } else if better.Some? {
      assert more[|lines|] == l;
    }
  }

  /** There is only one such hit. */
  lemma ClosestIsUnique(lines: seq<Line>, from: Point, direction: Direction, a: Option<Hit>, b: Option<Hit>)
    requires IsClosest(lines, from, direction, a) && IsClosest(lines, from, direction, b)
    ensures a == b
  {
    if a.Some? && b.Some? {
      var i :| 0 <= i < |lines| && lines[i] == a.value.line
               && forall j :: 0 <= j < i && Candidate(lines[j], from, direction) ==>
                    Squared(a.value.point, from) < Squared(ClosestOn(lines[j], from).value, from);
      var k :| 0 <= k < |lines| && lines[k] == b.value.line
               && forall j :: 0 <= j < k && Candidate(lines[j], from, direction) ==>
                    Squared(b.value.point, from) < Squared(ClosestOn(lines[j], from).value, from);
      assert i == k;
    }
  }
}
