/** makeRectangleFromThreeLines: which three lines of a path are three sides of a rectangle, which rectangle that is,
    and where the line that closes it runs. */
module ThreeSides {
  import opened Options
  import opened Lines

  datatype Rectangle = Rectangle(x: int, y: int, w: int, h: int)

  /** QRectF::isValid */
  predicate IsValid(r: Rectangle) { r.w > 0 && r.h > 0 }

  // ---------------------------------------------------------------- points to a rectangle

  function Better(best: Point, p: Point, right: bool, bottom: bool): Point {
    if (if right then p.x >= best.x else p.x <= best.x) && (if bottom then p.y >= best.y else p.y <= best.y)
    then p else best
  }

  /** Point::List's corner searches: the last point that is no worse than the best so far. */
  function Corner(ps: seq<Point>, right: bool, bottom: bool): (p: Point)
    requires ps != []
    ensures p in ps
  {
    var last := ps[|ps| - 1];
    if |ps| == 1 then last else Better(Corner(ps[..|ps| - 1], right, bottom), last, right, bottom)
  }

  lemma CornerOfFour(a: Point, b: Point, c: Point, d: Point, right: bool, bottom: bool)
    ensures Corner([a, b, c, d], right, bottom) ==
            Better(Better(Better(a, b, right, bottom), c, right, bottom), d, right, bottom)
  {
    assert [a, b, c, d][..3] == [a, b, c] && [a, b, c][..2] == [a, b] && [a, b][..1] == [a];
    assert Corner([a, b], right, bottom) == Better(a, b, right, bottom);
    assert Corner([a, b, c], right, bottom) == Better(Better(a, b, right, bottom), c, right, bottom);
  }

  /** Rectangle::fromPoints */
  function RectangleOf(ps: seq<Point>): Rectangle
    requires ps != []
  {
    var topLeft, topRight := Corner(ps, false, false), Corner(ps, true, false);
    var bottomLeft, bottomRight := Corner(ps, false, true), Corner(ps, true, true);
    if topLeft.x == bottomLeft.x && topRight.x == bottomRight.x && topLeft.y == topRight.y
        && bottomLeft.y == bottomRight.y
    then Rectangle(topLeft.x, topLeft.y, topRight.x - topLeft.x, bottomLeft.y - topLeft.y)
    else Rectangle(0, 0, 0, 0)
  }

  /** A valid rectangle has four different corners, so four points that give one all differ. */
  lemma FourDifferentPoints(a: Point, b: Point, c: Point, d: Point)
    requires IsValid(RectangleOf([a, b, c, d]))
    ensures a != b && a != d
  {
    var ps := [a, b, c, d];
    assert forall p :: p in ps <==> p == a || p == b || p == c || p == d;
  }

  // ---------------------------------------------------------------- the intersection

  /** FlatGeo::getLineABC */
  function A(l: Line): int { l.p2.y - l.p1.y }

  function B(l: Line): int { l.p1.x - l.p2.x }

  function C(l: Line): int { A(l) * l.p1.x + B(l) * l.p1.y }

  predicate InBox(l: Line, p: Point) {
    && Min(l.p1.x, l.p2.x) <= p.x <= Max(l.p1.x, l.p2.x)
    && Min(l.p1.y, l.p2.y) <= p.y <= Max(l.p1.y, l.p2.y)
  }

  /** FlatGeo::intersection of two axis-aligned lines, as Line::intersects reads it: the origin
      of the plane stands for "no intersection". */
  function Intersection(l1: Line, l2: Line): Option<Point> {
    if A(l1) * B(l2) - A(l2) * B(l1) == 0 then None
    else
      var p := if IsVertical(l1) then Point(l1.p1.x, l2.p1.y) else Point(l2.p1.x, l1.p1.y);
      if InBox(l1, p) && InBox(l2, p) && p != Point(0, 0) then Some(p) else None
  }

  /** The point chosen for axis-aligned lines is the solution of the source's two equations. */
  lemma IntersectionSolves(l1: Line, l2: Line)
    requires AxisAligned(l1) && AxisAligned(l2) && Intersection(l1, l2).Some?
    ensures var p, det := Intersection(l1, l2).value, A(l1) * B(l2) - A(l2) * B(l1);
            p.x * det == B(l2) * C(l1) - B(l1) * C(l2) && p.y * det == A(l1) * C(l2) - A(l2) * C(l1)
    ensures !IsZero(l1) && !IsZero(l2) && IsVertical(l1) != IsVertical(l2)
  {
    Perpendicular(l1, l2);
    if IsVertical(l1) {
      assert B(l1) == 0 && A(l2) == 0;
    } else {
      assert A(l1) == 0 && B(l2) == 0;
    }
  }

  lemma Perpendicular(l1: Line, l2: Line)
    requires AxisAligned(l1) && AxisAligned(l2) && A(l1) * B(l2) - A(l2) * B(l1) != 0
    ensures !IsZero(l1) && !IsZero(l2) && IsVertical(l1) != IsVertical(l2)
  {
    assert (IsVertical(l1) <==> B(l1) == 0) && (IsHorizontal(l1) <==> A(l1) == 0);
    assert (IsVertical(l2) <==> B(l2) == 0) && (IsHorizontal(l2) <==> A(l2) == 0);
  }

  // ---------------------------------------------------------------- three lines to a rectangle

  /** rayInDirection: to the edge of the canvas. */
  function Ray(origin: Point, d: Direction, right: int, bottom: int): Line {
    match d
    case Up => Line(origin, Point(origin.x, 0))
    case Down => Line(origin, Point(origin.x, bottom))
    case ToLeft => Line(origin, Point(0, origin.y))
    case ToRight => Line(origin, Point(right, origin.y))
    case NoDirection => Line(origin, Point(0, 0))
  }

  /** The one direction three lines with three different directions leave out, or the first of them. */
  function FinalDirection(a: Direction, b: Direction, c: Direction): Direction {
    if a == b || b == c || a == c then NoDirection
    else if Up !in {a, b, c} then Up
    else if Down !in {a, b, c} then Down
    else if ToLeft !in {a, b, c} then ToLeft
    else if ToRight !in {a, b, c} then ToRight
    else NoDirection
  }

  /** makeRectangleFromThreeLines: the rectangle and the line that closes it. */
  function ClosingLine(l1: Line, l2: Line, l3: Line, right: int, bottom: int): Option<(Rectangle, Line)> {
    var d := FinalDirection(DirectionOf(l1), DirectionOf(l2), DirectionOf(l3));
    if d.NoDirection? then None
    else
      match Intersection(Ray(l3.p2, d, right, bottom), l1)
      case None => None
      case Some(p) =>
        var r := RectangleOf([p, l1.p2, l2.p2, l3.p2]);
        if IsValid(r) then Some((r, Line(p, l3.p2))) else None
  }

  /** What the closing line is: it ends where the third line ends, starts on the first line
      before its end, and runs across it. */
  lemma ClosingLineFacts(l1: Line, l2: Line, l3: Line, right: int, bottom: int)
    requires AxisAligned(l1) && ClosingLine(l1, l2, l3, right, bottom).Some?
    ensures var c := ClosingLine(l1, l2, l3, right, bottom).value.1;
            && c.p2 == l3.p2 && AxisAligned(c) && AxisAligned(Line(l1.p1, c.p1)) && !IsZero(c)
            && InBox(l1, c.p1) && c.p1 != l1.p2 && IsVertical(l1) != IsVertical(c)
  {
    var d := FinalDirection(DirectionOf(l1), DirectionOf(l2), DirectionOf(l3));
    var ray := Ray(l3.p2, d, right, bottom);
    var c := ClosingLine(l1, l2, l3, right, bottom).value.1;
    assert AxisAligned(ray);
    IntersectionSolves(ray, l1);
    FourDifferentPoints(c.p1, l1.p2, l2.p2, l3.p2);
  }

  // ---------------------------------------------------------------- when three lines are three sides

  /** A connected path of horizontal and vertical lines, some of them possibly of no length. */
  predicate Path(ls: seq<Line>) { ls != [] && Chain(ls) && AllAxisAligned(ls) }

  /** The rectangle with these opposite corners. */
  function Spanned(p: Point, q: Point): Rectangle {
    Rectangle(Min(p.x, q.x), Min(p.y, q.y), Abs(p.x - q.x), Abs(p.y - q.y))
  }

  /** The least rectangle over four points. */
  function Over(a: Point, b: Point, c: Point, d: Point): Rectangle {
    var left, top := Min(Min(a.x, b.x), Min(c.x, d.x)), Min(Min(a.y, b.y), Min(c.y, d.y));
    Rectangle(left, top, Max(Max(a.x, b.x), Max(c.x, d.x)) - left, Max(Max(a.y, b.y), Max(c.y, d.y)) - top)
  }

  /** A valid rectangle made of four points is the least one over them. */
  lemma ValidIsOver(a: Point, b: Point, c: Point, d: Point)
    requires IsValid(RectangleOf([a, b, c, d]))
    ensures RectangleOf([a, b, c, d]) == Over(a, b, c, d)
  {
    CornerOfFour(a, b, c, d, false, false);
    CornerOfFour(a, b, c, d, true, false);
    CornerOfFour(a, b, c, d, false, true);
    CornerOfFour(a, b, c, d, true, true);
  }

  /** There, across, and back again, no farther than there. */
  predicate AreThreeSides(l1: Line, l2: Line, l3: Line) {
    && !IsZero(l1) && !IsZero(l2) && !IsZero(l3) && Length(l3) <= Length(l1)
    && if IsHorizontal(l1) then IsVertical(l2) && IsHorizontal(l3) && (l1.p1.x < l1.p2.x <==> l3.p2.x < l3.p1.x)
       else IsVertical(l1) && IsHorizontal(l2) && IsVertical(l3) && (l1.p1.y < l1.p2.y <==> l3.p2.y < l3.p1.y)
  }

  /** The point of the first line opposite the end of the third. */
  function FourthCorner(l1: Line, l3: Line): Point {
    if IsHorizontal(l1) then Point(l3.p2.x, l1.p2.y) else Point(l1.p2.x, l3.p2.y)
  }

  /** It is not beyond the edge of the canvas that the closing line runs towards, and not the origin, which the search
      for an intersection takes for none. */
  predicate InReach(l2: Line, p: Point, right: int, bottom: int) {
    && p != Point(0, 0)
    && match DirectionOf(l2)
       case Down => p.y >= 0
       case Up => p.y <= bottom
       case ToRight => p.x >= 0
       case ToLeft => p.x <= right
       case NoDirection => false
  }

  lemma NotParallel(a: int, b: int)
    requires a != 0 && b != 0
    ensures a * b != 0
  {}

  /** Perpendicular lines that have a length meet where their boxes do. */
  lemma PerpendicularMeet(l1: Line, l2: Line, p: Point)
    requires AxisAligned(l1) && AxisAligned(l2) && !IsZero(l1) && !IsZero(l2) && IsVertical(l1) != IsVertical(l2)
    requires p == if IsVertical(l1) then Point(l1.p1.x, l2.p1.y) else Point(l2.p1.x, l1.p1.y)
    ensures Intersection(l1, l2) == if InBox(l1, p) && InBox(l2, p) && p != Point(0, 0) then Some(p) else None
  {
    if IsVertical(l1) {
      NotParallel(A(l1), B(l2));
      assert B(l1) == 0 && A(l2) == 0;
    } else {
      NotParallel(A(l2), B(l1));
      assert A(l1) == 0 && B(l2) == 0;
    }
  }

  /** Four corners in the order of a walk round them. */
  lemma RoundTheCorners(p: Point, q: Point, r: Point, s: Point)
    requires if p.y == q.y then q.x == r.x && r.y == s.y && s.x == p.x
             else p.x == q.x && q.y == r.y && r.x == s.x && s.y == p.y
    requires p.x != r.x && p.y != r.y
    ensures RectangleOf([p, q, r, s]) == Spanned(q, s) && IsValid(Spanned(q, s))
  {
    CornerOfFour(p, q, r, s, false, false);
    CornerOfFour(p, q, r, s, true, false);
    CornerOfFour(p, q, r, s, false, true);
    CornerOfFour(p, q, r, s, true, true);
  }

  /** And only then do four points of which neighbours share an axis make a valid rectangle. */
  lemma OnlyCorners(p: Point, q: Point, r: Point, s: Point)
    requires (p.x == q.x || p.y == q.y) && (q.x == r.x || q.y == r.y) && (r.x == s.x || r.y == s.y)
    requires IsValid(RectangleOf([p, q, r, s])) && (p.x == s.x || p.y == s.y)
    ensures if p.y == q.y then q.x == r.x && r.y == s.y && s.x == p.x
            else p.x == q.x && q.y == r.y && r.x == s.x && s.y == p.y
    ensures p.x != r.x && p.y != r.y
  {
    CornerOfFour(p, q, r, s, false, false);
    CornerOfFour(p, q, r, s, true, false);
    CornerOfFour(p, q, r, s, false, true);
    CornerOfFour(p, q, r, s, true, true);
  }

  lemma ClosingLineIsOver(l1: Line, l2: Line, l3: Line, right: int, bottom: int)
    requires ClosingLine(l1, l2, l3, right, bottom).Some?
    ensures var (r, c) := ClosingLine(l1, l2, l3, right, bottom).value;
            r == Over(c.p1, l1.p2, l2.p2, l3.p2) && c.p2 == l3.p2
  {
    ValidIsOver(ClosingLine(l1, l2, l3, right, bottom).value.1.p1, l1.p2, l2.p2, l3.p2);
  }

  lemma ThreeSidesClose(l1: Line, l2: Line, l3: Line, right: int, bottom: int)
    requires l1.p2 == l2.p1 && l2.p2 == l3.p1 && AreThreeSides(l1, l2, l3)
    ensures var p := FourthCorner(l1, l3);
            ClosingLine(l1, l2, l3, right, bottom) ==
            if InReach(l2, p, right, bottom) then Some((Spanned(l1.p2, l3.p2), Line(p, l3.p2))) else None
  {
    var p, d := FourthCorner(l1, l3), FinalDirection(DirectionOf(l1), DirectionOf(l2), DirectionOf(l3));
    RoundTheCorners(p, l1.p2, l2.p2, l3.p2);
    var ray := Ray(l3.p2, d, right, bottom);
    if !IsZero(ray) {
      PerpendicularMeet(ray, l1, p);
    }
  }

  lemma OnlyThreeSidesClose(l1: Line, l2: Line, l3: Line, right: int, bottom: int)
    requires l1.p2 == l2.p1 && l2.p2 == l3.p1 && AxisAligned(l1) && AxisAligned(l2) && AxisAligned(l3)
    requires ClosingLine(l1, l2, l3, right, bottom).Some?
    ensures AreThreeSides(l1, l2, l3)
  {
    var p := ClosingLine(l1, l2, l3, right, bottom).value.1.p1;
    ClosingLineFacts(l1, l2, l3, right, bottom);
    OnlyCorners(p, l1.p2, l2.p2, l3.p2);
  }

  /** Three lines of a path are closed to a rectangle exactly when they go there, across, and back no farther than
      there, and the fourth corner is in reach; and the rectangle is the one they span. */
  lemma ClosesExactly(l1: Line, l2: Line, l3: Line, right: int, bottom: int)
    requires l1.p2 == l2.p1 && l2.p2 == l3.p1 && AxisAligned(l1) && AxisAligned(l2) && AxisAligned(l3)
    ensures var p := FourthCorner(l1, l3);
            ClosingLine(l1, l2, l3, right, bottom) ==
            if AreThreeSides(l1, l2, l3) && InReach(l2, p, right, bottom)
            then Some((Spanned(l1.p2, l3.p2), Line(p, l3.p2))) else None
  {
    if AreThreeSides(l1, l2, l3) {
      ThreeSidesClose(l1, l2, l3, right, bottom);
    } else if ClosingLine(l1, l2, l3, right, bottom).Some? {
      OnlyThreeSidesClose(l1, l2, l3, right, bottom);
    }
  }
}
