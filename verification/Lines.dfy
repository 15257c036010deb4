/** Points, lines and chains of lines on an integer grid, y growing downwards. */
module Lines {

  datatype Point = Point(x: int, y: int)

  datatype Line = Line(p1: Point, p2: Point)

  datatype Direction = NoDirection | Up | Down | ToLeft | ToRight

  function Min(a: int, b: int): int { if a < b then a else b }

  function Max(a: int, b: int): int { if a < b then b else a }

  function Abs(a: int): nat { if a < 0 then -a else a }

  predicate IsVertical(l: Line) { l.p1.x == l.p2.x }

  predicate IsHorizontal(l: Line) { l.p1.y == l.p2.y }

  predicate AxisAligned(l: Line) { IsVertical(l) || IsHorizontal(l) }

  predicate IsZero(l: Line) { l.p1 == l.p2 }

  /** Line::direction(), by signs: the bearing of an axis-aligned line is 0, 90, 180 or 270. */
  function DirectionOf(l: Line): Direction {
    if IsZero(l) then NoDirection
    else if IsVertical(l) then (if l.p1.y > l.p2.y then Up else Down)
    else if IsHorizontal(l) then (if l.p1.x > l.p2.x then ToLeft else ToRight)
    else NoDirection
  }

  /** Line::length(), for an axis-aligned line. */
  function Length(l: Line): nat { Abs(l.p1.x - l.p2.x) + Abs(l.p1.y - l.p2.y) }

  /** Line::sharesAxisWith */
  predicate SharesAxis(a: Line, b: Line) {
    if IsVertical(a) && IsVertical(b) then a.p1.x == b.p1.x
    else IsHorizontal(a) && IsHorizontal(b) && a.p1.y == b.p1.y
  }

  /** The point (x, y) of the plane lies on an axis-aligned line. */
  predicate On(l: Line, x: real, y: real) {
    && Min(l.p1.x, l.p2.x) as real <= x <= Max(l.p1.x, l.p2.x) as real
    && Min(l.p1.y, l.p2.y) as real <= y <= Max(l.p1.y, l.p2.y) as real
  }

  // ---------------------------------------------------------------- chains

  /** Each line starts where the one before it ends. */
  predicate Chain(ls: seq<Line>) { forall i :: 0 <= i < |ls| - 1 ==> ls[i].p2 == ls[i + 1].p1 }

  predicate AllAxisAligned(ls: seq<Line>) { forall i :: 0 <= i < |ls| ==> AxisAligned(ls[i]) }

  predicate NoneZero(ls: seq<Line>) { forall i :: 0 <= i < |ls| ==> !IsZero(ls[i]) }

  function TotalLength(ls: seq<Line>): nat {
    if ls == [] then 0 else TotalLength(ls[..|ls| - 1]) + Length(ls[|ls| - 1])
  }

  ghost predicate Covers(ls: seq<Line>, x: real, y: real) { exists i :: 0 <= i < |ls| && On(ls[i], x, y) }

  /** Both lists are chains between the same two points. */
  predicate SameEnds(a: seq<Line>, b: seq<Line>) {
    a != [] && b != [] && a[0].p1 == b[0].p1 && a[|a| - 1].p2 == b[|b| - 1].p2
  }

  lemma {:induction false} TotalOfConcat(a: seq<Line>, b: seq<Line>)
    ensures TotalLength(a + b) == TotalLength(a) + TotalLength(b)
    decreases |b|
  {
    if b == [] {
      assert a + b == a;
    } else {
      assert (a + b)[..|a + b| - 1] == a + b[..|b| - 1];
      TotalOfConcat(a, b[..|b| - 1]);
    }
  }

  lemma CoversConcat(a: seq<Line>, b: seq<Line>, x: real, y: real)
    ensures Covers(a + b, x, y) <==> Covers(a, x, y) || Covers(b, x, y)
  {
    if Covers(a, x, y) {
      var i :| 0 <= i < |a| && On(a[i], x, y);
      assert On((a + b)[i], x, y);
    }
    if Covers(b, x, y) {
      var i :| 0 <= i < |b| && On(b[i], x, y);
      assert On((a + b)[|a| + i], x, y);
    }
  }
}
