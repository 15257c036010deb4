/** Lines between points of the plane, and the lists of lines a path is handed out as. */
module Segments {
  import opened Network

  datatype Line = Line(p1: Point, p2: Point)

  /** Each line starts where the one before it ends. */
  predicate Linked(lines: seq<Line>) {
    forall i :: 0 <= i < |lines| - 1 ==> lines[i].p2 == lines[i + 1].p1
  }

  function TotalLength(metric: (Point, Point) -> real, lines: seq<Line>): real {
    if lines == [] then 0.0 else metric(lines[0].p1, lines[0].p2) + TotalLength(metric, lines[1..])
  }

  /** A chain of lines from one point to the other. */
  predicate Connects(lines: seq<Line>, from: Point, to: Point) {
    lines != [] && Linked(lines) && lines[0].p1 == from && lines[|lines| - 1].p2 == to
  }

  function Between(points: seq<Point>): (lines: seq<Line>)
    ensures |lines| == if points == [] then 0 else |points| - 1
    ensures forall i :: 0 <= i < |lines| ==> lines[i] == Line(points[i], points[i + 1])
  {
    if |points| <= 1 then [] else [Line(points[0], points[1])] + Between(points[1..])
  }

  lemma OneLineOn(lines: seq<Line>, a: Point, b: Point, c: Point)
    requires Connects(lines, a, b)
    ensures Connects(lines + [Line(b, c)], a, c)
  {}

  lemma {:induction false} OnePointMore(points: seq<Point>, p: Point)
    requires points != []
    ensures Between(points + [p]) == Between(points) + [Line(points[|points| - 1], p)]
  {
    var more := points + [p];
    var lines, others := Between(more), Between(points) + [Line(points[|points| - 1], p)];
    forall k | 0 <= k < |lines| ensures lines[k] == others[k] {
      assert lines[k] == Line(more[k], more[k + 1]);
    }
  }

  /** Line::List::fromPoints */
  method FromPoints(points: seq<Point>) returns (result: seq<Line>)
    ensures result == Between(points)
  {
    result := [];
    var i := 0;
    while i < |points| - 1
      invariant 0 <= i && (i == 0 || i < |points|)
      invariant |result| == i && forall j :: 0 <= j < i ==> result[j] == Line(points[j], points[j + 1])
    {
      result := result + [Line(points[i], points[i + 1])];
      i := i + 1;
    }
    ghost var lines := Between(points);
    assert |result| == |lines|;
    forall k | 0 <= k < |lines| ensures result[k] == lines[k] {
      assert lines[k] == Line(points[k], points[k + 1]);
      assert result[k] == Line(points[k], points[k + 1]);
    }
  }

  /** Where the vertices of a walk are. */
  function Points(g: Net, w: seq<Name>): seq<Point>
    requires OnNet(g, w)
  {
    seq(|w|, i requires 0 <= i < |w| => g.at[w[i]])
  }

  /** The lines of a walk run from its first vertice to its last and are as long as the walk. */
  lemma {:induction false} WalkAsLines(g: Net, a: Name, b: Name, w: seq<Name>)
    requires IsWalk(g, a, b, w)
    ensures TotalLength(g.metric, Between(Points(g, w))) == WalkLength(g, w)
    ensures |w| > 1 ==> Connects(Between(Points(g, w)), g.at[a], g.at[b])
    decreases |w|
  {
    if |w| > 1 {
      WalkAsLines(g, w[1], b, w[1..]);
      assert Points(g, w[1..]) == Points(g, w)[1..];
      assert Between(Points(g, w))[1..] == Between(Points(g, w[1..]));
    }
  }
}
