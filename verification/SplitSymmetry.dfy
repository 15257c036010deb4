/** Whether neighbours stay each other's neighbours when a line is split. */
module SplitSymmetry {
  import opened Options
  import opened Network
  import opened NetworkSplit
  import opened Segments
  import opened ClosestLine
  import opened Wiring
  import opened Attachment
  import opened LaidOut

  predicate Symmetric(next: map<Name, set<Name>>) {
    forall a, b :: a in next && b in next[a] ==> b in next && a in next[b]
  }

  /** Everyone is filed under the name that is theirs. */
  predicate OwnNames(w: Wires) { forall k, j :: k in w && j in w[k] ==> w[k][j] == j }

  lemma ReplacedValues(known: map<Name, Name>, b: Name, m: Name)
    requires forall j :: j in known ==> known[j] == j
    requires b in known
    ensures known[b := m].Values == known.Values - {b} + {m}
  {
    var after := known[b := m];
    assert after[b] == m;
    forall n | n in known.Values && n != b ensures n in after.Values {
      assert after[n] == n;
    }
  }

  /** The new vertice takes the place of the other end, at either end. */
  lemma SplitSymmetric(g: map<Name, set<Name>>, h: map<Name, set<Name>>, a: Name, b: Name, m: Name, v: Name)
    requires Symmetric(g) && a in g && b in g && a != b && m !in g && v !in g && m != v
    requires h == g[a := g[a] - {b} + {m}][b := g[b] - {a} + {m}][m := {a, b, v}][v := {m}]
    ensures Symmetric(h)
  {
    forall x, y | x in h && y in h[x] ensures y in h && x in h[y] {
      if x in g && y in g {
        assert y in g[x] && x in g[y];
      }
    }
  }

  /** A first split leaves neighbours each other's neighbours. */
  lemma FirstSplitStaysSymmetric(p: Plan, name: Point -> Name, metric: (Point, Point) -> real, point: Point,
                                 best: Option<Hit>)
    requires Hits(p, name, point, best) && IsSplit(p, name, point, best)
    requires OwnNames(p.wires) && Symmetric(NetOf(p, metric).next)
    ensures Symmetric(NetOf(Attached(p, name, point, best), metric).next)
  {
    SplitSplices(p, name, point, best);
    SpliceStaysSymmetric(p, Attached(p, name, point, best), name, metric, best.value.line, best.value.point, point);
  }

  lemma SpliceStaysSymmetric(p: Plan, h: Plan, name: Point -> Name, metric: (Point, Point) -> real,
                             l: Line, c: Point, point: Point)
    requires Splices(p, h, name, l, c, point) && OwnNames(p.wires) && Symmetric(NetOf(p, metric).next)
    ensures Symmetric(NetOf(h, metric).next)
  {
    var a, b, m, v := name(l.p1), name(l.p2), name(c), name(point);
    var g := NetOf(p, metric).next;
    SpliceNext(p, h, name, metric, l, c, point);
    SplitSymmetric(g, NetOf(h, metric).next, a, b, m, v);
  }

  lemma SpliceNext(p: Plan, h: Plan, name: Point -> Name, metric: (Point, Point) -> real, l: Line, c: Point,
                   point: Point)
    requires Splices(p, h, name, l, c, point) && OwnNames(p.wires)
    ensures var g, a, b, m, v := NetOf(p, metric).next, name(l.p1), name(l.p2), name(c), name(point);
            NetOf(h, metric).next == g[a := g[a] - {b} + {m}][b := g[b] - {a} + {m}][m := {a, b, v}][v := {m}]
  {
    SplicedNeighbors(p, h, name, l, c, point);
    ReplacedValues(p.wires[name(l.p1)], name(l.p2), name(c));
    ReplacedValues(p.wires[name(l.p2)], name(l.p1), name(c));
  }

  lemma EdgeAfterReplacing(known: map<Name, Name>, b: Name, m: Name)
    requires m != b
    ensures b in known[b := m].Values <==> exists j :: j in known && j != b && known[j] == b
  {
    var after := known[b := m];
    if b in after.Values {
      var j :| j in after && after[j] == b;
      assert j in known && j != b && known[j] == b;
    }
    if j :| j in known && j != b && known[j] == b {
      assert after[j] == b;
    }
  }

  /** The edge from one end of a split line to the other survives exactly when the other end is filed
      under some other name. */
  lemma OldEdgeSurvives(p: Plan, h: Plan, name: Point -> Name, l: Line, c: Point, point: Point)
    requires Splices(p, h, name, l, c, point)
    ensures var a, b := name(l.p1), name(l.p2);
            && a in h.wires && b in h.wires
            && (b in h.wires[a].Values <==> exists j :: j in p.wires[a] && j != b && p.wires[a][j] == b)
            && (a in h.wires[b].Values <==> exists j :: j in p.wires[b] && j != a && p.wires[b][j] == a)
  {
    EdgeAfterReplacing(p.wires[name(l.p1)], name(l.p2), name(c));
    EdgeAfterReplacing(p.wires[name(l.p2)], name(l.p1), name(c));
  }

  /** When a piece of a split line is split again, its old end still knows the middle of the first
      split, but not the other way round. */
  lemma SecondSplitIsLopsided(p: Plan, h: Plan, k: Plan, name: Point -> Name, l: Line, c: Point, first: Point,
                              d: Point, second: Point)
    requires Splices(p, h, name, l, c, first) && Splices(h, k, name, Line(l.p1, c), d, second)
    ensures var a, m := name(l.p1), name(c);
            a in k.wires && m in k.wires && m in k.wires[a].Values && a !in k.wires[m].Values
  {
    OldEdgeSurvives(h, k, name, Line(l.p1, c), d, second);
    assert h.wires[name(l.p1)][name(l.p2)] == name(c);
  }

  /** To begin with, everyone is filed under their own name and neighbours know each other. */
  lemma FromLinesSymmetric(lines: seq<Line>, name: Point -> Name, metric: (Point, Point) -> real)
    ensures OwnNames(FromLines(lines, name).wires) && Symmetric(NetOf(FromLines(lines, name), metric).next)
  {
    FromLinesLaid(lines, name);
    var g := NetOf(FromLines(lines, name), metric).next;
    forall a, b | a in g && b in g[a] ensures b in g && a in g[b] {
      NeighborsAreJoined(lines, name, metric, a, b);
      NeighborsAreJoined(lines, name, metric, b, a);
      JoinsBothWays(lines, name, a, b);
    }
  }

  lemma JoinsBothWays(lines: seq<Line>, name: Point -> Name, a: Name, b: Name)
    ensures Joins(lines, name, a, b) <==> Joins(lines, name, b, a)
  {
    if l :| l in lines && JoinsNames(l, name, a, b) { assert JoinsNames(l, name, b, a); }
    if l :| l in lines && JoinsNames(l, name, b, a) { assert JoinsNames(l, name, a, b); }
  }
}
