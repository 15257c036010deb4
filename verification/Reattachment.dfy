/** What is left of a first setOrigin() or setDestination() when the same is called again for another point. */
module Reattachment {
  import opened Options
  import opened Network
  import opened NetworkSplit
  import opened Segments
  import opened ClosestLine
  import opened Lists
  import opened Wiring
  import opened Attachment
  import opened SplitSymmetry
  import opened SecondCall

  /** The vertices a call has added: all of its kind, so a second call of the kind drops them. */
  function Added(p: Plan, q: Plan): set<Name> { q.wires.Keys - p.wires.Keys }

  /** The vertice called for is among them, unless there was nothing to add. */
  lemma AddedOrThere(p: Plan, q: Plan, name: Point -> Name, point: Point, direction: Direction)
    requires Attaches(p, q, name, point, direction) && name(point) in q.wires
    ensures Added(p, q) != {} ==> name(point) in Added(p, q)
  {}

  /** Nobody is left that knows the other end of the line for a neighbour. */
  function WithoutEdge(next: map<Name, set<Name>>, a: Name, b: Name): map<Name, set<Name>>
    requires a in next && b in next
  {
    next[a := next[a] - {b}][b := next[b] - {a}]
  }

  lemma SameMaps<K, V>(m: map<K, V>, n: map<K, V>)
    requires m.Keys == n.Keys && forall k :: k in m ==> m[k] == n[k]
    ensures m == n
  {}

  lemma ValuesInside(p: Plan, name: Point -> Name, k: Name)
    requires Closed(p, name) && k in p.wires
    ensures p.wires[k].Values <= p.wires.Keys
  {
    assert Filed(p, name, k);
  }

  /** What a vertice knows among those that stay. */
  lemma LiveNext(q: Plan, gone: set<Name>, stay: set<Name>, metric: (Point, Point) -> real)
    requires q.wires.Keys - gone == stay
    ensures LiveNet(Dropped(q, gone), metric).next.Keys == stay
    ensures forall k :: k in stay ==> LiveNet(Dropped(q, gone), metric).next[k] == NetOf(q, metric).next[k] * stay
  {
    assert Dropped(q, gone).wires.Keys == stay;
  }

  // ---------------------------------------------------------------- the network that is left

  lemma SplitAdds(p: Plan, q: Plan, name: Point -> Name, first: Point, one: Option<Hit>)
    requires one.Some? && Splices(p, q, name, one.value.line, one.value.point, first)
    ensures Added(p, q) == {name(one.value.point), name(first)} && q.wires.Keys - Added(p, q) == p.wires.Keys
    ensures q.at - Added(p, q) == p.at
  {
    SplicedNeighbors(p, q, name, one.value.line, one.value.point, first);
  }

  lemma EndAmongOld(known: map<Name, Name>, b: Name, m: Name, stay: set<Name>)
    requires forall j :: j in known ==> known[j] == j
    requires b in known && known.Values <= stay && m !in stay
    ensures known[b := m].Values * stay == known.Values - {b}
  {
    ReplacedValues(known, b, m);
  }

  lemma SplicedWires(p: Plan, q: Plan, name: Point -> Name, l: Line, c: Point, first: Point, k: Name)
    requires Splices(p, q, name, l, c, first) && k in p.wires
    ensures k in q.wires
    ensures name(l.p1) in p.wires && name(l.p2) in p.wires
    ensures q.wires[k] == if k == name(l.p1) then p.wires[k][name(l.p2) := name(c)]
                          else if k == name(l.p2) then p.wires[k][name(l.p1) := name(c)] else p.wires[k]
  {}

  lemma EndsKnown(p: Plan, name: Point -> Name, l: Line)
    requires Drawn(p, name, l) && OwnNames(p.wires)
    ensures name(l.p2) in p.wires[name(l.p1)] && name(l.p1) in p.wires[name(l.p2)]
  {}

  lemma SplitNextAmongOld(p: Plan, q: Plan, name: Point -> Name, l: Line, c: Point, first: Point, k: Name)
    requires Closed(p, name) && OwnNames(p.wires) && Splices(p, q, name, l, c, first) && k in p.wires
    ensures k in q.wires
    ensures q.wires[k].Values * p.wires.Keys ==
            if k == name(l.p1) then p.wires[k].Values - {name(l.p2)}
            else if k == name(l.p2) then p.wires[k].Values - {name(l.p1)} else p.wires[k].Values
  {
    SplicedWires(p, q, name, l, c, first, k);
    EndsKnown(p, name, l);
    ValuesInside(p, name, k);
    AmongOld(p.wires, q.wires[k], name(l.p1), name(l.p2), name(c), k);
  }

  lemma AmongOld(w: Wires, after: map<Name, Name>, a: Name, b: Name, m: Name, k: Name)
    requires k in w && a in w && b in w && b in w[a] && a in w[b] && m !in w && w[k].Values <= w.Keys && OwnNames(w)
    requires after == if k == a then w[k][b := m] else if k == b then w[k][a := m] else w[k]
    ensures after.Values * w.Keys ==
            if k == a then w[k].Values - {b} else if k == b then w[k].Values - {a} else w[k].Values
  {
    if k == a {
      EndAmongOld(w[k], b, m, w.Keys);
    } else if k == b {
      EndAmongOld(w[k], a, m, w.Keys);
    }
  }

  lemma LessOneEdge(w: Wires, u: Wires, a: Name, b: Name, k: Name)
    requires k in w && k in u && a in w && b in w
    requires u[k].Values * w.Keys ==
             if k == a then w[k].Values - {b} else if k == b then w[k].Values - {a} else w[k].Values
    ensures u[k].Values * w.Keys == WithoutEdge(map n | n in w :: w[n].Values, a, b)[k]
  {}

  lemma LiveWithoutEdge(p: Plan, q: Plan, gone: set<Name>, metric: (Point, Point) -> real, a: Name, b: Name)
    requires q.wires.Keys - gone == p.wires.Keys && a in p.wires && b in p.wires
    requires forall k :: k in p.wires ==>
               q.wires[k].Values * p.wires.Keys == WithoutEdge(NetOf(p, metric).next, a, b)[k]
    ensures LiveNet(Dropped(q, gone), metric).next == WithoutEdge(NetOf(p, metric).next, a, b)
  {
    LiveNext(q, gone, p.wires.Keys, metric);
    SameMaps(LiveNet(Dropped(q, gone), metric).next, WithoutEdge(NetOf(p, metric).next, a, b));
  }

  /** With the vertices of a first call dropped, the line it split is no line of the network any more. */
  lemma SplitLineIsForgotten(p: Plan, q: Plan, name: Point -> Name, metric: (Point, Point) -> real,
                             first: Point, one: Option<Hit>)
    requires Closed(p, name) && OwnNames(p.wires)
    requires one.Some? && Splices(p, q, name, one.value.line, one.value.point, first)
    ensures LiveNet(Dropped(q, Added(p, q)), metric).next
            == WithoutEdge(NetOf(p, metric).next, name(one.value.line.p1), name(one.value.line.p2))
  {
    var a, b := name(one.value.line.p1), name(one.value.line.p2);
    SplitAdds(p, q, name, first, one);
    forall k | k in p.wires ensures q.wires[k].Values * p.wires.Keys == WithoutEdge(NetOf(p, metric).next, a, b)[k] {
      SplitNextAmongOld(p, q, name, one.value.line, one.value.point, first, k);
      LessOneEdge(p.wires, q.wires, a, b, k);
    }
    LiveWithoutEdge(p, q, Added(p, q), metric, a, b);
  }

  /** One vertice more, and whoever knows it files it under its own name. */
  predicate OneMore(w: Wires, u: Wires, v: Name) {
    v !in w && u.Keys == w.Keys + {v} && forall k :: k in w ==> u[k] == w[k] || u[k] == w[k][v := v]
  }

  lemma OneMoreShapes(w: Wires, u: Wires, v: Name, m: Name)
    requires v !in w
    requires u == w[v := map[]] || u == w[v := map[v := v]] || (m in w && u == w[v := map[m := m]][m := w[m][v := v]])
    ensures OneMore(w, u, v)
  {}

  lemma UnsplitOneMore(p: Plan, name: Point -> Name, first: Point, one: Option<Hit>)
    requires Closed(p, name) && EndsExist(p.wires, name, one) && !IsSplit(p, name, first, one)
             && name(first) !in p.wires
    ensures OneMore(p.wires, Attached(p, name, first, one).wires, name(first))
    ensures Attached(p, name, first, one).at == p.at[name(first) := first]
  {
    UnsplitShape(p, name, first, one);
    OneMoreShapes(p.wires, Attached(p, name, first, one).wires, name(first),
                  if one.None? then name(first) else name(one.value.point));
  }

  lemma OneMoreTaken(p: Plan, q: Plan, v: Name, first: Point)
    requires p.wires.Keys == p.at.Keys && OneMore(p.wires, q.wires, v) && q.at == p.at[v := first]
    ensures q.wires.Keys - Added(p, q) == p.wires.Keys && q.at - Added(p, q) == p.at
  {
    assert Added(p, q) == {v};
  }

  lemma NoneTaken(p: Plan, q: Plan)
    requires q == p
    ensures q.wires.Keys - Added(p, q) == p.wires.Keys && q.at - Added(p, q) == p.at
  {
    assert Added(p, q) == {};
  }

  lemma UnsplitAdds(p: Plan, q: Plan, name: Point -> Name, first: Point, toward: Direction, one: Option<Hit>)
    requires Closed(p, name) && Called(p, q, name, first, toward, one) && !IsSplit(p, name, first, one)
    ensures q == p || OneMore(p.wires, q.wires, name(first))
    ensures q.wires.Keys - Added(p, q) == p.wires.Keys && q.at - Added(p, q) == p.at
  {
    if name(first) in p.wires {
      NoneTaken(p, q);
    } else {
      UnsplitOneMore(p, name, first, one);
      OneMoreTaken(p, q, name(first), first);
    }
  }

  lemma OneMoreAmongOld(known: map<Name, Name>, more: map<Name, Name>, v: Name, stay: set<Name>)
    requires known.Values <= stay && v !in stay && v !in known
    requires more == known || more == known[v := v]
    ensures more.Values * stay == known.Values
  {
    if more != known { JoinedValues(known, v); }
  }

  lemma UnsplitNext(p: Plan, q: Plan, name: Point -> Name, metric: (Point, Point) -> real,
                    first: Point, toward: Direction, one: Option<Hit>, k: Name)
    requires Closed(p, name) && Called(p, q, name, first, toward, one) && !IsSplit(p, name, first, one) && k in p.wires
    ensures k in q.wires && NetOf(q, metric).next[k] * p.wires.Keys == NetOf(p, metric).next[k]
  {
    UnsplitAdds(p, q, name, first, toward, one);
    ValuesInside(p, name, k);
    if q != p {
      assert Filed(p, name, k);
      OneMoreAmongOld(p.wires[k], q.wires[k], name(first), p.wires.Keys);
    }
  }

  /** Without a split the first call leaves nothing behind. */
  lemma NothingIsForgotten(p: Plan, q: Plan, name: Point -> Name, metric: (Point, Point) -> real,
                           first: Point, toward: Direction, one: Option<Hit>)
    requires Closed(p, name) && Called(p, q, name, first, toward, one) && !IsSplit(p, name, first, one)
    ensures LiveNet(Dropped(q, Added(p, q)), metric).next == NetOf(p, metric).next
  {
    UnsplitAdds(p, q, name, first, toward, one);
    LiveNext(q, Added(p, q), p.wires.Keys, metric);
    forall k | k in p.wires ensures LiveNet(Dropped(q, Added(p, q)), metric).next[k] == NetOf(p, metric).next[k] {
      UnsplitNext(p, q, name, metric, first, toward, one, k);
    }
    SameMaps(LiveNet(Dropped(q, Added(p, q)), metric).next, NetOf(p, metric).next);
  }

  /** A second call for another point starts from the vertices of the lines, and from their network without the line the
      first call split, if it did. */
  lemma SecondOfAKind(p: Plan, q: Plan, name: Point -> Name, metric: (Point, Point) -> real,
                      first: Point, toward: Direction, one: Option<Hit>)
    requires Fits(p, name) && OwnNames(p.wires) && Called(p, q, name, first, toward, one)
    ensures IsSplit(p, name, first, one) ==> Drawn(p, name, one.value.line)
    ensures Dropped(q, Added(p, q)).at == p.at
    ensures LiveNet(Dropped(q, Added(p, q)), metric).next ==
            if IsSplit(p, name, first, one)
            then WithoutEdge(NetOf(p, metric).next, name(one.value.line.p1), name(one.value.line.p2))
            else NetOf(p, metric).next
  {
    if IsSplit(p, name, first, one) {
      SplitSplices(p, name, first, one);
      SplitAdds(p, q, name, first, one);
      SplitLineIsForgotten(p, q, name, metric, first, one);
    } else {
      UnsplitAdds(p, q, name, first, toward, one);
      NothingIsForgotten(p, q, name, metric, first, toward, one);
    }
  }

  // ---------------------------------------------------------------- the exception

  predicate EndsAmong(names: set<Name>, name: Point -> Name, l: Line) { name(l.p1) in names && name(l.p2) in names }

  lemma RefusedByKeys(q: Plan, gone: set<Name>, stay: set<Name>, name: Point -> Name, second: Point, two: Option<Hit>)
    requires q.wires.Keys - gone == stay && name(second) !in q.wires && two.Some?
    ensures Refused(q, gone, name, second, two) <==>
              && two.value.point != Point(0.0, 0.0) && name(two.value.point) !in stay + {name(second)}
              && !EndsAmong(stay + {name(second)}, name, two.value.line)
  {
    assert Placed(Dropped(q, gone), name(second), second).wires.Keys == stay + {name(second)};
  }

  lemma PieceHasNoVertice(p: Plan, q: Plan, name: Point -> Name, l: Line, c: Point, first: Point, second: Point,
                          k: Line)
    requires Fits(p, name) && l in p.lines && Splices(p, q, name, l, c, first) && name(second) !in q.wires
    requires k in q.lines && k.p1 != k.p2
    ensures EndsAmong(p.wires.Keys + {name(second)}, name, k) <==> k != Line(l.p1, c) && k != Line(c, l.p2)
  {
    LinesAfterSplit(p.lines, l, c, k);
    MiddleIsNew(p, q, name, l, c, first);
    if k in p.lines { EndsOfLines(p, name, k); }
  }

  lemma MiddleIsNew(p: Plan, q: Plan, name: Point -> Name, l: Line, c: Point, first: Point)
    requires Splices(p, q, name, l, c, first)
    ensures name(c) in q.wires && name(c) !in p.wires
    ensures q.lines == RemoveOne(p.lines, l) + [Line(l.p1, c), Line(c, l.p2)]
  {}

  lemma EndsOfLines(p: Plan, name: Point -> Name, k: Line)
    requires Fits(p, name) && k in p.lines && k.p1 != k.p2
    ensures name(k.p1) in p.wires && name(k.p2) in p.wires
  {
    assert Drawn(p, name, k);
  }

  lemma UnsplitKeepsEnds(p: Plan, q: Plan, name: Point -> Name, first: Point, one: Option<Hit>, second: Point, k: Line)
    requires Fits(p, name) && EndsExist(p.wires, name, one) && q == Attached(p, name, first, one)
    requires !IsSplit(p, name, first, one) && k in q.lines && k.p1 != k.p2
    ensures EndsAmong(p.wires.Keys + {name(second)}, name, k)
  {
    LinesStay(p, q, name, first, one);
    EndsOfLines(p, name, k);
  }

  lemma LinesStay(p: Plan, q: Plan, name: Point -> Name, first: Point, one: Option<Hit>)
    requires EndsExist(p.wires, name, one) && q == Attached(p, name, first, one) && !IsSplit(p, name, first, one)
    ensures q.lines == p.lines
  {
    UnsplitLines(p, name, first, one);
  }

  lemma RefusedAfterSplit(p: Plan, q: Plan, name: Point -> Name, l: Line, c: Point, first: Point, second: Point,
                          two: Option<Hit>)
    requires Fits(p, name) && l in p.lines && Splices(p, q, name, l, c, first) && name(second) !in q.wires
    requires two.Some? && two.value.line in q.lines && two.value.line.p1 != two.value.line.p2
    ensures Refused(q, Added(p, q), name, second, two) <==>
              && two.value.point != Point(0.0, 0.0) && name(two.value.point) !in p.wires.Keys + {name(second)}
              && (two.value.line == Line(l.p1, c) || two.value.line == Line(c, l.p2))
  {
    SplitAdds(p, q, name, first, Some(Hit(l, c)));
    PieceHasNoVertice(p, q, name, l, c, first, second, two.value.line);
    RefusedByKeys(q, Added(p, q), p.wires.Keys, name, second, two);
  }

  lemma NotRefusedUnsplit(p: Plan, q: Plan, name: Point -> Name, first: Point, toward: Direction, one: Option<Hit>,
                          second: Point, two: Option<Hit>)
    requires Fits(p, name) && Called(p, q, name, first, toward, one) && !IsSplit(p, name, first, one)
    requires name(second) !in q.wires && two.Some? && two.value.line in q.lines
             && two.value.line.p1 != two.value.line.p2
    ensures !Refused(q, Added(p, q), name, second, two)
  {
    UnsplitAdds(p, q, name, first, toward, one);
    UnsplitKeepsEnds(p, q, name, first, one, second, two.value.line);
    RefusedByKeys(q, Added(p, q), p.wires.Keys, name, second, two);
  }

  /** It ends in an exception exactly when a line is to be split and that is one of the two pieces the first call
      left. */
  lemma RefusedExactly(p: Plan, q: Plan, name: Point -> Name, first: Point, toward: Direction, one: Option<Hit>,
                       second: Point, onward: Direction, two: Option<Hit>)
    requires Fits(p, name) && Called(p, q, name, first, toward, one)
    requires name(second) !in q.wires && IsClosest(q.lines, second, onward, two)
    ensures Refused(q, Added(p, q), name, second, two) <==>
              && IsSplit(p, name, first, one) && two.Some? && two.value.point != Point(0.0, 0.0)
              && name(two.value.point) !in p.wires.Keys + {name(second)}
              && (two.value.line == Line(one.value.line.p1, one.value.point)
                  || two.value.line == Line(one.value.point, one.value.line.p2))
  {
    if two.None? {
    } else if IsSplit(p, name, first, one) {
      SplitSplices(p, name, first, one);
      RefusedAfterSplit(p, q, name, one.value.line, one.value.point, first, second, two);
    } else {
      NotRefusedUnsplit(p, q, name, first, toward, one, second, two);
    }
  }
}
