/** The tree initializeFromLines() lays out: its vertices are the ends of the lines, and two of them
    are neighbours exactly when a line joins them. */
module LaidOut {
  import opened Network
  import opened Segments
  import opened Wiring

  predicate IsEnd(lines: seq<Line>, e: Point) { exists l :: l in lines && (e == l.p1 || e == l.p2) }

  predicate JoinsNames(l: Line, name: Point -> Name, a: Name, b: Name) {
    (name(l.p1) == a && name(l.p2) == b) || (name(l.p1) == b && name(l.p2) == a)
  }

  predicate Joins(lines: seq<Line>, name: Point -> Name, a: Name, b: Name) {
    exists l :: l in lines && JoinsNames(l, name, a, b)
  }

  /** The vertices are the ends of the lines. */
  ghost predicate EndsPlaced(at: map<Name, Point>, name: Point -> Name, lines: seq<Line>) {
    && (forall k :: k in at ==> IsEnd(lines, at[k]) && name(at[k]) == k)
    && (forall e :: IsEnd(lines, e) ==> name(e) in at)
  }

  predicate KnowsByName(w: Wires, a: Name, b: Name) { a in w && b in w[a] && w[a][b] == b }

  /** Whoever a line joins is filed, under the name that is theirs, and nobody else. */
  ghost predicate Wired(w: Wires, name: Point -> Name, lines: seq<Line>) {
    && (forall a, b :: a in w && b in w[a] ==> KnowsByName(w, a, b) && Joins(lines, name, a, b))
    && (forall a, b :: Joins(lines, name, a, b) ==> KnowsByName(w, a, b))
  }

  ghost predicate Laid(p: Plan, name: Point -> Name, lines: seq<Line>) {
    p.wires.Keys == p.at.Keys && EndsPlaced(p.at, name, lines) && Wired(p.wires, name, lines)
  }

  lemma OneMoreEnd(lines: seq<Line>, l: Line, e: Point)
    ensures IsEnd(lines + [l], e) <==> IsEnd(lines, e) || e == l.p1 || e == l.p2
  {
    if k :| k in lines && (e == k.p1 || e == k.p2) {
      assert k in lines + [l];
    }
    assert l in lines + [l];
  }

  lemma OneMoreJoin(lines: seq<Line>, name: Point -> Name, l: Line, a: Name, b: Name)
    ensures Joins(lines + [l], name, a, b) <==> Joins(lines, name, a, b) || JoinsNames(l, name, a, b)
  {
    if k :| k in lines && JoinsNames(k, name, a, b) {
      assert k in lines + [l];
    }
    assert l in lines + [l];
  }

  /** Where the vertices are with one more line. */
  lemma WithLineAt(p: Plan, name: Point -> Name, l: Line)
    requires p.wires.Keys == p.at.Keys
    ensures var q := WithLine(p, name, l);
            && q.wires.Keys == q.at.Keys == p.at.Keys + {name(l.p1), name(l.p2)}
            && forall k :: k in q.at ==>
                 q.at[k] == if k in p.at then p.at[k] else if k == name(l.p1) then l.p1 else l.p2
  {}

  lemma EndsPlacedWith(p: Plan, name: Point -> Name, lines: seq<Line>, l: Line)
    requires p.wires.Keys == p.at.Keys && EndsPlaced(p.at, name, lines)
    ensures EndsPlaced(WithLine(p, name, l).at, name, lines + [l])
  {
    WithLineAt(p, name, l);
    forall e ensures IsEnd(lines + [l], e) <==> IsEnd(lines, e) || e == l.p1 || e == l.p2 {
      OneMoreEnd(lines, l, e);
    }
  }

  lemma EnsuredFiled(p: Plan, name: Point -> Name, l: Line, a: Name, b: Name)
    ensures var w := Ensured(Ensured(p, name, l.p1), name, l.p2).wires;
            && name(l.p1) in w && name(l.p2) in w
            && (a in w && b in w[a] <==> a in p.wires && b in p.wires[a])
            && (a in w && b in w[a] ==> w[a][b] == p.wires[a][b])
  {}

  /** Who is filed with one more line. */
  lemma WithLineFiled(p: Plan, name: Point -> Name, l: Line, a: Name, b: Name)
    requires forall x, y :: x in p.wires && y in p.wires[x] ==> p.wires[x][y] == y
    ensures var w := WithLine(p, name, l).wires;
            && (KnowsByName(w, a, b) <==> KnowsByName(p.wires, a, b) || JoinsNames(l, name, a, b))
            && (a in w && b in w[a] ==> w[a][b] == b)
  {
    EnsuredFiled(p, name, l, a, b);
    JoinedFiled(Ensured(Ensured(p, name, l.p1), name, l.p2).wires, name(l.p1), name(l.p2), a, b);
  }

  lemma JoinedFiled(w: Wires, x: Name, y: Name, a: Name, b: Name)
    requires x in w && y in w && (a in w && b in w[a] ==> w[a][b] == b)
    ensures var u := Joined(Joined(w, x, y), y, x);
            && (KnowsByName(u, a, b) <==> KnowsByName(w, a, b) || (a == x && b == y) || (a == y && b == x))
            && (a in u && b in u[a] ==> u[a][b] == b)
  {}

  lemma WiredWith(p: Plan, name: Point -> Name, lines: seq<Line>, l: Line)
    requires Wired(p.wires, name, lines)
    ensures Wired(WithLine(p, name, l).wires, name, lines + [l])
  {
    var w := WithLine(p, name, l).wires;
    forall a, b | a in w && b in w[a] ensures KnowsByName(w, a, b) && Joins(lines + [l], name, a, b) {
      WithLineFiled(p, name, l, a, b);
      OneMoreJoin(lines, name, l, a, b);
    }
    forall a, b | Joins(lines + [l], name, a, b) ensures KnowsByName(w, a, b) {
      WithLineFiled(p, name, l, a, b);
      OneMoreJoin(lines, name, l, a, b);
    }
  }

  lemma WithLineLaid(p: Plan, name: Point -> Name, lines: seq<Line>, l: Line)
    requires Laid(p, name, lines)
    ensures Laid(WithLine(p, name, l), name, lines + [l])
  {
    WithLineAt(p, name, l);
    EndsPlacedWith(p, name, lines, l);
    WiredWith(p, name, lines, l);
  }

  lemma NothingLaid(p: Plan, name: Point -> Name, lines: seq<Line>)
    requires lines == [] && p.wires == map[] && p.at == map[]
    ensures Laid(p, name, lines)
  {}

  /** Whatever the lines. */
  lemma {:induction false} FromLinesLaid(lines: seq<Line>, name: Point -> Name)
    ensures Laid(FromLines(lines, name), name, lines)
  {
    if lines == [] {
      NothingLaid(FromLines(lines, name), name, lines);
    } else {
      var before, last := lines[..|lines| - 1], lines[|lines| - 1];
      FromLinesLaid(before, name);
      LaidWithLast(FromLines(before, name), FromLines(lines, name), name, before, last, lines);
    }
  }

  lemma LaidWithLast(p: Plan, q: Plan, name: Point -> Name, before: seq<Line>, last: Line, lines: seq<Line>)
    requires Laid(p, name, before) && lines == before + [last] && q == WithLine(p, name, last)
    ensures Laid(q, name, lines)
  {
    WithLineLaid(p, name, before, last);
  }

  /** Two vertices are neighbours exactly when a line joins them. */
  lemma NeighborsAreJoined(lines: seq<Line>, name: Point -> Name, metric: (Point, Point) -> real, a: Name, b: Name)
    ensures var g := NetOf(FromLines(lines, name), metric); a in g.next && b in g.next[a] <==> Joins(lines, name, a, b)
  {
    FromLinesLaid(lines, name);
    var w := FromLines(lines, name).wires;
    if a in w && b in w[a].Values {
      var j :| j in w[a] && w[a][j] == b;
      assert KnowsByName(w, a, j);
    }
    if Joins(lines, name, a, b) {
      assert KnowsByName(w, a, b);
    }
  }

  /** A proper line is drawn exactly when its ends are the points that got their names first. */
  lemma LaidDrawn(p: Plan, name: Point -> Name, lines: seq<Line>, l: Line)
    requires Laid(p, name, lines) && l in lines
    ensures name(l.p1) in p.at && name(l.p2) in p.at
    ensures Drawn(p, name, l) <==> p.at[name(l.p1)] == l.p1 && p.at[name(l.p2)] == l.p2
  {
    var a, b := name(l.p1), name(l.p2);
    assert IsEnd(lines, l.p1) && IsEnd(lines, l.p2);
    assert JoinsNames(l, name, a, b) && JoinsNames(l, name, b, a);
    assert Joins(lines, name, a, b) && Joins(lines, name, b, a);
    assert KnowsByName(p.wires, a, b) && KnowsByName(p.wires, b, a);
  }

  lemma LaidClosed(p: Plan, name: Point -> Name, lines: seq<Line>)
    requires Laid(p, name, lines)
    ensures Closed(p, name)
  {
    forall k | k in p.at ensures Wiring.Filed(p, name, k) {
      forall j | j in p.wires[k] ensures j in p.at && p.wires[k][j] in p.at {
        assert KnowsByName(p.wires, k, j);
        var l :| l in lines && JoinsNames(l, name, k, j);
        assert IsEnd(lines, l.p1) && IsEnd(lines, l.p2);
      }
    }
  }

  /** Whatever the lines, the ends of each are vertices. */
  lemma TreeIsRooted(lines: seq<Line>, name: Point -> Name)
    ensures Rooted(TreeOf(lines, name), name)
  {
    FromLinesLaid(lines, name);
    var p := TreeOf(lines, name);
    LaidClosed(p, name, lines);
    forall l | l in lines ensures name(l.p1) in p.wires && name(l.p2) in p.wires {
      LaidDrawn(p, name, lines, l);
    }
  }

  /** Every end of a proper line sits where the line says: nothing else got its name first. */
  predicate EndsInPlace(p: Plan, name: Point -> Name) {
    forall l :: l in p.lines && l.p1 != l.p2 ==>
      && name(l.p1) in p.at && p.at[name(l.p1)] == l.p1
      && name(l.p2) in p.at && p.at[name(l.p2)] == l.p2
  }

  /** The tree fits its lines exactly when that is so. */
  lemma TreeFits(lines: seq<Line>, name: Point -> Name)
    ensures Fits(TreeOf(lines, name), name) <==> EndsInPlace(TreeOf(lines, name), name)
  {
    FromLinesLaid(lines, name);
    var p := TreeOf(lines, name);
    LaidClosed(p, name, lines);
    forall l | l in lines ensures Drawn(p, name, l) <==> p.at[name(l.p1)] == l.p1 && p.at[name(l.p2)] == l.p2 {
      LaidDrawn(p, name, lines, l);
    }
  }

  /** As it is when no two ends share a name. */
  lemma OwnNamesFit(lines: seq<Line>, name: Point -> Name)
    requires forall e, f :: IsEnd(lines, e) && IsEnd(lines, f) && name(e) == name(f) ==> e == f
    ensures Fits(TreeOf(lines, name), name)
  {
    FromLinesLaid(lines, name);
    var p := TreeOf(lines, name);
    forall l | l in lines ensures p.at[name(l.p1)] == l.p1 && p.at[name(l.p2)] == l.p2 {
      assert IsEnd(lines, l.p1) && IsEnd(lines, l.p2);
    }
    TreeFits(lines, name);
  }
}
