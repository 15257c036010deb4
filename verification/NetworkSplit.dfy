/** What attaching an ad-hoc vertice does to the distances of a network: nothing. */
module NetworkSplit {
  import opened Network

  /** Every bound on the way between old vertices stays as it was. */
  ghost predicate SameDistances(g: Net, h: Net) {
    forall x, y, d :: x in g.next && y in g.next ==> (Within(g, x, y, d) <==> Within(h, x, y, d))
  }

  /** Distances are what the bounds say, so the shortest distances stay as well. */
  lemma ShortestByBounds(g: Net, a: Name, b: Name, d: Distance)
    ensures Shortest(g, a, b, d) <==>
            match d
            case Infinite => forall x :: !Within(g, a, b, x)
            case Finite(x) => Within(g, a, b, x) && forall y :: Within(g, a, b, y) ==> x <= y
  {
    forall w | IsWalk(g, a, b, w) ensures Within(g, a, b, WalkLength(g, w)) {
      assert Walks(g, a, b, w, WalkLength(g, w));
    }
    if d.Finite? && Within(g, a, b, d.length) && (forall y :: Within(g, a, b, y) ==> d.length <= y) {
      var w, y :| Walks(g, a, b, w, y) && y <= d.length;
      assert Within(g, a, b, y);
    }
  }

  lemma SameShortest(g: Net, h: Net, a: Name, b: Name, d: Distance)
    requires SameDistances(g, h) && a in g.next && b in g.next
    ensures Shortest(g, a, b, d) <==> Shortest(h, a, b, d)
  {
    ShortestByBounds(g, a, b, d);
    ShortestByBounds(h, a, b, d);
  }

  lemma SameDistancesTwice(g: Net, h: Net, k: Net)
    requires SameDistances(g, h) && SameDistances(h, k) && g.next.Keys <= h.next.Keys
    ensures SameDistances(g, k)
  {}

  lemma StepThen(g: Net, a: Name, b: Name, c: Name, limit: real)
    requires Valid(g) && a in g.next && b in g.next[a] && Within(g, b, c, limit)
    ensures Within(g, a, c, Step(g, a, b) + limit)
  {
    var w, y :| Walks(g, b, c, w, y) && y <= limit;
    PrependStep(g, a, b, c, w, y);
  }

  lemma WithinMore(g: Net, a: Name, b: Name, d: real, e: real)
    requires Within(g, a, b, d) && d <= e
    ensures Within(g, a, b, e)
  {}

  lemma StayWithin(g: Net, a: Name, d: real)
    requires a in g.next && a in g.at && d >= 0.0
    ensures Within(g, a, a, d)
  {
    assert Walks(g, a, a, [a], 0.0);
  }

  // ---------------------------------------------------------------- a line split in two

  /** h is g with the line between a and b split at m and a new vertice v joined to m. The edges
      between a and b may or may not be left; those to and from m are there in both directions. */
  ghost predicate Split(g: Net, h: Net, a: Name, b: Name, m: Name, v: Name) {
    && Valid(g) && Valid(h) && h.metric == g.metric
    && a in g.next && b in g.next && m !in g.next && v !in g.next && m != v
    && b in g.next[a] && a in g.next[b]
    && h.next.Keys == g.next.Keys + {m, v}
    && (forall n :: n in g.next ==> h.at[n] == g.at[n])
    && (forall n :: n in g.next && n != a && n != b ==> h.next[n] == g.next[n])
    && g.next[a] - {b} <= h.next[a] <= g.next[a] + {m} && m in h.next[a]
    && g.next[b] - {a} <= h.next[b] <= g.next[b] + {m} && m in h.next[b]
    && h.next[m] == {a, b, v} && h.next[v] == {m}
    && Step(h, a, m) + Step(h, m, b) == Step(g, a, b)
    && Step(h, b, m) + Step(h, m, a) == Step(g, b, a)
  }

  lemma SplitStep(g: Net, h: Net, a: Name, b: Name, m: Name, v: Name, x: Name, y: Name)
    requires Split(g, h, a, b, m, v) && x in g.next && y in g.next
    ensures Step(h, x, y) == Step(g, x, y)
  {}

  /** Any walk of the old network is matched in the new one. */
  lemma {:induction false} SplitKeepsWalk(g: Net, h: Net, a: Name, b: Name, m: Name, v: Name, x: Name, y: Name,
                                          w: seq<Name>)
    requires Split(g, h, a, b, m, v) && IsWalk(g, x, y, w)
    ensures Within(h, x, y, WalkLength(g, w))
    decreases |w|
  {
    if |w| == 1 {
      StayWithin(h, x, 0.0);
    } else {
      var z, rest := w[1], WalkLength(g, w[1..]);
      assert IsWalk(g, z, y, w[1..]) && z in g.next[x];
      SplitKeepsWalk(g, h, a, b, m, v, z, y, w[1..]);
      SplitStep(g, h, a, b, m, v, x, z);
      if (x == a && z == b) || (x == b && z == a) {
        StepThen(h, m, z, y, rest);
        StepThen(h, x, m, y, Step(h, m, z) + rest);
      } else {
        StepThen(h, x, z, y, rest);
      }
    }
  }

  /** What a walk of the new network, ending at an old vertice, means in the old one. */
  ghost predicate Meant(g: Net, h: Net, a: Name, b: Name, m: Name, v: Name, x: Name, y: Name, length: real)
    requires Split(g, h, a, b, m, v)
  {
    if x == m then Within(g, a, y, length - Step(h, m, a)) || Within(g, b, y, length - Step(h, m, b))
    else if x == v then
      Within(g, a, y, length - Step(h, v, m) - Step(h, m, a)) || Within(g, b, y, length - Step(h, v, m) - Step(h, m, b))
    else Within(g, x, y, length)
  }

  lemma {:induction false} SplitAddsNoShortcut(g: Net, h: Net, a: Name, b: Name, m: Name, v: Name,
                                               x: Name, y: Name, w: seq<Name>)
    requires Split(g, h, a, b, m, v) && IsWalk(h, x, y, w) && y in g.next
    ensures Meant(g, h, a, b, m, v, x, y, WalkLength(h, w))
    decreases |w|
  {
    if |w| == 1 {
      StayWithin(g, x, 0.0);
    } else {
      var z := w[1];
      assert IsWalk(h, z, y, w[1..]) && z in h.next[x];
      SplitAddsNoShortcut(g, h, a, b, m, v, z, y, w[1..]);
      MeantStep(g, h, a, b, m, v, x, z, y, WalkLength(h, w[1..]));
    }
  }

  lemma MeantStep(g: Net, h: Net, a: Name, b: Name, m: Name, v: Name, x: Name, z: Name, y: Name, rest: real)
    requires Split(g, h, a, b, m, v) && x in h.next && z in h.next[x]
    requires Meant(g, h, a, b, m, v, z, y, rest)
    ensures Meant(g, h, a, b, m, v, x, y, Step(h, x, z) + rest)
  {
    var length := Step(h, x, z) + rest;
    if x == m {
      if z == v { FromSpur(g, h, a, b, m, v, y, rest); }
    } else if x == v {
    } else if z == m {
      IntoSplit(g, h, a, b, m, v, x, y, rest);
    } else {
      assert z in g.next[x];
      SplitStep(g, h, a, b, m, v, x, z);
      StepThen(g, x, z, y, rest);
    }
  }

  lemma FromSpur(g: Net, h: Net, a: Name, b: Name, m: Name, v: Name, y: Name, rest: real)
    requires Split(g, h, a, b, m, v) && Meant(g, h, a, b, m, v, v, y, rest)
    ensures Meant(g, h, a, b, m, v, m, y, Step(h, m, v) + rest)
  {
    assert Step(h, m, v) >= 0.0 && Step(h, v, m) >= 0.0;
    if Within(g, a, y, rest - Step(h, v, m) - Step(h, m, a)) {
      WithinMore(g, a, y, rest - Step(h, v, m) - Step(h, m, a), Step(h, m, v) + rest - Step(h, m, a));
    } else {
      WithinMore(g, b, y, rest - Step(h, v, m) - Step(h, m, b), Step(h, m, v) + rest - Step(h, m, b));
    }
  }

  lemma IntoSplit(g: Net, h: Net, a: Name, b: Name, m: Name, v: Name, x: Name, y: Name, rest: real)
    requires Split(g, h, a, b, m, v) && (x == a || x == b) && Meant(g, h, a, b, m, v, m, y, rest)
    ensures Within(g, x, y, Step(h, x, m) + rest)
  {
    assert Step(h, x, m) >= 0.0 && Step(h, m, a) >= 0.0 && Step(h, m, b) >= 0.0;
    var z := if Within(g, a, y, rest - Step(h, m, a)) then a else b;
    if x == z {
      WithinMore(g, x, y, rest - Step(h, m, z), Step(h, x, m) + rest);
    } else {
      StepThen(g, x, z, y, rest - Step(h, m, z));
    }
  }

  /** Splitting a line changes no distance between vertices that were there before. */
  lemma SplitKeepsDistances(g: Net, h: Net, a: Name, b: Name, m: Name, v: Name)
    requires Split(g, h, a, b, m, v)
    ensures SameDistances(g, h)
  {
    forall x, y, d | x in g.next && y in g.next ensures Within(g, x, y, d) <==> Within(h, x, y, d) {
      if Within(g, x, y, d) {
        var w, l :| Walks(g, x, y, w, l) && l <= d;
        SplitKeepsWalk(g, h, a, b, m, v, x, y, w);
        WithinMore(h, x, y, l, d);
      }
      if Within(h, x, y, d) {
        var w, l :| Walks(h, x, y, w, l) && l <= d;
        SplitAddsNoShortcut(g, h, a, b, m, v, x, y, w);
        WithinMore(g, x, y, l, d);
      }
    }
  }

  /** From the new vertice, the way to an old one goes over the foot of the perpendicular and on
      from one end of the line or the other. */
  lemma DistanceFromSpur(g: Net, h: Net, a: Name, b: Name, m: Name, v: Name, y: Name, d: real)
    requires Split(g, h, a, b, m, v) && y in g.next
    ensures Within(h, v, y, d) <==>
              Within(g, a, y, d - Step(h, v, m) - Step(h, m, a)) || Within(g, b, y, d - Step(h, v, m) - Step(h, m, b))
  {
    SplitKeepsDistances(g, h, a, b, m, v);
    if Within(h, v, y, d) {
      var w, l :| Walks(h, v, y, w, l) && l <= d;
      SplitAddsNoShortcut(g, h, a, b, m, v, v, y, w);
      var z := if Within(g, a, y, l - Step(h, v, m) - Step(h, m, a)) then a else b;
      WithinMore(g, z, y, l - Step(h, v, m) - Step(h, m, z), d - Step(h, v, m) - Step(h, m, z));
    }
    forall z | z in {a, b} && Within(g, z, y, d - Step(h, v, m) - Step(h, m, z)) ensures Within(h, v, y, d) {
      var rest := d - Step(h, v, m) - Step(h, m, z);
      StepThen(h, m, z, y, rest);
      StepThen(h, v, m, y, Step(h, m, z) + rest);
    }
  }

  /** What a walk of the new network, ending at the new vertice v, means in the old one. */
  ghost predicate MeantTo(g: Net, h: Net, a: Name, b: Name, m: Name, v: Name, x: Name, length: real)
    requires Split(g, h, a, b, m, v)
  {
    if x == v then length >= 0.0
    else if x == m then length >= Step(h, m, v)
    else
      || Within(g, x, a, length - Step(h, a, m) - Step(h, m, v))
      || Within(g, x, b, length - Step(h, b, m) - Step(h, m, v))
  }

  lemma {:induction false} NonNegativeWalk(g: Net, w: seq<Name>)
    requires OnNet(g, w) && NonNegative(g.metric)
    ensures WalkLength(g, w) >= 0.0
  {
    if |w| > 1 {
      NonNegativeWalk(g, w[1..]);
      assert Step(g, w[0], w[1]) >= 0.0;
    }
  }

  lemma NonNegativeWithin(g: Net, a: Name, b: Name, d: real)
    requires NonNegative(g.metric) && Within(g, a, b, d)
    ensures d >= 0.0
  {
    var w, y :| Walks(g, a, b, w, y) && y <= d;
    NonNegativeWalk(g, w);
  }

  lemma {:induction false} SplitWalkToSpur(g: Net, h: Net, a: Name, b: Name, m: Name, v: Name, x: Name, w: seq<Name>)
    requires Split(g, h, a, b, m, v) && IsWalk(h, x, v, w)
    ensures MeantTo(g, h, a, b, m, v, x, WalkLength(h, w))
    decreases |w|
  {
    if |w| > 1 {
      var z := w[1];
      assert IsWalk(h, z, v, w[1..]) && z in h.next[x];
      SplitWalkToSpur(g, h, a, b, m, v, z, w[1..]);
      NonNegativeWalk(h, w[1..]);
      MeantToStep(g, h, a, b, m, v, x, z, WalkLength(h, w[1..]));
    }
  }

  lemma MeantToStep(g: Net, h: Net, a: Name, b: Name, m: Name, v: Name, x: Name, z: Name, rest: real)
    requires Split(g, h, a, b, m, v) && x in h.next && z in h.next[x] && rest >= 0.0
    requires MeantTo(g, h, a, b, m, v, z, rest)
    ensures MeantTo(g, h, a, b, m, v, x, Step(h, x, z) + rest)
  {
    assert Step(h, x, z) >= 0.0;
    if x == m {
      if z != v { FromMiddle(g, h, a, b, m, v, z, rest); }
    } else if x != v {
      if z == m {
        StayWithin(g, x, Step(h, x, m) + rest - Step(h, x, m) - Step(h, m, v));
      } else {
        assert z in g.next[x];
        SplitStep(g, h, a, b, m, v, x, z);
        OldStepTo(g, h, a, b, m, v, x, z, rest);
      }
    }
  }

  lemma FromMiddle(g: Net, h: Net, a: Name, b: Name, m: Name, v: Name, z: Name, rest: real)
    requires Split(g, h, a, b, m, v) && z in g.next && MeantTo(g, h, a, b, m, v, z, rest)
    ensures rest >= Step(h, m, v)
  {
    var e := if Within(g, z, a, rest - Step(h, a, m) - Step(h, m, v)) then a else b;
    NonNegativeWithin(g, z, e, rest - Step(h, e, m) - Step(h, m, v));
    assert Step(h, e, m) >= 0.0;
  }

  lemma OldStepTo(g: Net, h: Net, a: Name, b: Name, m: Name, v: Name, x: Name, z: Name, rest: real)
    requires Split(g, h, a, b, m, v) && x in g.next && z in g.next[x] && z in g.next
             && MeantTo(g, h, a, b, m, v, z, rest)
    ensures MeantTo(g, h, a, b, m, v, x, Step(g, x, z) + rest)
  {
    var e := if Within(g, z, a, rest - Step(h, a, m) - Step(h, m, v)) then a else b;
    StepThen(g, x, z, e, rest - Step(h, e, m) - Step(h, m, v));
  }

  /** To the new vertice, the way from an old one goes to one end of the line or the other and on over
      the foot of the perpendicular. */
  lemma DistanceToSpur(g: Net, h: Net, a: Name, b: Name, m: Name, v: Name, x: Name, d: real)
    requires Split(g, h, a, b, m, v) && x in g.next
    ensures Within(h, x, v, d) <==>
              Within(g, x, a, d - Step(h, a, m) - Step(h, m, v)) || Within(g, x, b, d - Step(h, b, m) - Step(h, m, v))
  {
    if Within(h, x, v, d) {
      var w, l :| Walks(h, x, v, w, l) && l <= d;
      SplitWalkToSpur(g, h, a, b, m, v, x, w);
      var e := if Within(g, x, a, l - Step(h, a, m) - Step(h, m, v)) then a else b;
      WithinMore(g, x, e, l - Step(h, e, m) - Step(h, m, v), d - Step(h, e, m) - Step(h, m, v));
    }
    SplitKeepsDistances(g, h, a, b, m, v);
    forall e | e in {a, b} && Within(g, x, e, d - Step(h, e, m) - Step(h, m, v)) ensures Within(h, x, v, d) {
      var rest := d - Step(h, e, m) - Step(h, m, v);
      ThenStep(h, x, e, m, rest);
      ThenStep(h, x, m, v, rest + Step(h, e, m));
    }
  }

  lemma ThenStep(g: Net, a: Name, b: Name, c: Name, limit: real)
    requires Valid(g) && b in g.next && c in g.next[b] && Within(g, a, b, limit)
    ensures Within(g, a, c, limit + Step(g, b, c))
  {
    var w, y :| Walks(g, a, b, w, y) && y <= limit;
    ExtendWalk(g, a, b, w, y, c);
  }

  /** The foot of the perpendicular is one step from the new vertice, and no way there is shorter. */
  lemma DistanceToFoot(g: Net, h: Net, a: Name, b: Name, m: Name, v: Name, d: real)
    requires Split(g, h, a, b, m, v)
    ensures Within(h, v, m, d) <==> d >= Step(h, v, m)
  {
    if d >= Step(h, v, m) {
      StayWithin(h, m, d - Step(h, v, m));
      StepThen(h, v, m, m, d - Step(h, v, m));
    }
    if Within(h, v, m, d) {
      var w, l :| Walks(h, v, m, w, l) && l <= d;
      assert w[1] == m && IsWalk(h, m, m, w[1..]);
      NonNegativeWalk(h, w[1..]);
    }
  }

  lemma DistanceFromFoot(g: Net, h: Net, a: Name, b: Name, m: Name, v: Name, d: real)
    requires Split(g, h, a, b, m, v)
    ensures Within(h, m, v, d) <==> d >= Step(h, m, v)
  {
    if d >= Step(h, m, v) {
      StayWithin(h, v, d - Step(h, m, v));
      StepThen(h, m, v, v, d - Step(h, m, v));
    }
    if Within(h, m, v, d) {
      var w, l :| Walks(h, m, v, w, l) && l <= d;
      SplitWalkToSpur(g, h, a, b, m, v, m, w);
    }
  }

  // ---------------------------------------------------------------- from one new vertice to another

  /** The ends of a line, the foot of the perpendicular it is split at, and the vertice joined there. */
  datatype Cut = Cut(a: Name, b: Name, foot: Name, spur: Name)

  predicate OnMap(h: Net, c: Cut) { c.a in h.at && c.b in h.at && c.foot in h.at && c.spur in h.at }

  ghost predicate SplitBy(g: Net, h: Net, c: Cut) { Split(g, h, c.a, c.b, c.foot, c.spur) && OnMap(h, c) }

  /** From the new vertice to y in at most d, told by the network before: over the foot, and unless that is y on from
      one end of the line that was split. */
  ghost predicate LeavesSpur(g: Net, h: Net, c: Cut, y: Name, d: real)
    requires OnMap(h, c)
  {
    if y == c.foot then d >= Step(h, c.spur, c.foot)
    else
      || Within(g, c.a, y, d - Step(h, c.spur, c.foot) - Step(h, c.foot, c.a))
      || Within(g, c.b, y, d - Step(h, c.spur, c.foot) - Step(h, c.foot, c.b))
  }

  /** From x to the new vertice. */
  ghost predicate ReachesSpur(g: Net, h: Net, c: Cut, x: Name, d: real)
    requires OnMap(h, c)
  {
    if x == c.foot then d >= Step(h, c.foot, c.spur)
    else
      || Within(g, x, c.a, d - Step(h, c.a, c.foot) - Step(h, c.foot, c.spur))
      || Within(g, x, c.b, d - Step(h, c.b, c.foot) - Step(h, c.foot, c.spur))
  }

  lemma LeavingSpur(g: Net, h: Net, c: Cut, y: Name, d: real)
    requires SplitBy(g, h, c) && (y in g.next || y == c.foot)
    ensures Within(h, c.spur, y, d) <==> LeavesSpur(g, h, c, y, d)
  {
    if y == c.foot {
      DistanceToFoot(g, h, c.a, c.b, c.foot, c.spur, d);
    } else {
      DistanceFromSpur(g, h, c.a, c.b, c.foot, c.spur, y, d);
    }
  }

  lemma ReachingSpur(g: Net, h: Net, c: Cut, x: Name, d: real)
    requires SplitBy(g, h, c) && (x in g.next || x == c.foot)
    ensures Within(h, x, c.spur, d) <==> ReachesSpur(g, h, c, x, d)
  {
    if x == c.foot {
      DistanceFromFoot(g, h, c.a, c.b, c.foot, c.spur, d);
    } else {
      DistanceToSpur(g, h, c.a, c.b, c.foot, c.spur, x, d);
    }
  }

  /** The line split second joins old vertices and the foot of the first split. */
  predicate OverOldEnds(g: Net, one: Cut, two: Cut) {
    (two.a in g.next || two.a == one.foot) && (two.b in g.next || two.b == one.foot)
  }

  /** From the vertice attached first to the one attached second in at most d, over both feet: from the first along the
      line split first, through the original network, to an end of the line split second, whose foot leads on. */
  ghost predicate ToSecond(g: Net, h: Net, k: Net, one: Cut, two: Cut, d: real)
    requires OnMap(h, one) && OnMap(k, two)
  {
    || LeavesSpur(g, h, one, two.a, d - Step(k, two.a, two.foot) - Step(k, two.foot, two.spur))
    || LeavesSpur(g, h, one, two.b, d - Step(k, two.b, two.foot) - Step(k, two.foot, two.spur))
  }

  /** And back. */
  ghost predicate ToFirst(g: Net, h: Net, k: Net, one: Cut, two: Cut, d: real)
    requires OnMap(h, one) && OnMap(k, two)
  {
    || ReachesSpur(g, h, one, two.a, d - Step(k, two.spur, two.foot) - Step(k, two.foot, two.a))
    || ReachesSpur(g, h, one, two.b, d - Step(k, two.spur, two.foot) - Step(k, two.foot, two.b))
  }

  lemma FirstSpurIsOld(g: Net, h: Net, k: Net, one: Cut, two: Cut)
    requires SplitBy(g, h, one) && SplitBy(h, k, two)
    ensures one.spur in h.next && one.spur != two.foot
  {}

  lemma SpurToSpur(g: Net, h: Net, k: Net, one: Cut, two: Cut, d: real)
    requires SplitBy(g, h, one) && SplitBy(h, k, two) && OverOldEnds(g, one, two)
    ensures Within(k, one.spur, two.spur, d) <==> ToSecond(g, h, k, one, two, d)
  {
    FirstSpurIsOld(g, h, k, one, two);
    ReachingSpur(h, k, two, one.spur, d);
    LeavingSpur(g, h, one, two.a, d - Step(k, two.a, two.foot) - Step(k, two.foot, two.spur));
    LeavingSpur(g, h, one, two.b, d - Step(k, two.b, two.foot) - Step(k, two.foot, two.spur));
  }

  lemma SpurBackToSpur(g: Net, h: Net, k: Net, one: Cut, two: Cut, d: real)
    requires SplitBy(g, h, one) && SplitBy(h, k, two) && OverOldEnds(g, one, two)
    ensures Within(k, two.spur, one.spur, d) <==> ToFirst(g, h, k, one, two, d)
  {
    FirstSpurIsOld(g, h, k, one, two);
    LeavingSpur(h, k, two, one.spur, d);
    ReachingSpur(g, h, one, two.a, d - Step(k, two.spur, two.foot) - Step(k, two.foot, two.a));
    ReachingSpur(g, h, one, two.b, d - Step(k, two.spur, two.foot) - Step(k, two.foot, two.b));
  }

  // ---------------------------------------------------------------- vertices that nobody else leads to

  /** h is g with more vertices, which no vertice of g has for a neighbour. */
  ghost predicate PartOf(g: Net, h: Net) {
    && Valid(g) && Valid(h) && h.metric == g.metric && g.next.Keys <= h.next.Keys
    && forall n :: n in g.next ==> h.at[n] == g.at[n] && h.next[n] == g.next[n]
  }

  lemma {:induction false} PartWalk(g: Net, h: Net, x: Name, y: Name, w: seq<Name>)
    requires PartOf(g, h) && x in g.next
    ensures IsWalk(g, x, y, w) <==> IsWalk(h, x, y, w)
    ensures IsWalk(g, x, y, w) ==> WalkLength(g, w) == WalkLength(h, w)
    decreases |w|
  {
    if |w| > 1 && w[0] == x && (IsWalk(g, x, y, w) || IsWalk(h, x, y, w)) {
      assert w[1] in h.next[x] && h.next[x] == g.next[x];
      PartWalk(g, h, w[1], y, w[1..]);
      assert IsWalk(g, x, y, w) ==> IsWalk(g, w[1], y, w[1..]);
      assert IsWalk(h, x, y, w) ==> IsWalk(h, w[1], y, w[1..]);
      LongerWalk(g, x, y, w);
      LongerWalk(h, x, y, w);
    }
  }

  lemma LongerWalk(g: Net, x: Name, y: Name, w: seq<Name>)
    requires |w| > 1 && w[0] == x && x in g.next && x in g.at && w[1] in g.next[x] && IsWalk(g, w[1], y, w[1..])
    ensures IsWalk(g, x, y, w)
  {
    forall i | 0 <= i < |w| - 1 ensures w[i + 1] in g.next[w[i]] {
      if i > 0 { assert w[1..][i - 1 + 1] in g.next[w[1..][i - 1]]; }
    }
    forall i | 0 <= i < |w| ensures w[i] in g.next && w[i] in g.at {
      if i > 0 { assert w[1..][i - 1] in g.next; }
    }
  }

  lemma PartKeepsDistances(g: Net, h: Net)
    requires PartOf(g, h)
    ensures SameDistances(g, h)
  {
    forall x, y, d | x in g.next && y in g.next ensures Within(g, x, y, d) <==> Within(h, x, y, d) {
      if Within(g, x, y, d) {
        var w, l :| Walks(g, x, y, w, l) && l <= d;
        PartWalk(g, h, x, y, w);
        assert Walks(h, x, y, w, l);
      }
      if Within(h, x, y, d) {
        var w, l :| Walks(h, x, y, w, l) && l <= d;
        PartWalk(g, h, x, y, w);
        assert Walks(g, x, y, w, l);
      }
    }
  }

  // ---------------------------------------------------------------- a vertice added beside the network

  /** h is g with a new vertice v that has at most itself and c for neighbours, and no other old
      vertice knows it. */
  ghost predicate Beside(g: Net, h: Net, v: Name, c: Name) {
    && Valid(g) && Valid(h) && h.metric == g.metric && v !in g.next && c in g.next
    && h.next.Keys == g.next.Keys + {v}
    && (forall n :: n in g.next ==> h.at[n] == g.at[n] && g.next[n] <= h.next[n])
    && (forall n :: n in g.next && n != c ==> h.next[n] == g.next[n])
    && h.next[c] <= g.next[c] + {v} && h.next[v] <= {c, v}
  }

  lemma {:induction false} BesideKeepsWalk(g: Net, h: Net, v: Name, c: Name, x: Name, y: Name, w: seq<Name>)
    requires Beside(g, h, v, c) && IsWalk(g, x, y, w)
    ensures Walks(h, x, y, w, WalkLength(g, w))
    decreases |w|
  {
    if |w| > 1 {
      assert IsWalk(g, w[1], y, w[1..]);
      BesideKeepsWalk(g, h, v, c, w[1], y, w[1..]);
      forall i | 0 <= i < |w| - 1 ensures w[i + 1] in h.next[w[i]] {
        assert w[i + 1] in g.next[w[i]];
      }
    }
  }

  lemma {:induction false} BesideAddsNoShortcut(g: Net, h: Net, v: Name, c: Name, x: Name, y: Name, w: seq<Name>)
    requires Beside(g, h, v, c) && IsWalk(h, x, y, w) && y in g.next
    ensures Within(g, if x == v then c else x, y, WalkLength(h, w))
    decreases |w|
  {
    if |w| == 1 {
      StayWithin(g, x, 0.0);
    } else {
      var z, rest := w[1], WalkLength(h, w[1..]);
      assert IsWalk(h, z, y, w[1..]) && z in h.next[x];
      BesideAddsNoShortcut(g, h, v, c, z, y, w[1..]);
      assert Step(h, x, z) >= 0.0;
      if x == v || z == v {
        WithinMore(g, if x == v then c else x, y, rest, WalkLength(h, w));
      } else {
        assert z in g.next[x];
        StepThen(g, x, z, y, rest);
      }
    }
  }

  lemma BesideKeepsDistances(g: Net, h: Net, v: Name, c: Name)
    requires Beside(g, h, v, c)
    ensures SameDistances(g, h)
  {
    forall x, y, d | x in g.next && y in g.next ensures Within(g, x, y, d) <==> Within(h, x, y, d) {
      if Within(g, x, y, d) {
        var w, l :| Walks(g, x, y, w, l) && l <= d;
        BesideKeepsWalk(g, h, v, c, x, y, w);
      }
      if Within(h, x, y, d) {
        var w, l :| Walks(h, x, y, w, l) && l <= d;
        BesideAddsNoShortcut(g, h, v, c, x, y, w);
        WithinMore(g, x, y, l, d);
      }
    }
  }
}
