/** The search SpanningTree::cycle performs, as a step on labels, and what it finds. */
module Dijkstra {
  import opened Options
  import opened Network

  /** A vertice's distance, state and source. */
  datatype Label = Label(distance: Distance, visited: bool, source: Option<Name>)

  datatype Search = Search(labels: map<Name, Label>, unvisited: set<Name>, visited: seq<Name>)

  function Start(g: Net, origin: Name): Search {
    Search(map n | n in g.next :: Label(if n == origin then Finite(0.0) else Infinite, false, None), g.next.Keys, [])
  }

  /** A neighbour's label once the vertice `u`, at distance `x`, has been looked at. */
  function Relaxed(g: Net, u: Name, x: real, n: Name, l: Label): Label
    requires u in g.at && n in g.at
  {
    if !l.visited && LessThan(Finite(x + Step(g, u, n)), l.distance)
    then Label(Finite(x + Step(g, u, n)), l.visited, Some(u)) else l
  }

  /** The labels once the neighbours in `ns` have been looked at. */
  function RelaxSome(g: Net, u: Name, x: real, labels: map<Name, Label>, ns: set<Name>): map<Name, Label>
    requires u in g.at && labels.Keys <= g.at.Keys
  {
    map n | n in labels :: if n in ns then Relaxed(g, u, x, n, labels[n]) else labels[n]
  }

  lemma RelaxOneMore(g: Net, u: Name, x: real, labels: map<Name, Label>, ns: set<Name>, n: Name)
    requires u in g.at && labels.Keys <= g.at.Keys && n in labels
    ensures var some := RelaxSome(g, u, x, labels, ns);
            RelaxSome(g, u, x, labels, ns + {n}) == some[n := Relaxed(g, u, x, n, some[n])]
  {}

  lemma RelaxNone(g: Net, u: Name, x: real, labels: map<Name, Label>, ns: set<Name>)
    requires u in g.at && labels.Keys <= g.at.Keys && ns == {}
    ensures RelaxSome(g, u, x, labels, ns) == labels
  {}

  /** The current vertice is not moved by its own edges. */
  lemma StaysPut(g: Net, u: Name, x: real, labels: map<Name, Label>, ns: set<Name>)
    requires NonNegative(g.metric) && u in g.at && u in labels && labels.Keys <= g.at.Keys
             && labels[u].distance == Finite(x)
    ensures RelaxSome(g, u, x, labels, ns)[u] == labels[u]
  {}

  /** No unvisited vertice is nearer. */
  ghost predicate Nearest(s: Search, u: Name) {
    && u in s.unvisited && s.unvisited <= s.labels.Keys
    && forall v :: v in s.unvisited ==> AtMost(s.labels[u].distance, s.labels[v].distance)
  }

  /** cycle() with `u` as the current vertice. */
  function Cycle(g: Net, s: Search, u: Name): Search
    requires g.next.Keys == g.at.Keys == s.labels.Keys && u in s.labels
  {
    if s.labels[u].distance.Infinite? then s.(unvisited := s.unvisited - {u})
    else
      var x := s.labels[u].distance.length;
      var relaxed := RelaxSome(g, u, x, s.labels, g.next[u]);
      Search(relaxed[u := relaxed[u].(visited := true)], s.unvisited - {u}, s.visited + [u])
  }

  // ---------------------------------------------------------------- the invariant

  ghost predicate Shape(g: Net, origin: Name, s: Search) {
    && s.labels.Keys == g.next.Keys && origin in g.next && s.unvisited <= g.next.Keys
    && (forall i :: 0 <= i < |s.visited| ==> s.visited[i] in g.next && s.visited[i] !in s.unvisited)
    && (forall i, j :: 0 <= i < j < |s.visited| ==> s.visited[i] != s.visited[j])
    && (forall n :: n in s.labels ==> (s.labels[n].visited <==> n in s.visited))
    && s.labels[origin].distance == Finite(0.0) && s.labels[origin].source == None
  }

  ghost predicate Before(order: seq<Name>, u: Name, n: Name) {
    exists i, j :: 0 <= i < j < |order| && order[i] == u && order[j] == n
  }

  /** A finite distance comes from a visited neighbour, visited earlier. */
  ghost predicate Sourced(g: Net, s: Search, n: Name)
    requires n in s.labels && s.labels.Keys == g.next.Keys == g.at.Keys
  {
    match s.labels[n].source
    case None => true
    case Some(u) =>
      && u in s.visited && u in s.labels && n in g.next[u]
      && s.labels[u].distance.Finite? && s.labels[n].distance == Finite(s.labels[u].distance.length + Step(g, u, n))
      && (n in s.visited ==> Before(s.visited, u, n))
  }

  /** Every edge out of a visited vertice has been used. */
  ghost predicate Used(g: Net, s: Search, u: Name)
    requires u in s.labels && s.labels.Keys == g.next.Keys == g.at.Keys && Valid(g)
  {
    s.labels[u].visited ==>
      && s.labels[u].distance.Finite?
      && forall n :: n in g.next[u] ==>
           AtMost(s.labels[n].distance, Finite(s.labels[u].distance.length + Step(g, u, n)))
  }

  ghost predicate Inv(g: Net, origin: Name, s: Search) {
    && Valid(g) && Shape(g, origin, s)
    && (forall n :: n in s.labels ==> Sourced(g, s, n) && Used(g, s, n))
    && (forall n :: n in s.labels && n != origin ==> (s.labels[n].distance.Infinite? <==> s.labels[n].source.None?))
    && (forall u, v :: u in s.visited && v in s.unvisited ==> AtMost(s.labels[u].distance, s.labels[v].distance))
    && (forall n :: n in s.labels && n !in s.unvisited && !s.labels[n].visited ==>
          s.labels[n].distance.Infinite? && forall v :: v in s.unvisited ==> s.labels[v].distance.Infinite?)
  }

  lemma StartInv(g: Net, origin: Name)
    requires Valid(g) && origin in g.next
    ensures Inv(g, origin, Start(g, origin))
  {}

  // ---------------------------------------------------------------- settling one vertice

  /** What cycle() does when the nearest vertice `u` is at a finite distance. */
  ghost predicate Settles(g: Net, s: Search, u: Name, t: Search) {
    && g.next.Keys == g.at.Keys == s.labels.Keys == t.labels.Keys
    && u in s.labels && s.labels[u].distance.Finite?
    && t.labels[u] == s.labels[u].(visited := true)
    && (forall n :: n in s.labels && n != u ==>
          t.labels[n] ==
          if n in g.next[u] then Relaxed(g, u, s.labels[u].distance.length, n, s.labels[n]) else s.labels[n])
    && t.unvisited == s.unvisited - {u} && t.visited == s.visited + [u]
  }

  lemma CycleSettles(g: Net, s: Search, u: Name)
    requires Valid(g) && g.next.Keys == s.labels.Keys && u in s.labels && s.labels[u].distance.Finite?
    ensures Settles(g, s, u, Cycle(g, s, u))
  {
    assert Relaxed(g, u, s.labels[u].distance.length, u, s.labels[u]) == s.labels[u];
  }

  lemma SettleKeepsShape(g: Net, origin: Name, s: Search, u: Name, t: Search)
    requires Shape(g, origin, s) && Settles(g, s, u, t) && u in s.unvisited
    requires forall n :: n in s.labels && s.labels[n].distance.Finite? ==> s.labels[n].distance.length >= 0.0
    requires NonNegative(g.metric)
    ensures Shape(g, origin, t)
  {
    assert forall n :: n in t.visited <==> n in s.visited || n == u;
    assert u !in s.visited;
    if origin != u && origin in g.next[u] {
      assert Step(g, u, origin) >= 0.0;
    }
  }

  lemma SettleKeepsBefore(s: Search, u: Name, t: Search)
    requires t.visited == s.visited + [u]
    ensures forall a, b :: Before(s.visited, a, b) ==> Before(t.visited, a, b)
    ensures forall a :: a in s.visited ==> Before(t.visited, a, u)
  {
    assert t.visited[|s.visited|] == u;
    forall a, b | Before(s.visited, a, b) ensures Before(t.visited, a, b) {
      var i, j :| 0 <= i < j < |s.visited| && s.visited[i] == a && s.visited[j] == b;
      assert t.visited[i] == a && t.visited[j] == b;
    }
    forall a | a in s.visited ensures Before(t.visited, a, u) {
      var i :| 0 <= i < |s.visited| && s.visited[i] == a;
      assert t.visited[i] == a;
    }
  }

  lemma SettleKeepsSource(g: Net, s: Search, u: Name, t: Search, n: Name)
    requires Settles(g, s, u, t) && n in s.labels && Sourced(g, s, n) && u !in s.visited
    requires forall v :: v in s.labels ==> (s.labels[v].visited <==> v in s.visited)
    ensures Sourced(g, t, n)
  {
    SettleKeepsBefore(s, u, t);
    assert u in t.visited && forall v :: v in s.visited ==> v in t.visited;
    if s.labels[n].source.Some? {
      var v := s.labels[n].source.value;
      assert t.labels[v] == s.labels[v];
    }
  }

  lemma SettleKeepsUsed(g: Net, s: Search, u: Name, t: Search, v: Name)
    requires Valid(g) && Settles(g, s, u, t) && v in s.labels && Used(g, s, v)
    requires forall n :: n in s.labels && s.labels[n].visited ==> AtMost(s.labels[n].distance, s.labels[u].distance)
    ensures Used(g, t, v)
  {
    if t.labels[v].visited {
      forall n | n in g.next[v]
        ensures AtMost(t.labels[n].distance, Finite(t.labels[v].distance.length + Step(g, v, n)))
      {
        assert AtMost(t.labels[n].distance, s.labels[n].distance);
        assert Step(g, v, n) >= 0.0;
      }
    }
  }

  lemma SettleKeepsOrder(g: Net, s: Search, u: Name, t: Search, v: Name, n: Name)
    requires Valid(g) && Settles(g, s, u, t) && Nearest(s, u) && v in t.visited && n in t.unvisited
    requires forall m :: m in s.labels ==> (s.labels[m].visited <==> m in s.visited)
    requires v in s.visited ==> v in s.labels && AtMost(s.labels[v].distance, s.labels[u].distance)
    ensures v in t.labels && n in t.labels && AtMost(t.labels[v].distance, t.labels[n].distance)
  {
    assert v == u || v in s.visited;
    assert v != u ==> t.labels[v].distance == s.labels[v].distance by {
      if v != u { assert s.labels[v].visited; }
    }
    assert AtMost(s.labels[u].distance, s.labels[n].distance);
    assert n in g.next[u] ==> Step(g, u, n) >= 0.0;
  }

  // ---------------------------------------------------------------- one call of cycle()

  /** Distances never go below 0. */
  lemma {:induction false} VisitedNonNegative(g: Net, origin: Name, s: Search, j: nat)
    requires Inv(g, origin, s) && j < |s.visited|
    ensures s.labels[s.visited[j]].distance.Finite? && s.labels[s.visited[j]].distance.length >= 0.0
  {
    var v := s.visited[j];
    assert Used(g, s, v) && Sourced(g, s, v);
    if v != origin {
      var u := s.labels[v].source.value;
      assert Before(s.visited, u, v);
      var i, k :| 0 <= i < k < |s.visited| && s.visited[i] == u && s.visited[k] == v;
      assert k == j;
      VisitedNonNegative(g, origin, s, i);
      assert Step(g, u, v) >= 0.0;
    }
  }

  lemma NonNegativeDistances(g: Net, origin: Name, s: Search)
    requires Inv(g, origin, s)
    ensures forall n :: n in s.labels && s.labels[n].distance.Finite? ==> s.labels[n].distance.length >= 0.0
  {
    forall n | n in s.labels && s.labels[n].distance.Finite? ensures s.labels[n].distance.length >= 0.0 {
      assert Sourced(g, s, n);
      if n != origin {
        var u := s.labels[n].source.value;
        var i :| 0 <= i < |s.visited| && s.visited[i] == u;
        VisitedNonNegative(g, origin, s, i);
        assert Step(g, u, n) >= 0.0;
      }
    }
  }

  /** One call of cycle() keeps the invariant. */
  lemma CycleInv(g: Net, origin: Name, s: Search, u: Name)
    requires Inv(g, origin, s) && Nearest(s, u)
    ensures Inv(g, origin, Cycle(g, s, u))
  {
    if s.labels[u].distance.Finite? {
      CycleSettles(g, s, u);
      SettleInv(g, origin, s, u, Cycle(g, s, u));
    } else {
      AbandonInv(g, origin, s, u);
    }
  }

  lemma SettleInv(g: Net, origin: Name, s: Search, u: Name, t: Search)
    requires Inv(g, origin, s) && Nearest(s, u) && Settles(g, s, u, t)
    ensures Inv(g, origin, t)
  {
    NonNegativeDistances(g, origin, s);
    SettleKeepsShape(g, origin, s, u, t);
    forall n | n in s.labels ensures Sourced(g, t, n) && Used(g, t, n) {
      SettleKeepsSource(g, s, u, t, n);
      SettleKeepsUsed(g, s, u, t, n);
    }
    forall v, n | v in t.visited && n in t.unvisited ensures AtMost(t.labels[v].distance, t.labels[n].distance) {
      SettleKeepsOrder(g, s, u, t, v, n);
    }
    SettleKeepsReach(g, origin, s, u, t);
  }

  lemma SettleKeepsReach(g: Net, origin: Name, s: Search, u: Name, t: Search)
    requires Inv(g, origin, s) && Nearest(s, u) && Settles(g, s, u, t)
    ensures forall n :: n in t.labels && n != origin ==> (t.labels[n].distance.Infinite? <==> t.labels[n].source.None?)
    ensures forall n :: n in t.labels && n !in t.unvisited ==> t.labels[n].visited
  {
    forall n | n in t.labels && n != origin ensures t.labels[n].distance.Infinite? <==> t.labels[n].source.None? {
      assert t.labels[n].source == s.labels[n].source || t.labels[n].source == Some(u);
    }
    forall n | n in t.labels && n !in t.unvisited ensures t.labels[n].visited {
      assert n != u && n !in s.unvisited ==> s.labels[n].visited;
    }
  }

  lemma LabelsAlone(g: Net, s: Search, t: Search, n: Name)
    requires Valid(g) && g.next.Keys == s.labels.Keys && t.labels == s.labels && t.visited == s.visited
    requires n in s.labels && Sourced(g, s, n) && Used(g, s, n)
    ensures Sourced(g, t, n) && Used(g, t, n)
  {}

  lemma AbandonInv(g: Net, origin: Name, s: Search, u: Name)
    requires Inv(g, origin, s) && Nearest(s, u) && s.labels[u].distance.Infinite?
    ensures Inv(g, origin, Cycle(g, s, u))
  {
    var t := Cycle(g, s, u);
    assert t.labels == s.labels && t.visited == s.visited && t.unvisited == s.unvisited - {u};
    forall n | n in t.labels ensures Sourced(g, t, n) && Used(g, t, n) {
      LabelsAlone(g, s, t, n);
    }
  }

  // ---------------------------------------------------------------- what the finished search has found

  ghost predicate Finished(g: Net, origin: Name, s: Search) { Inv(g, origin, s) && s.unvisited == {} }

  /** Every edge out of a reached vertice has been used. */
  ghost predicate AllUsed(g: Net, s: Search) {
    && Valid(g) && s.labels.Keys == g.next.Keys
    && forall a, n :: a in s.labels && s.labels[a].distance.Finite? && n in g.next[a] ==>
         n in s.labels && AtMost(s.labels[n].distance, Finite(s.labels[a].distance.length + Step(g, a, n)))
  }

  lemma FinishedUsesAll(g: Net, origin: Name, s: Search)
    requires Finished(g, origin, s)
    ensures AllUsed(g, s)
  {
    forall a, n | a in s.labels && s.labels[a].distance.Finite? && n in g.next[a]
      ensures n in s.labels && AtMost(s.labels[n].distance, Finite(s.labels[a].distance.length + Step(g, a, n)))
    {
      assert Used(g, s, a) && s.labels[a].visited;
    }
  }

  /** No walk from a reached vertice is shorter than the difference of the labels. */
  lemma {:induction false} NoShorterWalk(g: Net, s: Search, a: Name, b: Name, w: seq<Name>)
    requires AllUsed(g, s) && IsWalk(g, a, b, w) && s.labels[a].distance.Finite?
    ensures AtMost(s.labels[b].distance, Finite(s.labels[a].distance.length + WalkLength(g, w)))
    decreases |w|
  {
    if |w| > 1 {
      assert IsWalk(g, w[1], b, w[1..]);
      assert w[1] in g.next[a];
      NoShorterWalk(g, s, w[1], b, w[1..]);
    }
  }

  /** The source links lead back to the origin along a walk as long as the label says. */
  lemma {:induction false} WalkOfLabel(g: Net, origin: Name, s: Search, j: nat) returns (w: seq<Name>)
    requires Inv(g, origin, s) && j < |s.visited|
    ensures s.labels[s.visited[j]].distance.Finite?
    ensures Walks(g, origin, s.visited[j], w, s.labels[s.visited[j]].distance.length)
  {
    var v := s.visited[j];
    assert Used(g, s, v) && Sourced(g, s, v);
    if v == origin {
      w := [origin];
    } else {
      var u := s.labels[v].source.value;
      assert Before(s.visited, u, v);
      var i, k :| 0 <= i < k < |s.visited| && s.visited[i] == u && s.visited[k] == v;
      assert k == j;
      var before := WalkOfLabel(g, origin, s, i);
      ExtendWalk(g, origin, u, before, s.labels[u].distance.length, v);
      w := before + [v];
    }
  }

  /** When no vertice is left unvisited, every distance is the length of a shortest walk from the
      origin, and is infinite exactly when there is none. */
  lemma FinishedIsShortest(g: Net, origin: Name, s: Search, v: Name)
    requires Finished(g, origin, s) && v in s.labels
    ensures Shortest(g, origin, v, s.labels[v].distance)
  {
    FinishedUsesAll(g, origin, s);
    forall w, y | Walks(g, origin, v, w, y)
      ensures s.labels[v].distance.Finite? && s.labels[v].distance.length <= y
    {
      NoShorterWalk(g, s, origin, v, w);
    }
    if s.labels[v].distance.Finite? {
      assert s.labels[v].visited;
      var j :| 0 <= j < |s.visited| && s.visited[j] == v;
      var w := WalkOfLabel(g, origin, s, j);
    } else {
      forall w | IsWalk(g, origin, v, w) ensures false {
        assert Walks(g, origin, v, w, WalkLength(g, w));
      }
    }
  }

  /** A source was visited before the vertice it is the source of. */
  lemma SourcedIsVisited(g: Net, origin: Name, s: Search, v: Name)
    requires Finished(g, origin, s) && v in s.labels && s.labels[v].source.Some?
    ensures v in s.visited && Valid(g) && s.labels.Keys == g.next.Keys && Sourced(g, s, v)
  {
    assert Sourced(g, s, v);
    assert v !in s.unvisited;
  }

  lemma SourceIsEarlier(g: Net, origin: Name, s: Search, v: Name, u: Name)
    requires Finished(g, origin, s) && v in s.labels && s.labels[v].source == Some(u)
    ensures u in s.labels && v in g.next[u] && Before(s.visited, u, v)
    ensures s.labels[u].distance.Finite? && s.labels[v].distance == Finite(s.labels[u].distance.length + Step(g, u, v))
  {
    SourcedIsVisited(g, origin, s, v);
    SourcedComesLater(g, s, v, u);
  }

  lemma SourcedComesLater(g: Net, s: Search, v: Name, u: Name)
    requires Valid(g) && s.labels.Keys == g.next.Keys && v in s.labels && Sourced(g, s, v)
    requires s.labels[v].source == Some(u) && v in s.visited
    ensures u in s.labels && v in g.next[u] && Before(s.visited, u, v)
    ensures s.labels[u].distance.Finite? && s.labels[v].distance == Finite(s.labels[u].distance.length + Step(g, u, v))
  {}

  // ---------------------------------------------------------------- whole runs

  /** One call of cycle(), whichever of the nearest vertices it picks. */
  ghost predicate Follows(g: Net, r: Search, s: Search) {
    g.next.Keys == g.at.Keys == r.labels.Keys && exists u :: Nearest(r, u) && s == Cycle(g, r, u)
  }

  /** The states one call of cycle() after the other leads through. */
  ghost predicate IsRun(g: Net, origin: Name, run: seq<Search>) {
    run != [] && run[0] == Start(g, origin) && forall i :: 0 < i < |run| ==> Follows(g, run[i - 1], run[i])
  }

  lemma FollowsInv(g: Net, origin: Name, r: Search, s: Search)
    requires Inv(g, origin, r) && Follows(g, r, s)
    ensures Inv(g, origin, s)
  {
    var u :| Nearest(r, u) && s == Cycle(g, r, u);
    CycleInv(g, origin, r, u);
  }

  lemma {:induction false} RunInv(g: Net, origin: Name, run: seq<Search>, i: nat)
    requires Valid(g) && origin in g.next && IsRun(g, origin, run) && i < |run|
    ensures Inv(g, origin, run[i])
  {
    if i == 0 {
      StartInv(g, origin);
    } else {
      RunInv(g, origin, run, i - 1);
      FollowsInv(g, origin, run[i - 1], run[i]);
    }
  }

  ghost predicate RunsTo(g: Net, origin: Name, run: seq<Search>, s: Search) {
    IsRun(g, origin, run) && s == run[|run| - 1]
  }

  lemma RunGrows(g: Net, origin: Name, run: seq<Search>, r: Search, s: Search)
    requires RunsTo(g, origin, run, r) && Follows(g, r, s)
    ensures RunsTo(g, origin, run + [s], s)
  {}

  /** A run that has left no vertice unvisited. */
  ghost predicate Explored(g: Net, origin: Name, s: Search) {
    s.unvisited == {} && exists run :: RunsTo(g, origin, run, s)
  }

  lemma ExploredFinished(g: Net, origin: Name, s: Search)
    requires Valid(g) && origin in g.next && Explored(g, origin, s)
    ensures Finished(g, origin, s)
  {
    var run :| RunsTo(g, origin, run, s);
    RunInv(g, origin, run, |run| - 1);
  }

  /** The search is right: after a whole run every distance is that of a shortest walk. */
  lemma ExploredIsShortest(g: Net, origin: Name, s: Search, v: Name)
    requires Valid(g) && origin in g.next && Explored(g, origin, s) && v in s.labels
    ensures Shortest(g, origin, v, s.labels[v].distance)
  {
    ExploredFinished(g, origin, s);
    FinishedIsShortest(g, origin, s, v);
  }

  // ---------------------------------------------------------------- with or without an origin

  /** Where the search starts; no vertice is at distance 0 when the origin is none of them. */
  function Begin(g: Net, from: Option<Name>): Search {
    match from
    case Some(origin) => Start(g, origin)
    case None => Search(map n | n in g.next :: Label(Infinite, false, None), g.next.Keys, [])
  }

  /** The states calls of cycle() lead to from there. */
  ghost predicate Leads(g: Net, from: Option<Name>, s: Search) {
    match from
    case Some(origin) => exists run :: RunsTo(g, origin, run, s)
    case None => s.labels == Begin(g, None).labels
  }

  ghost predicate ExploredFrom(g: Net, from: Option<Name>, s: Search) { s.unvisited == {} && Leads(g, from, s) }

  ghost predicate ShortestFrom(g: Net, from: Option<Name>, v: Name, d: Distance) {
    match from
    case Some(origin) => Shortest(g, origin, v, d)
    case None => d.Infinite?
  }

  lemma LeadsStart(g: Net, from: Option<Name>)
    ensures Leads(g, from, Begin(g, from))
  {
    if from.Some? {
      assert RunsTo(g, from.value, [Start(g, from.value)], Start(g, from.value));
    }
  }

  lemma LeadsOn(g: Net, from: Option<Name>, r: Search, s: Search)
    requires Leads(g, from, r) && Follows(g, r, s)
    ensures Leads(g, from, s)
  {
    if from.Some? {
      var run :| RunsTo(g, from.value, run, r);
      RunGrows(g, from.value, run, r, s);
    }
  }

  lemma ExploredIsShortestFrom(g: Net, from: Option<Name>, s: Search, v: Name)
    requires Valid(g) && (from.Some? ==> from.value in g.next) && ExploredFrom(g, from, s) && v in s.labels
    ensures ShortestFrom(g, from, v, s.labels[v].distance)
  {
    if from.Some? {
      assert Explored(g, from.value, s);
      ExploredIsShortest(g, from.value, s, v);
    }
  }
}
