/** The way back from the destination along the source links a finished search has left. */
module SourceLinks {
  import opened Options
  import opened Network
  import opened Segments
  import opened Dijkstra

  /** How early a vertice was visited. */
  ghost function Rank(order: seq<Name>, n: Name): nat {
    if order == [] || order[0] == n then 0 else 1 + Rank(order[1..], n)
  }

  lemma {:induction false} RankIsIndex(order: seq<Name>, i: nat)
    requires i < |order| && forall j, k :: 0 <= j < k < |order| ==> order[j] != order[k]
    ensures Rank(order, order[i]) == i
  {
    if i > 0 {
      RankIsIndex(order[1..], i - 1);
    }
  }

  lemma {:induction false} RankIsBounded(order: seq<Name>, n: Name)
    ensures Rank(order, n) <= |order|
  {
    if order != [] && order[0] != n {
      RankIsBounded(order[1..], n);
    }
  }

  /** How far getPath() has come when it stands at v: the walk from there to the destination makes
      up for the difference of their labels. An unreachable destination is never left. */
  ghost predicate Traced(g: Net, s: Search, destination: Name, v: Name, w: seq<Name>) {
    && v in s.labels && destination in s.labels && IsWalk(g, v, destination, w)
    && if s.labels[destination].distance.Infinite? then w == [destination]
       else s.labels[v].distance.Finite?
            && s.labels[destination].distance == Finite(s.labels[v].distance.length + WalkLength(g, w))
  }

  lemma TraceStart(g: Net, s: Search, destination: Name)
    requires destination in g.next && g.next.Keys == g.at.Keys == s.labels.Keys
    ensures Traced(g, s, destination, destination, [destination])
  {}

  /** One source link back: the walk grows at its front. */
  lemma TraceGrows(g: Net, s: Search, destination: Name, v: Name, u: Name, w: seq<Name>)
    requires Valid(g) && Traced(g, s, destination, v, w) && u in s.labels && u in g.next && v in g.next[u]
    requires s.labels[u].distance.Finite? && s.labels[v].distance == Finite(s.labels[u].distance.length + Step(g, u, v))
    requires s.labels[destination].distance.Finite?
    ensures Traced(g, s, destination, u, [u] + w)
  {
    PrependStep(g, u, v, destination, w, WalkLength(g, w));
  }

  /** And the vertice was visited earlier. */
  lemma EarlierRanksLower(g: Net, origin: Name, s: Search, v: Name, u: Name)
    requires Before(s.visited, u, v) && forall j, k :: 0 <= j < k < |s.visited| ==> s.visited[j] != s.visited[k]
    ensures Rank(s.visited, u) < Rank(s.visited, v)
  {
    var i, j :| 0 <= i < j < |s.visited| && s.visited[i] == u && s.visited[j] == v;
    RankIsIndex(s.visited, i);
    RankIsIndex(s.visited, j);
  }

  lemma LinkIsEarlier(g: Net, origin: Name, s: Search, v: Name, u: Name)
    requires Valid(g) && origin in g.next && Explored(g, origin, s) && v in s.labels && s.labels[v].source == Some(u)
    ensures Rank(s.visited, u) < Rank(s.visited, v)
  {
    ExploredFinished(g, origin, s);
    SourceIsEarlier(g, origin, s, v, u);
    EarlierRanksLower(g, origin, s, v, u);
  }

  lemma LinkIsFinite(g: Net, origin: Name, s: Search, v: Name, u: Name)
    requires Valid(g) && origin in g.next && Explored(g, origin, s) && v in s.labels && s.labels[v].source == Some(u)
    ensures u in s.labels && s.labels[u].distance.Finite? && s.labels[v].distance.Finite?
  {
    ExploredFinished(g, origin, s);
    SourceIsEarlier(g, origin, s, v, u);
  }

  lemma OneLinkBack(g: Net, origin: Name, s: Search, destination: Name, v: Name, u: Name, w: seq<Name>)
    requires Valid(g) && origin in g.next && Explored(g, origin, s)
    requires Traced(g, s, destination, v, w) && s.labels[v].source == Some(u)
    ensures Traced(g, s, destination, u, [u] + w)
    ensures Rank(s.visited, u) < Rank(s.visited, v)
  {
    ExploredFinished(g, origin, s);
    SourceIsEarlier(g, origin, s, v, u);
    TraceGrows(g, s, destination, v, u, w);
    LinkIsEarlier(g, origin, s, v, u);
  }

  /** What getPath() hands out for a walk from the origin to the destination. */
  ghost predicate PathFound(g: Net, origin: Name, destination: Name, distance: Distance, lines: seq<Line>)
    requires origin in g.at && destination in g.at
  {
    && (lines == [] <==> destination == origin || distance.Infinite?)
    && (lines != [] ==>
          Connects(lines, g.at[origin], g.at[destination]) && distance == Finite(TotalLength(g.metric, lines)))
  }

  /** The links end at the origin, unless there is no way at all. */
  lemma WhereLinksEnd(g: Net, origin: Name, s: Search, v: Name)
    requires Valid(g) && origin in g.next && Explored(g, origin, s) && v in s.labels
    ensures origin in s.labels && s.labels[origin].distance == Finite(0.0)
    ensures s.labels[v].source == None && v != origin ==> s.labels[v].distance.Infinite?
  {
    ExploredFinished(g, origin, s);
  }

  lemma TraceEnds(g: Net, origin: Name, s: Search, destination: Name, v: Name, w: seq<Name>)
    requires origin in g.at && origin in s.labels && s.labels[origin].distance == Finite(0.0)
    requires Traced(g, s, destination, v, w) && (s.labels[v].distance.Infinite? || v == origin)
    requires destination == origin ==> w == [origin]
    ensures destination in g.at
    ensures PathFound(g, origin, destination, s.labels[destination].distance, Between(Points(g, w)))
  {
    WalkAsLines(g, v, destination, w);
  }

  // ---------------------------------------------------------------- with or without an origin

  /** The same when the origin may be no vertice of the network: then nothing is found. */
  ghost predicate Found(g: Net, from: Option<Name>, destination: Name, distance: Distance, lines: seq<Line>)
    requires (from.Some? ==> from.value in g.at) && destination in g.at
  {
    match from
    case Some(origin) => PathFound(g, origin, destination, distance, lines)
    case None => distance.Infinite? && lines == []
  }

  /** Without an origin there are no links to follow. */
  lemma NoLinkFromNowhere(g: Net, from: Option<Name>, s: Search, v: Name)
    requires ExploredFrom(g, from, s) && v in s.labels && s.labels[v].source.Some?
    ensures from.Some?
  {}

  lemma TraceFinds(g: Net, from: Option<Name>, s: Search, destination: Name, v: Name, w: seq<Name>)
    requires Valid(g) && (from.Some? ==> from.value in g.next) && ExploredFrom(g, from, s)
    requires Traced(g, s, destination, v, w) && (s.labels[v].source == None || from == Some(v))
    requires from == Some(destination) ==> w == [destination]
    ensures destination in g.at
    ensures Found(g, from, destination, s.labels[destination].distance, Between(Points(g, w)))
  {
    match from
    case Some(origin) =>
      assert Explored(g, origin, s);
      WhereLinksEnd(g, origin, s, v);
      TraceEnds(g, origin, s, destination, v, w);
    case None =>
      assert s.labels[destination].distance.Infinite?;
  }

  /** Every vertice is as far from the origin as its label says, and the way to it is a shortest one. */
  ghost predicate AllFound(g: Net, from: Option<Name>, labels: map<Name, Label>, trails: map<Name, seq<Point>>)
    requires (from.Some? ==> from.value in g.at) && labels.Keys == trails.Keys <= g.at.Keys
  {
    forall v :: v in labels ==>
      && ShortestFrom(g, from, v, labels[v].distance)
      && Found(g, from, v, labels[v].distance, Between(trails[v]))
  }
}
