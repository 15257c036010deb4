/** TreePathVertice, lists and maps of such vertices, and the ways along their source links. */
module TreePathVertices {
  import opened Options
  import opened Network
  import opened Lists
  import opened Segments
  import Dijkstra

  datatype VerticeType = Standard | AdHocOrigin | AdHocDestination

  datatype VerticeState = Unvisited | Visited

  class TreePathVertice {
    const position: Point
    const kind: VerticeType
    const hashName: Name
    var distance: Distance
    var state: VerticeState
    var source: TreePathVertice?
    var neighbors: map<Name, TreePathVertice>

    constructor (position: Point, kind: VerticeType, hashName: Name)
      ensures this.position == position && this.kind == kind && this.hashName == hashName
      ensures distance == Infinite && state == Unvisited && source == null && neighbors == map[]
    {
      this.position, this.kind, this.hashName := position, kind, hashName;
      distance, state, source, neighbors := Infinite, Unvisited, null, map[];
    }

    /** The names of the neighbours, by the names they are filed under. */
    ghost function Known(): map<Name, Name>
      reads this`neighbors
    {
      map k | k in neighbors :: neighbors[k].hashName
    }

    method TryAddNeighbor(neighbor: TreePathVertice)
      modifies this`neighbors
      ensures neighbors == if neighbor.hashName in old(neighbors) then old(neighbors)
                           else old(neighbors)[neighbor.hashName := neighbor]
      ensures Known() == if neighbor.hashName in old(Known()) then old(Known())
                         else old(Known())[neighbor.hashName := neighbor.hashName]
    {
      if neighbor.hashName !in neighbors {
        neighbors := neighbors[neighbor.hashName := neighbor];
      }
    }

    /** The new neighbour is filed under the name of the old one. */
    method TryReplaceNeighbor(neighbor: TreePathVertice, newNeighbor: TreePathVertice)
      modifies this`neighbors
      ensures neighbors == old(neighbors)[neighbor.hashName := newNeighbor]
      ensures Known() == old(Known())[neighbor.hashName := newNeighbor.hashName]
    {
      if neighbor.hashName in neighbors {
        neighbors := neighbors - {neighbor.hashName};
      }
      neighbors := neighbors[neighbor.hashName := newNeighbor];
    }

    ghost function Label(): Dijkstra.Label
      reads this`distance, this`state, this`source
    {
      Dijkstra.Label(distance, state.Visited?, if source == null then None else Some(source.hashName))
    }
  }

  lemma {:induction false} RemoveOneFacts(vs: seq<TreePathVertice>, v: TreePathVertice)
    requires v in vs && Distinct(vs)
    ensures var rest := RemoveOne(vs, v);
            Distinct(rest) && |rest| == |vs| - 1 && forall w :: w in rest <==> w in vs && w != v
  {
    if vs[0] != v {
      assert forall w :: w in vs <==> w == vs[0] || w in vs[1..];
      assert vs[0] !in vs[1..];
      RemoveOneFacts(vs[1..], v);
    }
  }

  function NamesOf(vs: seq<TreePathVertice>): seq<Name> {
    seq(|vs|, i requires 0 <= i < |vs| => vs[i].hashName)
  }

  function NameSet(vs: seq<TreePathVertice>): set<Name> { set n | n in NamesOf(vs) }

  lemma NameIn(vs: seq<TreePathVertice>, n: Name)
    ensures n in NameSet(vs) <==> exists v :: v in vs && v.hashName == n
  {
    if n in NameSet(vs) {
      var i :| 0 <= i < |vs| && NamesOf(vs)[i] == n;
      assert vs[i] in vs;
    }
    if v :| v in vs && v.hashName == n {
      var i :| 0 <= i < |vs| && vs[i] == v;
      assert NamesOf(vs)[i] == n;
    }
  }

  lemma NamesWithout(vs: seq<TreePathVertice>, v: TreePathVertice)
    requires v in vs && Distinct(vs) && forall w :: w in vs && w.hashName == v.hashName ==> w == v
    ensures NameSet(RemoveOne(vs, v)) == NameSet(vs) - {v.hashName}
  {
    RemoveOneFacts(vs, v);
    forall n ensures n in NameSet(RemoveOne(vs, v)) <==> n in NameSet(vs) && n != v.hashName {
      NameIn(vs, n);
      NameIn(RemoveOne(vs, v), n);
      if w :| w in vs && w.hashName == n && n != v.hashName { assert w in RemoveOne(vs, v); }
      if w :| w in RemoveOne(vs, v) && w.hashName == n { assert w in vs && w != v; }
    }
  }

  /** QMap::values(), in some order. */
  method Values(m: map<Name, TreePathVertice>) returns (vs: seq<TreePathVertice>)
    ensures forall v :: v in vs <==> v in m.Values
    ensures (forall k :: k in m ==> m[k].hashName == k) ==> Distinct(vs)
  {
    vs := [];
    var keys := m.Keys;
    ghost var done: set<Name> := {};
    ghost var named := forall k :: k in m ==> m[k].hashName == k;
    while keys != {}
      invariant keys + done == m.Keys && keys !! done
      invariant forall v :: v in vs <==> exists k :: k in done && m[k] == v
      invariant named ==> Distinct(vs) && forall v :: v in vs ==> v.hashName in done
      decreases keys
    {
      var k :| k in keys;
      vs := vs + [m[k]];
      keys, done := keys - {k}, done + {k};
    }
    assert done == m.Keys;
  }

  /** The vertices of `before` are all still there, and the new ones are of this kind. */
  ghost predicate Grows(before: map<Name, TreePathVertice>, after: map<Name, TreePathVertice>, kind: VerticeType) {
    && (forall k :: k in before ==> k in after && after[k] == before[k])
    && (forall k :: k in after && k !in before ==> after[k].kind == kind)
  }

  lemma GrowsByOne(before: map<Name, TreePathVertice>, v: TreePathVertice)
    requires v.hashName !in before
    ensures Grows(before, before[v.hashName := v], v.kind)
  {}

  lemma GrowsTwice(a: map<Name, TreePathVertice>, b: map<Name, TreePathVertice>, c: map<Name, TreePathVertice>,
                   kind: VerticeType)
    requires Grows(a, b, kind) && Grows(b, c, kind)
    ensures Grows(a, c, kind)
  {}

  // ---------------------------------------------------------------- source links

  ghost function RankOf(ranks: map<TreePathVertice, nat>, v: TreePathVertice): nat {
    if v in ranks then ranks[v] else 0
  }

  /** Every link leads to a lower rank, so that whoever follows them gets to an end. */
  ghost predicate LeadDown(links: map<TreePathVertice, TreePathVertice?>, ranks: map<TreePathVertice, nat>) {
    forall v :: v in links && links[v] != null ==> links[v] in links && RankOf(ranks, links[v]) < RankOf(ranks, v)
  }

  /** The way to v: the points along the links, up to the origin or to where the links end. */
  ghost function Trail(links: map<TreePathVertice, TreePathVertice?>, ranks: map<TreePathVertice, nat>,
                       origin: TreePathVertice?, v: TreePathVertice): (points: seq<Point>)
    requires LeadDown(links, ranks) && v in links
    ensures points != [] && points[|points| - 1] == v.position
    decreases RankOf(ranks, v)
  {
    if v == origin || links[v] == null then [v.position] else Trail(links, ranks, origin, links[v]) + [v.position]
  }

  /** Where that way starts. */
  ghost function Root(links: map<TreePathVertice, TreePathVertice?>, ranks: map<TreePathVertice, nat>,
                      origin: TreePathVertice?, v: TreePathVertice): (root: TreePathVertice)
    requires LeadDown(links, ranks) && v in links
    ensures root == v || RankOf(ranks, root) < RankOf(ranks, v)
    decreases RankOf(ranks, v)
  {
    if v == origin || links[v] == null then v else Root(links, ranks, origin, links[v])
  }

  /** The way to a vertice is that to the one its link leads to, and one line more. */
  lemma TrailOnward(links: map<TreePathVertice, TreePathVertice?>, ranks: map<TreePathVertice, nat>,
                    origin: TreePathVertice?, v: TreePathVertice)
    requires LeadDown(links, ranks) && v in links && v != origin && links[v] != null
    ensures Between(Trail(links, ranks, origin, v)) ==
            Between(Trail(links, ranks, origin, links[v])) + [Line(links[v].position, v.position)]
    ensures Root(links, ranks, origin, v) == Root(links, ranks, origin, links[v])
  {
    OnePointMore(Trail(links, ranks, origin, links[v]), v.position);
  }

  /** The lines of a way are a chain from there to the vertice. */
  lemma {:induction false} TrailConnects(links: map<TreePathVertice, TreePathVertice?>,
                                         ranks: map<TreePathVertice, nat>, origin: TreePathVertice?,
                                         v: TreePathVertice)
    requires LeadDown(links, ranks) && v in links
    ensures var lines, root := Between(Trail(links, ranks, origin, v)), Root(links, ranks, origin, v);
            if root == v then lines == [] else Connects(lines, root.position, v.position)
    decreases RankOf(ranks, v)
  {
    if v != origin && links[v] != null {
      var u := links[v];
      TrailConnects(links, ranks, origin, u);
      TrailOnward(links, ranks, origin, v);
      if Root(links, ranks, origin, u) != u {
        var root := Root(links, ranks, origin, u);
        OneLineOn(Between(Trail(links, ranks, origin, u)), root.position, u.position, v.position);
      }
    }
  }

  /** The way to a vertice starts at the origin exactly when its label says that it is within reach. */
  ghost predicate RootsTold(labels: map<Name, Dijkstra.Label>, vertices: map<Name, TreePathVertice>,
                            links: map<TreePathVertice, TreePathVertice?>, ranks: map<TreePathVertice, nat>,
                            origin: TreePathVertice?)
    requires LeadDown(links, ranks) && labels.Keys == vertices.Keys
    requires forall k :: k in vertices ==> vertices[k] in links
  {
    forall k :: k in vertices ==>
      (labels[k].distance.Finite? <==> Root(links, ranks, origin, vertices[k]) == origin)
  }

  /** The first vertice of the tree on the way back from v, or else the origin or the end of the links. */
  ghost function FirstMet(vertices: map<Name, TreePathVertice>, links: map<TreePathVertice, TreePathVertice?>,
                          ranks: map<TreePathVertice, nat>, origin: TreePathVertice?, v: TreePathVertice)
    : TreePathVertice
    requires LeadDown(links, ranks) && v in links
    decreases RankOf(ranks, v)
  {
    if (v.hashName in vertices && vertices[v.hashName] == v) || v == origin || links[v] == null then v
    else FirstMet(vertices, links, ranks, origin, links[v])
  }

  /** The way to any vertice, dropped or not, starts at the origin exactly when that one is the origin or a vertice of
      the tree within reach of it. */
  lemma {:induction false} WholeExactly(labels: map<Name, Dijkstra.Label>, vertices: map<Name, TreePathVertice>,
                                        links: map<TreePathVertice, TreePathVertice?>,
                                        ranks: map<TreePathVertice, nat>, origin: TreePathVertice?,
                                        v: TreePathVertice)
    requires LeadDown(links, ranks) && labels.Keys == vertices.Keys && v in links
    requires forall k :: k in vertices ==> vertices[k] in links
    requires RootsTold(labels, vertices, links, ranks, origin)
    ensures var u := FirstMet(vertices, links, ranks, origin, v);
            Root(links, ranks, origin, v) == origin <==>
              || u == origin
              || (u.hashName in vertices && vertices[u.hashName] == u && labels[u.hashName].distance.Finite?)
    decreases RankOf(ranks, v)
  {
    if v.hashName in vertices && vertices[v.hashName] == v {
      assert labels[v.hashName].distance.Finite? <==> Root(links, ranks, origin, vertices[v.hashName]) == origin;
    } else if v != origin && links[v] != null {
      WholeExactly(labels, vertices, links, ranks, origin, links[v]);
    }
  }

  /** The ways to all vertices of a tree. */
  ghost function Trails(vertices: map<Name, TreePathVertice>, links: map<TreePathVertice, TreePathVertice?>,
                        ranks: map<TreePathVertice, nat>, origin: TreePathVertice?): map<Name, seq<Point>>
    requires LeadDown(links, ranks) && forall k :: k in vertices ==> vertices[k] in links
  {
    map k | k in vertices :: Trail(links, ranks, origin, vertices[k])
  }
}
