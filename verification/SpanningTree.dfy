/** SpanningTree: Dijkstra's search over vertice objects that know their neighbours by hash name,
    and the walk back along the source links. */
module SpanningTrees {
  import opened Options
  import opened Network
  import opened Segments
  import opened TreePathVertices
  import opened Lists
  import Dijkstra
  import SourceLinks
  import NetworkSplit
  import Wiring
  import Attachment
  import SecondCall
  import Reattachment
  import LaidOut
  import ClosestLine

  lemma KindsAfter(before: map<Name, TreePathVertice>, after: map<Name, TreePathVertice>, p: Wiring.Plan,
                   q: Wiring.Plan, kind: VerticeType, other: VerticeType)
    requires Grows(before, after, kind) && p.wires.Keys == before.Keys && q.wires.Keys == after.Keys
    requires OfKind(before, kind) == {} && other != kind
    ensures OfKind(after, kind) == Reattachment.Added(p, q) && OfKind(after, other) == OfKind(before, other)
  {
    forall k | k in before ensures before[k].kind != kind {
      assert k !in OfKind(before, kind);
    }
  }

  function Those(vertices: map<Name, TreePathVertice>, names: set<Name>): set<TreePathVertice> {
    set k | k in vertices && k in names :: vertices[k]
  }

  function OfKind(vertices: map<Name, TreePathVertice>, kind: VerticeType): set<Name> {
    set k | k in vertices && vertices[k].kind == kind
  }

  class SpanningTree {
    const metric: (Point, Point) -> real       // FlatGeo::distance
    const makeHashName: Point -> Name
    var lines: seq<Line>
    var vertices: map<Name, TreePathVertice>
    var visited: seq<TreePathVertice>
    var unvisited: seq<TreePathVertice>
    var origin: TreePathVertice?
    var destination: TreePathVertice?
    ghost var dropped: set<TreePathVertice>    // the vertices the tree has had and has no more
    ghost var ranks: map<TreePathVertice, nat> // of both, 0 if not given: a source link leads to a lower one

    /** Every vertice is filed under its name. */
    ghost predicate Named()
      reads this`vertices
    {
      forall k :: k in vertices ==> vertices[k].hashName == k && makeHashName(vertices[k].position) == k
    }

    /** And its neighbours are vertices of the tree, or have been. */
    ghost predicate Valid()
      reads this`vertices, this`dropped, vertices.Values`neighbors
    {
      && NonNegative(metric) && Named()
      && forall k :: k in vertices ==>
          && vertices[k] !in dropped
          && forall j :: j in vertices[k].neighbors ==>
               Member(vertices[k].neighbors[j]) || vertices[k].neighbors[j] in dropped
    }

    /** The vertices the tree has or has had. */
    ghost function All(): set<TreePathVertice>
      reads this`vertices, this`dropped
    {
      vertices.Values + dropped
    }

    /** Where the source links of all of them lead. */
    ghost function Links(): map<TreePathVertice, TreePathVertice?>
      reads this`vertices, this`dropped, vertices.Values`source, dropped`source
    {
      map v | v in All() :: v.source
    }

    /** Whoever follows the source links gets to an end of them, also from a vertice that has been dropped. */
    ghost predicate LinksEnd()
      reads this`vertices, this`dropped, this`ranks, vertices.Values`source, dropped`source
    {
      LeadDown(Links(), ranks)
    }

    /** The destination is a vertice of the tree, or has been one. */
    ghost predicate DestinationKnown()
      reads this`vertices, this`dropped, this`destination
    {
      destination != null ==> destination in All()
    }

    /** What holds of a new tree and is kept by every call. */
    ghost predicate InOrder()
      reads this`vertices, this`dropped, this`ranks, this`destination
      reads vertices.Values`neighbors, vertices.Values`source, dropped`source
    {
      Valid() && LinksEnd() && DestinationKnown()
    }

    ghost predicate Member(v: TreePathVertice)
      reads this`vertices
    {
      v.hashName in vertices && vertices[v.hashName] == v
    }

    /** The vertice of this name in the tree. */
    ghost predicate IsVertice(v: TreePathVertice?, n: Name)
      reads this`vertices
    {
      v != null && Member(v) && v.hashName == n
    }

    /** The names of the neighbours that are vertices of the tree. */
    ghost function Live(v: TreePathVertice): set<Name>
      reads this`vertices, v`neighbors
    {
      set j | j in v.neighbors && Member(v.neighbors[j]) :: v.neighbors[j].hashName
    }

    ghost function Graph(): Net
      reads this`vertices, vertices.Values`neighbors
    {
      Net(map k | k in vertices :: Live(vertices[k]), map k | k in vertices :: vertices[k].position, metric)
    }

    // -------------------------------------------------------------- the search

    ghost function Labels(): map<Name, Dijkstra.Label>
      reads this`vertices, vertices.Values`distance, vertices.Values`state, vertices.Values`source
    {
      map k | k in vertices :: vertices[k].Label()
    }

    ghost function SearchState(): Dijkstra.Search
      reads this, vertices.Values
    {
      Dijkstra.Search(Labels(), NameSet(unvisited), NamesOf(visited))
    }

    ghost predicate SourcesAreMembers()
      reads this`vertices, vertices.Values`source
    {
      forall k :: k in vertices && vertices[k].source != null ==> Member(vertices[k].source)
    }

    /** Those of the dropped vertices lead to a vertice of the tree, or to a dropped one of lower rank. */
    ghost predicate StraysLead()
      reads this`vertices, this`dropped, this`ranks, dropped`source
    {
      forall v :: v in dropped && v.source != null ==>
        Member(v.source) || (v.source in dropped && RankOf(ranks, v.source) < RankOf(ranks, v))
    }

    ghost predicate SourcesLead()
      reads this`vertices, this`dropped, this`ranks, vertices.Values`source, dropped`source
    {
      SourcesAreMembers() && StraysLead()
    }

    lemma StraysOfLinks()
      requires Valid() && LinksEnd()
      ensures StraysLead() && dropped !! vertices.Values
    {
      forall v | v in dropped && v.source != null
        ensures Member(v.source) || (v.source in dropped && RankOf(ranks, v.source) < RankOf(ranks, v))
      {
        assert Links()[v] == v.source;
      }
    }

    ghost predicate ListsAreMembers()
      reads this`vertices, this`unvisited, this`visited
    {
      && Distinct(unvisited)
      && (forall v :: v in unvisited ==> Member(v))
      && (forall v :: v in visited ==> Member(v))
    }

    /** The lists and the source links stay within the tree. */
    ghost predicate Searching()
      reads this`vertices, this`dropped, this`ranks, this`unvisited, this`visited
      reads vertices.Values`neighbors, vertices.Values`source, dropped`source
    {
      Valid() && SourcesLead() && ListsAreMembers()
    }

    /** The name of the origin, while that is a vertice of the tree. */
    ghost function From(): Option<Name>
      reads this`origin, this`vertices
    {
      if origin != null && Member(origin) then Some(origin.hashName) else None
    }

    method InitializeVertices()
      requires Valid() && LinksEnd()
      modifies this`visited, this`unvisited, vertices.Values`distance, vertices.Values`state, vertices.Values`source
      ensures Searching()
      ensures SearchState() == Dijkstra.Begin(Graph(), From())
    {
      StraysOfLinks();
      visited := [];
      unvisited := Values(vertices);
      var all := Values(vertices);
      ResetLabels(all);
      AtStart();
    }

    method ResetLabels(all: seq<TreePathVertice>)
      requires forall v :: v in all <==> v in vertices.Values
      modifies vertices.Values`distance, vertices.Values`state, vertices.Values`source
      ensures forall k :: k in vertices ==>
                vertices[k].Label() ==
                Dijkstra.Label(if vertices[k] == origin then Finite(0.0) else Infinite, false, None)
    {
      for i := 0 to |all|
        invariant forall j :: 0 <= j < i ==>
            all[j].Label() == Dijkstra.Label(if all[j] == origin then Finite(0.0) else Infinite, false, None)
      {
        if all[i] == origin {
          all[i].distance := Finite(0.0);
        } else {
          all[i].distance := Infinite;
        }
        all[i].state := Unvisited;
        all[i].source := null;
      }
      assert forall k :: k in vertices ==> vertices[k] in all;
    }

    lemma AtStart()
      requires Valid() && visited == []
      requires forall v :: v in unvisited <==> v in vertices.Values
      requires forall k :: k in vertices ==>
                vertices[k].Label() ==
                Dijkstra.Label(if vertices[k] == origin then Finite(0.0) else Infinite, false, None)
      ensures SearchState() == Dijkstra.Begin(Graph(), From())
    {
      forall k | k in vertices ensures k in NamesOf(unvisited) {
        assert vertices[k] in unvisited;
        var i :| 0 <= i < |unvisited| && unvisited[i] == vertices[k];
        assert NamesOf(unvisited)[i] == k;
      }
      forall n | n in NamesOf(unvisited) ensures n in vertices {
        var i :| 0 <= i < |unvisited| && NamesOf(unvisited)[i] == n;
        assert unvisited[i] in vertices.Values;
      }
      assert NameSet(unvisited) == vertices.Keys;
    }

    lemma NearestName(current: TreePathVertice)
      requires Searching() && current in unvisited
      requires forall v :: v in unvisited ==> AtMost(current.distance, v.distance)
      ensures Dijkstra.Nearest(SearchState(), current.hashName)
    {
      var i :| 0 <= i < |unvisited| && unvisited[i] == current;
      assert NamesOf(unvisited)[i] == current.hashName;
      forall n | n in NameSet(unvisited)
        ensures n in vertices && AtMost(current.distance, vertices[n].distance)
      {
        var j :| 0 <= j < |unvisited| && NamesOf(unvisited)[j] == n;
        assert unvisited[j] in unvisited;
      }
    }

    /** The vertice cycle() looks at: the last of the nearest ones. */
    method PickNearest() returns (current: TreePathVertice?)
      requires Searching()
      ensures current == null <==> unvisited == []
      ensures current != null ==> current in unvisited && Dijkstra.Nearest(SearchState(), current.hashName)
    {
      current := null;
      for i := 0 to |unvisited|
        invariant current == null <==> i == 0
        invariant current != null ==> current in unvisited
        invariant forall j :: 0 <= j < i ==> current != null && AtMost(current.distance, unvisited[j].distance)
      {
        if current == null || AtMost(unvisited[i].distance, current.distance) {
          current := unvisited[i];
        }
      }
      if current != null {
        NearestName(current);
      }
    }

    /** One neighbour of the current vertice. */
    method RelaxOne(current: TreePathVertice, neighbor: TreePathVertice)
      requires current.distance.Finite?
      modifies neighbor`distance, neighbor`source
      ensures neighbor.Label() ==
              if !old(neighbor.Label()).visited
                 && LessThan(Finite(old(current.distance.length) + metric(current.position, neighbor.position)),
                             old(neighbor.distance))
              then Dijkstra.Label(Finite(old(current.distance.length) + metric(current.position, neighbor.position)),
                                  old(neighbor.Label()).visited, Some(current.hashName))
              else old(neighbor.Label())
      ensures neighbor.source == old(neighbor.source) || neighbor.source == current
    {
      if neighbor.state == Unvisited {
        var distance := metric(current.position, neighbor.position);
        if LessThan(Finite(current.distance.length + distance), neighbor.distance) {
          neighbor.distance := Finite(current.distance.length + distance);
          neighbor.source := current;
        }
      }
    }

    /** The labels of the tree change where one vertice's label does. */
    twostate lemma OneLabel(v: TreePathVertice)
      requires vertices == old(vertices) && Member(v)
      requires forall k :: k in vertices ==> old(allocated(vertices[k]))
      requires forall k :: k in vertices && k != v.hashName ==> vertices[k].Label() == old(vertices[k].Label())
      ensures Labels() == old(Labels())[v.hashName := v.Label()]
    {}

    /** The network has the vertices where the tree has them. */
    ghost predicate SamePlaces(g: Net)
      reads this`vertices
    {
      && Named() && NonNegative(metric) && g.metric == metric && g.at.Keys == vertices.Keys
      && forall k :: k in vertices ==> g.at[k] == vertices[k].position
    }

    /** The same, seen from the labels of the tree: a neighbour that is no vertice of it any more does not matter. */
    method RelaxOneOfMany(current: TreePathVertice, neighbor: TreePathVertice, ghost g: Net)
      requires SamePlaces(g) && Member(current) && current.distance.Finite?
      modifies neighbor`distance, neighbor`source
      ensures neighbor.source == old(neighbor.source) || neighbor.source == current
      ensures Member(neighbor) ==>
                Labels() == old(Labels())[neighbor.hashName :=
                  Dijkstra.Relaxed(g, current.hashName, old(current.distance.length),
                                   neighbor.hashName, old(Labels())[neighbor.hashName])]
      ensures !Member(neighbor) ==> Labels() == old(Labels())
    {
      ghost var labels, before := Labels(), neighbor.Label();
      assert g.at[current.hashName] == current.position;
      RelaxOne(current, neighbor);
      if Member(neighbor) {
        assert g.at[neighbor.hashName] == neighbor.position && labels[neighbor.hashName] == before;
        OneLabel(neighbor);
      } else {
        SameLabels();
      }
    }

    twostate lemma SameLabels()
      requires vertices == old(vertices) && forall k :: k in vertices ==> old(allocated(vertices[k]))
      requires forall k :: k in vertices ==> vertices[k].Label() == old(vertices[k].Label())
      ensures Labels() == old(Labels())
    {}

    ghost function NameIfMember(v: TreePathVertice): set<Name>
      reads this`vertices
    {
      if Member(v) then {v.hashName} else {}
    }

    /** One turn of the loop over the neighbours: one more of them has been looked at. */
    method RelaxNext(current: TreePathVertice, neighbor: TreePathVertice, ghost g: Net, ghost x: real,
                     ghost labels: map<Name, Dijkstra.Label>, ghost ns: set<Name>)
      requires SamePlaces(g) && SourcesLead() && Member(current)
      requires current.distance == Finite(x) && labels.Keys == vertices.Keys
               && labels[current.hashName].distance == Finite(x)
      requires Labels() == Dijkstra.RelaxSome(g, current.hashName, x, labels, ns)
      modifies neighbor`distance, neighbor`source
      ensures neighbor.source == old(neighbor.source) || neighbor.source == current
      ensures SourcesLead() && current.distance == Finite(x)
      ensures Labels() == Dijkstra.RelaxSome(g, current.hashName, x, labels, ns + NameIfMember(neighbor))
    {
      RelaxOneOfMany(current, neighbor, g);
      if Member(neighbor) {
        Dijkstra.RelaxOneMore(g, current.hashName, x, labels, ns, neighbor.hashName);
      } else {
        assert ns + {} == ns;
      }
      Dijkstra.StaysPut(g, current.hashName, x, labels, ns + NameIfMember(neighbor));
      assert current.Label() == Labels()[current.hashName];
    }

    lemma PlacesOfGraph()
      requires Valid()
      ensures SamePlaces(Graph())
      ensures forall v :: Member(v) ==> v.hashName in Graph().next && Graph().next[v.hashName] == Live(v)
    {}

    /** The loop over the current vertice's neighbours. */
    method RelaxNeighbors(current: TreePathVertice, ghost g: Net, ghost x: real,
                          ghost labels: map<Name, Dijkstra.Label>)
      requires Valid() && SourcesLead() && Member(current) && SamePlaces(g) && labels == Labels()
      requires current.distance == Finite(x)
      modifies vertices.Values`distance, vertices.Values`state, vertices.Values`source, dropped`distance, dropped`source
      ensures SourcesLead()
      ensures Labels() == Dijkstra.RelaxSome(g, current.hashName, x, labels, old(Live(current)))
    {
      var neighbors := Values(current.neighbors);
      AllNeighbors(current, neighbors);
      RelaxAll(current, neighbors, g, x, labels);
    }

    /** Whatever happens to distances and links, the tree is what it was. */
    twostate lemma SameNeighbors()
      requires vertices == old(vertices) && dropped == old(dropped)
      requires forall k :: k in vertices ==>
                 old(allocated(vertices[k])) && vertices[k].neighbors == old(vertices[k].neighbors)
      ensures old(Valid()) ==> Valid()
      ensures Graph() == old(Graph())
    {
      assert forall k :: k in vertices ==> Live(vertices[k]) == old(Live(vertices[k]));
    }

    method RelaxAll(current: TreePathVertice, neighbors: seq<TreePathVertice>, ghost g: Net, ghost x: real,
                    ghost labels: map<Name, Dijkstra.Label>)
      requires SamePlaces(g) && SourcesLead() && Member(current) && current.distance == Finite(x)
      requires forall v :: v in neighbors ==> Member(v) || v in dropped
      requires labels == Labels()
      modifies vertices.Values`distance, vertices.Values`state, vertices.Values`source, dropped`distance, dropped`source
      ensures SourcesLead()
      ensures Labels() == Dijkstra.RelaxSome(g, current.hashName, x, labels, LiveNames(neighbors))
    {
      NoNames(neighbors[..0]);
      Dijkstra.RelaxNone(g, current.hashName, x, labels, LiveNames(neighbors[..0]));
      for i := 0 to |neighbors|
        invariant SourcesLead() && current.distance == Finite(x)
        invariant Labels() == Dijkstra.RelaxSome(g, current.hashName, x, labels, LiveNames(neighbors[..i]))
      {
        assert neighbors[i] in neighbors;
        RelaxNext(current, neighbors[i], g, x, labels, LiveNames(neighbors[..i]));
        NextName(neighbors, i);
      }
      assert neighbors[..|neighbors|] == neighbors;
    }

    /** The names of those that are vertices of the tree. */
    ghost function LiveNames(vs: seq<TreePathVertice>): set<Name>
      reads this`vertices
    {
      set v | v in vs && Member(v) :: v.hashName
    }

    lemma NoNames(vs: seq<TreePathVertice>)
      requires vs == []
      ensures LiveNames(vs) == {}
    {}

    lemma NextName(vs: seq<TreePathVertice>, i: nat)
      requires i < |vs|
      ensures LiveNames(vs[..i + 1]) == LiveNames(vs[..i]) + NameIfMember(vs[i])
    {
      assert vs[..i + 1] == vs[..i] + [vs[i]];
      assert forall v :: v in vs[..i + 1] <==> v in vs[..i] || v == vs[i];
    }

    lemma AllNeighbors(current: TreePathVertice, neighbors: seq<TreePathVertice>)
      requires Valid() && Member(current) && forall v :: v in neighbors <==> v in current.neighbors.Values
      ensures LiveNames(neighbors) == Live(current)
      ensures forall v :: v in neighbors ==> Member(v) || v in dropped
    {
      forall v | v in neighbors ensures Member(v) || v in dropped {
        var j :| j in current.neighbors && current.neighbors[j] == v;
        assert vertices[current.hashName] == current;
      }
      forall n | n in LiveNames(neighbors) ensures n in Live(current) {
        var v :| v in neighbors && Member(v) && v.hashName == n;
        var j :| j in current.neighbors && current.neighbors[j] == v;
      }
      forall n | n in Live(current) ensures n in LiveNames(neighbors) {
        var j :| j in current.neighbors && Member(current.neighbors[j]) && current.neighbors[j].hashName == n;
        assert current.neighbors[j] in neighbors;
      }
    }

    /** cycle(): the nearest unvisited vertice is settled, or given up when it is out of reach. */
    method Cycle(ghost g: Net, ghost before: Dijkstra.Search) returns (more: bool)
      requires Searching() && g == Graph() && before == SearchState()
      modifies this`visited, this`unvisited, vertices.Values`distance, vertices.Values`state, vertices.Values`source
      modifies dropped`distance, dropped`source
      ensures Searching() && g == Graph()
      ensures more <==> unvisited != []
      ensures if old(unvisited) == [] then unvisited == [] && SearchState() == before
              else |unvisited| < |old(unvisited)| && Dijkstra.Follows(g, before, SearchState())
    {
      var current := PickNearest();
      if current == null { return false; }
      if current.distance.Finite? {
        Settle(current, g, before);
      } else {
        GiveUp(current, g, before);
      }
      more := |unvisited| > 0;
    }

    method Settle(current: TreePathVertice, ghost g: Net, ghost before: Dijkstra.Search)
      requires Searching() && current in unvisited && current.distance.Finite?
      requires g == Graph() && before == SearchState()
      modifies this`visited, this`unvisited, vertices.Values`distance, vertices.Values`state, vertices.Values`source
      modifies dropped`distance, dropped`source
      ensures Searching() && g == Graph()
      ensures |unvisited| < |old(unvisited)|
      ensures SearchState() == Dijkstra.Cycle(g, before, current.hashName)
    {
      assert before.labels[current.hashName] == current.Label();
      ghost var relaxed := SettleLabels(current, g, current.distance.length, before.labels);
      MoveToVisited(current, g);
      SettledState(g, before, relaxed, current);
    }

    method SettleLabels(current: TreePathVertice, ghost g: Net, ghost x: real, ghost labels: map<Name, Dijkstra.Label>)
      returns (ghost relaxed: map<Name, Dijkstra.Label>)
      requires Valid() && SourcesLead() && Member(current) && g == Graph() && labels == Labels()
      requires current.distance == Finite(x)
      modifies vertices.Values`distance, vertices.Values`state, vertices.Values`source, dropped`distance, dropped`source
      ensures Valid() && SourcesLead() && g == Graph()
      ensures relaxed == Dijkstra.RelaxSome(g, current.hashName, x, labels, g.next[current.hashName])
      ensures Labels() == relaxed[current.hashName := relaxed[current.hashName].(visited := true)]
    {
      PlacesOfGraph();
      RelaxNeighbors(current, g, x, labels);
      SameNeighbors();
      relaxed := Labels();
      MarkVisited(current, g);
    }

    lemma SettledState(g: Net, before: Dijkstra.Search, relaxed: map<Name, Dijkstra.Label>, current: TreePathVertice)
      requires g.next.Keys == g.at.Keys == before.labels.Keys && current.hashName in before.labels
      requires before.labels[current.hashName].distance.Finite?
      requires relaxed == Dijkstra.RelaxSome(g, current.hashName, before.labels[current.hashName].distance.length,
                                             before.labels, g.next[current.hashName])
      requires Labels() == relaxed[current.hashName := relaxed[current.hashName].(visited := true)]
      requires NameSet(unvisited) == before.unvisited - {current.hashName}
      requires NamesOf(visited) == before.visited + [current.hashName]
      ensures SearchState() == Dijkstra.Cycle(g, before, current.hashName)
    {}

    method MarkVisited(current: TreePathVertice, ghost g: Net)
      requires Valid() && SourcesLead() && g == Graph() && Member(current)
      modifies current`state
      ensures Valid() && SourcesLead() && g == Graph()
      ensures Labels() == old(Labels())[current.hashName := old(Labels())[current.hashName].(visited := true)]
    {
      assert Labels()[current.hashName] == current.Label();
      current.state := Visited;
      assert g == Graph();
      OneLabel(current);
    }

    method MoveToVisited(current: TreePathVertice, ghost g: Net)
      requires current in unvisited && Searching() && g == Graph()
      modifies this`visited, this`unvisited
      ensures |unvisited| < |old(unvisited)|
      ensures Searching() && g == Graph()
      ensures NameSet(unvisited) == NameSet(old(unvisited)) - {current.hashName}
      ensures NamesOf(visited) == NamesOf(old(visited)) + [current.hashName]
      ensures Labels() == old(Labels())
    {
      RemoveOneFacts(unvisited, current);
      NamesWithout(unvisited, current);
      unvisited := RemoveOne(unvisited, current);
      visited := visited + [current];
    }

    method GiveUp(current: TreePathVertice, ghost g: Net, ghost before: Dijkstra.Search)
      requires Searching() && current in unvisited && current.distance.Infinite?
      requires g == Graph() && before == SearchState()
      modifies this`unvisited
      ensures Searching() && g == Graph() && |unvisited| < |old(unvisited)|
      ensures SearchState() == Dijkstra.Cycle(g, before, current.hashName)
    {
      RemoveOneFacts(unvisited, current);
      NamesWithout(unvisited, current);
      unvisited := RemoveOne(unvisited, current);
    }

    // -------------------------------------------------------------- the path

    lemma GraphIsValid()
      requires Valid()
      ensures Network.Valid(Graph())
    {
      forall k, n | k in vertices && n in Live(vertices[k]) ensures n in vertices {
        var j :| j in vertices[k].neighbors && Member(vertices[k].neighbors[j])
            && vertices[k].neighbors[j].hashName == n;
      }
    }

    /** The loop of computePath(): cycle until nothing is left. */
    method CycleThrough(ghost g: Net)
      requires Searching() && g == Graph() && SearchState() == Dijkstra.Begin(g, From())
      modifies this`visited, this`unvisited, vertices.Values`distance, vertices.Values`state, vertices.Values`source
      modifies dropped`distance, dropped`source
      ensures Valid() && SourcesLead() && g == Graph()
      ensures Dijkstra.ExploredFrom(g, From(), SearchState())
    {
      ghost var from, s := From(), SearchState();
      Dijkstra.LeadsStart(g, from);
      var more := true;
      while more
        invariant Searching() && g == Graph()
        invariant s == SearchState() && Dijkstra.Leads(g, from, s)
        invariant !more ==> unvisited == []
        decreases |unvisited|, more
      {
        ghost var before, empty := s, unvisited == [];
        more := Cycle(g, before);
        s := SearchState();
        if !empty { Dijkstra.LeadsOn(g, from, before, s); }
      }
      assert NameSet(unvisited) == {};
    }

    method StartAndCycle(ghost g: Net)
      requires Valid() && LinksEnd() && g == Graph()
      modifies this`visited, this`unvisited, vertices.Values`distance, vertices.Values`state, vertices.Values`source
      modifies dropped`distance, dropped`source
      ensures Valid() && SourcesLead() && g == Graph()
      ensures Dijkstra.ExploredFrom(g, From(), SearchState())
    {
      InitializeVertices();
      assert g == Graph();
      CycleThrough(g);
    }

    /** By the order of the visits, and dropped vertices above them all. */
    ghost function NewRanks(order: seq<Name>): map<TreePathVertice, nat>
      reads this`vertices, this`dropped, this`ranks
    {
      map v | v in All() :: if Member(v) then SourceLinks.Rank(order, v.hashName) else |order| + 1 + RankOf(ranks, v)
    }

    /** A search leaves no circle of links, however often one was run before and vertices dropped in between. */
    lemma LinksStillEnd(g: Net, s: Dijkstra.Search)
      requires Valid() && SourcesLead()
      requires g == Graph() && s == SearchState() && Dijkstra.ExploredFrom(g, From(), s)
      ensures LeadDown(Links(), NewRanks(s.visited))
    {
      var links, after := Links(), NewRanks(s.visited);
      forall v | v in links && links[v] != null
        ensures links[v] in links && RankOf(after, links[v]) < RankOf(after, v)
      {
        if Member(v) {
          LinkRanksLower(g, s, v);
        } else if Member(v.source) {
          SourceLinks.RankIsBounded(s.visited, v.source.hashName);
        }
      }
    }

    lemma LinkRanksLower(g: Net, s: Dijkstra.Search, v: TreePathVertice)
      requires Valid() && Member(v) && v.source != null && Member(v.source)
      requires g == Graph() && s == SearchState() && Dijkstra.ExploredFrom(g, From(), s)
      ensures SourceLinks.Rank(s.visited, v.source.hashName) < SourceLinks.Rank(s.visited, v.hashName)
    {
      GraphIsValid();
      assert s.labels[v.hashName] == v.Label();
      SourceLinks.NoLinkFromNowhere(g, From(), s, v.hashName);
      SourceLinks.LinkIsEarlier(g, From().value, s, v.hashName, v.source.hashName);
    }

    /** The way back from v, in front of a walk that leads on from there. */
    ghost function TrailOn(g: Net, links: map<TreePathVertice, TreePathVertice?>, v: TreePathVertice, w: seq<Name>)
      : seq<Point>
      requires LeadDown(links, ranks) && v in links && OnNet(g, w)
      reads this`origin, this`ranks
    {
      var trail := Trail(links, ranks, origin, v);
      trail[..|trail| - 1] + Points(g, w)
    }

    lemma TrailOneOn(g: Net, links: map<TreePathVertice, TreePathVertice?>, v: TreePathVertice, w: seq<Name>)
      requires LeadDown(links, ranks) && v in links && v != origin && links[v] != null && OnNet(g, w)
      requires links[v].hashName in g.at && g.at[links[v].hashName] == links[v].position
      requires OnNet(g, [links[v].hashName] + w)
      ensures TrailOn(g, links, v, w) == TrailOn(g, links, links[v], [links[v].hashName] + w)
    {
      var u := links[v];
      assert Points(g, [u.hashName] + w) == [u.position] + Points(g, w);
    }

    lemma TrailAlone(g: Net, links: map<TreePathVertice, TreePathVertice?>, v: TreePathVertice)
      requires LeadDown(links, ranks) && v in links && OnNet(g, [v.hashName])
      requires v.hashName in g.at && g.at[v.hashName] == v.position
      ensures TrailOn(g, links, v, [v.hashName]) == Trail(links, ranks, origin, v)
    {
      assert Points(g, [v.hashName]) == [v.position];
    }

    lemma FollowTrail(g: Net, s: Dijkstra.Search, links: map<TreePathVertice, TreePathVertice?>, d: Name,
                      v: TreePathVertice, w: seq<Name>)
      requires Valid() && SourcesAreMembers() && Member(v) && links == Links() && LeadDown(links, ranks)
      requires g == Graph() && s == SearchState() && Dijkstra.ExploredFrom(g, From(), s)
      requires SourceLinks.Traced(g, s, d, v.hashName, w)
      requires From() == Some(d) ==> w == [d] && v == origin
      ensures SourceLinks.Found(g, From(), d, s.labels[d].distance, Between(TrailOn(g, links, v, w)))
      decreases RankOf(ranks, v)
    {
      GraphIsValid();
      assert s.labels[v.hashName] == v.Label();
      if v == origin || v.source == null {
        assert TrailOn(g, links, v, w) == Points(g, w);
        SourceLinks.TraceFinds(g, From(), s, d, v.hashName, w);
      } else {
        var u := v.source;
        SourceLinks.NoLinkFromNowhere(g, From(), s, v.hashName);
        SourceLinks.OneLinkBack(g, From().value, s, d, v.hashName, u.hashName, w);
        TrailOneOn(g, links, v, w);
        FollowTrail(g, s, links, d, u, [u.hashName] + w);
      }
    }

    lemma SearchFindsAll(g: Net, s: Dijkstra.Search, links: map<TreePathVertice, TreePathVertice?>)
      requires Valid() && SourcesAreMembers() && links == Links() && LeadDown(links, ranks)
      requires g == Graph() && s == SearchState() && Dijkstra.ExploredFrom(g, From(), s)
      ensures SourceLinks.AllFound(g, From(), s.labels, Trails(vertices, links, ranks, origin))
    {
      GraphIsValid();
      var trails := Trails(vertices, links, ranks, origin);
      forall k | k in vertices
        ensures Dijkstra.ShortestFrom(g, From(), k, s.labels[k].distance)
        ensures SourceLinks.Found(g, From(), k, s.labels[k].distance, Between(trails[k]))
      {
        Dijkstra.ExploredIsShortestFrom(g, From(), s, k);
        SourceLinks.TraceStart(g, s, k);
        FollowTrail(g, s, links, k, vertices[k], [k]);
        TrailAlone(g, links, vertices[k]);
      }
    }

    lemma {:induction false} RootTold(g: Net, s: Dijkstra.Search, links: map<TreePathVertice, TreePathVertice?>,
                                      v: TreePathVertice)
      requires Valid() && SourcesAreMembers() && links == Links() && LeadDown(links, ranks) && Member(v)
      requires g == Graph() && s == SearchState() && Dijkstra.ExploredFrom(g, From(), s)
      ensures s.labels[v.hashName].distance.Finite? <==> Root(links, ranks, origin, v) == origin
      decreases RankOf(ranks, v)
    {
      GraphIsValid();
      assert s.labels[v.hashName] == v.Label();
      if From().Some? {
        SourceLinks.WhereLinksEnd(g, From().value, s, v.hashName);
      }
      if v != origin && v.source != null {
        SourceLinks.NoLinkFromNowhere(g, From(), s, v.hashName);
        SourceLinks.LinkIsFinite(g, From().value, s, v.hashName, v.source.hashName);
        assert links[v] == v.source;
        RootTold(g, s, links, v.source);
      }
    }

    lemma AllRootsTold(g: Net, s: Dijkstra.Search, links: map<TreePathVertice, TreePathVertice?>)
      requires Valid() && SourcesAreMembers() && links == Links() && LeadDown(links, ranks)
      requires g == Graph() && s == SearchState() && Dijkstra.ExploredFrom(g, From(), s)
      ensures RootsTold(s.labels, vertices, links, ranks, origin)
    {
      forall k | k in vertices
        ensures s.labels[k].distance.Finite? <==> Root(links, ranks, origin, vertices[k]) == origin
      {
        RootTold(g, s, links, vertices[k]);
      }
    }

    /** The search computePath() runs. */
    method Explore(ghost g: Net)
      returns (ghost labels: map<Name, Dijkstra.Label>, ghost links: map<TreePathVertice, TreePathVertice?>)
      requires Valid() && LinksEnd() && g == Graph()
      modifies this`visited, this`unvisited, vertices.Values`distance, vertices.Values`state, vertices.Values`source
      modifies dropped`distance, dropped`source, this`ranks
      ensures Valid() && LinksEnd() && g == Graph() && labels == Labels() && links == Links()
      ensures SourceLinks.AllFound(g, From(), labels, Trails(vertices, links, ranks, origin))
      ensures RootsTold(labels, vertices, links, ranks, origin)
    {
      StartAndCycle(g);
      ghost var s := SearchState();
      LinksStillEnd(g, s);
      labels, links := s.labels, Links();
      RankByVisits(g, s, links);
      SearchFindsAll(g, s, links);
      AllRootsTold(g, s, links);
    }

    ghost method RankByVisits(g: Net, s: Dijkstra.Search, links: map<TreePathVertice, TreePathVertice?>)
      requires Valid() && SourcesAreMembers() && g == Graph() && s == SearchState() && links == Links()
      requires LeadDown(links, NewRanks(s.visited))
      modifies this`ranks
      ensures Valid() && SourcesAreMembers() && g == Graph() && s == SearchState() && links == Links()
      ensures LeadDown(links, ranks)
    {
      ranks := NewRanks(s.visited);
    }

    /** getPath(): from the destination back along the source links, to the origin or to where they end. */
    method GetPath(ghost links: map<TreePathVertice, TreePathVertice?>) returns (result: seq<Line>)
      requires LinksEnd() && destination != null && destination in All() && links == Links()
      ensures result == Between(Trail(links, ranks, origin, destination))
    {
      var path := WalkBack(links);
      result := FromPoints(path);
    }

    method WalkBack(ghost links: map<TreePathVertice, TreePathVertice?>) returns (path: seq<Point>)
      requires LinksEnd() && destination != null && destination in All() && links == Links()
      ensures path == Trail(links, ranks, origin, destination)
    {
      path := [destination.position];
      var lastInserted: TreePathVertice, vertice := destination, destination.source;
      ghost var trail := Trail(links, ranks, origin, destination);
      while vertice != null && lastInserted != origin
        invariant lastInserted in links && vertice == links[lastInserted]
        invariant trail == Trail(links, ranks, origin, lastInserted)
        invariant Trail(links, ranks, origin, destination) == trail[..|trail| - 1] + path
        decreases RankOf(ranks, lastInserted)
      {
        trail := Trail(links, ranks, origin, vertice);
        path := [vertice.position] + path;
        lastInserted, vertice := vertice, vertice.source;
      }
    }

    /** computePath(): every vertice ends up at its shortest distance from the origin through vertices of the tree, and
        with links that lead to it a shortest way, or none when there is nowhere to go. Nothing is reached from an
        origin that is no vertice of the tree any more. The lines handed out follow the links of the destination, which
        need not be one either. */
    method ComputePath()
      returns (result: seq<Line>, ghost labels: map<Name, Dijkstra.Label>,
               ghost links: map<TreePathVertice, TreePathVertice?>)
      requires Valid() && LinksEnd() && DestinationKnown()
      modifies this`visited, this`unvisited, vertices.Values`distance, vertices.Values`state, vertices.Values`source
      modifies dropped`distance, dropped`source, this`ranks
      ensures Valid() && LinksEnd() && labels == Labels() && links == Links()
      ensures origin == null || destination == null ==> result == []
      ensures origin != null && destination != null ==>
                && SourceLinks.AllFound(old(Graph()), From(), labels, Trails(vertices, links, ranks, origin))
                && RootsTold(labels, vertices, links, ranks, origin)
                && result == Between(Trail(links, ranks, origin, destination))
    {
      if origin == null || destination == null { return [], Labels(), Links(); }
      result, labels, links := PathThrough(Graph());
    }

    method PathThrough(ghost g: Net)
      returns (result: seq<Line>, ghost labels: map<Name, Dijkstra.Label>,
               ghost links: map<TreePathVertice, TreePathVertice?>)
      requires Valid() && LinksEnd() && destination != null && destination in All() && g == Graph()
      modifies this`visited, this`unvisited, vertices.Values`distance, vertices.Values`state, vertices.Values`source
      modifies dropped`distance, dropped`source, this`ranks
      ensures Valid() && LinksEnd() && g == Graph() && labels == Labels() && links == Links()
      ensures SourceLinks.AllFound(g, From(), labels, Trails(vertices, links, ranks, origin))
      ensures RootsTold(labels, vertices, links, ranks, origin)
      ensures result == Between(Trail(links, ranks, origin, destination))
    {
      labels, links := Explore(g);
      result := PathBack(g, labels, links);
    }

    method PathBack(ghost g: Net, ghost labels: map<Name, Dijkstra.Label>,
                    ghost links: map<TreePathVertice, TreePathVertice?>)
      returns (result: seq<Line>)
      requires Valid() && LinksEnd() && destination != null && destination in All()
      requires g == Graph() && labels == Labels() && links == Links()
      ensures Valid() && LinksEnd() && g == Graph() && labels == Labels() && links == Links()
      ensures vertices == old(vertices) && ranks == old(ranks) && origin == old(origin)
      ensures result == Between(Trail(links, ranks, origin, destination))
    {
      label Explored:
      result := GetPath(links);
      SameNeighbors@Explored();
      SameLabels@Explored();
      SameLinks@Explored();
    }

    twostate lemma SameLinks()
      requires vertices == old(vertices) && dropped == old(dropped)
      requires forall k :: k in vertices ==>
                 old(allocated(vertices[k])) && vertices[k].source == old(vertices[k].source)
      requires forall v :: v in dropped ==> old(allocated(v)) && v.source == old(v.source)
      ensures Links() == old(Links())
    {}

    // -------------------------------------------------------------- attaching an origin or a destination

    ghost function Wires(): Wiring.Wires
      reads this`vertices, vertices.Values`neighbors
    {
      map k | k in vertices :: vertices[k].Known()
    }

    ghost function At(): map<Name, Point>
      reads this`vertices
    {
      map k | k in vertices :: vertices[k].position
    }

    ghost function Plan(): Wiring.Plan
      reads this`vertices, this`lines, vertices.Values`neighbors
    {
      Wiring.Plan(Wires(), At(), lines)
    }

    /** No neighbour that has been dropped goes by the name of a vertice of the tree. */
    ghost predicate NoNamesakes()
      reads this`vertices, vertices.Values`neighbors
    {
      forall k :: k in vertices ==> forall j :: j in vertices[k].neighbors ==>
        Member(vertices[k].neighbors[j]) || vertices[k].neighbors[j].hashName !in vertices
    }

    /** What the search walks through is the network of the plan, as far as its vertices are still there. */
    lemma GraphOfPlan()
      requires Valid() && NoNamesakes()
      ensures Graph() == Wiring.LiveNet(Plan(), metric)
    {
      forall k | k in vertices ensures Live(vertices[k]) == Wires()[k].Values * vertices.Keys {
        forall n | n in Live(vertices[k]) ensures n in Wires()[k].Values {
          var j :| j in vertices[k].neighbors && Member(vertices[k].neighbors[j])
              && vertices[k].neighbors[j].hashName == n;
          assert Wires()[k][j] == n;
        }
        forall n | n in Wires()[k].Values && n in vertices ensures n in Live(vertices[k]) {
          var j :| j in Wires()[k] && Wires()[k][j] == n;
          assert Member(vertices[k].neighbors[j]);
        }
      }
      var g, h := Graph(), Wiring.LiveNet(Plan(), metric);
      assert g.next.Keys == h.next.Keys == Wires().Keys == vertices.Keys;
      forall k | k in vertices ensures g.next[k] == h.next[k] {
        assert h.next[k] == Wires()[k].Values * Wires().Keys;
      }
    }

    /** While no vertice has been dropped, that is all of it. */
    lemma WholePlan()
      requires Valid() && dropped == {}
      ensures NoNamesakes() && Wiring.LiveNet(Plan(), metric) == Wiring.NetOf(Plan(), metric)
    {
      forall k | k in vertices ensures Wires()[k].Values <= vertices.Keys {
        forall n | n in Wires()[k].Values ensures n in vertices {
          var j :| j in Wires()[k] && Wires()[k][j] == n;
          assert Member(vertices[k].neighbors[j]);
        }
      }
      var g, h := Wiring.LiveNet(Plan(), metric), Wiring.NetOf(Plan(), metric);
      assert g.next.Keys == h.next.Keys == Wires().Keys == vertices.Keys;
      forall k | k in vertices ensures g.next[k] == h.next[k] {
        assert g.next[k] == Wires()[k].Values * Wires().Keys;
      }
    }

    /** A new vertice. */
    method Place(point: Point, kind: VerticeType) returns (v: TreePathVertice)
      requires Valid() && makeHashName(point) !in vertices
      modifies this`vertices
      ensures fresh(v) && v.hashName == makeHashName(point) && v.kind == kind && v.position == point
      ensures Valid()
      ensures vertices == old(vertices)[v.hashName := v] && Grows(old(vertices), vertices, kind)
      ensures OthersFresh() && NewUnlinked()
      ensures Wires() == old(Wires())[v.hashName := map[]] && At() == old(At())[v.hashName := point]
    {
      v := new TreePathVertice(point, kind, makeHashName(point));
      assert Wires() == old(Wires()) && Valid();
      GrowsByOne(vertices, v);
      Insert(v);
    }

    method Insert(v: TreePathVertice)
      requires Valid() && makeHashName(v.position) == v.hashName && v.hashName !in vertices && v.neighbors == map[]
      requires v !in dropped
      modifies this`vertices
      ensures Valid() && vertices == old(vertices)[v.hashName := v]
      ensures Wires() == old(Wires())[v.hashName := map[]] && At() == old(At())[v.hashName := v.position]
    {
      vertices := vertices[v.hashName := v];
      VerticeAdded(v);
      StaysValid(v);
    }

    twostate lemma StaysValid(v: TreePathVertice)
      requires vertices == old(vertices)[v.hashName := v] && v.neighbors == map[] && v.hashName !in old(vertices)
      requires forall k :: k in old(vertices) ==> vertices[k].neighbors == old(vertices[k].neighbors)
      requires makeHashName(v.position) == v.hashName && dropped == old(dropped) && v !in dropped
      ensures old(Valid()) ==> Valid()
    {}

    twostate lemma VerticeAdded(v: TreePathVertice)
      requires vertices == old(vertices)[v.hashName := v] && v.neighbors == map[] && v.hashName !in old(vertices)
      requires forall k :: k in old(vertices) ==> vertices[k].neighbors == old(vertices[k].neighbors)
      ensures Wires() == old(Wires())[v.hashName := map[]] && At() == old(At())[v.hashName := v.position]
    {
      assert v.Known() == map[];
    }

    /** What the tree knows changes where one vertice's neighbours do. */
    twostate lemma OneVertice(v: TreePathVertice)
      requires vertices == old(vertices) && Member(v)
      requires forall k :: k in vertices ==> old(allocated(vertices[k]))
      requires forall k :: k in vertices && k != v.hashName ==> vertices[k].neighbors == old(vertices[k].neighbors)
      ensures Wires() == old(Wires())[v.hashName := v.Known()]
    {}

    method Join(v: TreePathVertice, neighbor: TreePathVertice)
      requires Valid() && Member(v) && Member(neighbor)
      modifies v`neighbors
      ensures Valid()
      ensures Wires() == Wiring.Joined(old(Wires()), v.hashName, neighbor.hashName)
    {
      assert old(Wires())[v.hashName] == v.Known();
      v.TryAddNeighbor(neighbor);
      OneVertice(v);
    }

    method Replace(v: TreePathVertice, neighbor: TreePathVertice, newNeighbor: TreePathVertice)
      requires Valid() && Member(v) && Member(newNeighbor)
      modifies v`neighbors
      ensures Valid()
      ensures Wires() == Wiring.Replaced(old(Wires()), v.hashName, neighbor.hashName, newNeighbor.hashName)
    {
      assert old(Wires())[v.hashName] == v.Known();
      v.TryReplaceNeighbor(neighbor, newNeighbor);
      OneVertice(v);
    }

    method JoinEachOther(v: TreePathVertice, n: TreePathVertice, ghost w: Wiring.Wires)
      requires Valid() && Member(v) && Member(n) && w == Wires()
      modifies v`neighbors, n`neighbors
      ensures Valid()
      ensures Wires() == Wiring.Joined(Wiring.Joined(w, v.hashName, n.hashName), n.hashName, v.hashName)
    {
      Join(v, n);
      Join(n, v);
    }

    /** Every vertice is one that was filed there before, or new. */
    twostate predicate OthersFresh()
      reads this`vertices
    {
      forall k :: k in vertices ==> (k in old(vertices) && vertices[k] == old(vertices)[k]) || fresh(vertices[k])
    }

    /** New vertices have no source link. */
    twostate predicate NewUnlinked()
      reads this`vertices, vertices.Values`source
    {
      forall k :: k in vertices ==>
        (k in old(vertices) && vertices[k] == old(vertices)[k]) || vertices[k].source == null
    }

    lemma NobodyLinked()
      requires dropped == {} && forall k :: k in vertices ==> vertices[k].source == null
      ensures LinksEnd()
    {
      forall v | v in Links() ensures Links()[v] == null {
        var k :| k in vertices && vertices[k] == v;
      }
    }

    /** Whoever was known still is, nobody has a link to a new vertice, and it has none. */
    lemma NewcomersUnlinked(before: map<Name, TreePathVertice>, gone: set<TreePathVertice>, names: set<Name>,
                            was: map<TreePathVertice, TreePathVertice?>)
      requires LeadDown(was, ranks) && was.Keys == before.Values + gone
      requires (forall k :: k in before - names ==> k in vertices && vertices[k] == before[k])
      requires dropped == gone + Those(before, names)
      requires forall v :: v in was ==> v.source == was[v]
      requires forall k :: k in vertices ==> (k in before && vertices[k] == before[k]) || vertices[k].source == null
      ensures LinksEnd() && was.Keys <= All()
    {
      forall v | v in was ensures v in All() {
        if v !in gone {
          var k :| k in before && before[k] == v;
          assert k in names ==> v in Those(before, names);
          assert k !in names ==> k in before - names;
        }
      }
      forall v | v in All() && v.source != null ensures v in was {
        if v !in dropped {
          var k :| k in vertices && vertices[k] == v;
        }
      }
    }

    constructor (lines: seq<Line>, metric: (Point, Point) -> real, makeHashName: Point -> Name)
      requires NonNegative(metric)
      ensures this.metric == metric && this.makeHashName == makeHashName && origin == null && destination == null
      ensures dropped == {}
      ensures Valid() && (forall k :: k in vertices ==> fresh(vertices[k])) && Grows(map[], vertices, Standard)
      ensures LinksEnd()
      ensures Plan() == Wiring.FromLines(lines, makeHashName).(lines := lines)
    {
      this.metric, this.makeHashName, this.lines := metric, makeHashName, lines;
      vertices, visited, unvisited, origin, destination, dropped, ranks := map[], [], [], null, null, {}, map[];
      new;
      InitializeFromLines();
      NobodyLinked();
    }

    method InitializeFromLines()
      requires Valid() && vertices == map[]
      modifies this`vertices
      ensures Valid() && Grows(map[], vertices, Standard)
      ensures forall k :: k in vertices ==> fresh(vertices[k]) && vertices[k].source == null
      ensures origin == old(origin) && destination == old(destination)
      ensures Plan() == Wiring.FromLines(lines, makeHashName).(lines := lines)
    {
      ghost var p := Wiring.FromLines([], makeHashName);
      for i := 0 to |lines|
        invariant Valid() && Grows(map[], vertices, Standard)
        invariant forall k :: k in vertices ==> fresh(vertices[k]) && vertices[k].source == null
        invariant p == Wiring.FromLines(lines[..i], makeHashName) && Wires() == p.wires && At() == p.at
      {
        p := AddLineAt(i, p);
      }
      assert lines[..|lines|] == lines;
    }

    method AddLineAt(i: nat, ghost p: Wiring.Plan) returns (ghost q: Wiring.Plan)
      requires Valid() && Grows(map[], vertices, Standard) && i < |lines|
      requires p == Wiring.FromLines(lines[..i], makeHashName) && Wires() == p.wires && At() == p.at
      modifies this`vertices, vertices.Values`neighbors
      ensures Valid() && OthersFresh() && NewUnlinked() && Grows(map[], vertices, Standard)
      ensures q == Wiring.FromLines(lines[..i + 1], makeHashName) && Wires() == q.wires && At() == q.at
    {
      ghost var before := vertices;
      AddLine(lines[i], p);
      GrowsTwice(map[], before, vertices, Standard);
      Wiring.OneLineMore(lines, i, makeHashName);
      q := Wiring.WithLine(p, makeHashName, lines[i]);
    }

    /** The vertices at the ends of a line, and that they are neighbours. */
    method AddLine(l: Line, ghost p: Wiring.Plan)
      requires Valid() && Wires() == p.wires && At() == p.at
      modifies this`vertices, vertices.Values`neighbors
      ensures Valid() && Wires() == Wiring.WithLine(p, makeHashName, l).wires
              && At() == Wiring.WithLine(p, makeHashName, l).at
      ensures Grows(old(vertices), vertices, Standard) && OthersFresh() && NewUnlinked()
    {
      var v1, v2 := EnsureBoth(l, p);
      JoinEachOther(v1, v2, Wires());
    }

    method EnsureBoth(l: Line, ghost p: Wiring.Plan) returns (v1: TreePathVertice, v2: TreePathVertice)
      requires Valid() && Wires() == p.wires && At() == p.at
      modifies this`vertices
      ensures Valid() && Member(v1) && Member(v2) && v1.hashName == makeHashName(l.p1)
              && v2.hashName == makeHashName(l.p2)
      ensures Grows(old(vertices), vertices, Standard) && OthersFresh() && NewUnlinked()
      ensures var q := Wiring.Ensured(Wiring.Ensured(p, makeHashName, l.p1), makeHashName, l.p2);
              Wires() == q.wires && At() == q.at
    {
      v1 := EnsureVertice(l.p1, p);
      ghost var before := vertices;
      v2 := EnsureVertice(l.p2, Wiring.Ensured(p, makeHashName, l.p1));
      GrowsTwice(old(vertices), before, vertices, Standard);
    }

    method EnsureVertice(point: Point, ghost p: Wiring.Plan) returns (v: TreePathVertice)
      requires Valid() && Wires() == p.wires && At() == p.at
      modifies this`vertices
      ensures Valid() && Member(v) && v.hashName == makeHashName(point)
      ensures Grows(old(vertices), vertices, Standard) && OthersFresh() && NewUnlinked()
      ensures Wires() == Wiring.Ensured(p, makeHashName, point).wires
              && At() == Wiring.Ensured(p, makeHashName, point).at
    {
      if makeHashName(point) in vertices {
        v := vertices[makeHashName(point)];
      } else {
        v := Place(point, Standard);
      }
    }

    // -------------------------------------------------------------- ad-hoc vertices

    /** Vertices of the kind are dropped; whoever has them for neighbours keeps them. */
    method ClearAdHocVertices(kind: VerticeType)
      modifies this`vertices, this`dropped
      ensures vertices == old(vertices) - OfKind(old(vertices), kind)
      ensures dropped == old(dropped) + Those(old(vertices), OfKind(old(vertices), kind))
    {
      var deleteList := {};
      var keys := vertices.Keys;
      while keys != {}
        invariant deleteList == set k | k in vertices && k !in keys && vertices[k].kind == kind
        decreases keys
      {
        var k :| k in keys;
        if k in vertices && vertices[k].kind == kind {
          deleteList := deleteList + {k};
        }
        keys := keys - {k};
      }
      assert deleteList == OfKind(vertices, kind);
      dropped := dropped + Those(vertices, deleteList);
      vertices := vertices - deleteList;
    }

    /** The ends of a line hear of the new vertice instead of each other. */
    method Relink(lv1: TreePathVertice, lv2: TreePathVertice, v2: TreePathVertice, ghost w: Wiring.Wires)
      requires Valid() && Member(lv1) && Member(lv2) && Member(v2) && w == Wires()
      modifies lv1`neighbors, lv2`neighbors
      ensures Valid()
      ensures Wires() == Wiring.Replaced(Wiring.Replaced(w, lv1.hashName, lv2.hashName, v2.hashName),
                                         lv2.hashName, lv1.hashName, v2.hashName)
    {
      Replace(lv1, lv2, v2);
      Replace(lv2, lv1, v2);
    }

    method JoinBoth(v: TreePathVertice, n1: TreePathVertice, n2: TreePathVertice, ghost w: Wiring.Wires)
      requires Valid() && Member(v) && Member(n1) && Member(n2) && w == Wires()
      modifies v`neighbors
      ensures Valid()
      ensures Wires() == Wiring.Joined(Wiring.Joined(w, v.hashName, n1.hashName), v.hashName, n2.hashName)
    {
      Join(v, n1);
      Join(v, n2);
    }

    /** v2 comes between the ends of a line, with v1 beside it. */
    method Rewire(lv1: TreePathVertice, lv2: TreePathVertice, v2: TreePathVertice, v1: TreePathVertice,
                  ghost w: Wiring.Wires)
      requires Valid() && Member(lv1) && Member(lv2) && Member(v2) && Member(v1) && w == Wires()
      modifies lv1`neighbors, lv2`neighbors, v2`neighbors, v1`neighbors
      ensures Valid()
      ensures Wires() == Wiring.Spliced(w, lv1.hashName, lv2.hashName, v2.hashName, v1.hashName)
    {
      Relink(lv1, lv2, v2, w);
      JoinBoth(v2, lv1, lv2, Wires());
      JoinEachOther(v2, v1, Wires());
    }

    /** The line between lv1 and lv2 gives way to two, which meet in v2. */
    method SplitLine(l: Line, lv1: TreePathVertice, lv2: TreePathVertice, v2: TreePathVertice, v1: TreePathVertice,
                     ghost w: Wiring.Wires)
      requires Valid() && Member(lv1) && Member(lv2) && Member(v2) && Member(v1) && w == Wires()
      modifies this`lines, lv1`neighbors, lv2`neighbors, v2`neighbors, v1`neighbors
      ensures Valid()
      ensures Wires() == Wiring.Spliced(w, lv1.hashName, lv2.hashName, v2.hashName, v1.hashName)
      ensures lines == RemoveOne(old(lines), l) + [Line(l.p1, v2.position), Line(v2.position, l.p2)]
    {
      Rewire(lv1, lv2, v2, v1, w);
      ReplaceLine(l, v2.position);
    }

    method ReplaceLine(l: Line, c: Point)
      modifies this`lines
      ensures lines == RemoveOne(old(lines), l) + [Line(l.p1, c), Line(c, l.p2)]
      ensures Wires() == old(Wires()) && (old(Valid()) ==> Valid())
    {
      lines := RemoveOne(lines, l) + [Line(l.p1, c), Line(c, l.p2)];
    }

    lemma PlanNames(p: Wiring.Plan)
      requires p == Plan()
      ensures p.wires.Keys == vertices.Keys
    {}

    method JoinToNew(v1: TreePathVertice, hit: ClosestLine.Hit, kind: VerticeType, ghost p: Wiring.Plan)
      requires Valid() && Member(v1) && p == Plan() && Wiring.EndsExist(p.wires, makeHashName, Some(hit))
      requires makeHashName(hit.point) !in vertices
      modifies this`vertices, this`lines, vertices.Values`neighbors
      ensures Valid() && Grows(old(vertices), vertices, kind)
      ensures OthersFresh() && NewUnlinked()
      ensures Plan() == Wiring.SplitAt(p, makeHashName, v1.hashName, hit)
    {
      PlanNames(p);
      var v2 := Place(hit.point, kind);
      var lv1, lv2 := vertices[makeHashName(hit.line.p1)], vertices[makeHashName(hit.line.p2)];
      SplitLine(hit.line, lv1, lv2, v2, v1, Wires());
    }

    /** The new vertice is joined to the closest point; an end of the closest line may turn out to be missing. */
    method JoinToClosest(v1: TreePathVertice, best: Option<ClosestLine.Hit>, kind: VerticeType, ghost p: Wiring.Plan)
      returns (found: bool)
      requires Valid() && Member(v1) && p == Plan()
      modifies this`vertices, this`lines, vertices.Values`neighbors
      ensures Valid() && Grows(old(vertices), vertices, kind)
      ensures OthersFresh() && NewUnlinked()
      ensures found <==> !Wiring.Fails(p.wires, makeHashName, best)
      ensures Plan() == if found then Wiring.JoinedToClosest(p, makeHashName, v1.hashName, best) else p
    {
      if best.None? || best.value.point == Point(0.0, 0.0) { return true; }
      var c := best.value.point;
      if makeHashName(c) in vertices {
        JoinEachOther(v1, vertices[makeHashName(c)], p.wires);
      } else {
        if makeHashName(best.value.line.p1) !in vertices || makeHashName(best.value.line.p2) !in vertices {
          return false;
        }
        JoinToNew(v1, best.value, kind, p);
      }
      found := true;
    }

    /** What there is to do when no vertice has the point's name. */
    method AddNewVertice(point: Point, kind: VerticeType, direction: ClosestLine.Direction, ghost p: Wiring.Plan)
      returns (v1: TreePathVertice?, ghost best: Option<ClosestLine.Hit>)
      requires Valid() && makeHashName(point) !in vertices && p == Plan()
      modifies this`vertices, this`lines, vertices.Values`neighbors
      ensures Valid() && Grows(old(vertices), vertices, kind)
      ensures OthersFresh() && NewUnlinked()
      ensures ClosestLine.IsClosest(p.lines, point, direction, best)
      ensures var h := Wiring.Placed(p, makeHashName(point), point);
              if Wiring.Fails(h.wires, makeHashName, best) then v1 == null && Plan() == h
              else IsVertice(v1, makeHashName(point))
                   && Plan() == Wiring.JoinedToClosest(h, makeHashName, makeHashName(point), best)
    {
      v1 := Place(point, kind);
      ghost var before := vertices;
      var closest := ClosestLine.FindClosestPointInLines(lines, point, direction);
      best := closest;
      var found := JoinToClosest(v1, closest, kind, Wiring.Placed(p, v1.hashName, point));
      GrowsTwice(old(vertices), before, vertices, kind);
      if !found { v1 := null; }
    }

    /** addAdHocVertice(): the vertice with the point's name, or none when the call ends in an exception. */
    method AddAdHocVertice(point: Point, kind: VerticeType, direction: ClosestLine.Direction, ghost p: Wiring.Plan)
      returns (v1: TreePathVertice?, ghost best: Option<ClosestLine.Hit>)
      requires Valid() && LinksEnd() && p == Plan()
      modifies this`vertices, this`dropped, this`lines, vertices.Values`neighbors
      ensures Valid() && LinksEnd() && OthersFresh() && old(All()) <= All()
      ensures Attachment.Tries(p, Plan(), OfKind(old(vertices), kind), makeHashName, point, direction, best)
      ensures if Attachment.Refused(p, OfKind(old(vertices), kind), makeHashName, point, best) then v1 == null
              else IsVertice(v1, makeHashName(point))
      ensures Extends(point, kind)
    {
      if makeHashName(point) in vertices {
        v1, best := vertices[makeHashName(point)], None;
      } else {
        ghost var before, gone, links := vertices, dropped, Links();
        v1, best := ClearAndAdd(point, kind, direction, p);
        NewcomersUnlinked(before, gone, OfKind(before, kind), links);
      }
    }

    method ClearAndAdd(point: Point, kind: VerticeType, direction: ClosestLine.Direction, ghost p: Wiring.Plan)
      returns (v1: TreePathVertice?, ghost best: Option<ClosestLine.Hit>)
      requires Valid() && p == Plan() && makeHashName(point) !in vertices
      modifies this`vertices, this`dropped, this`lines, vertices.Values`neighbors
      ensures Valid() && OthersFresh() && NewUnlinked()
      ensures ClosestLine.IsClosest(p.lines, point, direction, best)
      ensures Plan() == Wiring.Tried(p, OfKind(old(vertices), kind), makeHashName, point, best)
      ensures if Attachment.Refused(p, OfKind(old(vertices), kind), makeHashName, point, best) then v1 == null
              else IsVertice(v1, makeHashName(point))
      ensures Extends(point, kind)
    {
      ghost var gone := OfKind(vertices, kind);
      ClearVertices(kind);
      v1, best := AddNewVertice(point, kind, direction, Wiring.Dropped(p, gone));
    }

    /** A call for a point that is a vertice's changes no vertice; else those of the kind go and others of the kind
        come. */
    twostate predicate Extends(point: Point, kind: VerticeType)
      reads this`vertices, this`dropped
    {
      if makeHashName(point) in old(vertices) then vertices == old(vertices) && dropped == old(dropped)
      else
        && Grows(old(vertices) - OfKind(old(vertices), kind), vertices, kind)
        && dropped == old(dropped) + Those(old(vertices), OfKind(old(vertices), kind))
    }

    /** clearAdHocVertices(), seen from the neighbour maps. */
    method ClearVertices(kind: VerticeType)
      requires Valid()
      modifies this`vertices, this`dropped
      ensures Valid() && vertices == old(vertices) - OfKind(old(vertices), kind)
      ensures dropped == old(dropped) + Those(old(vertices), OfKind(old(vertices), kind))
      ensures Plan() == Wiring.Dropped(old(Plan()), OfKind(old(vertices), kind))
    {
      ghost var gone := OfKind(vertices, kind);
      ClearAdHocVertices(kind);
      VerticesDropped(gone);
    }

    twostate lemma VerticesDropped(gone: set<Name>)
      requires vertices == old(vertices) - gone && lines == old(lines)
      requires forall k :: k in vertices ==>
                 old(allocated(vertices[k])) && vertices[k].neighbors == old(vertices[k].neighbors)
      ensures Plan() == Wiring.Dropped(old(Plan()), gone)
    {
      assert Wires() == old(Wires()) - gone;
      assert At() == old(At()) - gone;
    }

    method SetOrigin(point: Point, direction: ClosestLine.Direction, ghost p: Wiring.Plan)
      returns (ghost best: Option<ClosestLine.Hit>)
      requires Valid() && LinksEnd() && p == Plan()
      modifies this`origin, this`vertices, this`dropped, this`lines, vertices.Values`neighbors
      ensures Valid() && LinksEnd() && OthersFresh() && old(All()) <= All()
      ensures Attachment.Tries(p, Plan(), OfKind(old(vertices), AdHocOrigin), makeHashName, point, direction, best)
      ensures if Attachment.Refused(p, OfKind(old(vertices), AdHocOrigin), makeHashName, point, best)
              then origin == old(origin)
              else IsVertice(origin, makeHashName(point))
      ensures Extends(point, AdHocOrigin)
    {
      var result;
      result, best := AddAdHocVertice(point, AdHocOrigin, direction, p);
      if result == null { return; }
      label Added:
      origin := result;
      SameLinks@Added();
    }

    method SetDestination(point: Point, ghost p: Wiring.Plan) returns (ghost best: Option<ClosestLine.Hit>)
      requires Valid() && LinksEnd() && p == Plan()
      modifies this`destination, this`vertices, this`dropped, this`lines, vertices.Values`neighbors
      ensures Valid() && LinksEnd() && OthersFresh() && old(All()) <= All()
      ensures Attachment.Tries(p, Plan(), OfKind(old(vertices), AdHocDestination), makeHashName, point,
                               ClosestLine.NoDirection, best)
      ensures if Attachment.Refused(p, OfKind(old(vertices), AdHocDestination), makeHashName, point, best)
              then destination == old(destination)
              else IsVertice(destination, makeHashName(point))
      ensures Extends(point, AdHocDestination)
    {
      var result;
      result, best := AddAdHocVertice(point, AdHocDestination, ClosestLine.NoDirection, p);
      if result == null { return; }
      label Added:
      destination := result;
      SameLinks@Added();
    }

    lemma KeepsMember(before: map<Name, TreePathVertice>, v: TreePathVertice?, kind: VerticeType)
      requires Grows(before, vertices, kind) && (v != null ==> v.hashName in before && before[v.hashName] == v)
      ensures v != null ==> Member(v)
    {}

    /** setOrigin() on a tree that has had no origin attached. */
    method SetFirstOrigin(point: Point, direction: ClosestLine.Direction, ghost p: Wiring.Plan)
      returns (ghost q: Wiring.Plan)
      requires Valid() && LinksEnd() && p == Plan() && Wiring.Rooted(p, makeHashName)
      requires OfKind(vertices, AdHocOrigin) == {} && (destination != null ==> Member(destination))
      modifies this`origin, this`vertices, this`dropped, this`lines, vertices.Values`neighbors
      ensures Valid() && LinksEnd() && q == Plan() && Attachment.Attaches(p, q, makeHashName, point, direction)
      ensures Wiring.Rooted(q, makeHashName)
      ensures IsVertice(origin, makeHashName(point)) && (destination != null ==> Member(destination))
      ensures OfKind(vertices, AdHocOrigin) == Reattachment.Added(p, q)
      ensures OfKind(vertices, AdHocDestination) == OfKind(old(vertices), AdHocDestination)
      ensures dropped == old(dropped) && OthersFresh()
    {
      Attachment.NeverRefused(p, makeHashName, point, direction);
      PlanNames(p);
      ghost var best := OriginWithoutOthers(point, direction, p);
      q := Plan();
      PlanNames(q);
      Attachment.AttachesStaysRooted(p, q, makeHashName, point, direction);
      KindsAfter(old(vertices), vertices, p, q, AdHocOrigin, AdHocDestination);
      KeepsMember(old(vertices), destination, AdHocOrigin);
    }

    method OriginWithoutOthers(point: Point, direction: ClosestLine.Direction, ghost p: Wiring.Plan)
      returns (ghost best: Option<ClosestLine.Hit>)
      requires Valid() && LinksEnd() && p == Plan() && OfKind(vertices, AdHocOrigin) == {}
      modifies this`origin, this`vertices, this`dropped, this`lines, vertices.Values`neighbors
      ensures Valid() && LinksEnd() && Grows(old(vertices), vertices, AdHocOrigin) && dropped == old(dropped)
              && OthersFresh()
      ensures Attachment.Tries(p, Plan(), {}, makeHashName, point, direction, best)
      ensures !Attachment.Refused(p, {}, makeHashName, point, best) ==> IsVertice(origin, makeHashName(point))
    {
      assert vertices - {} == vertices;
      best := SetOrigin(point, direction, p);
    }

    method SetFirstDestination(point: Point, ghost p: Wiring.Plan) returns (ghost q: Wiring.Plan)
      requires Valid() && LinksEnd() && p == Plan() && Wiring.Rooted(p, makeHashName)
      requires OfKind(vertices, AdHocDestination) == {} && (origin != null ==> Member(origin))
      modifies this`destination, this`vertices, this`dropped, this`lines, vertices.Values`neighbors
      ensures Valid() && LinksEnd() && q == Plan()
              && Attachment.Attaches(p, q, makeHashName, point, ClosestLine.NoDirection)
      ensures Wiring.Rooted(q, makeHashName)
      ensures IsVertice(destination, makeHashName(point)) && (origin != null ==> Member(origin))
      ensures OfKind(vertices, AdHocDestination) == Reattachment.Added(p, q)
      ensures OfKind(vertices, AdHocOrigin) == OfKind(old(vertices), AdHocOrigin)
      ensures dropped == old(dropped) && OthersFresh()
    {
      Attachment.NeverRefused(p, makeHashName, point, ClosestLine.NoDirection);
      PlanNames(p);
      ghost var best := DestinationWithoutOthers(point, p);
      q := Plan();
      PlanNames(q);
      Attachment.AttachesStaysRooted(p, q, makeHashName, point, ClosestLine.NoDirection);
      KindsAfter(old(vertices), vertices, p, q, AdHocDestination, AdHocOrigin);
      KeepsMember(old(vertices), origin, AdHocDestination);
    }

    method DestinationWithoutOthers(point: Point, ghost p: Wiring.Plan) returns (ghost best: Option<ClosestLine.Hit>)
      requires Valid() && LinksEnd() && p == Plan() && OfKind(vertices, AdHocDestination) == {}
      modifies this`destination, this`vertices, this`dropped, this`lines, vertices.Values`neighbors
      ensures Valid() && LinksEnd() && Grows(old(vertices), vertices, AdHocDestination) && dropped == old(dropped)
              && OthersFresh()
      ensures Attachment.Tries(p, Plan(), {}, makeHashName, point, ClosestLine.NoDirection, best)
      ensures if Attachment.Refused(p, {}, makeHashName, point, best) then destination == old(destination)
              else IsVertice(destination, makeHashName(point))
    {
      assert vertices - {} == vertices;
      best := SetDestination(point, p);
    }
  }

  /** In the network the path is a shortest one from one vertice to the other, and of this length. */
  ghost predicate ShortestPath(g: Net, a: Name, b: Name, distance: Distance, path: seq<Line>) {
    a in g.at && b in g.at && Shortest(g, a, b, distance) && SourceLinks.PathFound(g, a, b, distance, path)
  }

  /** It is so in the network that setting origin and destination on a tree of the lines leaves. */
  ghost predicate IsRoute(lines: seq<Line>, metric: (Point, Point) -> real, name: Point -> Name, from: Point,
                          direction: ClosestLine.Direction, to: Point, originFirst: bool, path: seq<Line>) {
    exists q, r, distance ::
      && Attachment.BothAttached(Wiring.TreeOf(lines, name), q, r, name, from, direction, to, originFirst)
      && ShortestPath(Wiring.NetOf(r, metric), name(from), name(to), distance, path)
  }

  lemma WayOut(g: Net, from: Option<Name>, labels: map<Name, Dijkstra.Label>, trails: map<Name, seq<Point>>, d: Name)
    requires from.Some? ==> from.value in g.at
    requires labels.Keys == trails.Keys <= g.at.Keys && d in labels && SourceLinks.AllFound(g, from, labels, trails)
    ensures from.None? ==> Between(trails[d]) == []
    ensures from.Some? ==> ShortestPath(g, from.value, d, labels[d].distance, Between(trails[d]))
  {}

  /** computePath() told by the plan of the tree: without a destination, or without an origin among the vertices,
      there is no path; else it is a shortest one through the vertices that are still there. */
  method PathAsPlanned(tree: SpanningTree, ghost r: Wiring.Plan) returns (path: seq<Line>, ghost distance: Distance)
    requires tree.Valid() && tree.LinksEnd() && r == tree.Plan()
             && (tree.destination != null ==> tree.Member(tree.destination))
    modifies tree, tree.vertices.Values, tree.dropped
    ensures old(tree.destination == null || tree.From() == None) ==> path == []
    ensures old(tree.destination != null && tree.From() != None && tree.NoNamesakes()) ==>
              ShortestPath(Wiring.LiveNet(r, tree.metric), old(tree.From()).value, old(tree.destination.hashName),
                           distance, path)
  {
    if tree.NoNamesakes() { tree.GraphOfPlan(); }
    path, distance := PathInNet(tree, tree.Graph(), tree.From());
  }

  method PathInNet(tree: SpanningTree, ghost g: Net, ghost from: Option<Name>)
    returns (path: seq<Line>, ghost distance: Distance)
    requires tree.Valid() && tree.LinksEnd() && g == tree.Graph() && from == tree.From()
    requires tree.destination != null ==> tree.Member(tree.destination)
    modifies tree`visited, tree`unvisited, tree`ranks, tree.vertices.Values, tree.dropped
    ensures old(tree.destination) == null || from == None ==> path == []
    ensures old(tree.destination) != null && from != None ==>
              ShortestPath(g, from.value, old(tree.destination).hashName, distance, path)
  {
    ghost var origin, destination := tree.origin, tree.destination;
    ghost var labels, links;
    path, labels, links := tree.ComputePath();
    assert tree.origin == origin && tree.destination == destination;
    distance := Infinite;
    if origin != null && destination != null {
      distance := labels[destination.hashName].distance;
      WayOut(g, tree.From(), labels, Trails(tree.vertices, links, tree.ranks, tree.origin), destination.hashName);
    }
  }

  /** Both ends attached, one after the other. */
  method OriginThenDestination(tree: SpanningTree, from: Point, direction: ClosestLine.Direction, to: Point,
                               ghost p: Wiring.Plan)
    returns (ghost q: Wiring.Plan, ghost r: Wiring.Plan)
    requires tree.Valid() && tree.LinksEnd() && p == tree.Plan() && Wiring.Rooted(p, tree.makeHashName)
    requires OfKind(tree.vertices, AdHocOrigin) == OfKind(tree.vertices, AdHocDestination) == {}
             && tree.destination == null
    modifies tree`origin, tree`destination, tree`vertices, tree`dropped, tree`lines, tree.vertices.Values`neighbors
    ensures tree.Valid() && tree.LinksEnd() && r == tree.Plan() && tree.dropped == old(tree.dropped)
            && tree.OthersFresh()
    ensures tree.IsVertice(tree.origin, tree.makeHashName(from))
    ensures tree.IsVertice(tree.destination, tree.makeHashName(to))
    ensures Attachment.Attaches(p, q, tree.makeHashName, from, direction)
    ensures Attachment.Attaches(q, r, tree.makeHashName, to, ClosestLine.NoDirection)
  {
    q := tree.SetFirstOrigin(from, direction, p);
    ghost var between, origin := tree.vertices, tree.origin;
    r := tree.SetFirstDestination(to, q);
    assert tree.origin == origin;
    assert forall k :: k in tree.vertices ==>
        (k in between && tree.vertices[k] == between[k]) || fresh(tree.vertices[k]);
  }

  method DestinationThenOrigin(tree: SpanningTree, from: Point, direction: ClosestLine.Direction, to: Point,
                               ghost p: Wiring.Plan)
    returns (ghost q: Wiring.Plan, ghost r: Wiring.Plan)
    requires tree.Valid() && tree.LinksEnd() && p == tree.Plan() && Wiring.Rooted(p, tree.makeHashName)
    requires OfKind(tree.vertices, AdHocOrigin) == OfKind(tree.vertices, AdHocDestination) == {} && tree.origin == null
    modifies tree`origin, tree`destination, tree`vertices, tree`dropped, tree`lines, tree.vertices.Values`neighbors
    ensures tree.Valid() && tree.LinksEnd() && r == tree.Plan() && tree.dropped == old(tree.dropped)
            && tree.OthersFresh()
    ensures tree.IsVertice(tree.origin, tree.makeHashName(from))
    ensures tree.IsVertice(tree.destination, tree.makeHashName(to))
    ensures Attachment.Attaches(p, q, tree.makeHashName, to, ClosestLine.NoDirection)
    ensures Attachment.Attaches(q, r, tree.makeHashName, from, direction)
  {
    q := tree.SetFirstDestination(to, p);
    ghost var between, destination := tree.vertices, tree.destination;
    r := tree.SetFirstOrigin(from, direction, q);
    assert tree.destination == destination;
    assert forall k :: k in tree.vertices ==>
        (k in between && tree.vertices[k] == between[k]) || fresh(tree.vertices[k]);
  }

  /** A new tree over the lines, with both ends, attached in either order. */
  method TreeWithEnds(lines: seq<Line>, metric: (Point, Point) -> real, makeHashName: Point -> Name,
                      from: Point, direction: ClosestLine.Direction, to: Point, originFirst: bool)
    returns (tree: SpanningTree, ghost q: Wiring.Plan, ghost r: Wiring.Plan)
    requires NonNegative(metric)
    ensures fresh(tree) && (forall k :: k in tree.vertices ==> fresh(tree.vertices[k])) && tree.metric == metric
    ensures tree.Valid() && tree.LinksEnd() && r == tree.Plan() && tree.dropped == {}
    ensures tree.IsVertice(tree.origin, makeHashName(from))
    ensures tree.IsVertice(tree.destination, makeHashName(to))
    ensures Attachment.BothAttached(Wiring.TreeOf(lines, makeHashName), q, r, makeHashName, from, direction, to,
                                    originFirst)
  {
    tree := new SpanningTree(lines, metric, makeHashName);
    ghost var p := tree.Plan();
    LaidOut.TreeIsRooted(lines, makeHashName);
    assert OfKind(tree.vertices, AdHocOrigin) == OfKind(tree.vertices, AdHocDestination) == {};
    if originFirst {
      q, r := OriginThenDestination(tree, from, direction, to, p);
    } else {
      q, r := DestinationThenOrigin(tree, from, direction, to, p);
    }
  }

  /** The whole use of a tree: from the lines, an origin and a destination, set in either order, to the path. The path
      is a shortest one in the network of the lines with both attached. When the lines' ends are where their names say,
      these ends are as far from each other in it as along the lines themselves. */
  method Route(lines: seq<Line>, metric: (Point, Point) -> real, makeHashName: Point -> Name,
               from: Point, direction: ClosestLine.Direction, to: Point, originFirst: bool)
    returns (path: seq<Line>, ghost q: Wiring.Plan, ghost r: Wiring.Plan, ghost distance: Distance)
    requires NonNegative(metric)
    ensures Attachment.BothAttached(Wiring.TreeOf(lines, makeHashName), q, r, makeHashName, from, direction, to,
                                    originFirst)
    ensures ShortestPath(Wiring.NetOf(r, metric), makeHashName(from), makeHashName(to), distance, path)
    ensures IsRoute(lines, metric, makeHashName, from, direction, to, originFirst, path)
    ensures Wiring.Straight(metric) && LaidOut.EndsInPlace(Wiring.TreeOf(lines, makeHashName), makeHashName) ==>
              NetworkSplit.SameDistances(Wiring.NetOf(Wiring.TreeOf(lines, makeHashName), metric),
                                         Wiring.NetOf(r, metric))
  {
    ghost var p := Wiring.TreeOf(lines, makeHashName);
    var tree;
    tree, q, r := TreeWithEnds(lines, metric, makeHashName, from, direction, to, originFirst);
    tree.WholePlan();
    path, distance := PathAsPlanned(tree, r);
    LaidOut.TreeFits(lines, makeHashName);
    if Wiring.Straight(metric) && Wiring.Fits(p, makeHashName) {
      SecondCall.BothKeepDistances(p, q, r, makeHashName, metric, from, direction, to, originFirst);
    }
  }

  // -------------------------------------------------------------- any calls

  datatype Call = OriginSet(point: Point, direction: ClosestLine.Direction) | DestinationSet(point: Point) | PathAsked

  /** A tree that is in order stays so, whatever is called and however the call ends. */
  method MakeCall(tree: SpanningTree, call: Call) returns (path: seq<Line>)
    requires tree.InOrder()
    modifies tree, tree.vertices.Values, tree.dropped
    ensures tree.InOrder()
    ensures forall v :: v in tree.All() ==> v in old(tree.All()) || fresh(v)
  {
    path := [];
    match call {
      case OriginSet(point, direction) => CallOrigin(tree, point, direction);
      case DestinationSet(point) => CallDestination(tree, point);
      case PathAsked => path := CallPath(tree);
    }
  }

  method CallOrigin(tree: SpanningTree, point: Point, direction: ClosestLine.Direction)
    requires tree.InOrder()
    modifies tree, tree.vertices.Values
    ensures tree.InOrder()
    ensures forall v :: v in tree.All() ==> v in old(tree.All()) || fresh(v)
  {
    ghost var best := tree.SetOrigin(point, direction, tree.Plan());
  }

  method CallDestination(tree: SpanningTree, point: Point)
    requires tree.InOrder()
    modifies tree, tree.vertices.Values
    ensures tree.InOrder()
    ensures forall v :: v in tree.All() ==> v in old(tree.All()) || fresh(v)
  {
    ghost var best := tree.SetDestination(point, tree.Plan());
  }

  method CallPath(tree: SpanningTree) returns (path: seq<Line>)
    requires tree.InOrder()
    modifies tree, tree.vertices.Values, tree.dropped
    ensures tree.InOrder() && tree.All() == old(tree.All())
  {
    ghost var labels, links;
    path, labels, links := tree.ComputePath();
  }

  /** So computePath() may be asked for at any time. */
  method MakeCalls(lines: seq<Line>, metric: (Point, Point) -> real, makeHashName: Point -> Name, calls: seq<Call>)
    returns (tree: SpanningTree, paths: seq<seq<Line>>)
    requires NonNegative(metric)
    ensures fresh(tree) && tree.InOrder() && |paths| == |calls|
  {
    tree := new SpanningTree(lines, metric, makeHashName);
    paths := [];
    for i := 0 to |calls|
      invariant tree.InOrder() && |paths| == i && forall v :: v in tree.All() ==> fresh(v)
    {
      var path := MakeCall(tree, calls[i]);
      paths := paths + [path];
    }
  }

  // -------------------------------------------------------------- the origin set a second time

  lemma DroppedNames(vertices: map<Name, TreePathVertice>, names: set<Name>)
    requires forall k :: k in vertices ==> vertices[k].hashName == k
    ensures forall v :: v in Those(vertices, names) ==> v.hashName in names && v in vertices.Values
    ensures forall k :: k in vertices && k in names ==> vertices[k] in Those(vertices, names)
    ensures names == {} ==> Those(vertices, names) == {} && vertices - names == vertices
  {}

  /** A new origin after a first one, whose vertices are dropped. If the call is refused, the old origin is one of
      them. */
  method SetOriginAgain(tree: SpanningTree, from: Point, direction: ClosestLine.Direction, ghost q: Wiring.Plan,
                        ghost gone: set<Name>)
    returns (ghost two: Option<ClosestLine.Hit>)
    requires tree.Valid() && tree.LinksEnd() && q == tree.Plan() && tree.dropped == {}
             && gone == OfKind(tree.vertices, AdHocOrigin)
    requires tree.origin != null && tree.Member(tree.origin) && (gone != {} ==> tree.origin.hashName in gone)
    modifies tree`origin, tree`vertices, tree`dropped, tree`lines, tree.vertices.Values`neighbors
    ensures tree.Valid() && tree.LinksEnd() && tree.OthersFresh() && tree.Extends(from, AdHocOrigin)
            && tree.origin != null
    ensures Attachment.Tries(q, tree.Plan(), gone, tree.makeHashName, from, direction, two)
    ensures if Attachment.Refused(q, gone, tree.makeHashName, from, two) then gone == {} || !tree.Member(tree.origin)
            else tree.IsVertice(tree.origin, tree.makeHashName(from))
  {
    DroppedNames(tree.vertices, gone);
    two := tree.SetOrigin(from, direction, q);
  }

  /** The same, with what it means for the vertices and the destination. */
  method ReplaceOrigin(tree: SpanningTree, from: Point, direction: ClosestLine.Direction, ghost q: Wiring.Plan,
                       ghost gone: set<Name>)
    returns (ghost two: Option<ClosestLine.Hit>)
    requires tree.Valid() && tree.LinksEnd() && q == tree.Plan() && tree.dropped == {}
             && gone == OfKind(tree.vertices, AdHocOrigin)
    requires OfKind(tree.vertices, AdHocDestination) == {} && tree.origin != null && tree.Member(tree.origin)
    requires if gone == {} then Attachment.Accepts(q, tree.makeHashName, from, direction)
             else tree.origin.hashName in gone
    modifies tree`origin, tree`vertices, tree`dropped, tree`lines, tree.vertices.Values`neighbors
    ensures tree.Valid() && tree.LinksEnd() && tree.OthersFresh() && OfKind(tree.vertices, AdHocDestination) == {}
    ensures Attachment.Tries(q, tree.Plan(), gone, tree.makeHashName, from, direction, two)
    ensures tree.From() == if Attachment.Refused(q, gone, tree.makeHashName, from, two) then None
            else Some(tree.makeHashName(from))
    ensures if tree.makeHashName(from) in q.wires then tree.dropped == {}
            else tree.dropped == Those(old(tree.vertices), gone)
  {
    two := SetOriginAgain(tree, from, direction, q, gone);
    NoneOfKind(old(tree.vertices), tree.vertices, gone);
  }

  /** The first origin, and what the second needs to know of it. */
  method FirstOfTwo(tree: SpanningTree, first: Point, from: Point, direction: ClosestLine.Direction,
                    ghost p: Wiring.Plan)
    returns (ghost q: Wiring.Plan)
    requires tree.Valid() && tree.LinksEnd() && p == tree.Plan() && Wiring.Rooted(p, tree.makeHashName)
    requires OfKind(tree.vertices, AdHocOrigin) == OfKind(tree.vertices, AdHocDestination) == {}
             && tree.destination == null
    modifies tree`origin, tree`vertices, tree`dropped, tree`lines, tree.vertices.Values`neighbors
    ensures tree.Valid() && tree.LinksEnd() && q == tree.Plan() && tree.OthersFresh()
            && tree.dropped == old(tree.dropped)
    ensures tree.origin != null && tree.Member(tree.origin) && OfKind(tree.vertices, AdHocDestination) == {}
    ensures Attachment.Attaches(p, q, tree.makeHashName, first, direction)
    ensures OfKind(tree.vertices, AdHocOrigin) == Reattachment.Added(p, q)
    ensures if Reattachment.Added(p, q) == {} then Attachment.Accepts(q, tree.makeHashName, from, direction)
            else tree.origin.hashName in Reattachment.Added(p, q)
  {
    q := tree.SetFirstOrigin(first, direction, p);
    Attachment.AttachesAccepts(p, q, tree.makeHashName, first, from, direction);
    Reattachment.AddedOrThere(p, q, tree.makeHashName, first, direction);
  }

  lemma NoneOfKind(before: map<Name, TreePathVertice>, after: map<Name, TreePathVertice>, gone: set<Name>)
    requires OfKind(before, AdHocDestination) == {}
    requires after == before || Grows(before - gone, after, AdHocOrigin)
    ensures OfKind(after, AdHocDestination) == {}
  {
    forall k | k in after ensures after[k].kind != AdHocDestination {
      if k in before && before[k] == after[k] { assert k !in OfKind(before, AdHocDestination); }
    }
  }

  /** The origin set for one point and then for another, on a tree without ad-hoc vertices. */
  method OriginTwice(tree: SpanningTree, first: Point, from: Point, direction: ClosestLine.Direction,
                     ghost p: Wiring.Plan)
    returns (ghost q: Wiring.Plan, ghost two: Option<ClosestLine.Hit>)
    requires tree.Valid() && tree.LinksEnd() && p == tree.Plan() && Wiring.Rooted(p, tree.makeHashName)
             && tree.dropped == {}
    requires OfKind(tree.vertices, AdHocOrigin) == OfKind(tree.vertices, AdHocDestination) == {}
             && tree.destination == null
    modifies tree`origin, tree`vertices, tree`dropped, tree`lines, tree.vertices.Values`neighbors
    ensures tree.Valid() && tree.LinksEnd() && tree.OthersFresh() && OfKind(tree.vertices, AdHocDestination) == {}
    ensures Attachment.Attaches(p, q, tree.makeHashName, first, direction)
    ensures Attachment.Tries(q, tree.Plan(), Reattachment.Added(p, q), tree.makeHashName, from, direction, two)
    ensures tree.From() == if Attachment.Refused(q, Reattachment.Added(p, q), tree.makeHashName, from, two) then None
                           else Some(tree.makeHashName(from))
    ensures forall v :: v in tree.dropped ==> fresh(v) && v.hashName in Reattachment.Added(p, q)
    ensures tree.makeHashName(from) in q.wires ==> tree.dropped == {}
  {
    q := FirstOfTwo(tree, first, from, direction, p);
    ghost var between, gone := tree.vertices, Reattachment.Added(p, q);
    DroppedNames(between, gone);
    two := ReplaceOrigin(tree, from, direction, q, gone);
    assert forall k :: k in tree.vertices ==>
        (k in between && tree.vertices[k] == between[k]) || fresh(tree.vertices[k]);
  }

  lemma NamesApart(tree: SpanningTree)
    requires tree.Valid() && forall v :: v in tree.dropped ==> v.hashName !in tree.vertices
    ensures tree.NoNamesakes()
  {}

  /** A destination for a tree that has had none. */
  method DestinationLater(tree: SpanningTree, to: Point, ghost t: Wiring.Plan)
    returns (ghost three: Option<ClosestLine.Hit>)
    requires tree.Valid() && tree.LinksEnd() && t == tree.Plan() && OfKind(tree.vertices, AdHocDestination) == {}
             && tree.destination == null
    modifies tree`destination, tree`vertices, tree`dropped, tree`lines, tree.vertices.Values`neighbors
    ensures tree.Valid() && tree.LinksEnd() && tree.dropped == old(tree.dropped) && tree.OthersFresh()
            && tree.From() == old(tree.From())
    ensures Attachment.Tries(t, tree.Plan(), {}, tree.makeHashName, to, ClosestLine.NoDirection, three)
    ensures if Attachment.Refused(t, {}, tree.makeHashName, to, three) then tree.destination == null
            else tree.IsVertice(tree.destination, tree.makeHashName(to))
  {
    three := tree.DestinationWithoutOthers(to, t);
  }

  method DestinationThenPath(tree: SpanningTree, to: Point, ghost t: Wiring.Plan, ghost gone: set<Name>)
    returns (path: seq<Line>, ghost u: Wiring.Plan, ghost three: Option<ClosestLine.Hit>, ghost distance: Distance)
    requires tree.Valid() && tree.LinksEnd() && t == tree.Plan() && OfKind(tree.vertices, AdHocDestination) == {}
             && tree.destination == null
    requires forall v :: v in tree.dropped ==> v.hashName in gone
    modifies tree, tree.vertices.Values, tree.dropped
    ensures Attachment.Tries(t, u, {}, tree.makeHashName, to, ClosestLine.NoDirection, three)
    ensures old(tree.From()) == None || Attachment.Refused(t, {}, tree.makeHashName, to, three) ==> path == []
    ensures old(tree.From()) != None && !Attachment.Refused(t, {}, tree.makeHashName, to, three)
            && (old(tree.dropped) == {} || gone !! u.wires.Keys) ==>
              ShortestPath(Wiring.LiveNet(u, tree.metric), old(tree.From()).value, tree.makeHashName(to), distance,
                           path)
  {
    three := DestinationLater(tree, to, t);
    u := tree.Plan();
    if tree.dropped == {} || gone !! u.wires.Keys { NamesApart(tree); }
    path, distance := PathAsPlanned(tree, u);
  }

  /** From the lines, an origin that is set twice, and a destination to the path. There is none if the second origin
      or the destination is refused. Else it is a shortest one in what the second call has left of the network, as
      long as no vertice has taken the name of one that was dropped. */
  method SecondRoute(lines: seq<Line>, metric: (Point, Point) -> real, makeHashName: Point -> Name,
                     first: Point, from: Point, direction: ClosestLine.Direction, to: Point)
    returns (path: seq<Line>, ghost q: Wiring.Plan, ghost t: Wiring.Plan, ghost u: Wiring.Plan,
             ghost two: Option<ClosestLine.Hit>, ghost three: Option<ClosestLine.Hit>, ghost distance: Distance)
    requires NonNegative(metric)
    ensures Attachment.Attaches(Wiring.TreeOf(lines, makeHashName), q, makeHashName, first, direction)
    ensures Attachment.Tries(q, t, Reattachment.Added(Wiring.TreeOf(lines, makeHashName), q), makeHashName, from,
                             direction, two)
    ensures Attachment.Tries(t, u, {}, makeHashName, to, ClosestLine.NoDirection, three)
    ensures var gone := Reattachment.Added(Wiring.TreeOf(lines, makeHashName), q);
            if Attachment.Refused(q, gone, makeHashName, from, two)
                || Attachment.Refused(t, {}, makeHashName, to, three)
            then path == []
            else (makeHashName(from) in q.wires || gone !! u.wires.Keys) ==>
                   ShortestPath(Wiring.LiveNet(u, metric), makeHashName(from), makeHashName(to), distance, path)
  {
    var tree := new SpanningTree(lines, metric, makeHashName);
    ghost var p := tree.Plan();
    LaidOut.TreeIsRooted(lines, makeHashName);
    q, two := OriginTwice(tree, first, from, direction, p);
    t := tree.Plan();
    path, u, three, distance := DestinationThenPath(tree, to, t, Reattachment.Added(p, q));
  }
}
