/** Networks of named vertices, the walks through them and their lengths. */
module Network {
  datatype Point = Point(x: real, y: real)

  type Name = string

  /** A distance of a vertex: INFINITY, or a length. */
  datatype Distance = Infinite | Finite(length: real)

  predicate LessThan(a: Distance, b: Distance) { a.Finite? && (b.Infinite? || a.length < b.length) }

  predicate AtMost(a: Distance, b: Distance) { !LessThan(b, a) }

  /** Who neighbours whom, where the vertices are, and how long the line between two points is. */
  datatype Net = Net(next: map<Name, set<Name>>, at: map<Name, Point>, metric: (Point, Point) -> real)

  ghost predicate NonNegative(metric: (Point, Point) -> real) { forall p, q :: metric(p, q) >= 0.0 }

  ghost predicate Valid(g: Net) {
    && g.next.Keys == g.at.Keys
    && (forall a :: a in g.next ==> g.next[a] <= g.next.Keys)
    && NonNegative(g.metric)
  }

  function Step(g: Net, a: Name, b: Name): real
    requires a in g.at && b in g.at
  {
    g.metric(g.at[a], g.at[b])
  }

  // ---------------------------------------------------------------- walks

  predicate OnNet(g: Net, w: seq<Name>) { forall i :: 0 <= i < |w| ==> w[i] in g.next && w[i] in g.at }

  /** From a to b, each vertice a neighbour of the one before it. */
  predicate IsWalk(g: Net, a: Name, b: Name, w: seq<Name>) {
    && w != [] && w[0] == a && w[|w| - 1] == b && OnNet(g, w)
    && forall i :: 0 <= i < |w| - 1 ==> w[i + 1] in g.next[w[i]]
  }

  function WalkLength(g: Net, w: seq<Name>): real
    requires OnNet(g, w)
  {
    if |w| <= 1 then 0.0 else Step(g, w[0], w[1]) + WalkLength(g, w[1..])
  }

  /** The walk exists and has this length. */
  ghost predicate Walks(g: Net, a: Name, b: Name, w: seq<Name>, length: real) {
    IsWalk(g, a, b, w) && WalkLength(g, w) == length
  }

  lemma {:induction false} ExtendWalk(g: Net, a: Name, b: Name, w: seq<Name>, length: real, c: Name)
    requires Valid(g) && Walks(g, a, b, w, length) && c in g.next[b]
    ensures Walks(g, a, c, w + [c], length + Step(g, b, c))
    decreases |w|
  {
    assert c in g.next.Keys;
    var v := w + [c];
    if |w| == 1 {
      assert v == [b, c] && v[1..] == [c];
    } else {
      assert IsWalk(g, w[1], b, w[1..]);
      ExtendWalk(g, w[1], b, w[1..], WalkLength(g, w[1..]), c);
      assert v[1..] == w[1..] + [c];
    }
  }

  lemma PrependStep(g: Net, a: Name, b: Name, c: Name, w: seq<Name>, length: real)
    requires Valid(g) && a in g.next && b in g.next[a] && Walks(g, b, c, w, length)
    ensures Walks(g, a, c, [a] + w, Step(g, a, b) + length)
  {
    assert ([a] + w)[1..] == w;
  }

  // ---------------------------------------------------------------- shortest distances

  /** `d` is the length of a shortest walk from a to b; infinite when there is none. */
  ghost predicate Shortest(g: Net, a: Name, b: Name, d: Distance) {
    match d
    case Infinite => forall w :: !IsWalk(g, a, b, w)
    case Finite(x) =>
      && (exists w :: Walks(g, a, b, w, x))
      && (forall w, y :: Walks(g, a, b, w, y) ==> x <= y)
  }

  /** There is a walk of at most this length. */
  ghost predicate Within(g: Net, a: Name, b: Name, limit: real) {
    exists w, y :: Walks(g, a, b, w, y) && y <= limit
  }
}
