/** The edit distance of StringUtil::Levenshtein: the matrix it fills, what the entries mean
    in terms of single-character edits, and that the distance is a metric. */
module Levenshtein {

  // ---------------------------------------------------------------- single edits

  /** One edit at one position: a character inserted, deleted or substituted. */
  datatype Edit = Insert(at: nat, c: char) | Delete(at: nat) | Substitute(at: nat, c: char)

  predicate Applicable(e: Edit, s: string) {
    match e
    case Insert(at, _) => at <= |s|
    case Delete(at) => at < |s|
    case Substitute(at, _) => at < |s|
  }

  function Apply(e: Edit, s: string): string
    requires Applicable(e, s)
  {
    match e
    case Insert(at, c) => s[..at] + [c] + s[at..]
    case Delete(at) => s[..at] + s[at + 1..]
    case Substitute(at, c) => s[at := c]
  }

  /** `script` can be carried out on `s`, edit by edit, and leaves `t`. */
  ghost predicate Rewrites(script: seq<Edit>, s: string, t: string) {
    if script == [] then s == t
    else Applicable(script[0], s) && Rewrites(script[1..], Apply(script[0], s), t)
  }

  // ---------------------------------------------------------------- the recurrence

  function Cost(a: char, b: char): nat { if a == b then 0 else 1 }

  function Min3(a: nat, b: nat, c: nat): nat {
    if a <= b && a <= c then a else if b <= a && b <= c then b else c
  }

  /** The value the matrix holds for the prefixes `s` and `t`. */
  function Distance(s: string, t: string): nat
    decreases |s| + |t|
  {
    if s == [] then |t|
    else if t == [] then |s|
    else
      var s', t' := s[..|s| - 1], t[..|t| - 1];
      Min3(Distance(s, t') + 1, Distance(s', t) + 1, Distance(s', t') + Cost(s[|s| - 1], t[|t| - 1]))
  }

  /** What the cell for the first y characters of s1 and the first x of s2 holds. */
  function Cell(s1: string, s2: string, x: nat, y: nat): nat
    requires x <= |s2| && y <= |s1|
  {
    Distance(s1[..y], s2[..x])
  }

  lemma CellRecurrence(s1: string, s2: string, x: nat, y: nat)
    requires 1 <= x <= |s2| && 1 <= y <= |s1|
    ensures Cell(s1, s2, x, y) == Min3(Cell(s1, s2, x - 1, y) + 1, Cell(s1, s2, x, y - 1) + 1,
                                       Cell(s1, s2, x - 1, y - 1) + Cost(s1[y - 1], s2[x - 1]))
  {
    assert s1[..y][..y - 1] == s1[..y - 1] && s2[..x][..x - 1] == s2[..x - 1];
  }

  /** The constructor's loops fill every cell with the distance of the prefixes it stands for. */
  method FillMatrix(s1: string, s2: string) returns (matrix: array2<nat>)
    ensures matrix.Length0 == |s2| + 1 && matrix.Length1 == |s1| + 1
    ensures forall x, y :: 0 <= x <= |s2| && 0 <= y <= |s1| ==> matrix[x, y] == Cell(s1, s2, x, y)
  {
    matrix := new nat[|s2| + 1, |s1| + 1];
    matrix[0, 0] := 0;
    for x := 1 to |s2| + 1
      invariant forall k :: 0 <= k < x ==> matrix[k, 0] == Cell(s1, s2, k, 0)
    {
      matrix[x, 0] := matrix[x - 1, 0] + 1;
    }
    for y := 1 to |s1| + 1
      invariant forall k :: 0 <= k <= |s2| ==> matrix[k, 0] == Cell(s1, s2, k, 0)
      invariant forall k :: 0 <= k < y ==> matrix[0, k] == Cell(s1, s2, 0, k)
    {
      matrix[0, y] := matrix[0, y - 1] + 1;
    }
    for x := 1 to |s2| + 1
      invariant forall k :: 0 <= k <= |s2| ==> matrix[k, 0] == Cell(s1, s2, k, 0)
      invariant forall i, j :: 0 <= i < x && 0 <= j <= |s1| ==> matrix[i, j] == Cell(s1, s2, i, j)
    {
      for y := 1 to |s1| + 1
        invariant forall k :: 0 <= k <= |s2| ==> matrix[k, 0] == Cell(s1, s2, k, 0)
        invariant forall i, j :: 0 <= i < x && 0 <= j <= |s1| ==> matrix[i, j] == Cell(s1, s2, i, j)
        invariant forall j :: 0 <= j < y ==> matrix[x, j] == Cell(s1, s2, x, j)
      {
        CellRecurrence(s1, s2, x, y);
        matrix[x, y] := Min3(matrix[x - 1, y] + 1, matrix[x, y - 1] + 1,
                             matrix[x - 1, y - 1] + if s1[y - 1] == s2[x - 1] then 0 else 1);
      }
    }
  }

  /** The result: the length of the shortest script of single edits turning s1 into s2. */
  method Compute(s1: string, s2: string) returns (distance: nat)
    ensures distance == Distance(s1, s2)
    ensures exists script :: Rewrites(script, s1, s2) && |script| == distance
    ensures forall script :: Rewrites(script, s1, s2) ==> distance <= |script|
  {
    var matrix := FillMatrix(s1, s2);
    distance := matrix[|s2|, |s1|];
    assert s1[..|s1|] == s1 && s2[..|s2|] == s2;
    ghost var best := ShortestScript(s1, s2);
    forall script | Rewrites(script, s1, s2) ensures distance <= |script| {
      NoShorterScript(script, s1, s2);
    }
  }

  // ---------------------------------------------------------------- the distance is a metric

  lemma {:induction false} Symmetric(s: string, t: string)
    ensures Distance(s, t) == Distance(t, s)
    decreases |s| + |t|
  {
    if s != [] && t != [] {
      Symmetric(s, t[..|t| - 1]);
      Symmetric(s[..|s| - 1], t);
      Symmetric(s[..|s| - 1], t[..|t| - 1]);
    }
  }

  lemma {:induction false} ZeroOnlyOnEqual(s: string, t: string)
    ensures Distance(s, t) == 0 <==> s == t
    decreases |s| + |t|
  {
    if s != [] && t != [] {
      ZeroOnlyOnEqual(s[..|s| - 1], t[..|t| - 1]);
      assert s == s[..|s| - 1] + [s[|s| - 1]] && t == t[..|t| - 1] + [t[|t| - 1]];
    }
  }

  lemma {:induction false} Bounds(s: string, t: string)
    ensures Distance(s, t) >= |s| - |t| && Distance(s, t) >= |t| - |s|
    ensures Distance(s, t) <= if |s| < |t| then |t| else |s|
    decreases |s| + |t|
  {
    if s != [] && t != [] {
      Bounds(s, t[..|t| - 1]);
      Bounds(s[..|s| - 1], t);
      Bounds(s[..|s| - 1], t[..|t| - 1]);
    }
  }

  lemma {:induction false} Triangle(a: string, b: string, c: string)
    ensures Distance(a, c) <= Distance(a, b) + Distance(b, c)
    decreases |a| + |b| + |c|
  {
    if a == [] || b == [] || c == [] {
      Bounds(a, b);
      Bounds(b, c);
      Bounds(a, c);
    } else {
      var a', b', c' := a[..|a| - 1], b[..|b| - 1], c[..|c| - 1];
      Triangle(a', b, c);
      Triangle(a, b, c');
      Triangle(a, b', c);
      Triangle(a, b', c');
      Triangle(a', b', c);
      Triangle(a', b', c');
    }
  }

  // ---------------------------------------------------------------- scripts against the recurrence

  /** Dropping a common last character changes nothing. */
  lemma {:induction false} CommonTail(s: string, t: string, u: string)
    ensures Distance(s + u, t + u) <= Distance(s, t)
    decreases |u|
  {
    if u == [] {
      assert s + u == s && t + u == t;
    } else {
      var u' := u[..|u| - 1];
      assert (s + u)[..|s + u| - 1] == s + u' && (t + u)[..|t + u| - 1] == t + u';
      CommonTail(s, t, u');
    }
  }

  lemma OneEdit(e: Edit, s: string)
    requires Applicable(e, s)
    ensures Distance(s, Apply(e, s)) <= 1
  {
    match e {
      case Insert(at, c) =>
        OneInsertion(s[..at], s[at..], c);
        assert s[..at] + s[at..] == s;
      case Delete(at) =>
        OneDeletion(s[..at], s[at + 1..], s[at]);
        assert (s[..at] + [s[at]]) + s[at + 1..] == s;
      case Substitute(at, c) =>
        OneSubstitution(s[..at], s[at + 1..], s[at], c);
        assert (s[..at] + [s[at]]) + s[at + 1..] == s;
        assert (s[..at] + [c]) + s[at + 1..] == s[at := c];
    }
  }

  lemma OneInsertion(p: string, rest: string, c: char)
    ensures Distance(p + rest, (p + [c]) + rest) <= 1
  {
    CommonTail(p, p + [c], rest);
    ExtendTarget(p, c);
  }

  lemma OneDeletion(p: string, rest: string, c: char)
    ensures Distance((p + [c]) + rest, p + rest) <= 1
  {
    CommonTail(p + [c], p, rest);
    ExtendTarget(p, c);
    Symmetric(p, p + [c]);
  }

  lemma OneSubstitution(p: string, rest: string, a: char, c: char)
    ensures Distance((p + [a]) + rest, (p + [c]) + rest) <= 1
  {
    CommonTail(p + [a], p + [c], rest);
    assert (p + [a])[..|p|] == p && (p + [c])[..|p|] == p;
    ZeroOnlyOnEqual(p, p);
  }

  lemma ExtendTarget(s: string, c: char)
    ensures Distance(s, s + [c]) <= 1
  {
    assert (s + [c])[..|s|] == s;
    ZeroOnlyOnEqual(s, s);
  }

  /** No script from s to t is shorter than the distance. */
  lemma {:induction false} NoShorterScript(script: seq<Edit>, s: string, t: string)
    requires Rewrites(script, s, t)
    ensures Distance(s, t) <= |script|
  {
    if script == [] {
      ZeroOnlyOnEqual(s, t);
    } else {
      var next := Apply(script[0], s);
      OneEdit(script[0], s);
      NoShorterScript(script[1..], next, t);
      Triangle(s, next, t);
    }
  }

  /** A script of exactly that length exists. */
  lemma {:induction false} ShortestScript(s: string, t: string) returns (script: seq<Edit>)
    ensures Rewrites(script, s, t) && |script| == Distance(s, t)
    decreases |s| + |t|
  {
    if s == [] && t == [] {
      script := [];
    } else if t != [] && Distance(s, t) == Distance(s, t[..|t| - 1]) + 1 {
      var rest := ShortestScript(s, t[..|t| - 1]);
      script := ThenInsert(rest, s, t);
    } else if s != [] && Distance(s, t) == Distance(s[..|s| - 1], t) + 1 {
      var rest := ShortestScript(s[..|s| - 1], t);
      script := DeleteThen(rest, s, t);
    } else {
      var rest := ShortestScript(s[..|s| - 1], t[..|t| - 1]);
      script := SubstituteThen(rest, s, t);
    }
  }

  lemma ThenInsert(rest: seq<Edit>, s: string, t: string) returns (script: seq<Edit>)
    requires t != [] && Rewrites(rest, s, t[..|t| - 1])
    ensures Rewrites(script, s, t) && |script| == |rest| + 1
  {
    var t' := t[..|t| - 1];
    var last := Insert(|t'|, t[|t'|]);
    assert Apply(last, t') == t;
    Append(rest, last, s, t');
    script := rest + [last];
  }

  lemma DeleteThen(rest: seq<Edit>, s: string, t: string) returns (script: seq<Edit>)
    requires s != [] && Rewrites(rest, s[..|s| - 1], t)
    ensures Rewrites(script, s, t) && |script| == |rest| + 1
  {
    script := [Delete(|s| - 1)] + rest;
    assert Apply(script[0], s) == s[..|s| - 1] && script[1..] == rest;
  }

  lemma SubstituteThen(rest: seq<Edit>, s: string, t: string) returns (script: seq<Edit>)
    requires s != [] && t != [] && Rewrites(rest, s[..|s| - 1], t[..|t| - 1])
    ensures Rewrites(script, s, t) && |script| == |rest| + Cost(s[|s| - 1], t[|t| - 1])
  {
    var s', t' := s[..|s| - 1], t[..|t| - 1];
    var b := t[|t| - 1];
    Under(rest, s', t', b);
    assert t == t' + [b];
    if s[|s| - 1] == b {
      assert s == s' + [b];
      script := rest;
    } else {
      script := [Substitute(|s'|, b)] + rest;
      assert Apply(script[0], s) == s' + [b] && script[1..] == rest;
    }
  }

  lemma {:induction false} Append(script: seq<Edit>, last: Edit, s: string, t: string)
    requires Rewrites(script, s, t) && Applicable(last, t)
    ensures Rewrites(script + [last], s, Apply(last, t))
  {
    if script != [] {
      Append(script[1..], last, Apply(script[0], s), t);
      assert (script + [last])[1..] == script[1..] + [last];
    }
  }

  /** A script works the same in front of one more character. */
  lemma {:induction false} Under(script: seq<Edit>, s: string, t: string, c: char)
    requires Rewrites(script, s, t)
    ensures Rewrites(script, s + [c], t + [c])
  {
    if script != [] {
      var next := Apply(script[0], s);
      assert Apply(script[0], s + [c]) == next + [c];
      Under(script[1..], next, t, c);
    }
  }
}
