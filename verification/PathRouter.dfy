/** PathRouter's second pass: three sides of an empty rectangle become two lines, and zero-length
    lines are dropped, on a path that is edited while it is walked. */
module PathRouting {
  import opened Options
  import opened Lines
  import LineMerging
  import MergeEnds
  import opened ThreeSides

  // ---------------------------------------------------------------- one consolidation

  /** The path with the three lines from i on replaced by two, if the source would replace them. */
  function Consolidated(ls: seq<Line>, i: nat, right: int, bottom: int, blocked: Rectangle -> bool): Option<seq<Line>> {
    if i + 3 > |ls| then None
    else
      match ClosingLine(ls[i], ls[i + 1], ls[i + 2], right, bottom)
      case None => None
      case Some((r, c)) =>
        if blocked(r) then None else Some(ls[..i] + [Line(ls[i].p1, c.p1), c] + ls[i + 3..])
  }

  lemma {:induction false} ThreeSidesToTwo(l1: Line, l2: Line, l3: Line, c: Line)
    requires Path([l1, l2, l3]) && AxisAligned(c) && c.p2 == l3.p2
    requires InBox(l1, c.p1) && c.p1 != l1.p2 && IsVertical(l1) != IsVertical(c)
    ensures Length(Line(l1.p1, c.p1)) + Length(c) < Length(l1) + Length(l2) + Length(l3)
  {
    assert [l1, l2, l3][0].p2 == [l1, l2, l3][1].p1 && [l1, l2, l3][1].p2 == [l1, l2, l3][2].p1;
    assert AxisAligned([l1, l2, l3][0]);
    assert Length(l1) == Length(Line(l1.p1, c.p1)) + Length(Line(c.p1, l1.p2));
  }

  lemma TotalOfThree(a: Line, b: Line, c: Line)
    ensures TotalLength([a, b, c]) == Length(a) + Length(b) + Length(c)
    ensures TotalLength([a, b]) == Length(a) + Length(b)
  {
    TotalOfConcat([a, b], [c]);
    TotalOfConcat([a], [b]);
    assert [a, b] + [c] == [a, b, c] && [a] + [b] == [a, b];
    assert [a][..0] == [] && [b][..0] == [] && [c][..0] == [];
  }

  /** A consolidation keeps the ends and the connections and makes the path strictly shorter. */
  lemma ConsolidationKeepsPath(ls: seq<Line>, i: nat, right: int, bottom: int, blocked: Rectangle -> bool)
    requires Path(ls) && Consolidated(ls, i, right, bottom, blocked).Some?
    ensures var next := Consolidated(ls, i, right, bottom, blocked).value;
            Path(next) && SameEnds(ls, next) && |next| == |ls| - 1 && TotalLength(next) < TotalLength(ls)
  {
    var l1, l2, l3 := ls[i], ls[i + 1], ls[i + 2];
    var c := ClosingLine(l1, l2, l3, right, bottom).value.1;
    var next := Consolidated(ls, i, right, bottom, blocked).value;
    ClosingLineFacts(l1, l2, l3, right, bottom);
    ThreeSidesToTwo(l1, l2, l3, c);
    Spliced(ls, i, Line(l1.p1, c.p1), c);
  }

  lemma Spliced(ls: seq<Line>, i: nat, a: Line, c: Line)
    requires Path(ls) && i + 3 <= |ls| && a.p1 == ls[i].p1 && a.p2 == c.p1 && c.p2 == ls[i + 2].p2
    requires AxisAligned(a) && AxisAligned(c)
    requires Length(a) + Length(c) < Length(ls[i]) + Length(ls[i + 1]) + Length(ls[i + 2])
    ensures var next := ls[..i] + [a, c] + ls[i + 3..];
            Path(next) && SameEnds(ls, next) && |next| == |ls| - 1 && TotalLength(next) < TotalLength(ls)
  {
    var three := [ls[i], ls[i + 1], ls[i + 2]];
    assert ls == ls[..i] + three + ls[i + 3..];
    TotalAround(ls[..i], three, [a, c], ls[i + 3..]);
    TotalOfThree(ls[i], ls[i + 1], ls[i + 2]);
    TotalOfThree(a, c, c);
    PathAround(ls, i, a, c);
  }

  lemma TotalAround(before: seq<Line>, old3: seq<Line>, new2: seq<Line>, rest: seq<Line>)
    ensures TotalLength(before + old3 + rest) - TotalLength(before + new2 + rest) ==
            TotalLength(old3) - TotalLength(new2)
  {
    TotalOfConcat(before + old3, rest);
    TotalOfConcat(before, old3);
    TotalOfConcat(before + new2, rest);
    TotalOfConcat(before, new2);
  }

  lemma PathAround(ls: seq<Line>, i: nat, a: Line, c: Line)
    requires Path(ls) && i + 3 <= |ls| && a.p1 == ls[i].p1 && a.p2 == c.p1 && c.p2 == ls[i + 2].p2
    requires AxisAligned(a) && AxisAligned(c)
    ensures var next := ls[..i] + [a, c] + ls[i + 3..]; Path(next) && SameEnds(ls, next)
  {}

  /** What was settled before the lines replaced stays settled. */
  lemma StillNothing(before: seq<Line>, after: seq<Line>, i: nat, k: nat, right: int, bottom: int,
                     blocked: Rectangle -> bool)
    requires k + 3 <= i <= |before| && i <= |after| && before[..i] == after[..i]
    requires Consolidated(before, k, right, bottom, blocked).None?
    ensures Consolidated(after, k, right, bottom, blocked).None?
  {
    var b, a := before[..i], after[..i];
    assert before[k] == b[k] && before[k + 1] == b[k + 1] && before[k + 2] == b[k + 2];
    assert after[k] == a[k] && after[k + 1] == a[k + 1] && after[k + 2] == a[k + 2];
  }

  /** Three lines from i on are given up for two, round a rectangle that is not blocked. */
  predicate Shortcut(ls: seq<Line>, next: seq<Line>, i: nat, blocked: Rectangle -> bool) {
    && i + 3 <= |ls| && |next| == |ls| - 1 && next[..i] == ls[..i] && next[i + 2..] == ls[i + 3..]
    && next[i].p1 == ls[i].p1 && next[i].p2 == next[i + 1].p1 && next[i + 1].p2 == ls[i + 2].p2
    && !blocked(Over(next[i].p2, ls[i].p2, ls[i + 1].p2, ls[i + 2].p2))
  }

  /** One list comes from another by such shortcuts, none of them before index first. */
  ghost predicate ByShortcuts(ls: seq<Line>, out: seq<Line>, first: nat, blocked: Rectangle -> bool)
    decreases |ls|
  {
    || out == ls
    || exists i: nat, next :: first <= i && Shortcut(ls, next, i, blocked) && ByShortcuts(next, out, first, blocked)
  }

  lemma ConsolidatedIsShortcut(ls: seq<Line>, i: nat, right: int, bottom: int, blocked: Rectangle -> bool)
    requires Consolidated(ls, i, right, bottom, blocked).Some?
    ensures Shortcut(ls, Consolidated(ls, i, right, bottom, blocked).value, i, blocked)
  {
    var (r, c) := ClosingLine(ls[i], ls[i + 1], ls[i + 2], right, bottom).value;
    ClosingLineIsOver(ls[i], ls[i + 1], ls[i + 2], right, bottom);
  }

  /** In a path the triple at index i is three sides of a rectangle that is not blocked. */
  predicate IsFree(ls: seq<Line>, i: nat, right: int, bottom: int, blocked: Rectangle -> bool) {
    && i + 3 <= |ls| && AreThreeSides(ls[i], ls[i + 1], ls[i + 2])
    && InReach(ls[i + 1], FourthCorner(ls[i], ls[i + 2]), right, bottom)
    && !blocked(Spanned(ls[i].p2, ls[i + 2].p2))
  }

  /** Exactly such a triple is replaced. */
  lemma ConsolidatedExactly(ls: seq<Line>, i: nat, right: int, bottom: int, blocked: Rectangle -> bool)
    requires Path(ls)
    ensures Consolidated(ls, i, right, bottom, blocked) ==
            if IsFree(ls, i, right, bottom, blocked)
            then var p := FourthCorner(ls[i], ls[i + 2]);
                 Some(ls[..i] + [Line(ls[i].p1, p), Line(p, ls[i + 2].p2)] + ls[i + 3..])
            else None
  {
    if i + 3 <= |ls| {
      ClosesExactly(ls[i], ls[i + 1], ls[i + 2], right, bottom);
    }
  }

  // ---------------------------------------------------------------- the loop over triples

  /** The loop from index i on: a triple that is replaced sends the index three back, then on by one. */
  function Consolidations(ls: seq<Line>, i: nat, forced: bool, right: int, bottom: int,
                          blocked: Rectangle -> bool): seq<Line>
    decreases |ls|, |ls| - i
  {
    if i + 3 > |ls| then ls
    else if i == 0 && forced then Consolidations(ls, i + 1, forced, right, bottom, blocked)
    else
      match Consolidated(ls, i, right, bottom, blocked)
      case None => Consolidations(ls, i + 1, forced, right, bottom, blocked)
      case Some(next) => Consolidations(next, Max(0, i - 3) + 1, forced, right, bottom, blocked)
  }

  /** Some line has a length. */
  predicate HasLength(ls: seq<Line>) { exists l :: l in ls && !IsZero(l) }

  lemma ClosingLineHasLength(ls: seq<Line>, i: nat, right: int, bottom: int, blocked: Rectangle -> bool)
    requires Path(ls) && Consolidated(ls, i, right, bottom, blocked).Some?
    ensures HasLength(Consolidated(ls, i, right, bottom, blocked).value)
  {
    ClosingLineFacts(ls[i], ls[i + 1], ls[i + 2], right, bottom);
    var c := ClosingLine(ls[i], ls[i + 1], ls[i + 2], right, bottom).value.1;
    assert Consolidated(ls, i, right, bottom, blocked).value[i + 1] == c;
  }

  /** The same ends, connected, no longer, with a line that has a length if there was one. */
  predicate Keeps(ls: seq<Line>, out: seq<Line>) {
    && Path(out) && SameEnds(ls, out) && |out| <= |ls| && TotalLength(out) <= TotalLength(ls) - (|ls| - |out|)
    && (HasLength(ls) ==> HasLength(out))
  }

  lemma KeepsTwice(a: seq<Line>, b: seq<Line>, c: seq<Line>)
    requires Keeps(a, b) && Keeps(b, c)
    ensures Keeps(a, c)
  {}

  lemma ConsolidationKeeps(ls: seq<Line>, i: nat, right: int, bottom: int, blocked: Rectangle -> bool)
    requires Path(ls) && Consolidated(ls, i, right, bottom, blocked).Some?
    ensures Keeps(ls, Consolidated(ls, i, right, bottom, blocked).value)
  {
    ConsolidationKeepsPath(ls, i, right, bottom, blocked);
    ClosingLineHasLength(ls, i, right, bottom, blocked);
  }

  /** The loop keeps the ends and the connections of a path, never lengthens it, and never leaves it without
      a line that has a length. */
  lemma {:induction false} LoopKeepsPath(ls: seq<Line>, i: nat, forced: bool, right: int, bottom: int,
                                         blocked: Rectangle -> bool)
    requires Path(ls)
    ensures Keeps(ls, Consolidations(ls, i, forced, right, bottom, blocked))
    decreases |ls|, |ls| - i
  {
    if i + 3 <= |ls| {
      var turn := if i == 0 && forced then None else Consolidated(ls, i, right, bottom, blocked);
      match turn
      case None =>
        LoopKeepsPath(ls, i + 1, forced, right, bottom, blocked);
      case Some(next) =>
        ConsolidationKeeps(ls, i, right, bottom, blocked);
        LoopKeepsPath(next, Max(0, i - 3) + 1, forced, right, bottom, blocked);
        KeepsTwice(ls, next, Consolidations(next, Max(0, i - 3) + 1, forced, right, bottom, blocked));
    }
  }

  /** Whatever list it is given, the loop takes shortcuts round rectangles that are not blocked, and does nothing
      else. */
  lemma {:induction false} LoopTakesShortcuts(ls: seq<Line>, i: nat, forced: bool, right: int, bottom: int,
                                              blocked: Rectangle -> bool)
    ensures ByShortcuts(ls, Consolidations(ls, i, forced, right, bottom, blocked), if forced then 1 else 0, blocked)
    decreases |ls|, |ls| - i
  {
    if i + 3 <= |ls| {
      var turn := if i == 0 && forced then None else Consolidated(ls, i, right, bottom, blocked);
      match turn
      case None =>
        LoopTakesShortcuts(ls, i + 1, forced, right, bottom, blocked);
      case Some(next) =>
        ConsolidatedIsShortcut(ls, i, right, bottom, blocked);
        LoopTakesShortcuts(next, Max(0, i - 3) + 1, forced, right, bottom, blocked);
    }
  }

  lemma NoneIsFree(ls: seq<Line>, first: nat, right: int, bottom: int, blocked: Rectangle -> bool)
    requires Path(ls) && forall k: nat :: first <= k ==> Consolidated(ls, k, right, bottom, blocked).None?
    ensures forall k: nat :: first <= k ==> !IsFree(ls, k, right, bottom, blocked)
  {
    forall k: nat | first <= k ensures !IsFree(ls, k, right, bottom, blocked) {
      ConsolidatedExactly(ls, k, right, bottom, blocked);
    }
  }

  /** A path with no free triple, for one because all their rectangles are blocked, leaves the loop as it entered. */
  lemma NothingFreeNothingDone(ls: seq<Line>, forced: bool, right: int, bottom: int, blocked: Rectangle -> bool)
    requires Path(ls)
    requires forall k: nat :: (if forced then 1 else 0) <= k ==> !IsFree(ls, k, right, bottom, blocked)
    ensures Consolidations(ls, 0, forced, right, bottom, blocked) == ls
  {
    forall k: nat | (if forced then 1 else 0) <= k ensures Consolidated(ls, k, right, bottom, blocked).None? {
      ConsolidatedExactly(ls, k, right, bottom, blocked);
    }
    NothingToConsolidate(ls, 0, forced, right, bottom, blocked);
  }

  /** A forced initial direction: the first line is never touched. */
  lemma {:induction false} ForcedKeepsFirst(ls: seq<Line>, i: nat, forced: bool, right: int, bottom: int,
                                            blocked: Rectangle -> bool)
    requires ls != [] && (forced || i > 0)
    ensures Consolidations(ls, i, forced, right, bottom, blocked) != []
    ensures Consolidations(ls, i, forced, right, bottom, blocked)[0] == ls[0]
    decreases |ls|, |ls| - i
  {
    if i + 3 <= |ls| {
      if i == 0 {
        ForcedKeepsFirst(ls, i + 1, forced, right, bottom, blocked);
      } else {
        match Consolidated(ls, i, right, bottom, blocked)
        case None =>
          ForcedKeepsFirst(ls, i + 1, forced, right, bottom, blocked);
        case Some(next) =>
          assert next[0] == ls[0];
          ForcedKeepsFirst(next, Max(0, i - 3) + 1, forced, right, bottom, blocked);
      }
    }
  }

  /** Where no triple can be replaced, none is. */
  lemma {:induction false} NothingToConsolidate(ls: seq<Line>, i: nat, forced: bool, right: int, bottom: int,
                                                blocked: Rectangle -> bool)
    requires forall k: nat :: (if forced then 1 else 0) <= k ==> Consolidated(ls, k, right, bottom, blocked).None?
    ensures Consolidations(ls, i, forced, right, bottom, blocked) == ls
    decreases |ls| - i
  {
    if i + 3 <= |ls| {
      NothingToConsolidate(ls, i + 1, forced, right, bottom, blocked);
    }
  }

  // ---------------------------------------------------------------- lines of no length

  /** removeZeroLengthLines, as a function. */
  function NonZero(ls: seq<Line>): seq<Line> {
    if ls == [] then [] else NonZero(ls[..|ls| - 1]) + if IsZero(ls[|ls| - 1]) then [] else [ls[|ls| - 1]]
  }

  lemma NonZeroOneMore(init: seq<Line>, last: Line)
    ensures NonZero(init + [last]) == NonZero(init) + if IsZero(last) then [] else [last]
  {
    assert (init + [last])[..|init|] == init;
  }

  lemma NonZeroTotal(kept: seq<Line>, last: Line)
    ensures TotalLength(kept + if IsZero(last) then [] else [last]) == TotalLength(kept) + Length(last)
  {
    if IsZero(last) {
      assert kept + [] == kept;
    } else {
      assert (kept + [last])[..|kept|] == kept;
    }
  }

  lemma {:induction false} NonZeroKeepsLength(ls: seq<Line>)
    ensures TotalLength(NonZero(ls)) == TotalLength(ls)
  {
    if ls != [] {
      var init, last := ls[..|ls| - 1], ls[|ls| - 1];
      NonZeroKeepsLength(init);
      NonZeroTotal(NonZero(init), last);
    }
  }

  lemma {:induction false} NonZeroKeepsEnds(ls: seq<Line>)
    requires Path(ls)
    ensures NoneZero(NonZero(ls))
    ensures NonZero(ls) != [] ==> Path(NonZero(ls)) && SameEnds(ls, NonZero(ls))
    ensures NonZero(ls) == [] ==> ls[0].p1 == ls[|ls| - 1].p2
  {
    var init, last := ls[..|ls| - 1], ls[|ls| - 1];
    assert ls == init + [last];
    NonZeroOneMore(init, last);
    if init == [] {
      assert NonZero(init) == [];
    } else {
      NonZeroKeepsEnds(init);
      KeepLast(init, last);
    }
  }

  lemma NonZeroKeepsPath(ls: seq<Line>)
    requires Path(ls)
    ensures NoneZero(NonZero(ls)) && TotalLength(NonZero(ls)) == TotalLength(ls)
    ensures NonZero(ls) != [] ==> Path(NonZero(ls)) && SameEnds(ls, NonZero(ls))
    ensures NonZero(ls) == [] ==> ls[0].p1 == ls[|ls| - 1].p2
  {
    NonZeroKeepsLength(ls);
    NonZeroKeepsEnds(ls);
  }

  lemma KeepLast(init: seq<Line>, last: Line)
    requires Path(init) && AxisAligned(last) && init[|init| - 1].p2 == last.p1 && NoneZero(NonZero(init))
    requires NonZero(init) != [] ==> Path(NonZero(init)) && SameEnds(init, NonZero(init))
    requires NonZero(init) == [] ==> init[0].p1 == init[|init| - 1].p2
    ensures var ls, all := init + [last], NonZero(init) + if IsZero(last) then [] else [last];
            && NoneZero(all)
            && (all != [] ==> Path(all) && SameEnds(ls, all))
            && (all == [] ==> ls[0].p1 == ls[|ls| - 1].p2)
  {
    var kept := NonZero(init);
    assert kept != [] ==> kept[|kept| - 1].p2 == last.p1;
  }

  lemma {:induction false} NonZeroIsFixed(ls: seq<Line>)
    requires NoneZero(ls)
    ensures NonZero(ls) == ls
  {
    if ls != [] {
      NonZeroIsFixed(ls[..|ls| - 1]);
    }
  }

  lemma {:induction false} NonZeroWhenLength(ls: seq<Line>)
    ensures NonZero(ls) != [] <==> HasLength(ls)
  {
    if ls != [] {
      var init, last := ls[..|ls| - 1], ls[|ls| - 1];
      NonZeroWhenLength(init);
      assert forall l :: l in ls <==> l in init || l == last;
    }
  }

  // ---------------------------------------------------------------- the second pass

  /** The path as it enters the last merge. */
  function Middle(ls: seq<Line>, forced: bool, right: int, bottom: int, blocked: Rectangle -> bool): seq<Line> {
    NonZero(Consolidations(LineMerging.Merged(NonZero(ls)), 0, forced, right, bottom, blocked))
  }

  /** pass2 with consolidation on; mergeTinySegments leaves the list as it is. */
  function SecondPass(ls: seq<Line>, forced: bool, right: int, bottom: int, blocked: Rectangle -> bool): seq<Line> {
    LineMerging.Merged(Middle(ls, forced, right, bottom, blocked))
  }

  lemma FirstMerge(ls: seq<Line>)
    requires Path(ls) && NonZero(ls) != [] && LineMerging.SameWay(NonZero(ls))
    ensures var merged := LineMerging.Merged(NonZero(ls));
            && LineMerging.GridPath(merged) && SameEnds(ls, merged) && TotalLength(merged) == TotalLength(ls)
            && LineMerging.NoSharedAxis(merged)
  {
    NonZeroKeepsPath(ls);
    LineMerging.MergeKeepsPath(NonZero(ls));
  }

  /** Up to the last merge the pass keeps the ends of a path and never lengthens it. */
  lemma MiddleKeepsPath(ls: seq<Line>, forced: bool, right: int, bottom: int, blocked: Rectangle -> bool)
    requires Path(ls) && NonZero(ls) != [] && LineMerging.SameWay(NonZero(ls))
    ensures var middle := Middle(ls, forced, right, bottom, blocked);
            LineMerging.GridPath(middle) && SameEnds(ls, middle) && TotalLength(middle) <= TotalLength(ls)
  {
    FirstMerge(ls);
    var merged := LineMerging.Merged(NonZero(ls));
    assert !IsZero(merged[0]) && merged[0] in merged;
    LoopKeepsPath(merged, 0, forced, right, bottom, blocked);
    var out := Consolidations(merged, 0, forced, right, bottom, blocked);
    NonZeroWhenLength(out);
    NonZeroKeepsPath(out);
  }

  /** What a path becomes, by the path as it enters the last merge. It never gets longer. Its ends stay exactly when
      nothing in the first run lies behind the start and nothing in the last run beyond the end; it stays connected
      exactly when nothing in any other run lies behind the start of that run; and no line without length is left
      exactly when no run but the last ends as far back as it gets, and then the path turns at every point. */
  predicate KeptExactly(ls: seq<Line>, middle: seq<Line>, out: seq<Line>) {
    && middle != [] && out != [] && TotalLength(out) <= TotalLength(ls) && AllAxisAligned(out)
    && (SameEnds(ls, out) <==>
          MergeEnds.NothingBehind(MergeEnds.FirstRun(middle)) && MergeEnds.NothingBeyond(MergeEnds.LastRun(middle)))
    && (Chain(out) <==> MergeEnds.RunsMeet(middle))
    && (NoneZero(out) <==> MergeEnds.RunsAdvance(middle)) && (NoneZero(out) ==> LineMerging.NoSharedAxis(out))
  }

  lemma SecondPassExactly(ls: seq<Line>, forced: bool, right: int, bottom: int, blocked: Rectangle -> bool)
    requires Path(ls) && NonZero(ls) != [] && LineMerging.SameWay(NonZero(ls))
    ensures KeptExactly(ls, Middle(ls, forced, right, bottom, blocked), SecondPass(ls, forced, right, bottom, blocked))
  {
    MiddleKeepsPath(ls, forced, right, bottom, blocked);
    var middle := Middle(ls, forced, right, bottom, blocked);
    MergeEnds.MergeKeepsEndsExactly(middle);
    MergeEnds.MergeConnectsExactly(middle);
    if NoneZero(LineMerging.Merged(middle)) { MergeEnds.MergeLeavesTurns(middle); }
    LineMerging.MergeKeepsPath(middle);
  }

  /** With nothing to consolidate, the pass is the first merge alone, which keeps the path. */
  lemma NothingConsolidatedKeepsPath(ls: seq<Line>, forced: bool, right: int, bottom: int, blocked: Rectangle -> bool)
    requires Path(ls) && NonZero(ls) != [] && LineMerging.SameWay(NonZero(ls))
    requires forall k: nat :: (if forced then 1 else 0) <= k ==>
               Consolidated(LineMerging.Merged(NonZero(ls)), k, right, bottom, blocked).None?
    ensures var out := SecondPass(ls, forced, right, bottom, blocked);
            && out == LineMerging.Merged(NonZero(ls)) && LineMerging.GridPath(out) && SameEnds(ls, out)
            && TotalLength(out) == TotalLength(ls) && LineMerging.NoSharedAxis(out)
  {
    FirstMerge(ls);
    var merged := LineMerging.Merged(NonZero(ls));
    NothingToConsolidate(merged, 0, forced, right, bottom, blocked);
    NonZeroIsFixed(merged);
    MergeEnds.MergedIsFixed(merged);
  }

  /** What one replacement does to the path. */
  lemma OneReplaced(before: seq<Line>, after: seq<Line>, i: nat, right: int, bottom: int, blocked: Rectangle -> bool)
    requires Consolidated(before, i, right, bottom, blocked) == Some(after)
    ensures |after| == |before| - 1 && (Path(before) ==> Keeps(before, after))
    ensures forall k: nat :: k + 3 <= i && Consolidated(before, k, right, bottom, blocked).None? ==>
              Consolidated(after, k, right, bottom, blocked).None?
  {
    if Path(before) { ConsolidationKeeps(before, i, right, bottom, blocked); }
    assert after[..i] == before[..i];
    forall k: nat | k + 3 <= i && Consolidated(before, k, right, bottom, blocked).None?
      ensures Consolidated(after, k, right, bottom, blocked).None?
    {
      StillNothing(before, after, i, k, right, bottom, blocked);
    }
  }

  /** No triple before index i but the first can be consolidated. */
  predicate SettledBefore(ls: seq<Line>, i: int, right: int, bottom: int, blocked: Rectangle -> bool) {
    forall k: nat :: 1 <= k < i ==> Consolidated(ls, k, right, bottom, blocked).None?
  }

  lemma ReplacedSettles(before: seq<Line>, after: seq<Line>, i: nat, right: int, bottom: int,
                        blocked: Rectangle -> bool)
    requires SettledBefore(before, i, right, bottom, blocked)
    requires Consolidated(before, i, right, bottom, blocked) == Some(after)
    ensures SettledBefore(after, Max(0, i - 3) + 1, right, bottom, blocked)
  {
    OneReplaced(before, after, i, right, bottom, blocked);
  }

  lemma OneMoreSettled(ls: seq<Line>, i: nat, right: int, bottom: int, blocked: Rectangle -> bool)
    requires SettledBefore(ls, i, right, bottom, blocked)
    requires i == 0 || Consolidated(ls, i, right, bottom, blocked).None?
    ensures SettledBefore(ls, i + 1, right, bottom, blocked)
  {}

  // ---------------------------------------------------------------- the first triple

  /** Some replacement from index i on touches one of the first three lines. */
  predicate TouchesFirst(ls: seq<Line>, i: nat, forced: bool, right: int, bottom: int, blocked: Rectangle -> bool)
    decreases |ls|, |ls| - i
  {
    if i + 3 > |ls| then false
    else if i == 0 && forced then TouchesFirst(ls, i + 1, forced, right, bottom, blocked)
    else
      match Consolidated(ls, i, right, bottom, blocked)
      case None => TouchesFirst(ls, i + 1, forced, right, bottom, blocked)
      case Some(next) => i <= 2 || TouchesFirst(next, Max(0, i - 3) + 1, forced, right, bottom, blocked)
  }

  lemma FurtherOn(ls: seq<Line>, i: nat, next: seq<Line>, right: int, bottom: int, blocked: Rectangle -> bool)
    requires i > 2 && Consolidated(ls, i, right, bottom, blocked) == Some(next)
    ensures |next| == |ls| - 1 && |next| >= 3 && next[..3] == ls[..3]
  {
    assert next[..i] == ls[..i];
    assert ls[..i][..3] == ls[..3] && next[..i][..3] == next[..3];
  }

  /** Without such a replacement the first three lines come out as they went in. */
  lemma {:induction false} FirstTripleStays(ls: seq<Line>, i: nat, forced: bool, right: int, bottom: int,
                                            blocked: Rectangle -> bool)
    requires !TouchesFirst(ls, i, forced, right, bottom, blocked)
    ensures var out := Consolidations(ls, i, forced, right, bottom, blocked);
            out == ls || (|ls| >= 3 && |out| >= 3 && out[..3] == ls[..3])
    decreases |ls|, |ls| - i
  {
    if i + 3 <= |ls| {
      var turn := if i == 0 && forced then None else Consolidated(ls, i, right, bottom, blocked);
      match turn
      case None =>
        FirstTripleStays(ls, i + 1, forced, right, bottom, blocked);
      case Some(next) =>
        FurtherOn(ls, i, next, right, bottom, blocked);
        FirstTripleStays(next, Max(0, i - 3) + 1, forced, right, bottom, blocked);
    }
  }

  /** So if the loop never touches it, the first triple can be consolidated afterwards exactly if it could before, and
      not at all unless the initial direction is forced. */
  lemma FirstTripleSettled(ls: seq<Line>, forced: bool, right: int, bottom: int, blocked: Rectangle -> bool)
    requires !TouchesFirst(ls, 0, forced, right, bottom, blocked)
    ensures var out := Consolidations(ls, 0, forced, right, bottom, blocked);
            && (Consolidated(out, 0, right, bottom, blocked).Some? <==>
                Consolidated(ls, 0, right, bottom, blocked).Some?)
            && (!forced ==> Consolidated(out, 0, right, bottom, blocked).None?)
  {
    var out := Consolidations(ls, 0, forced, right, bottom, blocked);
    FirstTripleStays(ls, 0, forced, right, bottom, blocked);
    if out != ls {
      assert out[0] == out[..3][0] == ls[0] && out[1] == out[..3][1] == ls[1] && out[2] == out[..3][2] == ls[2];
    }
  }

  // ---------------------------------------------------------------- the router

  class PathRouter {
    var pathLines: seq<Line>
    const right: int
    const bottom: int
    const initialDirectionForced: bool
    const blocked: Rectangle -> bool

    /** `blocked` says which rectangles cross an obstacle other than themselves. */
    constructor (pathLines: seq<Line>, right: int, bottom: int, initialDirectionForced: bool,
                 blocked: Rectangle -> bool)
      ensures this.pathLines == pathLines && this.right == right && this.bottom == bottom
      ensures this.initialDirectionForced == initialDirectionForced && this.blocked == blocked
    {
      this.pathLines, this.right, this.bottom := pathLines, right, bottom;
      this.initialDirectionForced, this.blocked := initialDirectionForced, blocked;
    }

    /** The path after consolidating at i, if anything is to be consolidated there. */
    function ConsolidatedAt(i: nat): Option<seq<Line>>
      reads this`pathLines
    {
      Consolidated(pathLines, i, right, bottom, blocked)
    }

    method ReplaceLines(index: nat, count: nat, newLines: seq<Line>)
      requires index <= |pathLines|
      modifies this`pathLines
      ensures var end := Min(index + count, |old(pathLines)|);
              pathLines == old(pathLines)[..index] + newLines + old(pathLines)[end..]
    {
      var toRemove := Min(count, |pathLines| - index);
      pathLines := pathLines[..index] + pathLines[index + toRemove..];
      ghost var rest := pathLines[index..];
      for k := 0 to |newLines|
        invariant pathLines == old(pathLines)[..index] + newLines[..k] + rest
      {
        var at := index + k;
        pathLines := pathLines[..at] + [newLines[k]] + pathLines[at..];
        assert newLines[..k + 1] == newLines[..k] + [newLines[k]];
      }
      assert newLines[..|newLines|] == newLines;
    }

    method RemoveZeroLengthLines()
      modifies this`pathLines
      ensures pathLines == NonZero(old(pathLines))
    {
      var i := 0;
      ghost var n := 0;
      while i < |pathLines|
        invariant i <= |pathLines| && n <= |old(pathLines)|
        invariant pathLines[..i] == NonZero(old(pathLines)[..n])
        invariant pathLines[i..] == old(pathLines)[n..]
        decreases |pathLines| - i
      {
        ghost var before := pathLines;
        assert pathLines[i] == pathLines[i..][0] == old(pathLines)[n];
        assert old(pathLines)[..n + 1][..n] == old(pathLines)[..n];
        if IsZero(pathLines[i]) {
          pathLines := pathLines[..i] + pathLines[i + 1..];
          assert pathLines[i..] == before[i..][1..] && pathLines[..i] == before[..i];
        } else {
          i := i + 1;
          assert pathLines[i..] == before[i - 1..][1..];
        }
        n := n + 1;
      }
      assert old(pathLines)[..n] == old(pathLines) && pathLines[..i] == pathLines;
    }

    /** The loop over triples of lines. Each replacement makes the path one line shorter, so it
        ends; a connected path keeps its ends and only gets shorter; a first line whose direction is
        forced stays; and at the end no triple but the first one can be consolidated. */
    method ConsolidateEmptyRectangles()
      modifies this`pathLines
      ensures pathLines == Consolidations(old(pathLines), 0, initialDirectionForced, right, bottom, blocked)
      ensures Path(old(pathLines)) ==> Keeps(old(pathLines), pathLines)
      ensures ByShortcuts(old(pathLines), pathLines, if initialDirectionForced then 1 else 0, blocked)
      ensures initialDirectionForced && old(pathLines) != [] ==> pathLines != [] && pathLines[0] == old(pathLines)[0]
      ensures forall k: nat :: 1 <= k ==> ConsolidatedAt(k).None?
      ensures Path(old(pathLines)) ==> forall k: nat :: 1 <= k ==> !IsFree(pathLines, k, right, bottom, blocked)
      ensures !initialDirectionForced && !TouchesFirst(old(pathLines), 0, false, right, bottom, blocked) ==>
              ConsolidatedAt(0).None?
    {
      if !initialDirectionForced && !TouchesFirst(pathLines, 0, false, right, bottom, blocked) {
        FirstTripleSettled(pathLines, false, right, bottom, blocked);
      }
      LoopTakesShortcuts(pathLines, 0, initialDirectionForced, right, bottom, blocked);
      if Path(pathLines) { LoopKeepsPath(pathLines, 0, initialDirectionForced, right, bottom, blocked); }
      if pathLines != [] && initialDirectionForced {
        ForcedKeepsFirst(pathLines, 0, initialDirectionForced, right, bottom, blocked);
      }
      RunTriples();
      if Path(pathLines) {
        forall k: nat | 1 <= k ensures Consolidated(pathLines, k, right, bottom, blocked).None? {
          assert ConsolidatedAt(k).None?;
        }
        NoneIsFree(pathLines, 1, right, bottom, blocked);
      }
    }

    method RunTriples()
      modifies this`pathLines
      ensures pathLines == Consolidations(old(pathLines), 0, initialDirectionForced, right, bottom, blocked)
      ensures forall k: nat :: 1 <= k ==> ConsolidatedAt(k).None?
    {
      var i := 0;
      while i < |pathLines| - 2
        invariant 0 <= i
        invariant Consolidations(pathLines, i, initialDirectionForced, right, bottom, blocked)
                  == Consolidations(old(pathLines), 0, initialDirectionForced, right, bottom, blocked)
        invariant NoneBefore(i)
        decreases |pathLines|, |pathLines| - i
      {
        i := OneTurn(i);
      }
    }

    /** No triple before index i but the first can be consolidated. */
    ghost predicate NoneBefore(i: int)
      reads this
    {
      SettledBefore(pathLines, i, right, bottom, blocked)
    }

    method OneTurn(i: nat) returns (next: nat)
      requires i + 3 <= |pathLines| && NoneBefore(i)
      modifies this`pathLines
      ensures NoneBefore(next)
      ensures |pathLines| < |old(pathLines)| || (pathLines == old(pathLines) && next > i)
      ensures Consolidations(pathLines, next, initialDirectionForced, right, bottom, blocked)
              == Consolidations(old(pathLines), i, initialDirectionForced, right, bottom, blocked)
    {
      next := i;
      if next == 0 && initialDirectionForced {
        OneMoreSettled(pathLines, i, right, bottom, blocked);
        return next + 1;
      }
      var replaced := TryConsolidate(next);
      if replaced {
        ReplacedSettles(old(pathLines), pathLines, i, right, bottom, blocked);
        next := Max(0, next - 3);
      } else {
        OneMoreSettled(pathLines, i, right, bottom, blocked);
      }
      next := next + 1;
    }

    /** The body of the loop: the three lines from i on, replaced by two if they close an empty rectangle. */
    method TryConsolidate(i: nat) returns (replaced: bool)
      requires i + 3 <= |pathLines|
      modifies this`pathLines
      ensures replaced <==> old(ConsolidatedAt(i)).Some?
      ensures replaced ==> Some(pathLines) == old(ConsolidatedAt(i))
      ensures !replaced ==> pathLines == old(pathLines)
      ensures replaced ==> |pathLines| == |old(pathLines)| - 1
      ensures replaced && Path(old(pathLines)) ==> Keeps(old(pathLines), pathLines)
      ensures forall k: nat :: k + 3 <= i && old(ConsolidatedAt(k)).None? ==> ConsolidatedAt(k).None?
    {
      replaced := false;
      ghost var before := pathLines;
      var three := pathLines[i..i + 3];
      var closing := ClosingLine(three[0], three[1], three[2], right, bottom);
      if closing.Some? {
        var (rect, consolidatedLine) := closing.value;
        if !blocked(rect) {
          var newLines := [Line(three[0].p1, consolidatedLine.p1), consolidatedLine];
          ReplaceLines(i, 3, newLines);
          replaced := true;
          OneReplaced(before, pathLines, i, right, bottom, blocked);
        }
      }
    }

    /** pass2 with consolidation on: what it makes of the path, and what it keeps of the path. */
    method Pass2()
      modifies this`pathLines
      ensures pathLines == SecondPass(old(pathLines), initialDirectionForced, right, bottom, blocked)
      ensures exists m :: ByShortcuts(LineMerging.Merged(NonZero(old(pathLines))), m,
                                      if initialDirectionForced then 1 else 0, blocked)
                          && pathLines == LineMerging.Merged(NonZero(m))
      ensures Path(old(pathLines)) && NonZero(old(pathLines)) != [] && LineMerging.SameWay(NonZero(old(pathLines))) ==>
                KeptExactly(old(pathLines), Middle(old(pathLines), initialDirectionForced, right, bottom, blocked),
                            pathLines)
    {
      if Path(pathLines) && NonZero(pathLines) != [] && LineMerging.SameWay(NonZero(pathLines)) {
        SecondPassExactly(pathLines, initialDirectionForced, right, bottom, blocked);
      }
      RemoveZeroLengthLines();
      pathLines := LineMerging.MergeAdjacentLines(pathLines);
      ConsolidateEmptyRectangles();
      RemoveZeroLengthLines();
      pathLines := LineMerging.MergeAdjacentLines(pathLines);
    }
  }

  // ---------------------------------------------------------------- a path whose end is lost

  /** The second pass does not keep the end of every path: on this one the loop makes the last
      two lines turn back on each other, and the merge after it drops the last of them. */
  lemma SecondPassCanMoveTheEnd(path: seq<Line>, blocked: Rectangle -> bool)
    requires path == [Line(Point(0, 10), Point(10, 10)), Line(Point(10, 10), Point(10, 0)),
                      Line(Point(10, 0), Point(5, 0)), Line(Point(5, 0), Point(5, 3))]
    requires forall r :: !blocked(r)
    ensures LineMerging.GridPath(path) && LineMerging.SameWay(path)
    ensures SecondPass(path, false, 20, 20, blocked) ==
            [Line(Point(0, 10), Point(5, 10)), Line(Point(5, 10), Point(5, 0))]
    ensures !SameEnds(path, SecondPass(path, false, 20, 20, blocked))
  {
    FourLinesApart(path, path[0], path[1], path[2], path[3]);
    EndMoved(path, blocked);
  }

  lemma FourLinesApart(path: seq<Line>, l1: Line, l2: Line, l3: Line, l4: Line)
    requires l1 == Line(Point(0, 10), Point(10, 10)) && l2 == Line(Point(10, 10), Point(10, 0))
    requires l3 == Line(Point(10, 0), Point(5, 0)) && l4 == Line(Point(5, 0), Point(5, 3)) && path == [l1, l2, l3, l4]
    ensures LineMerging.GridPath(path) && LineMerging.NoSharedAxis(path) && LineMerging.SameWay(path)
  {}

  lemma EndMoved(path: seq<Line>, blocked: Rectangle -> bool)
    requires path == [Line(Point(0, 10), Point(10, 10)), Line(Point(10, 10), Point(10, 0)),
                      Line(Point(10, 0), Point(5, 0)), Line(Point(5, 0), Point(5, 3))]
    requires NoneZero(path) && LineMerging.NoSharedAxis(path) && forall r :: !blocked(r)
    ensures SecondPass(path, false, 20, 20, blocked) ==
            [Line(Point(0, 10), Point(5, 10)), Line(Point(5, 10), Point(5, 0))]
  {
    var next := [Line(Point(0, 10), Point(5, 10)), Line(Point(5, 10), Point(5, 0)), path[3]];
    UntouchedByMerge(path);
    ClosesExactly(path[0], path[1], path[2], 20, 20);
    ReplacedAt(path, 0, path[..0], path[3..], next, Line(Point(5, 10), Point(5, 0)), 20, 20, blocked);
    assert Consolidations(next, 1, false, 20, 20, blocked) == next;
    NonZeroIsFixed(next);
    LastIsDropped(next, next[0], next[1], next[2]);
  }

  /** A path none of whose neighbours share an axis enters the loop as it is. */
  lemma UntouchedByMerge(path: seq<Line>)
    requires NoneZero(path) && LineMerging.NoSharedAxis(path)
    ensures LineMerging.Merged(NonZero(path)) == path
  {
    NonZeroIsFixed(path);
    MergeEnds.MergedIsFixed(path);
  }

  /** One turn of the loop that replaces three lines, when nothing is blocked. */
  lemma ReplacedAt(ls: seq<Line>, i: nat, before: seq<Line>, rest: seq<Line>, next: seq<Line>, c: Line,
                   right: int, bottom: int, blocked: Rectangle -> bool)
    requires i + 3 <= |ls| && before == ls[..i] && rest == ls[i + 3..]
             && next == before + [Line(ls[i].p1, c.p1), c] + rest
    requires ClosingLine(ls[i], ls[i + 1], ls[i + 2], right, bottom).Some?
    requires ClosingLine(ls[i], ls[i + 1], ls[i + 2], right, bottom).value.1 == c
    requires forall r :: !blocked(r)
    ensures Consolidated(ls, i, right, bottom, blocked) == Some(next)
    ensures Consolidations(ls, i, false, right, bottom, blocked)
            == Consolidations(next, Max(0, i - 3) + 1, false, right, bottom, blocked)
  {}

  lemma LastIsDropped(next: seq<Line>, a: Line, b: Line, last: Line)
    requires a == Line(Point(0, 10), Point(5, 10)) && b == Line(Point(5, 10), Point(5, 0))
    requires last == Line(Point(5, 0), Point(5, 3)) && next == [a, b, last]
    ensures LineMerging.Merged(next) == [a, b]
  {
    LineMerging.MergedPair(b, last);
    assert next[1..] == [b, last];
  }

  // ---------------------------------------------------------------- a path that is torn

  /** Nor does it keep every path connected: the ends stay, but on this one a gap opens in between, with a line of no
      length beside it. */
  lemma SecondPassCanTearThePath(path: seq<Line>, blocked: Rectangle -> bool)
    requires path == [Line(Point(5, 15), Point(15, 15)), Line(Point(15, 15), Point(15, 5)),
                      Line(Point(15, 5), Point(8, 5)),
                      Line(Point(8, 5), Point(8, 20)), Line(Point(8, 20), Point(1, 20))]
    requires forall r :: !blocked(r)
    ensures LineMerging.GridPath(path) && LineMerging.SameWay(path)
    ensures SecondPass(path, false, 40, 40, blocked) ==
            [Line(Point(5, 15), Point(8, 15)), Line(Point(8, 20), Point(8, 20)), Line(Point(8, 20), Point(1, 20))]
    ensures SameEnds(path, SecondPass(path, false, 40, 40, blocked))
    ensures !Chain(SecondPass(path, false, 40, 40, blocked))
  {
    FiveLinesApart(path, path[0], path[1], path[2], path[3], path[4]);
    Torn(path, blocked);
    var out := SecondPass(path, false, 40, 40, blocked);
    assert out[0].p2 != out[1].p1;
  }

  lemma FiveLinesApart(path: seq<Line>, l1: Line, l2: Line, l3: Line, l4: Line, l5: Line)
    requires l1 == Line(Point(5, 15), Point(15, 15)) && l2 == Line(Point(15, 15), Point(15, 5))
    requires l3 == Line(Point(15, 5), Point(8, 5)) && l4 == Line(Point(8, 5), Point(8, 20))
    requires l5 == Line(Point(8, 20), Point(1, 20)) && path == [l1, l2, l3, l4, l5]
    ensures LineMerging.GridPath(path) && LineMerging.NoSharedAxis(path) && LineMerging.SameWay(path)
  {}

  lemma Torn(path: seq<Line>, blocked: Rectangle -> bool)
    requires path == [Line(Point(5, 15), Point(15, 15)), Line(Point(15, 15), Point(15, 5)),
                      Line(Point(15, 5), Point(8, 5)),
                      Line(Point(8, 5), Point(8, 20)), Line(Point(8, 20), Point(1, 20))]
    requires NoneZero(path) && LineMerging.NoSharedAxis(path) && forall r :: !blocked(r)
    ensures SecondPass(path, false, 40, 40, blocked) ==
            [Line(Point(5, 15), Point(8, 15)), Line(Point(8, 20), Point(8, 20)), Line(Point(8, 20), Point(1, 20))]
  {
    var closing := Line(Point(8, 15), Point(8, 5));
    var next := [Line(Point(5, 15), Point(8, 15)), closing, path[3], path[4]];
    UntouchedByMerge(path);
    ClosesExactly(path[0], path[1], path[2], 40, 40);
    ReplacedAt(path, 0, path[..0], path[3..], next, closing, 40, 40, blocked);
    NothingOnward(next, closing, path[3], path[4], blocked);
    NonZeroIsFixed(next);
    TornRun(next, next[0], closing, path[3], path[4]);
  }

  lemma NothingOnward(next: seq<Line>, l1: Line, l2: Line, l3: Line, blocked: Rectangle -> bool)
    requires |next| == 4 && next[1..] == [l1, l2, l3] && l1 == Line(Point(8, 15), Point(8, 5))
    requires l2 == Line(Point(8, 5), Point(8, 20)) && l3 == Line(Point(8, 20), Point(1, 20))
    ensures Consolidations(next, 1, false, 40, 40, blocked) == next
  {
    assert next[1..][0] == next[1] && next[1..][1] == next[2] && next[1..][2] == next[3];
    assert Intersection(Line(Point(1, 20), Point(40, 20)), l1) == None;
    assert Consolidated(next, 1, 40, 40, blocked) == None;
    assert Consolidations(next, 2, false, 40, 40, blocked) == next;
  }

  lemma TornRun(next: seq<Line>, a: Line, b: Line, c: Line, d: Line)
    requires a == Line(Point(5, 15), Point(8, 15)) && b == Line(Point(8, 15), Point(8, 5))
    requires c == Line(Point(8, 5), Point(8, 20)) && d == Line(Point(8, 20), Point(1, 20)) && next == [a, b, c, d]
    ensures LineMerging.Merged(next) == [a, Line(Point(8, 20), Point(8, 20)), d]
  {
    LineMerging.MergedPair(b, c);
    assert next[1..] == [b, c, d] && [b, c, d][..2] == [b, c] && [b, c, d][2..] == [d];
    assert LineMerging.MergedLine([b, c]) == Line(Point(8, 20), Point(8, 5));
    assert LineMerging.Merged([b, c, d]) == [Line(Point(8, 20), Point(8, 20)), d];
  }

  // ---------------------------------------------------------------- a first triple left over

  /** A replacement at index 2 can leave a first triple that the loop would replace, but never comes back to. */
  lemma FirstTripleIsMissed(path: seq<Line>, blocked: Rectangle -> bool)
    requires path == [Line(Point(12, 30), Point(10, 30)), Line(Point(10, 30), Point(10, 10)),
                      Line(Point(10, 10), Point(15, 10)), Line(Point(15, 10), Point(15, 5)),
                      Line(Point(15, 5), Point(11, 5))]
    requires forall r :: !blocked(r)
    ensures Consolidated(path, 0, 40, 40, blocked).None?
    ensures Consolidations(path, 0, false, 40, 40, blocked) ==
            [path[0], path[1], Line(Point(10, 10), Point(11, 10)), Line(Point(11, 10), Point(11, 5))]
    ensures Consolidated(Consolidations(path, 0, false, 40, 40, blocked), 0, 40, 40, blocked).Some?
  {
    var third, closing := Line(Point(10, 10), Point(11, 10)), Line(Point(11, 10), Point(11, 5));
    var next := [path[0], path[1], third, closing];
    NothingAtTheStart(path, path[0], path[1], path[2], path[3], blocked);
    ClosesExactly(path[2], path[3], path[4], 40, 40);
    ReplacedAt(path, 2, path[..2], path[5..], next, closing, 40, 40, blocked);
    assert Consolidations(next, 1, false, 40, 40, blocked) == next;
    ClosesExactly(path[0], path[1], third, 40, 40);
  }

  lemma NothingAtTheStart(path: seq<Line>, l1: Line, l2: Line, l3: Line, l4: Line, blocked: Rectangle -> bool)
    requires |path| == 5 && path[..4] == [l1, l2, l3, l4]
    requires l1 == Line(Point(12, 30), Point(10, 30)) && l2 == Line(Point(10, 30), Point(10, 10))
    requires l3 == Line(Point(10, 10), Point(15, 10)) && l4 == Line(Point(15, 10), Point(15, 5))
    ensures Consolidated(path, 0, 40, 40, blocked).None?
    ensures Consolidations(path, 0, false, 40, 40, blocked) == Consolidations(path, 2, false, 40, 40, blocked)
  {
    assert path[0] == path[..4][0] && path[1] == path[..4][1] && path[2] == path[..4][2] && path[3] == path[..4][3];
    assert Intersection(Line(Point(15, 10), Point(15, 40)), l1) == None;
    assert Consolidated(path, 0, 40, 40, blocked) == None;
    assert Consolidated(path, 1, 40, 40, blocked) == None;
    assert Consolidations(path, 1, false, 40, 40, blocked) == Consolidations(path, 2, false, 40, 40, blocked);
  }
}
