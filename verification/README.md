# Verified models of Kanoop's core algorithms and protocols

This project models, in Dafny 4.11, the parts of the Kanoop utility library whose correctness takes
an argument over whole inputs or whole runs, and proves those arguments.

* **Shortest paths through a network of lines** (`SpanningTree`, `TreePathVertice`). `TreePathVertice.dfy`
  and `SpanningTree.dfy` keep the source's classes: vertice objects with a distance, a state, a source
  link and a neighbour map, changed in place. `Network.dfy` says what walks and shortest distances are,
  `Dijkstra.dfy` what one call of `cycle()` does to the labels and what whole runs of it find,
  `SourceLinks.dfy` follows the source links back. `ClosestLine.dfy` (projection in the plane),
  `Wiring.dfy`, `Attachment.dfy`, `LaidOut.dfy`, `SplitSymmetry.dfy` and `NetworkSplit.dfy` cover laying out
  the vertices from the lines, and attaching an origin or a destination by splitting the closest line.
  `SecondCall.dfy` says what the second of `setOrigin` and `setDestination` does to the first, `Reattachment.dfy`
  what a second call of the same one does, and `CornerCases.dfy` gives inputs for which they go wrong.
  `Segments.dfy` and `Lists.dfy` hold lists of lines and `QList::removeOne`, `Options.dfy` the values that may be missing.
* **Protocols as state machines over their atomic steps.** `LockingQueue.dfy` (any number of producers and
  consumers), `ThreadLifecycle.dfy` (`AbstractThreadClass` with `MutexEvent`: one external `stop()` against any
  number of `finishAndStop` calls) and `TcpRoster.dfy` (`TcpServer`'s client roster across two threads). A run is
  a sequence of steps from the initial state; each theorem holds for every run, that is, every interleaving.
* **String algorithms.** `Levenshtein.dfy` (the matrix against edit scripts, and the metric laws) and `Bitap.dfy`
  (the bit-parallel automaton against a plain window search).
* **Durations as text.** `Text.dfy`, `TimeSpan.dfy`, `FieldText.dfy`, `RoundTrip.dfy`, `RoundTripLimits.dfy`, `Durations.dfy`:
  `toAbbreviatedFormat`, `fromString`, and exactly which spans survive the round trip.
* **Lists rewritten in place.** `Lines.dfy`, `LineMerging.dfy`, `MergeEnds.dfy` (what merging leaves of a path's ends and
  connections), `ThreeSides.dfy` (when three lines are three sides of a rectangle), `PathRouter.dfy` (consolidation and
  merging of path lines, as a class whose list is edited) and `RangeList.dfy` (`consolidated()`).
* **UTF-8 tails.** `ThreadName.dfy` (`threadName`, with the grammar of section 4 of RFC 3629).

`dafny verify dfyconfig.toml` checks everything.

## How to read the models

* Coordinates of the spanning tree are reals and `FlatGeo::distance` is an arbitrary non-negative function
  (`metric`). Only the theorem about splitting a line asks more of it: that a line is as long as its two parts
  (`Wiring.Straight`). Closest points are compared by squared distance, which orders them as the distance does.
* `makeHashName` is an arbitrary function. Lemmas that need different points to have different names say so:
  the source keeps six significant digits per axis.
* `Wiring.Plan` is a value that holds a tree's neighbour maps (by name), positions and lines. The methods of
  `SpanningTree` that change neighbours are proved to change the plan as a function of it says
  (`Wiring.FromLines`, `Wiring.Tried`, and `Wiring.Attached` where nothing goes wrong), and the theorems are about
  those functions. `Attachment.Called` and `Attachment.Attaches` relate the plans before and after a call.
* A `SpanningTree` has two ghost fields: `dropped`, the vertices it has had and has no more, to which neighbours and source
  links may still lead, and `ranks`, an order in which the source links lead down. `Valid`, `LinksEnd` and
  `DestinationKnown` hold of a new tree and are kept by every call (`SpanningTrees.MakeCalls`).
* Signed 32-bit limits of `QString::toInt` are explicit; `unsigned long` of `Bitap` is 64 explicit bits; integer
  division truncates toward zero (`TimeSpan.Quotient`).

## Where the code differs from its documentation

* `include/Kanoop/stringutil.h:207-214` and `:234` promise a Levenshtein distance for the fuzzy search. The code
  only ever substitutes, so it decides the number of mismatching places. What is found is within the edit distance;
  that everything within it is found holds, for a 7-bit needle the code accepts, exactly when the distance allowed is 0
  (`Bitap.PromiseKeptExactly`).
* `include/Kanoop/timespanrange.h:206-207` promises a minimal sorted list. The sorted copy is made and then not
  walked; `RangeList.UnsortedLosesARange` is an input that loses a range, and `RangeList.FaithfulExactly` says
  for which lists nothing is lost.
* `include/Kanoop/geometry/spanningtree.h:34` warns of a partial chain when the walk back misses the origin. For a
  destination that is a vertice of the tree that does not happen, whatever vertices have been dropped and whether or not
  the origin is one of them: the list is a whole path or empty (`SpanningTrees.SpanningTree.ComputePath`). A refused call
  leaves a destination that has been dropped (`src/Kanoop/geometry/spanningtree.cpp:200-212`). The walk back then follows
  the links that earlier searches left, never in a circle (`SpanningTrees.SpanningTree.LinksStillEnd`), and
  `TreePathVertices.WholeExactly` says when it gets to the origin.
* A second `setOrigin` (or `setDestination`) for another point drops the vertices of the first, but not what it did to the
  line it split: that line is no line of the network any more (`Reattachment.SecondOfAKind`), and a point closest to
  one of its two pieces makes the call end in the exception (`Reattachment.RefusedExactly`, with an input in
  `CornerCases.SecondOriginIsRefused`), the new vertice staying behind alone. With the origin dropped, no path is
  found any more (`SpanningTrees.SecondRoute`).
* The comment at `src/Kanoop/geometry/spanningtree.cpp:132-142` says the new vertice is joined to one on the closest line.
  A point that already lies on that line becomes its own neighbour and nobody else's
  (`Attachment.PointOnALineIsLeftAlone`, at (2, 1) on (1, 1)-(3, 1) in `CornerCases.LeftAloneWithNumbers`), and a closest
  point at (0, 0) counts as none (`Attachment.NewcomerConnects` gives the exact condition).
* The second of `setOrigin` and `setDestination` leaves all distances as they were exactly unless it splits a line that joins
  the same two points as the line the first one split (`SecondCall.SecondCallExactly`). If it does, the vertice attached
  first can be reached from nowhere else (`SecondCall.ParallelLineCutsOff`): with two such lines no path is found to a
  destination set before the origin (`CornerCases.CutOffWithNumbers`), and one is found with the origin set first
  (`CornerCases.DestinationIsFound`). The distances between the ends of the lines stay in any case
  (`SecondCall.BothKeepDistances`).
* A second split of a piece leaves a one-way edge from the line's end to the first split's middle
  (`SplitSymmetry.SecondSplitIsLopsided`, for a line and two points in `CornerCases.SecondSplitIsOneWay`), which costs no
  distance.
* A `finishAndStop` from a slot on `finished()` wins when `stop()` has returned already, runs the hook again and
  overwrites the completion (`ThreadLifecycle.LateFinishRunsTheHookAgain`); one from a slot on `started()` makes the hook run
  before `threadStarted` (`ThreadLifecycle.EarlyFinishRunsTheHookFirst`). The three callbacks come once and in order exactly
  in the runs without either (`ThreadLifecycle.CallbacksOnceInOrder`).
* `fromString(toAbbreviatedFormat(true))` gives a span back exactly when it is not negative, made of whole milliseconds,
  and under 100 days or a whole number of days up to 365: the parser's cursor moves by the width of the number, not of
  the unit, so 100 days and an hour are misread, years are printed but never parsed, and a field with a minus before it is
  passed over (`Durations.AnyRoundTripExactly`, `RoundTripLimits.RoundTripExactly`, `Durations.SignedField`).
* `pass2` can move the end of a path: consolidation may turn the last two lines back on each other, and the merge
  after it then drops the last (`PathRouting.SecondPassCanMoveTheEnd`). It can also tear a path in two: a line merged from
  a run that goes back behind its start begins there and not where the line before it ends, and a run that ends as far
  back as it gets is left as a line without length (`PathRouting.SecondPassCanTearThePath`, where both happen and the ends
  stay). `PathRouting.SecondPassExactly` says when the ends stay, when the path stays connected, and when no line without
  length is left.
* The consolidation loop never comes back to the first triple, since its index is raised again after being set to 0. It
  can leave a first triple that its own replacements have made replaceable (`PathRouting.FirstTripleIsMissed`), but only by
  a replacement that reaches one of the first three lines (`PathRouting.FirstTripleSettled`).

## Model

| member | source | states |
|---|---|---|
| SpanningTrees.SpanningTree.constructor | src/Kanoop/geometry/spanningtree.cpp:11-17 | a new tree has no origin or destination, and its vertices and neighbours are those its lines lay out |
| SpanningTrees.SpanningTree.InitializeFromLines | src/Kanoop/geometry/spanningtree.cpp:24-44 | the loop over the lines leaves the tree FromLines describes, all vertices new and of the standard type |
| LaidOut.FromLinesLaid | src/Kanoop/geometry/spanningtree.cpp:26-43 | whatever the lines, the vertices are exactly their ends, each filed under its own name, and exactly the pairs a line joins are filed with each other |
| LaidOut.NeighborsAreJoined | src/Kanoop/geometry/spanningtree.cpp:26-43 | two vertices are neighbours if and only if a line joins them |
| LaidOut.TreeFits | src/Kanoop/geometry/spanningtree.cpp:26-43 | the tree fits its lines, every proper line's ends sitting at its points and knowing each other, if and only if every end of a proper line is the point that got its name first |
| LaidOut.TreeIsRooted | src/Kanoop/geometry/spanningtree.cpp:26-43 | whatever the lines and names, the ends of every line are vertices and vertices know only vertices |
| TreePathVertices.TreePathVertice.TryAddNeighbor | src/Kanoop/geometry/treepathvertice.cpp:18-23 | a neighbour is added under its name unless that name is taken |
| TreePathVertices.TreePathVertice.TryReplaceNeighbor | src/Kanoop/geometry/treepathvertice.cpp:25-31 | the new neighbour is filed under the old one's name, all other entries stay |
| SpanningTrees.SpanningTree.InitializeVertices | src/Kanoop/geometry/spanningtree.cpp:98-126 | every vertice unvisited, the origin at 0 if it is one of them, all others infinitely far, nothing visited: the start of a search |
| SpanningTrees.SpanningTree.PickNearest | src/Kanoop/geometry/spanningtree.cpp:255-264 | an unvisited vertice no other unvisited one is nearer than, or none when none is left |
| SpanningTrees.SpanningTree.RelaxNeighbors | src/Kanoop/geometry/spanningtree.cpp:268-281 | the loop over one vertice's neighbours relaxes exactly the labels of those that are vertices of the tree, whatever order the map hands them out in; dropped ones change nothing in the tree |
| SpanningTrees.SpanningTree.Cycle | src/Kanoop/geometry/spanningtree.cpp:253-298 | one call follows the search step by step on a nearest vertice, takes one vertice off the unvisited list, and tells whether any is left |
| SpanningTrees.SpanningTree.CycleThrough | src/Kanoop/geometry/spanningtree.cpp:61 | the loop ends, after a whole run that has left no vertice unvisited |
| SpanningTrees.SpanningTree.ComputePath | src/Kanoop/geometry/spanningtree.cpp:46-70 | empty without origin or destination; otherwise every vertice's distance is that of a shortest walk from the origin through the vertices still in the tree, its source links lead back over a connected path of that length, none exactly when it is the origin or out of reach, and they end at the origin exactly when it is within reach; nothing is in reach of an origin that is no vertice any more; the lines returned follow the links of the destination, which may have been dropped itself |
| SpanningTrees.SpanningTree.GetPath | src/Kanoop/geometry/spanningtree.cpp:300-317 | on any tree, after any searches and with any vertices dropped, the walk back ends, and yields the lines along the source links from the origin, or from where the links end, to the destination |
| SpanningTrees.SpanningTree.LinksStillEnd | src/Kanoop/geometry/spanningtree.cpp:269-281 | after a search the source links of all vertices the tree has or has ever had still lead to an end, if they did before it |
| TreePathVertices.TrailConnects | src/Kanoop/geometry/spanningtree.cpp:300-317 | the lines along the source links are a connected chain from where the links end to the vertice |
| TreePathVertices.TrailOnward | src/Kanoop/geometry/spanningtree.cpp:300-317 | the way to a vertice is the way to the one its link leads to and one line more, from the same start |
| TreePathVertices.WholeExactly | src/Kanoop/geometry/spanningtree.cpp:300-317 | the walk back from any vertice, dropped or not, gets to the origin if and only if the first vertice of the tree it meets is within reach of the origin, or it meets the origin itself before |
| SpanningTrees.SpanningTree.GraphOfPlan | src/Kanoop/geometry/spanningtree.cpp:269-281 | the network the search walks through is that of the plan without the neighbours that have been dropped, as long as no vertice bears the name of a dropped one |
| SpanningTrees.Route | include/Kanoop/geometry/spanningtree.h:32-49 | building a tree, setting origin and destination in either order and computing the path, for any lines and names: the path is a shortest one from the origin to the destination in the network the two calls leave; with a metric that adds up along lines and the lines' ends in place, these ends are as far from each other there as along the lines |
| SpanningTrees.SecondRoute | include/Kanoop/geometry/spanningtree.h:32-49 | lines, an origin set twice, a destination and the path, for any lines and names: empty if the second origin or the destination is refused; else a shortest path in the network of the vertices still there, unless a later vertice has taken the name of a dropped one |
| SpanningTrees.MakeCalls | include/Kanoop/geometry/spanningtree.h:26-49 | after any calls of setOrigin, setDestination and computePath in any order the tree is in order: vertices are filed under their names, neighbours are vertices the tree has or has had, and the walk back along the source links ends from all of them |
| Segments.FromPoints | src/Kanoop/geometry/line.cpp:492-499 | the lines between successive points, one fewer than the points |
| Segments.WalkAsLines | src/Kanoop/geometry/line.cpp:492-499 | the lines of a walk are connected, run from its first vertice to its last, and are as long as the walk |
| Dijkstra.CycleInv | src/Kanoop/geometry/spanningtree.cpp:266-295 | a step on a nearest vertice keeps the search invariant: finite distances come from earlier visited neighbours, visited vertices have used all their edges and lie no farther than unvisited ones |
| Dijkstra.RunInv | src/Kanoop/geometry/spanningtree.cpp:59-61 | the invariant holds in every state of every run, whichever nearest vertices it picks |
| Dijkstra.NoShorterWalk | src/Kanoop/geometry/spanningtree.cpp:269-281 | once all edges are used, no walk is shorter than the difference of two labels |
| Dijkstra.WalkOfLabel | src/Kanoop/geometry/spanningtree.cpp:272-274 | a visited vertice's source links give a walk from the origin of exactly the labelled length |
| Dijkstra.FinishedIsShortest | src/Kanoop/geometry/spanningtree.cpp:253-298 | after the search each distance is the least length of a walk from the origin, infinite exactly when there is none |
| Dijkstra.ExploredIsShortest | src/Kanoop/geometry/spanningtree.cpp:59-61 | the same for whatever state a whole run of cycle() ends in |
| Dijkstra.ExploredIsShortestFrom | src/Kanoop/geometry/spanningtree.cpp:59-61 | the same where the origin may be no vertice of the tree: then every vertice is infinitely far |
| SourceLinks.OneLinkBack | src/Kanoop/geometry/spanningtree.cpp:306-311 | a source link leads to a vertice visited earlier, and the walk to the destination grows by that edge |
| SourceLinks.TraceEnds | src/Kanoop/geometry/spanningtree.cpp:311-316 | where the links end the lines collected are the whole path, or none when there is nowhere to go |
| SourceLinks.TraceFinds | src/Kanoop/geometry/spanningtree.cpp:300-317 | the same where the origin may be no vertice of the tree: then the links lead nowhere and there are no lines |
| ClosestLine.ClosestOnIsClosest | src/Kanoop/geometry/line.cpp:139-170 | no point of a line is closer to the given point than the one computed |
| ClosestLine.ClosestIsAlong | src/Kanoop/geometry/line.cpp:142-165 | the point computed is the foot of the perpendicular, held to the ends of the line |
| ClosestLine.FindClosestPointInLines | src/Kanoop/geometry/spanningtree.cpp:214-251 | a first closest candidate, and it lies above, below, left or right of the point as the preferred direction asks, with y growing downward |
| ClosestLine.HitLiesThere | src/Kanoop/geometry/spanningtree.cpp:214-251 | by coordinates: the hit lies in the preferred direction, no line whose closest point lies there is nearer, and there is no hit only when no line has its closest point there |
| ClosestLine.ClosestIsUnique | src/Kanoop/geometry/spanningtree.cpp:219-249 | that description fixes the line and the point |
| SpanningTrees.SpanningTree.ClearAdHocVertices | src/Kanoop/geometry/spanningtree.cpp:200-212 | exactly the vertices of the type are dropped from the map |
| SpanningTrees.SpanningTree.SplitLine | src/Kanoop/geometry/spanningtree.cpp:162-189 | the neighbours of the line's ends, of the new vertice and of the ad-hoc one change as Spliced says, and the line gives way to its two pieces |
| SpanningTrees.SpanningTree.AddAdHocVertice | src/Kanoop/geometry/spanningtree.cpp:128-198 | on any tree: a vertice of the point's name is returned as it is; else those of the kind are dropped, a new one is placed and joined to the closest point as Tried says, and none is returned exactly when a line is to be split whose end is missing |
| SpanningTrees.SpanningTree.NewcomersUnlinked | src/Kanoop/geometry/spanningtree.cpp:128-160 | new vertices and dropped ones leave every source link leading to an end |
| SpanningTrees.SpanningTree.SetOrigin | src/Kanoop/geometry/spanningtree.cpp:72-83 | the same for a first call or any later one: the origin becomes that vertice, or stays as it was when the call ends in the exception |
| SpanningTrees.SpanningTree.SetDestination | src/Kanoop/geometry/spanningtree.cpp:85-96 | the same for the destination, with no preferred direction |
| Attachment.JoinedTowards | src/Kanoop/geometry/spanningtree.cpp:147-194 | after any call the new vertice knows just the vertice of the closest point, if it is joined at all, and that point lies in the preferred direction |
| SpanningTrees.SpanningTree.SetFirstOrigin | src/Kanoop/geometry/spanningtree.cpp:72-83 | on a tree whose lines have their vertices a first call never fails, drops nothing, leaves the tree in order and the destination in it, and the vertices of the kind are exactly those it has added |
| Attachment.NeverRefused | src/Kanoop/geometry/spanningtree.cpp:161-167 | no first call of its kind meets the exception while the ends of all lines are vertices |
| Attachment.AttachesStaysRooted | src/Kanoop/geometry/spanningtree.cpp:128-198 | a call keeps the ends of all lines, old ones and pieces, among the vertices, so the next one does not meet it either |
| Attachment.AttachesKeepsDistances | src/Kanoop/geometry/spanningtree.cpp:128-198 | setOrigin or setDestination changes no shortest distance between vertices that were there, whatever the other lines, as long as the ends of the line it hits sit at its points |
| SecondCall.BothKeepDistances | src/Kanoop/geometry/spanningtree.cpp:72-96 | setOrigin and setDestination, in either order, change no distance between the vertices that were there, whichever lines they split |
| SecondCall.SecondCallExactly | src/Kanoop/geometry/spanningtree.cpp:173-188 | the second call keeps all distances the first has left if and only if it does not split a line that joins the same points as the line the first one split |
| SecondCall.ThroughBothFeet | src/Kanoop/geometry/spanningtree.cpp:173-188 | when both split lines of different ends, the ways between origin and destination are exactly those over both closest points and, through the network of the lines, between the ends of the two lines |
| SecondCall.ShortestThroughBothFeet | src/Kanoop/geometry/spanningtree.cpp:173-188 | so the shortest distance between origin and destination, either way, is exactly the least of those, and infinite when there are none |
| SecondCall.ParallelLineCutsOff | src/Kanoop/geometry/spanningtree.cpp:173-181 | when the line split second joins the same two points, only the vertice attached first and the point it was joined to reach each other; from every other vertice there is no walk to them |
| SecondCall.ParallelLineLeadsOn | src/Kanoop/geometry/spanningtree.cpp:173-181 | the other way round there is one: from the vertice attached first over both closest points to the second |
| Reattachment.SecondOfAKind | src/Kanoop/geometry/spanningtree.cpp:143-144 | with the vertices of a first call dropped, the network is that of the lines, less the line the first call split if it split one |
| Reattachment.RefusedExactly | src/Kanoop/geometry/spanningtree.cpp:161-167 | a second call for another point ends in the exception if and only if a line is to be split and it is one of the two pieces the first call left |
| CornerCases.CutOffWithNumbers | src/Kanoop/geometry/spanningtree.cpp:173-188 | (10, 10)-(20, 10) given twice, the destination (13, 12) set before the origin (17, 12): no distance, and an empty path |
| CornerCases.DestinationIsFound | src/Kanoop/geometry/spanningtree.cpp:173-188 | two lines between the same points and the origin set first: a path is found |
| CornerCases.SecondOriginIsRefused | src/Kanoop/geometry/spanningtree.cpp:161-167 | one line, setOrigin for a point beneath it and then for one further right: the second call fails |
| CornerCases.LeftAloneWithNumbers | src/Kanoop/geometry/spanningtree.cpp:191-194 | (1, 1)-(3, 1) and its own point (2, 1): the vertice knows nobody but itself |
| CornerCases.DirectionWithNumbers | src/Kanoop/geometry/spanningtree.cpp:223-243 | a line above and a nearer one below the point: with Up the hit is on the one above, with Down on the one below, and to the left or right there is none |
| Attachment.AttachedFits | src/Kanoop/geometry/spanningtree.cpp:161-190 | after attaching, the pieces of a split line and all other lines again have ends that sit at their points and know each other, when no two lines join the same points |
| Attachment.NewcomerConnects | src/Kanoop/geometry/spanningtree.cpp:159-195 | the new vertice has another neighbour if and only if there is a closest point other than (0, 0) that does not go by its own name |
| Attachment.PointOnALineIsLeftAlone | src/Kanoop/geometry/spanningtree.cpp:191-194 | a newcomer whose closest point goes by its own name, as a point on the network does, knows nobody but itself and is known by nobody else |
| NetworkSplit.SplitKeepsDistances | src/Kanoop/geometry/spanningtree.cpp:173-181 | splitting a line changes no distance between old vertices, even if the old edge is left in one direction or both |
| NetworkSplit.DistanceFromSpur | src/Kanoop/geometry/spanningtree.cpp:173-181 | from the ad-hoc vertice an old one is exactly as far as the way over the split point and the better end of the line |
| NetworkSplit.DistanceToSpur | src/Kanoop/geometry/spanningtree.cpp:173-181 | and from an old vertice to the ad-hoc one exactly as far as over the better end of the line and the split point |
| NetworkSplit.DistanceToFoot | src/Kanoop/geometry/spanningtree.cpp:183 | the split point is exactly one step away from the ad-hoc vertice |
| NetworkSplit.PartKeepsDistances | src/Kanoop/geometry/spanningtree.cpp:173-188 | vertices that no old vertice has for a neighbour change no distance between old ones |
| NetworkSplit.BesideKeepsDistances | src/Kanoop/geometry/spanningtree.cpp:191-194 | joining a new vertice to one old one changes no distance between old vertices |
| NetworkSplit.SameShortest | src/Kanoop/geometry/spanningtree.cpp:164-189 | networks with the same bounds on the way between old vertices have the same shortest distances between them |
| SplitSymmetry.FromLinesSymmetric | src/Kanoop/geometry/spanningtree.cpp:40-42 | to begin with neighbours know each other, each under its own name |
| SplitSymmetry.FirstSplitStaysSymmetric | src/Kanoop/geometry/spanningtree.cpp:173-181 | a first split leaves neighbours each other's neighbours |
| SplitSymmetry.OldEdgeSurvives | src/Kanoop/geometry/treepathvertice.cpp:25-31 | the edge from one end of a split line to the other survives if and only if the other end is filed under some other name |
| SplitSymmetry.SecondSplitIsLopsided | src/Kanoop/geometry/treepathvertice.cpp:25-31 | after a piece is split again, its old end still knows the first middle, which no longer knows it |
| CornerCases.SecondSplitIsOneWay | src/Kanoop/geometry/treepathvertice.cpp:25-31 | one line, a first point beneath it and a second one to its left: the left end still knows the middle of the first split, which does not know it |
| ThreadLifecycle.Reachable | src/Kanoop/utility/abstractthreadclass.cpp:129-171 | the protocol's invariant holds after every interleaving of stop(), the worker, and finishAndStop calls at any time, in the finish phase too |
| ThreadLifecycle.CallbacksOnceInOrder | src/Kanoop/utility/abstractthreadclass.cpp:195-255 | threadStarted, the hook and threadFinished are called once and in this order if and only if no finishAndStop wins in a slot on started() or on finished() |
| ThreadLifecycle.CallbacksOfEveryRun | src/Kanoop/utility/abstractthreadclass.cpp:195-255 | in every run the hook has run exactly once before threadFinished, and at most once after it |
| ThreadLifecycle.CompletionIsTheWinners | src/Kanoop/utility/abstractthreadclass.cpp:195-207 | when the run is over the completion recorded is that of the last finishAndStop to win, and the initial one if none did |
| ThreadLifecycle.FinishPhaseCalls | src/Kanoop/utility/abstractthreadclass.cpp:238-255 | a finishAndStop from threadFinished changes nothing; one from a slot on finished() wins if and only if _stopping has been reset, and stop() has returned then |
| ThreadLifecycle.LateFinishRunsTheHookAgain | src/Kanoop/utility/abstractthreadclass.cpp:238-255 | a run in which the hook is called a second time, after threadFinished |
| ThreadLifecycle.EarlyFinishRunsTheHookFirst | src/Kanoop/utility/abstractthreadclass.cpp:220-236 | a run in which the hook is called before threadStarted |
| ThreadLifecycle.CompletionIsFinal | src/Kanoop/utility/abstractthreadclass.cpp:197-204 | once the hook has started, no later state of the run has another completion, unless a finishAndStop wins in a slot on finished() |
| ThreadLifecycle.StopReturnsAfterFinish | src/Kanoop/utility/abstractthreadclass.cpp:145-168 | stop() returns only after the hook, threadStarted and, last of the three, threadFinished are done |
| ThreadLifecycle.StopJoins | src/Kanoop/utility/abstractthreadclass.cpp:129-171 | a stop() that has found the worker not running returns only when it is gone, and leaves the stop event set; one that has found it running leaves the event clear |
| ThreadLifecycle.LoserAsksToQuit | src/Kanoop/utility/abstractthreadclass.cpp:158-162 | a stop() that has lost the test-and-set to a finishAndStop has asked the loop to quit before it waits |
| ThreadLifecycle.StoppingIsReset | src/Kanoop/utility/abstractthreadclass.cpp:169-251 | with the worker gone, and stop() returned or never called, _stopping is 0 again |
| ThreadLifecycle.NeverStuck | src/Kanoop/utility/abstractthreadclass.cpp:145-163 | while stop() waits, it or the worker has a step to take; with the worker idle in its loop, a hook-and-quit is queued or a quit asked |
| ThreadLifecycle.EveryStepCounts | src/Kanoop/utility/abstractthreadclass.cpp:129-171 | every step but a losing finishAndStop lowers a rank, so no run goes on for ever doing something |
| ThreadLifecycle.StopReturns | src/Kanoop/mutexevent.cpp:4-46 | from every reachable state a bounded run brings stop() to its return |
| LockingQueue.WakeupNeverLost | include/Kanoop/lockingqueue.h:36-71 | in every reachable state with a sleeper, the elements number at most the pending notifications and the woken calls together |
| LockingQueue.SleeperIsServed | include/Kanoop/lockingqueue.h:43-58 | a sleeper beside an element is at most two steps from that element, the oldest, being handed out |
| LockingQueue.AlwaysConserved | include/Kanoop/lockingqueue.h:36-100 | in every run, what has left in order followed by what is queued is what the enqueue calls of the run handed over, in order; a call reports success with x exactly when x is the one element it took; without clear() nothing is discarded |
| LockingQueue.ClearEmpties | include/Kanoop/lockingqueue.h:96-100 | after clear() the queue is empty and all that was enqueued has left |
| LockingQueue.GivesUpOnlyAtDeadline | include/Kanoop/lockingqueue.h:36-58 | a call returns without success exactly when its deadline has passed while it was waiting |
| LockingQueue.OneNotificationEach | include/Kanoop/lockingqueue.h:64-71 | each enqueue notifies once, and neither a notification nor an enqueue, a clear() or a new call is ever refused |
| TcpRoster.Reachable | src/Kanoop/clientserver/tcpserver.cpp:55-75 | after every interleaving each accepted client has exactly one owner until it is deleted |
| TcpRoster.DeletedOnceAndLast | src/Kanoop/clientserver/tcpserver.cpp:140-156 | no client is deleted twice, or started, connected, disconnected or stopped after its deletion |
| TcpRoster.LifeOfEveryClient | src/Kanoop/clientserver/tcpserver.cpp:62-126 | in every run and for every client: it is connected before it is started, and one that is deleted was either deleted by the slot on its own finished(), or reaped by stop(): disconnected, then stopped, then deleted |
| TcpRoster.OnlyFinishedClientsEnd | src/Kanoop/clientserver/tcpserver.cpp:140-158 | a client deleted without having been stopped has emitted finished() |
| TcpRoster.FinishesWhileConnected | src/Kanoop/clientserver/tcpserver.cpp:62-74 | a client emits finished() by itself only between being started and being disconnected |
| TcpRoster.DeliveredOnce | src/Kanoop/clientserver/tcpserver.cpp:121-158 | each finished() a client has emitted is delivered once or still on its way |
| TcpRoster.StopEventFits | src/Kanoop/clientserver/tcpserver.cpp:97-138 | the stop event is set once, as the server thread ends, and stop() takes it at most once |
| TcpRoster.StopLeavesNothing | src/Kanoop/clientserver/tcpserver.cpp:88-107 | when stop() of a running server returns the roster is empty and every accepted client deleted; of one not running it touches nothing |
| TcpRoster.StopReturns | src/Kanoop/clientserver/tcpserver.cpp:88-107 | from every reachable state stop() can be run to its return |
| Levenshtein.FillMatrix | src/Kanoop/stringutil.cpp:312-327 | every cell of the matrix is the distance of the two prefixes it stands for |
| Levenshtein.Compute | src/Kanoop/stringutil.cpp:310-329 | the result is the length of some script of single edits from s1 to s2, and no script is shorter |
| Levenshtein.ShortestScript | src/Kanoop/stringutil.cpp:325 | a script of exactly the recurrence's length exists |
| Levenshtein.NoShorterScript | src/Kanoop/stringutil.cpp:325 | no script is shorter than the recurrence says |
| Levenshtein.ZeroOnlyOnEqual | src/Kanoop/stringutil.cpp:310-329 | the distance is 0 exactly on equal strings |
| Levenshtein.Symmetric | src/Kanoop/stringutil.cpp:310-329 | the distance is symmetric |
| Levenshtein.Triangle | src/Kanoop/stringutil.cpp:310-329 | the triangle inequality |
| Levenshtein.Bounds | src/Kanoop/stringutil.cpp:310-329 | the distance lies between the difference of the lengths and the longer length |
| Bitap.PatternMasks | src/Kanoop/stringutil.cpp:352-356 | bit i of the mask of c is 0 exactly when the needle's character i is c |
| Bitap.Advance | src/Kanoop/stringutil.cpp:360-371 | one haystack character takes every row on: bit i of R[d] is 0 exactly when the needle's first i characters differ from the last i read in at most d places |
| Bitap.Calculate | src/Kanoop/stringutil.cpp:337-382 | the first window with at most maxDistance mismatches, -1 exactly when there is none; a leading NUL and a needle over 31 characters as the code has them |
| Bitap.BeyondLatin1IsOne | src/Kanoop/stringutil.cpp:352-365 | any two characters beyond Latin-1 are taken for the same, and for none of the 7-bit ones |
| Bitap.FoundWithinEditDistance | src/Kanoop/stringutil.cpp:337-382 | a window found lies within the requested edit distance |
| Bitap.PromiseKeptExactly | include/Kanoop/stringutil.h:207-214 | for every 7-bit needle of 1 to 31 characters without a leading NUL: finding something exactly when some stretch of the haystack is within the distance holds for all 7-bit haystacks if and only if the distance is 0 |
| Bitap.ShortenedNeedleIsNotFound | include/Kanoop/stringutil.h:207-214 | for any distance above 0 the needle without its last character is within it and yields -1 |
| TimeSpan.FieldsMakeTheSpan | src/Kanoop/timespan.cpp:280-322 | a whole-millisecond span is the sum of its fields, each in its range |
| RoundTripLimits.YearsInTheSpan | src/Kanoop/timespan.cpp:687-734 | beyond 365.242 days the years printed are the whole years in the span, and the days the whole days left then |
| Durations.ToAbbreviatedFormat | src/Kanoop/timespan.cpp:687-734 | "0m" for no time; else a sign for a negative span and exactly the fields other than 0, years first, with one space between them |
| TimeSpan.GetTokens | src/Kanoop/timespan.cpp:538-556 | the loop yields exactly the runs of letters, in order |
| TimeSpan.ParseIntToToken | src/Kanoop/timespan.cpp:558-578 | the number before a token that stands alone, and the rest from twice its width on; -1 and the text unchanged otherwise |
| Durations.ParseAbbreviatedString | src/Kanoop/timespan.cpp:418-459 | the printed text of fields in range is read as their sum when the days are under 100 or stand alone, and as less when days of three digits are followed by another field |
| RoundTrip.ReadsBack | src/Kanoop/timespan.cpp:418-459 | the printed text of fields, with days under 100 or alone, is read back as their sum |
| RoundTripLimits.Misread | src/Kanoop/timespan.cpp:570-574 | days of three digits before another field are read back as less than was printed |
| RoundTripLimits.RoundTripExactly | src/Kanoop/timespan.cpp:387-409 | a non-negative whole-millisecond span survives printing and reading exactly when it is under 100 days, or whole days up to 365 |
| Durations.AnyRoundTripExactly | src/Kanoop/timespan.cpp:387-409 | any span survives printing and reading exactly when it is not negative, made of whole milliseconds, and under 100 days or whole days up to 365 |
| Durations.SignedField | src/Kanoop/timespan.cpp:558-578 | a single field with a minus before it is passed over, one with a plus is read |
| RoundTripLimits.NumbersAlone | src/Kanoop/timespan.cpp:387-409 | a number alone is milliseconds if it fits into 32 bits and no time otherwise; before "us" it is microseconds, before "ms" milliseconds |
| TimeSpan.TruncatedTowardZero | src/Kanoop/timespan.cpp:387-409 | fractions of a nanosecond are cut off toward zero |
| RangeList.Consolidated | include/Kanoop/timespanrange.h:209-238 | for well-formed ranges in any order the result is ordered with gaps; for a list in start order it covers the same instants |
| RangeList.FaithfulExactly | include/Kanoop/daterange.h:187-216 | the result covers the same instants if and only if no merge swallows a range that starts earlier and is not already covered |
| RangeList.UnsortedLosesARange | include/Kanoop/timespanrange.h:212-222 | an unsorted list on which the result is not the documented one |
| RangeList.Idempotent | include/Kanoop/timespanrange.h:209-238 | a second call changes nothing |
| RangeList.Minimal | include/Kanoop/timespanrange.h:206-238 | if no instant is lost, no well-formed list of ranges covering the same instants is shorter |
| LineMerging.MergeAdjacentLines | src/Kanoop/geometry/pathrouter.cpp:1139-1206 | the loop that edits the list yields Merged; on a path whose neighbours on one axis run the same way it keeps ends, connections, length and points and leaves no two neighbours on one axis |
| LineMerging.MergeKeepsPath | src/Kanoop/geometry/pathrouter.cpp:1139-1206 | length never grows, and is kept if and only if no neighbours on one axis turn back on each other |
| LineMerging.TurningBackMovesTheEnd | src/Kanoop/geometry/pathrouter.cpp:1171-1201 | two lines that turn back: the end of the path moves |
| MergeEnds.MergeKeepsEndsExactly | src/Kanoop/geometry/pathrouter.cpp:1139-1206 | merging keeps both ends of a path if and only if nothing in its first run lies behind the start and nothing in its last run beyond the end |
| MergeEnds.MergeConnectsExactly | src/Kanoop/geometry/pathrouter.cpp:1139-1206 | what comes out of a path is connected if and only if nothing in any run after the first lies behind the start of that run, and has no line without length if and only if no run before the last ends as far back as it gets |
| MergeEnds.MergeLeavesTurns | src/Kanoop/geometry/pathrouter.cpp:1139-1206 | unless lines without length come out, no two neighbours on one axis do |
| PathRouting.PathRouter.ReplaceLines | src/Kanoop/geometry/pathrouter.cpp:757-764 | the lines from index on, at most count of them, give way to the new ones |
| PathRouting.PathRouter.RemoveZeroLengthLines | src/Kanoop/geometry/pathrouter.cpp:1129-1137 | exactly the lines of no length go |
| PathRouting.NonZeroKeepsPath | src/Kanoop/geometry/pathrouter.cpp:1129-1137 | dropping lines of no length keeps a path's ends, connections and length |
| ThreeSides.ClosingLineFacts | src/Kanoop/geometry/pathrouter.cpp:881-930 | the closing line ends where the third one does, starts on the first line short of its end, and is perpendicular to it |
| ThreeSides.ClosesExactly | src/Kanoop/geometry/pathrouter.cpp:881-931 | three lines of a path are closed to a rectangle if and only if they go there, across, and back no farther than there, and the fourth corner is on the canvas and not the origin; the rectangle is the one with the ends of the first and the third line for corners |
| PathRouting.ConsolidationKeepsPath | src/Kanoop/geometry/pathrouter.cpp:147-151 | replacing three lines by two keeps ends, connections and axis alignment and makes the path strictly shorter |
| PathRouting.ConsolidatedExactly | src/Kanoop/geometry/pathrouter.cpp:137-151 | exactly the triples of a path that are three sides of such a rectangle, with nothing in it, are replaced, by the line to the fourth corner and the one from there |
| PathRouting.PathRouter.ConsolidateEmptyRectangles | src/Kanoop/geometry/pathrouter.cpp:127-156 | the loop yields Consolidations, and by nothing but shortcuts round rectangles that are not blocked; it keeps the ends of a connected path and shortens it by at least one per line saved, leaves a forced first line alone, and leaves no triple that is three sides of a rectangle with nothing in it but possibly the first, and that one only after a replacement reached its lines |
| PathRouting.LoopTakesShortcuts | src/Kanoop/geometry/pathrouter.cpp:127-156 | whatever the list, the loop only ever gives three lines up for two round a rectangle, over their ends, that is not blocked |
| PathRouting.NothingFreeNothingDone | src/Kanoop/geometry/pathrouter.cpp:127-156 | a path with no such triple, for one because all its rectangles are blocked, leaves the loop as it entered |
| PathRouting.FirstTripleSettled | src/Kanoop/geometry/pathrouter.cpp:127-156 | if no replacement reaches the first three lines, the first triple can be consolidated afterwards exactly if it could before, and not at all unless the initial direction is forced |
| PathRouting.FirstTripleIsMissed | src/Kanoop/geometry/pathrouter.cpp:127-156 | a path of five lines, nothing blocked and nothing forced, whose first triple the loop makes replaceable and leaves |
| PathRouting.LoopKeepsPath | src/Kanoop/geometry/pathrouter.cpp:127-156 | however the replacements fall, ends and connections stay and the path is shorter by at least one per line saved |
| PathRouting.ForcedKeepsFirst | src/Kanoop/geometry/pathrouter.cpp:128-131 | with a forced initial direction the first line is never touched |
| PathRouting.PathRouter.Pass2 | src/Kanoop/geometry/pathrouter.cpp:116-167 | the pass yields SecondPass of the list, which comes by merging, shortcuts round rectangles that are not blocked, and merging again; of a connected path whose neighbours on one axis run the same way it never gets longer, and the ends stay, the path stays connected and no line without length is left each exactly under a condition on the runs the last merge finds |
| PathRouting.SecondPassExactly | src/Kanoop/geometry/pathrouter.cpp:116-167 | by the runs of lines on one axis that enter the last merge: the ends stay if and only if nothing in the first run lies behind its start and nothing in the last beyond its end; the path stays connected if and only if nothing in any other run lies behind its start; no line without length is left, and the path then turns at every point, if and only if no run before the last ends as far back as it gets |
| PathRouting.MiddleKeepsPath | src/Kanoop/geometry/pathrouter.cpp:116-160 | up to the last merge the pass keeps ends and connections and never lengthens the path |
| PathRouting.NothingConsolidatedKeepsPath | src/Kanoop/geometry/pathrouter.cpp:116-167 | when no triple can be consolidated the pass keeps ends and length and leaves no two neighbours on one axis |
| PathRouting.SecondPassCanMoveTheEnd | src/Kanoop/geometry/pathrouter.cpp:116-167 | a proper path, four lines with nothing blocked, whose end the pass moves |
| PathRouting.SecondPassCanTearThePath | src/Kanoop/geometry/pathrouter.cpp:116-167 | a proper path, five lines with nothing blocked, that keeps its ends but comes out disconnected, with a line without length |
| ThreadName.Truncated | src/Kanoop/utility/abstractthreadclass.cpp:97-108 | the bytes kept are the longest well-formed suffix of at most 15 bytes, at least 12 of them when the tag is longer |
| ThreadName.SuffixWellFormed | src/Kanoop/utility/abstractthreadclass.cpp:102-106 | a suffix of well-formed UTF-8 is well-formed exactly when it does not start with a continuation byte |

## Left out

- SpanningTrees.SecondRoute: says nothing of the path when the second origin or the destination adds a vertice under the name of a dropped one, which then counts as that neighbour by name but is another object to the code.
- SecondCall.SecondCallExactly: asks that the ends of every proper line sit at its points; hash names that collide within six significant digits move a line's end to another point (`LaidOut.TreeFits` says exactly when).
- SecondCall.BothKeepDistances: as above.
- SecondCall.ThroughBothFeet: says nothing of the cases where a closest point is a vertice already; there `Attachment.NewcomerConnects` tells who is joined.
- Reattachment.SecondOfAKind: is stated for names, so a point that takes the very name of a dropped vertice again counts as that vertice.
- Bitap.Calculate: asks for a non-empty needle and for characters whose Latin-1 value can index the mask table, which is what the code reads without checking; a negative maximum distance is not modelled.
- RoundTripLimits.RoundTripExactly: `toDouble` is a parameter that reads decimal integers and refuses letters, days and years are computed in exact arithmetic, and letters and spaces are ASCII.
- ThreadLifecycle.StopReturns: one run of a fresh object, default timeout, no spurious wakeups; time-outs with `terminate()`, `abort()`, the destructor, restart, and `stop()` called on the worker itself are not modelled.
- TcpRoster.StopReturns: the five-second wait may end early at any time; addresses of deleted clients are not reused, and the reap in the destructor is not modelled.
- Locks themselves: the protocols are values stepped by functions, one step per critical section or atomic operation, so nothing is said of code that touches shared fields outside them.
- PathRouting.PathRouter.Pass2: pass 1, pass 3 and the obstacle test (a parameter) are left out, and so is `mergeTinySegments`, which computes lines and discards them; what becomes of the path is said of those whose neighbours on one axis run the same way to begin with.
- Line::direction through bearings and trigonometry: the direction of an axis-aligned line is taken from signs on an integer grid.
- Fuzzy equality of points in Qt: points are equal when their coordinates are.
- The order of `QMap::values()`: any order is allowed, which is more than the source uses.
- Sockets, files, settings, logging, the colon-delimited duration format, JSON and XML interfaces, and the floating-point geometry of circles, ellipses and geographic coordinates.
