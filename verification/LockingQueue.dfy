/** LockingQueue<T>: any number of producers and consumers, interleaved at every release of
    _queueLock. A condition wait ends by a notification or at its deadline, never by itself. */
module LockingQueue {
  import opened Options

  /** One call of dequeue: about to look under the lock, asleep in the condition, woken and not
      yet back under the lock, or returned. */
  datatype Call<T> = Entering | Waiting | Woken | Returned(success: bool, result: Option<T>)

  /** How an element left the queue. */
  datatype Departure<T> = Taken(call: nat, item: T) | Discarded(item: T)

  /** `notifying` counts the producers that have released the lock and not yet notified;
      `departed` is what has left, in the order the lock has seen it leave. */
  datatype State<T> = State(items: seq<T>, notifying: nat, calls: map<nat, Call<T>>, departed: seq<Departure<T>>)

  datatype Action<T> =
    | Enqueue(item: T)             // append under the lock
    | Notify(target: Option<nat>)  // notify_one, the lock already released
    | Begin(call: nat)             // a consumer calls dequeue
    | Look(call: nat)              // the loop's test, under the lock
    | Expire(call: nat)            // the deadline passes during the wait
    | Clear                        // clear(), under the lock

  predicate SomeoneWaits<T>(s: State<T>) { exists c :: c in s.calls && s.calls[c].Waiting? }

  function WokenCalls<T>(s: State<T>): set<nat> { set c | c in s.calls && s.calls[c].Woken? }

  predicate Enabled<T>(s: State<T>, a: Action<T>) {
    match a
    case Enqueue(_) => true
    case Notify(None) => s.notifying > 0 && !SomeoneWaits(s)
    case Notify(Some(c)) => s.notifying > 0 && c in s.calls && s.calls[c].Waiting?
    case Begin(c) => c !in s.calls
    case Look(c) => c in s.calls && (s.calls[c].Entering? || s.calls[c].Woken?)
    case Expire(c) => c in s.calls && s.calls[c].Waiting?
    case Clear => true
  }

  function Do<T>(s: State<T>, a: Action<T>): State<T>
    requires Enabled(s, a)
  {
    match a
    case Enqueue(x) => s.(items := s.items + [x], notifying := s.notifying + 1)
    case Notify(None) => s.(notifying := s.notifying - 1)
    case Notify(Some(c)) => s.(notifying := s.notifying - 1, calls := s.calls[c := Woken])
    case Begin(c) => s.(calls := s.calls[c := Entering])
    case Look(c) =>
      if s.items != [] then
        s.(items := s.items[1..], calls := s.calls[c := Returned(true, Some(s.items[0]))],
           departed := s.departed + [Taken(c, s.items[0])])
      else s.(calls := s.calls[c := Waiting])
    case Expire(c) => s.(calls := s.calls[c := Returned(false, None)])
    case Clear => s.(items := [], departed := s.departed + Discards(s.items))
  }

  function Discards<T>(items: seq<T>): seq<Departure<T>> {
    seq(|items|, i requires 0 <= i < |items| => Discarded(items[i]))
  }

  function Initial<T>(): State<T> { State([], 0, map[], []) }

  /** The state a sequence of steps leads to from the initial state, if every step is possible. */
  function Execute<T>(run: seq<Action<T>>): Option<State<T>> {
    if run == [] then Some(Initial())
    else
      var before := Execute(run[..|run| - 1]);
      var a := run[|run| - 1];
      if before.Some? && Enabled(before.value, a) then Some(Do(before.value, a)) else None
  }

  predicate Reaches<T(==)>(run: seq<Action<T>>, s: State<T>) { Execute(run) == Some(s) }

  // ---------------------------------------------------------------- no lost wakeup

  /** While a consumer sleeps, every queued element has a notification or a woken consumer coming for it. */
  ghost predicate NoLostWakeup<T>(s: State<T>) {
    SomeoneWaits(s) ==> |s.items| <= s.notifying + |WokenCalls(s)|
  }

  lemma WakeupStep<T>(s: State<T>, a: Action<T>)
    requires NoLostWakeup(s) && Enabled(s, a)
    ensures NoLostWakeup(Do(s, a))
  {
    var t := Do(s, a);
    var before, after := WokenCalls(s), WokenCalls(t);
    match a {
      case Notify(Some(c)) =>
        assert after == before + {c};
      case Begin(c) =>
        assert after == before;
        assert forall d :: d in t.calls && t.calls[d].Waiting? ==> d in s.calls && s.calls[d].Waiting?;
      case Look(c) =>
        assert after == before - {c};
        assert s.calls[c].Woken? ==> |after| == |before| - 1;
        assert s.items != [] ==> forall d :: d in t.calls && t.calls[d].Waiting? ==> s.calls[d].Waiting?;
      case Expire(c) =>
        assert after == before;
        assert forall d :: d in t.calls && t.calls[d].Waiting? ==> s.calls[d].Waiting?;
      case _ =>
        assert after == before;
    }
  }

  lemma {:induction false} WakeupNeverLost<T>(run: seq<Action<T>>, s: State<T>)
    requires Reaches(run, s)
    ensures NoLostWakeup(s)
  {
    if run != [] {
      var init := run[..|run| - 1];
      var before := Execute(init).value;
      WakeupNeverLost(init, before);
      WakeupStep(before, run[|run| - 1]);
    }
  }

  /** In every reachable state, a sleeper beside an element is two steps at most from the
      element being handed to a consumer. */
  lemma SleeperIsServed<T>(run: seq<Action<T>>, s: State<T>, sleeper: nat) returns (next: seq<Action<T>>, t: State<T>)
    requires Reaches(run, s) && sleeper in s.calls && s.calls[sleeper].Waiting? && s.items != []
    ensures Reaches(run + next, t) && |next| <= 2
    ensures exists c :: c in t.calls && t.calls[c] == Returned(true, Some(s.items[0]))
    ensures t.items == s.items[1..]
  {
    WakeupNeverLost(run, s);
    if WokenCalls(s) != {} {
      var c :| c in WokenCalls(s);
      t := Do(s, Look(c));
      next := [Look(c)];
      Extend(run, s, Look(c));
      assert t.calls[c] == Returned(true, Some(s.items[0]));
    } else {
      assert |WokenCalls(s)| == 0;
      var notify := Notify(Some(sleeper));
      var woken := Do(s, notify);
      Extend(run, s, notify);
      t := Do(woken, Look(sleeper));
      Extend(run + [notify], woken, Look(sleeper));
      next := [notify, Look(sleeper)];
      assert run + next == (run + [notify]) + [Look(sleeper)];
      assert t.calls[sleeper] == Returned(true, Some(s.items[0]));
    }
  }

  lemma Extend<T>(run: seq<Action<T>>, s: State<T>, a: Action<T>)
    requires Reaches(run, s) && Enabled(s, a)
    ensures Reaches(run + [a], Do(s, a))
  {
    assert (run + [a])[..|run|] == run;
  }

  // ---------------------------------------------------------------- conservation and order

  function Items<T>(log: seq<Departure<T>>): seq<T> { seq(|log|, i requires 0 <= i < |log| => log[i].item) }

  /** What one call has taken, in order. */
  function TakenBy<T>(log: seq<Departure<T>>, c: nat): seq<T> {
    if log == [] then []
    else
      var rest := TakenBy(log[..|log| - 1], c);
      var last := log[|log| - 1];
      if last.Taken? && last.call == c then rest + [last.item] else rest
  }

  /** The elements the producers of a run have handed over, in order. */
  function EnqueuedIn<T>(run: seq<Action<T>>): seq<T> {
    if run == [] then []
    else
      var rest, a := EnqueuedIn(run[..|run| - 1]), run[|run| - 1];
      if a.Enqueue? then rest + [a.item] else rest
  }

  /** The elements that have left, in the order they left, followed by those still queued, are these. */
  ghost predicate Conserved<T>(s: State<T>, enqueued: seq<T>) {
    Items(s.departed) + s.items == enqueued
  }

  /** A call reports success with x exactly when x is the one element it took. */
  ghost predicate ResultsFit<T>(s: State<T>) {
    && (forall c :: c !in s.calls ==> TakenBy(s.departed, c) == [])
    && (forall c :: c in s.calls ==>
          TakenBy(s.departed, c) ==
          if s.calls[c].Returned? && s.calls[c].success && s.calls[c].result.Some?
          then [s.calls[c].result.value] else [])
    && (forall c :: c in s.calls && s.calls[c].Returned? ==> (s.calls[c].success <==> s.calls[c].result.Some?))
  }

  lemma TakenOneMore<T>(log: seq<Departure<T>>, last: Departure<T>, c: nat)
    ensures TakenBy(log + [last], c) ==
            if last.Taken? && last.call == c then TakenBy(log, c) + [last.item] else TakenBy(log, c)
  {
    assert (log + [last])[..|log|] == log;
  }

  lemma {:induction false} DiscardsTakeNothing<T>(log: seq<Departure<T>>, items: seq<T>, c: nat)
    ensures TakenBy(log + Discards(items), c) == TakenBy(log, c)
    decreases |items|
  {
    if items == [] {
      assert log + Discards(items) == log;
    } else {
      var init := items[..|items| - 1];
      DiscardsTakeNothing(log, init, c);
      assert Discards(items) == Discards(init) + [Discarded(items[|items| - 1])];
      assert log + Discards(items) == (log + Discards(init)) + [Discarded(items[|items| - 1])];
      TakenOneMore(log + Discards(init), Discarded(items[|items| - 1]), c);
    }
  }

  lemma LookFits<T>(s: State<T>, c: nat)
    requires ResultsFit(s) && Enabled(s, Look(c)) && s.items != []
    ensures ResultsFit(Do(s, Look(c)))
  {
    var last, t := Taken(c, s.items[0]), Do(s, Look(c));
    assert t.departed == s.departed + [last] && t.calls == s.calls[c := Returned(true, Some(s.items[0]))];
    forall d: nat
      ensures TakenBy(t.departed, d) == if d == c then [s.items[0]] else TakenBy(s.departed, d)
    {
      TakenOneMore(s.departed, last, d);
      if d == c { assert TakenBy(s.departed, c) == [] && [] + [s.items[0]] == [s.items[0]]; }
    }
  }

  lemma ClearFits<T>(s: State<T>)
    requires ResultsFit(s)
    ensures ResultsFit(Do(s, Clear))
  {
    forall c: nat ensures TakenBy(Do(s, Clear).departed, c) == TakenBy(s.departed, c) {
      DiscardsTakeNothing(s.departed, s.items, c);
    }
  }

  lemma FitsStep<T>(s: State<T>, a: Action<T>)
    requires ResultsFit(s) && Enabled(s, a)
    ensures ResultsFit(Do(s, a))
  {
    match a {
      case Look(c) =>
        if s.items != [] { LookFits(s, c); }
      case Clear =>
        ClearFits(s);
      case _ =>
    }
  }

  lemma ConservedStep<T>(s: State<T>, enqueued: seq<T>, a: Action<T>)
    requires Conserved(s, enqueued) && Enabled(s, a)
    ensures Conserved(Do(s, a), if a.Enqueue? then enqueued + [a.item] else enqueued)
  {
    var t := Do(s, a);
    match a {
      case Look(c) =>
        if s.items != [] { assert Items(t.departed) == Items(s.departed) + [s.items[0]]; }
      case Clear =>
        assert Items(t.departed) == Items(s.departed) + s.items;
      case Enqueue(x) =>
        assert Items(s.departed) + (s.items + [x]) == (Items(s.departed) + s.items) + [x];
      case _ =>
    }
  }

  /** In every state of every run. Without clear() nothing is discarded. */
  lemma {:induction false} AlwaysConserved<T>(run: seq<Action<T>>, s: State<T>)
    requires Reaches(run, s)
    ensures Conserved(s, EnqueuedIn(run)) && ResultsFit(s)
    ensures (forall i :: 0 <= i < |run| ==> !run[i].Clear?) ==>
            forall i :: 0 <= i < |s.departed| ==> s.departed[i].Taken?
  {
    if run != [] {
      var init := run[..|run| - 1];
      var before := Execute(init).value;
      AlwaysConserved(init, before);
      ConservedStep(before, EnqueuedIn(init), run[|run| - 1]);
      FitsStep(before, run[|run| - 1]);
      if forall i :: 0 <= i < |run| ==> !run[i].Clear? {
        assert forall i :: 0 <= i < |init| ==> init[i] == run[i];
        assert !run[|run| - 1].Clear?;
      }
    }
  }

  /** So after clear() the queue is empty, and has nothing to hand out but what comes later. */
  lemma ClearEmpties<T>(run: seq<Action<T>>, s: State<T>)
    requires Reaches(run + [Clear], s)
    ensures s.items == [] && Items(s.departed) == EnqueuedIn(run)
  {
    AlwaysConserved(run + [Clear], s);
    assert (run + [Clear])[..|run|] == run;
    assert EnqueuedIn(run + [Clear]) == EnqueuedIn(run);
    assert Items(s.departed) + [] == Items(s.departed);
  }

  // ---------------------------------------------------------------- how a call ends

  /** A call gives up only when its deadline passes while it waits, and is asleep only when it has looked in vain. */
  lemma {:induction false} GivesUpOnlyAtDeadline<T>(run: seq<Action<T>>, s: State<T>, c: nat)
    requires Reaches(run, s) && c in s.calls
    ensures Begin(c) in run
    ensures s.calls[c].Returned? && !s.calls[c].success <==> Expire(c) in run
    ensures s.calls[c] == Entering ==> Look(c) !in run
  {
    var init, a := run[..|run| - 1], run[|run| - 1];
    var before := Execute(init).value;
    assert forall b :: b in run <==> b in init || b == a;
    if c in before.calls {
      GivesUpOnlyAtDeadline(init, before, c);
      AlwaysConserved(init, before);
    } else {
      NotBegun(init, before, c);
    }
  }

  lemma {:induction false} NotBegun<T>(run: seq<Action<T>>, s: State<T>, c: nat)
    requires Reaches(run, s) && c !in s.calls
    ensures Begin(c) !in run && Look(c) !in run && Expire(c) !in run
  {
    if run != [] {
      var init, a := run[..|run| - 1], run[|run| - 1];
      NotBegun(init, Execute(init).value, c);
      assert forall b :: b in run <==> b in init || b == a;
    }
  }

  /** How many notifications a run has brought. */
  function Notified<T>(run: seq<Action<T>>): nat {
    if run == [] then 0 else Notified(run[..|run| - 1]) + if run[|run| - 1].Notify? then 1 else 0
  }

  /** Each enqueue notifies once, and none is kept from it. Nor is an enqueue, a clear() or a new call ever
      refused. */
  lemma {:induction false} OneNotificationEach<T>(run: seq<Action<T>>, s: State<T>)
    requires Reaches(run, s)
    ensures s.notifying + Notified(run) == |EnqueuedIn(run)|
    ensures s.notifying > 0 ==> exists target :: Enabled(s, Notify(target))
    ensures forall x :: Enabled(s, Enqueue(x))
    ensures Enabled(s, Clear) && forall c :: c !in s.calls ==> Enabled(s, Begin(c))
  {
    if run != [] {
      OneNotificationEach(run[..|run| - 1], Execute(run[..|run| - 1]).value);
    }
    if s.notifying > 0 {
      if c :| c in s.calls && s.calls[c].Waiting? {
        assert Enabled(s, Notify(Some(c)));
      } else {
        assert Enabled(s, Notify(None));
      }
    }
  }
}
