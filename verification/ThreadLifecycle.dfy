/** AbstractThreadClass with its MutexEvent: one run of a fresh object, from the return of
    start() on. The worker may call finishAndStop any number of times wherever the class hands control
    to user code: in slots on started() and in threadStarted, in slots its event loop runs, in the
    about-to-finish hook, in threadFinished, and in slots on finished(). One other thread calls stop()
    with the default timeout, which waits without limit. Every atomic operation is one step. */
module ThreadLifecycle {
  import opened Options

  /** _success and _message. */
  datatype Completion = Completion(success: bool, message: string)

  const NOT_COMPLETED := Completion(false, "")

  datatype Callback = Started | AboutToFinish | Finished

  /** Where the worker stands. `back` is where a finishAndStop, or a queued call, returns to. */
  datatype Worker =
    | Booting                                      // running, slots on started(), then threadStarted
    | InStarted                                    // inside threadStarted
    | InLoop                                       // in the event loop
    | Recording(completion: Completion, back: Worker)  // finishAndStop won the test-and-set
    | BeforeHook(back: Worker)                     // about to call threadAboutToFinish
    | InHook(back: Worker)                         // inside threadAboutToFinish
    | Quitting(back: Worker)                       // about to call quit()
    | Leaving                                      // loop left, threadFinished next; no longer "running"
    | Signalling                                   // inside threadFinished, _stopEvent.set() next
    | Clearing                                     // slots on finished(), _stopping := 0 next
    | Gone                                         // finish phase over; QThread::wait() returns

  /** Where the thread calling stop() stands. */
  datatype Stopper =
    | Ready                  // stop() not yet called
    | Checked                // isRunning() was true
    | Posting                // won the test-and-set, about to queue hook-and-quit
    | QuittingFromOutside    // lost it, about to call quit()
    | AboutToWait            // about to call _stopEvent.wait()
    | Asleep                 // in the condition wait
    | Awake                  // notified, about to clear the event
    | Joining                // isRunning() was false, in QThread::wait()
    | Resetting              // _stopping := 0 next
    | Returned

  /** `queued`: a hook-and-quit call is in the worker's event queue. `quit`: the loop was asked
      to exit. `event`: _stopEvent is set. `callbacks` is what the subclass has seen. `winner` holds the
      arguments of the finishAndStop that won before the finish phase, if one did, and `early` whether it
      came before threadStarted; `late` those of one that won in a slot on finished(). */
  datatype State = State(worker: Worker, stopper: Stopper, stopping: bool, queued: bool, quit: bool,
                         event: bool, completion: Completion, callbacks: seq<Callback>,
                         winner: Option<Completion>, early: bool, late: Option<Completion>)

  datatype Action =
    | CallThreadStarted | ThreadStartedReturns
    | FinishAndStop(completion: Completion) | Record
    | ServiceQueued | CallHook | HookReturns | Quit
    | LeaveLoop | CallThreadFinished | SetStopEvent | ClearStopping
    | CallStop | TestAndSet | Post | QuitOutside | Wait | WakeUp | Join | Reset

  function Initial(): State {
    State(Booting, Ready, false, false, false, false, NOT_COMPLETED, [], None, false, None)
  }

  predicate Hooking(w: Worker) { w.Recording? || w.BeforeHook? || w.InHook? || w.Quitting? }

  /** In a slot on finished(), or in the hook such a slot has caused. */
  predicate InFinished(w: Worker) { w.Clearing? || (Hooking(w) && w.back.Clearing?) }

  predicate IsRunning(w: Worker) { !w.Leaving? && !w.Signalling? && !InFinished(w) && !w.Gone? }

  predicate Enabled(s: State, a: Action) {
    match a
    case CallThreadStarted => s.worker.Booting?
    case ThreadStartedReturns => s.worker.InStarted?
    case FinishAndStop(_) =>
      s.worker.Booting? || s.worker.InStarted? || s.worker.InLoop? || s.worker.InHook? || s.worker.Signalling?
      || s.worker.Clearing?
    case Record => s.worker.Recording?
    case ServiceQueued => s.worker.InLoop? && s.queued
    case CallHook => s.worker.BeforeHook?
    case HookReturns => s.worker.InHook?
    case Quit => s.worker.Quitting?
    case LeaveLoop => s.worker.InLoop? && s.quit
    case CallThreadFinished => s.worker.Leaving?
    case SetStopEvent => s.worker.Signalling?
    case ClearStopping => s.worker.Clearing?
    case CallStop => s.stopper.Ready?
    case TestAndSet => s.stopper.Checked?
    case Post => s.stopper.Posting?
    case QuitOutside => s.stopper.QuittingFromOutside?
    case Wait => s.stopper.AboutToWait?
    case WakeUp => s.stopper.Awake?
    case Join => s.stopper.Joining? && s.worker.Gone?
    case Reset => s.stopper.Resetting?
  }

  /** finishAndStop up to its test-and-set. */
  function TryFinish(s: State, c: Completion): State {
    if s.stopping then s
    else if s.worker.Clearing? then s.(stopping := true, worker := Recording(c, s.worker), late := Some(c))
    else s.(stopping := true, worker := Recording(c, s.worker), winner := Some(c), early := s.worker.Booting?)
  }

  function Do(s: State, a: Action): State
    requires Enabled(s, a)
  {
    match a
    case CallThreadStarted => s.(worker := InStarted, callbacks := s.callbacks + [Started])
    case ThreadStartedReturns => s.(worker := InLoop)
    case FinishAndStop(c) => TryFinish(s, c)
    case Record => s.(completion := s.worker.completion, worker := BeforeHook(s.worker.back))
    case ServiceQueued => s.(queued := false, worker := BeforeHook(InLoop))
    case CallHook => s.(worker := InHook(s.worker.back), callbacks := s.callbacks + [AboutToFinish])
    case HookReturns => s.(worker := Quitting(s.worker.back))
    case Quit => s.(quit := true, worker := s.worker.back)
    case LeaveLoop => s.(worker := Leaving)
    case CallThreadFinished => s.(worker := Signalling, callbacks := s.callbacks + [Finished])
    case SetStopEvent =>
      s.(worker := Clearing, event := true, stopper := if s.stopper.Asleep? then Awake else s.stopper)
    case ClearStopping => s.(worker := Gone, stopping := false)
    case CallStop => s.(stopper := if IsRunning(s.worker) then Checked else Joining)
    case TestAndSet =>
      if s.stopping then s.(stopper := QuittingFromOutside) else s.(stopping := true, stopper := Posting)
    case Post => s.(queued := true, stopper := AboutToWait)
    case QuitOutside => s.(quit := true, stopper := AboutToWait)
    case Wait => if s.event then s.(event := false, stopper := Resetting) else s.(stopper := Asleep)
    case WakeUp => s.(event := false, stopper := Resetting)
    case Join => s.(stopper := Resetting)
    case Reset => s.(stopping := false, stopper := Returned)
  }

  /** The state a sequence of steps leads to, if every step is possible. */
  function Execute(run: seq<Action>): Option<State> {
    if run == [] then Some(Initial())
    else
      var before := Execute(run[..|run| - 1]);
      var a := run[|run| - 1];
      if before.Some? && Enabled(before.value, a) then Some(Do(before.value, a)) else None
  }

  predicate Reaches(run: seq<Action>, s: State) { Execute(run) == Some(s) }

  lemma Extend(run: seq<Action>, s: State, a: Action) returns (longer: seq<Action>, t: State)
    requires Reaches(run, s) && Enabled(s, a)
    ensures longer == run + [a] && t == Do(s, a) && Reaches(longer, t)
  {
    longer, t := run + [a], Do(s, a);
    assert longer[..|run|] == run;
  }

  // ---------------------------------------------------------------- the invariant

  /** What a run has seen when its loop ends. */
  function Before(s: State): seq<Callback> { if s.early then [AboutToFinish, Started] else [Started, AboutToFinish] }

  /** What the subclass has seen, at every point of the worker. */
  predicate CallbacksFit(s: State) {
    match s.worker
    case Booting => s.callbacks == if s.early then [AboutToFinish] else []
    case InStarted | InLoop => s.callbacks == if s.early || s.quit then Before(s) else [Started]
    case Recording(_, back) => s.callbacks == SeenBeforeHook(s, back)
    case BeforeHook(back) => s.callbacks == SeenBeforeHook(s, back)
    case InHook(back) => s.callbacks == SeenBeforeHook(s, back) + [AboutToFinish]
    case Quitting(back) => s.callbacks == SeenBeforeHook(s, back) + [AboutToFinish]
    case Leaving => s.callbacks == Before(s)
    case Signalling => s.callbacks == Before(s) + [Finished]
    case Clearing | Gone => s.callbacks == Before(s) + [Finished] + if s.late.Some? then [AboutToFinish] else []
  }

  function SeenBeforeHook(s: State, back: Worker): seq<Callback> {
    if back.Booting? then [] else if back.Clearing? then Before(s) + [Finished] else [Started]
  }

  predicate CompletionFits(s: State) {
    && (s.early ==> s.winner.Some?)
    && (s.late.Some? ==> InFinished(s.worker) || s.worker.Gone?)
    && match s.worker
       case Recording(c, back) =>
         if back.Clearing? then s.late == Some(c)
         else s.winner == Some(c) && s.completion == NOT_COMPLETED && (s.early <==> back.Booting?)
       case _ => s.completion == Recorded(s)
  }

  /** What the last finishAndStop to win has left. */
  function Recorded(s: State): Completion {
    if s.late.Some? then s.late.value else if s.winner.Some? then s.winner.value else NOT_COMPLETED
  }

  /** Until the finish phase, _stopping says that exactly one side has won the test-and-set. */
  predicate OneWinner(s: State) {
    IsRunning(s.worker) ==>
      if !s.stopping then
        !Hooking(s.worker) && !s.quit && !s.queued && s.winner.None? && (s.stopper.Ready? || s.stopper.Checked?)
      else if s.winner.Some? then
        !s.queued && !s.stopper.Posting? && (s.quit || Hooking(s.worker))
      else
        && !s.worker.Recording?
        && !s.stopper.Ready? && !s.stopper.Checked? && !s.stopper.QuittingFromOutside?
        && (if s.stopper.Posting? then !s.queued && !s.quit && !Hooking(s.worker)
            else if s.queued then !s.quit && !Hooking(s.worker) else s.quit || Hooking(s.worker))
  }

  /** In the finish phase _stopping stays set until stop() has reset it; only then, in a slot on
      finished(), can another finishAndStop win, and only once. */
  predicate FinishFits(s: State) {
    && (s.worker.Leaving? || s.worker.Signalling? ==> s.stopping)
    && (InFinished(s.worker) && !s.stopping ==> s.stopper.Returned? && s.late.None?)
    && (InFinished(s.worker) && s.late.Some? ==> s.stopper.Returned? && s.stopping)
    && (Hooking(s.worker) && s.worker.back.Clearing? ==> s.late.Some?)
  }

  /** Where a hook may be running, and whose. */
  predicate HooksFit(s: State) {
    && (Hooking(s.worker) ==>
          || s.worker.back.Booting? || s.worker.back.InStarted?
          || s.worker.back.InLoop? || s.worker.back.Clearing?)
    && (Hooking(s.worker) && s.worker.back.Booting? ==> s.early)
    && (Hooking(s.worker) && (s.worker.back.InStarted? || s.worker.back.InLoop?) ==> !s.early)
    && (s.worker.Booting? ==> (s.quit ==> s.early) && (!s.early ==> s.winner.None?))
  }

  /** The stop event, and what the stopping thread may conclude. */
  predicate EventFits(s: State) {
    var past := InFinished(s.worker) || s.worker.Gone?;
    && (s.stopper.Resetting? || s.stopper.Returned? || s.stopper.Awake? || s.event ==> past)
    && (s.stopper.Asleep? ==> !s.event && !past)
    && (s.stopper.Joining? ==> !IsRunning(s.worker))
    && (past && !s.event ==> s.stopper.Resetting? || s.stopper.Returned?)
  }

  predicate Inv(s: State) {
    CallbacksFit(s) && CompletionFits(s) && OneWinner(s) && FinishFits(s) && HooksFit(s) && EventFits(s)
  }

  predicate IsStoppers(a: Action) {
    a.CallStop? || a.TestAndSet? || a.Post? || a.QuitOutside? || a.Wait? || a.WakeUp? || a.Join? || a.Reset?
  }

  predicate IsHooks(a: Action) { a.Record? || a.CallHook? || a.HookReturns? || a.Quit? }

  lemma RaceKeepsInv(s: State, a: Action)
    requires Inv(s) && Enabled(s, a) && (a.TestAndSet? || a.Post? || a.QuitOutside?)
    ensures Inv(Do(s, a))
  {}

  lemma WaitKeepsInv(s: State, a: Action)
    requires Inv(s) && Enabled(s, a) && (a.Wait? || a.WakeUp? || a.Join?)
    ensures Inv(Do(s, a))
  {}

  lemma StoppersKeepInv(s: State, a: Action)
    requires Inv(s) && Enabled(s, a) && IsStoppers(a)
    ensures Inv(Do(s, a))
  {
    if a.TestAndSet? || a.Post? || a.QuitOutside? {
      RaceKeepsInv(s, a);
    } else if a.Wait? || a.WakeUp? || a.Join? {
      WaitKeepsInv(s, a);
    }
  }

  lemma HooksKeepInv(s: State, a: Action)
    requires Inv(s) && Enabled(s, a) && IsHooks(a)
    ensures Inv(Do(s, a))
  {}

  lemma FinishKeepsInv(s: State, c: Completion)
    requires Inv(s) && Enabled(s, FinishAndStop(c))
    ensures Inv(TryFinish(s, c))
  {}

  lemma OthersKeepInv(s: State, a: Action)
    requires Inv(s) && Enabled(s, a) && !IsStoppers(a) && !IsHooks(a) && !a.FinishAndStop?
    ensures Inv(Do(s, a))
  {}

  lemma InvStep(s: State, a: Action)
    requires Inv(s) && Enabled(s, a)
    ensures Inv(Do(s, a))
  {
    if IsStoppers(a) {
      StoppersKeepInv(s, a);
    } else if IsHooks(a) {
      HooksKeepInv(s, a);
    } else if a.FinishAndStop? {
      FinishKeepsInv(s, a.completion);
    } else {
      OthersKeepInv(s, a);
    }
  }

  lemma {:induction false} Reachable(run: seq<Action>, s: State)
    requires Reaches(run, s)
    ensures Inv(s)
  {
    if run != [] {
      var init := run[..|run| - 1];
      Reachable(init, Execute(init).value);
      InvStep(Execute(init).value, run[|run| - 1]);
    }
  }

  // ---------------------------------------------------------------- what every run keeps

  /** At step i of the run a finishAndStop wins the test-and-set. */
  predicate WinsAt(run: seq<Action>, i: nat) {
    i < |run| && run[i].FinishAndStop? && Execute(run[..i]).Some? && !Execute(run[..i]).value.stopping
  }

  /** It wins before threadStarted, in a slot on started(). */
  predicate WinsEarly(run: seq<Action>, i: nat) { WinsAt(run, i) && Execute(run[..i]).value.worker.Booting? }

  /** It wins after threadFinished, in a slot on finished(). */
  predicate WinsLate(run: seq<Action>, i: nat) { WinsAt(run, i) && Execute(run[..i]).value.worker.Clearing? }

  /** It wins before the finish phase. */
  predicate WinsInTime(run: seq<Action>, i: nat) { WinsAt(run, i) && !Execute(run[..i]).value.worker.Clearing? }

  lemma SameWins(run: seq<Action>, i: nat)
    requires run != [] && i < |run| - 1
    ensures WinsInTime(run, i) <==> WinsInTime(run[..|run| - 1], i)
    ensures WinsEarly(run, i) <==> WinsEarly(run[..|run| - 1], i)
    ensures WinsLate(run, i) <==> WinsLate(run[..|run| - 1], i)
  {
    assert run[..|run| - 1][..i] == run[..i];
  }

  /** The history variables say what happened. */
  lemma {:induction false} WinsAreKept(run: seq<Action>, s: State)
    requires Reaches(run, s)
    ensures s.early <==> exists i :: WinsEarly(run, i)
    ensures s.late.Some? <==> exists i :: WinsLate(run, i)
  {
    if run != [] {
      var init, n := run[..|run| - 1], |run| - 1;
      var before := Execute(init).value;
      WinsAreKept(init, before);
      Reachable(init, before);
      forall i: nat | i < n ensures (WinsEarly(run, i) <==> WinsEarly(init, i))
          && (WinsLate(run, i) <==> WinsLate(init, i)) {
        SameWins(run, i);
      }
      assert WinsEarly(run, n) <==> run[n].FinishAndStop? && !before.stopping && before.worker.Booting?;
      assert WinsLate(run, n) <==> run[n].FinishAndStop? && !before.stopping && before.worker.Clearing?;
      StillWon(before, run[n]);
      if i :| WinsEarly(init, i) { assert WinsEarly(run, i); }
      if i :| WinsLate(init, i) { assert WinsLate(run, i); }
      if i :| WinsEarly(run, i) && i != n { assert WinsEarly(init, i); }
      if i :| WinsLate(run, i) && i != n { assert WinsLate(init, i); }
    }
  }

  /** And whose completions: each kind of win happens at most once. */
  lemma {:induction false} WinnerIsKept(run: seq<Action>, s: State, i: nat)
    requires Reaches(run, s) && (WinsInTime(run, i) || WinsLate(run, i))
    ensures WinsInTime(run, i) ==> s.winner == Some(run[i].completion)
    ensures WinsLate(run, i) ==> s.late == Some(run[i].completion)
  {
    var n := |run| - 1;
    var before := StepBack(run, run[..n], run[n], s);
    WinnerStep(before, run[n]);
    if i < n {
      SameWins(run, i);
      WinnerIsKept(run[..n], before, i);
    }
  }

  lemma {:induction false} WinnerWon(run: seq<Action>, s: State) returns (i: nat)
    requires Reaches(run, s) && s.winner.Some?
    ensures WinsInTime(run, i)
  {
    var n := |run| - 1;
    var before := StepBack(run, run[..n], run[n], s);
    WinnerStep(before, run[n]);
    if before.winner.Some? {
      i := WinnerWon(run[..n], before);
      SameWins(run, i);
    } else {
      i := n;
    }
  }

  lemma WinnerStep(s: State, a: Action)
    requires Inv(s) && Enabled(s, a)
    ensures s.winner.Some? ==> Do(s, a).winner == s.winner && !(a.FinishAndStop? && !s.stopping && !s.worker.Clearing?)
    ensures s.late.Some? ==> Do(s, a).late == s.late && !(a.FinishAndStop? && !s.stopping && s.worker.Clearing?)
    ensures a.FinishAndStop? && !s.stopping && !s.worker.Clearing? ==> Do(s, a).winner == Some(a.completion)
    ensures a.FinishAndStop? && !s.stopping && s.worker.Clearing? ==> Do(s, a).late == Some(a.completion)
    ensures Do(s, a).winner.Some? ==> s.winner.Some? || (a.FinishAndStop? && !s.stopping && !s.worker.Clearing?)
  {
    if !a.FinishAndStop? { OnlyCallsWin(s, a); }
  }

  lemma StillWon(s: State, a: Action)
    requires Inv(s) && Enabled(s, a)
    ensures Do(s, a).early <==> s.early || (a.FinishAndStop? && !s.stopping && s.worker.Booting?)
    ensures Do(s, a).late.Some? <==> s.late.Some? || (a.FinishAndStop? && !s.stopping && s.worker.Clearing?)
  {
    if !a.FinishAndStop? { OnlyCallsWin(s, a); }
  }

  lemma OnlyCallsWin(s: State, a: Action)
    requires Enabled(s, a) && !a.FinishAndStop?
    ensures Do(s, a).early == s.early && Do(s, a).late == s.late && Do(s, a).winner == s.winner
  {
    if IsStoppers(a) { StoppersLeaveTheRest(s, a); }
  }

  lemma StoppersLeaveTheRest(s: State, a: Action)
    requires Enabled(s, a) && IsStoppers(a)
    ensures var t := Do(s, a);
            && t.worker == s.worker && t.completion == s.completion && t.callbacks == s.callbacks
            && t.winner == s.winner && t.early == s.early && t.late == s.late
  {
    match a
    case CallStop =>
    case TestAndSet =>
    case Post =>
    case QuitOutside =>
    case Wait =>
    case WakeUp =>
    case Join =>
    case Reset =>
  }

  /** Every run that is through with threadFinished has seen the three callbacks, the hook before
      threadFinished exactly once. */
  lemma CallbacksOfEveryRun(run: seq<Action>, s: State)
    requires Reaches(run, s) && (s.worker.Signalling? || s.worker.Clearing? || s.worker.Gone?)
    ensures exists more :: s.callbacks == Before(s) + [Finished] + more && (more == [] || more == [AboutToFinish])
  {
    Reachable(run, s);
    assert s.callbacks == Before(s) + [Finished] + if s.worker.Signalling? || s.late.None? then [] else [AboutToFinish];
  }

  /** The callbacks come once and in order, threadStarted, the hook, threadFinished, exactly in the runs
      where no finishAndStop wins in a slot on started() or on finished(). */
  lemma CallbacksOnceInOrder(run: seq<Action>, s: State)
    requires Reaches(run, s) && s.worker.Gone?
    ensures s.callbacks == [Started, AboutToFinish, Finished] <==> !exists i :: WinsEarly(run, i) || WinsLate(run, i)
  {
    Reachable(run, s);
    WinsAreKept(run, s);
    if i :| WinsEarly(run, i) { assert s.callbacks[0] == AboutToFinish; }
  }

  /** When the run is over, the recorded completion is that of the last finishAndStop to win, and nobody's
      if none did. */
  lemma CompletionIsTheWinners(run: seq<Action>, s: State, i: nat)
    requires Reaches(run, s) && s.worker.Gone?
    ensures WinsLate(run, i) ==> s.completion == run[i].completion
    ensures WinsInTime(run, i) && !(exists j :: WinsLate(run, j)) ==> s.completion == run[i].completion
    ensures !(exists j :: WinsAt(run, j)) ==> s.completion == NOT_COMPLETED
  {
    Reachable(run, s);
    WinsAreKept(run, s);
    if WinsInTime(run, i) || WinsLate(run, i) { WinnerIsKept(run, s, i); }
    if s.winner.Some? { var j := WinnerWon(run, s); }
  }

  /** A call from threadFinished, or from a slot on finished() while _stopping is set, changes nothing. One
      from a slot on finished() wins exactly when _stopping has been reset, which is when stop() has
      returned already. */
  lemma FinishPhaseCalls(run: seq<Action>, s: State, c: Completion)
    requires Reaches(run, s)
    ensures s.worker.Signalling? ==> Do(s, FinishAndStop(c)) == s
    ensures s.worker.Clearing? ==>
              (Do(s, FinishAndStop(c)) == s <==> s.stopping) && (!s.stopping ==> s.stopper.Returned?)
  {
    Reachable(run, s);
  }

  /** Nothing about the completion changes once the hook has started, however the run goes on, as long as
      no finishAndStop wins in a slot on finished(). */
  lemma {:induction false} CompletionIsFinal(run: seq<Action>, s: State, more: seq<Action>, t: State)
    requires Reaches(run, s) && AboutToFinish in s.callbacks && Reaches(run + more, t) && t.late.None?
    ensures t.completion == s.completion && t.winner == s.winner && AboutToFinish in t.callbacks
    decreases |more|
  {
    if more == [] {
      assert run + more == run;
    } else {
      var init, last := more[..|more| - 1], more[|more| - 1];
      var before := StepBack(run + more, run + init, last, t);
      StillWon(before, last);
      CompletionIsFinal(run, s, init, before);
      AfterTheHook(before, last);
    }
  }

  lemma StepBack(run: seq<Action>, init: seq<Action>, last: Action, t: State) returns (before: State)
    requires Reaches(run, t) && run == init + [last]
    ensures Reaches(init, before) && Inv(before) && Enabled(before, last) && t == Do(before, last)
  {
    assert run[..|run| - 1] == init;
    before := Execute(init).value;
    Reachable(init, before);
  }

  lemma AfterTheHook(s: State, a: Action)
    requires Inv(s) && Enabled(s, a) && AboutToFinish in s.callbacks && Do(s, a).late.None?
    ensures Do(s, a).completion == s.completion && Do(s, a).winner == s.winner && AboutToFinish in Do(s, a).callbacks
  {
    if a.FinishAndStop? {
      FinishAfterTheHook(s, a.completion);
    } else if !a.Record? {
      OnlyCallsWin(s, a);
      OnlyRecordRecords(s, a);
    }
  }

  lemma FinishAfterTheHook(s: State, c: Completion)
    requires Inv(s) && Enabled(s, FinishAndStop(c)) && AboutToFinish in s.callbacks && TryFinish(s, c).late.None?
    ensures TryFinish(s, c) == s
  {}

  lemma OnlyRecordRecords(s: State, a: Action)
    requires Enabled(s, a) && !a.Record? && !a.FinishAndStop?
    ensures Do(s, a).completion == s.completion && s.callbacks <= Do(s, a).callbacks
  {
    if IsStoppers(a) { StoppersLeaveTheRest(s, a); }
  }

  /** stop() returns only after threadFinished has completed. */
  lemma StopReturnsAfterFinish(run: seq<Action>, s: State)
    requires Reaches(run, s) && s.stopper.Returned?
    ensures Before(s) + [Finished] <= s.callbacks
    ensures InFinished(s.worker) || s.worker.Gone?
  {
    Reachable(run, s);
  }

  /** Step i of the run is the call of stop(), and finds the worker running, or not. */
  predicate CallsAt(run: seq<Action>, i: nat, running: bool) {
    i < |run| && run[i] == CallStop && Execute(run[..i]).Some? && IsRunning(Execute(run[..i]).value.worker) == running
  }

  ghost predicate FoundRunning(run: seq<Action>) { exists i :: CallsAt(run, i, true) }

  ghost predicate FoundEnded(run: seq<Action>) { exists i :: CallsAt(run, i, false) }

  lemma FoundBefore(run: seq<Action>, init: seq<Action>, last: Action)
    requires run == init + [last] && Execute(init).Some?
    ensures FoundRunning(run) <==> FoundRunning(init) || (last == CallStop && IsRunning(Execute(init).value.worker))
    ensures FoundEnded(run) <==> FoundEnded(init) || (last == CallStop && !IsRunning(Execute(init).value.worker))
  {
    forall i: nat, running | i < |init| ensures CallsAt(run, i, running) <==> CallsAt(init, i, running) {
      assert run[..i] == init[..i];
    }
    assert run[..|init|] == init;
    if i :| CallsAt(init, i, true) { assert CallsAt(run, i, true); }
    if i :| CallsAt(init, i, false) { assert CallsAt(run, i, false); }
    if last == CallStop { assert CallsAt(run, |init|, IsRunning(Execute(init).value.worker)); }
  }

  /** Where stop() stands tells how it came there. */
  predicate WayFits(s: State, running: bool, ended: bool) {
    && !(running && ended) && (s.stopper.Ready? <==> !running && !ended)
    && (running ==> !s.stopper.Joining? && (s.stopper.Resetting? || s.stopper.Returned? ==> !s.event))
    && (ended ==>
          && (s.stopper.Joining? || s.stopper.Resetting? || s.stopper.Returned?)
          && (s.stopper.Joining? || (s.worker.Gone? && s.event)))
  }

  lemma WayStep(s: State, running: bool, ended: bool, a: Action)
    requires Inv(s) && Enabled(s, a) && WayFits(s, running, ended)
    ensures WayFits(Do(s, a), running || (a == CallStop && IsRunning(s.worker)),
                    ended || (a == CallStop && !IsRunning(s.worker)))
  {}

  lemma {:induction false} StopsWay(run: seq<Action>, s: State)
    requires Reaches(run, s)
    ensures WayFits(s, FoundRunning(run), FoundEnded(run))
  {
    if run != [] {
      var init := run[..|run| - 1];
      var before := StepBack(run, init, run[|run| - 1], s);
      StopsWay(init, before);
      FoundBefore(run, init, run[|run| - 1]);
      WayStep(before, FoundRunning(init), FoundEnded(init), run[|run| - 1]);
    }
  }

  /** A stop() that has found the worker not running has joined it: when it returns the worker is gone. It leaves the
      stop event set, and one that has found it running leaves it clear. */
  lemma StopJoins(run: seq<Action>, s: State)
    requires Reaches(run, s) && s.stopper.Returned?
    ensures FoundRunning(run) != FoundEnded(run)
    ensures FoundEnded(run) ==> s.worker.Gone?
    ensures s.event <==> FoundEnded(run)
  {
    StopsWay(run, s);
  }

  predicate HasAsked(s: State) {
    s.winner.Some? && IsRunning(s.worker) && (s.stopper.AboutToWait? || s.stopper.Asleep?) ==> s.quit
  }

  lemma AskedStep(s: State, a: Action)
    requires Inv(s) && Enabled(s, a) && HasAsked(s)
    ensures HasAsked(Do(s, a))
  {
    if a.FinishAndStop? { WinnerStep(s, a); }
  }

  /** A stop() that has lost the test-and-set to a finishAndStop has asked the loop to quit before it waits. */
  lemma {:induction false} LoserAsksToQuit(run: seq<Action>, s: State)
    requires Reaches(run, s)
    ensures HasAsked(s)
  {
    if run != [] {
      var before := StepBack(run, run[..|run| - 1], run[|run| - 1], s);
      LoserAsksToQuit(run[..|run| - 1], before);
      AskedStep(before, run[|run| - 1]);
    }
  }

  /** With the worker gone and stop() returned, _stopping is 0 again. */
  lemma {:induction false} StoppingIsReset(run: seq<Action>, s: State)
    requires Reaches(run, s) && s.worker.Gone? && (s.stopper.Returned? || s.stopper.Ready?)
    ensures !s.stopping
  {
    var before := StepBack(run, run[..|run| - 1], run[|run| - 1], s);
    if before.worker.Gone? && (before.stopper.Returned? || before.stopper.Ready?) {
      StoppingIsReset(run[..|run| - 1], before);
    }
  }

  // ---------------------------------------------------------------- the runs where the order is lost

  /** A run up to the end of the hook that stop() has queued. */
  lemma HookedRun() returns (run: seq<Action>, s: State)
    ensures Reaches(run, s)
    ensures s == State(Quitting(InLoop), AboutToWait, true, false, false, false, NOT_COMPLETED,
                       [Started, AboutToFinish], None, false, None)
  {
    run, s := [], Initial();
    run, s := Extend(run, s, CallThreadStarted);
    run, s := Extend(run, s, ThreadStartedReturns);
    run, s := Extend(run, s, CallStop);
    run, s := Extend(run, s, TestAndSet);
    run, s := Extend(run, s, Post);
    run, s := Extend(run, s, ServiceQueued);
    run, s := Extend(run, s, CallHook);
    run, s := Extend(run, s, HookReturns);
  }

  /** And on up to the slots on finished(): stop() has returned. */
  lemma StoppedRun() returns (run: seq<Action>, s: State)
    ensures Reaches(run, s) && s.worker == Clearing && s.stopper == Returned && !s.stopping
    ensures s.callbacks == [Started, AboutToFinish, Finished] && s.late == None
  {
    run, s := HookedRun();
    run, s := Extend(run, s, Quit);
    run, s := Extend(run, s, LeaveLoop);
    run, s := Extend(run, s, CallThreadFinished);
    run, s := Extend(run, s, SetStopEvent);
    run, s := Extend(run, s, Wait);
    run, s := Extend(run, s, Reset);
  }

  /** From there a finishAndStop wins: the hook runs a second time, and the completion is overwritten. */
  lemma LateFinishRunsTheHookAgain(c: Completion) returns (run: seq<Action>, s: State)
    ensures Reaches(run, s) && s.worker == Gone
    ensures s.callbacks == [Started, AboutToFinish, Finished, AboutToFinish] && s.completion == c
  {
    run, s := StoppedRun();
    run, s := Extend(run, s, FinishAndStop(c));
    run, s := Extend(run, s, Record);
    run, s := Extend(run, s, CallHook);
    run, s := Extend(run, s, HookReturns);
    run, s := Extend(run, s, Quit);
    run, s := Extend(run, s, ClearStopping);
  }

  lemma EarlyHook(c: Completion) returns (run: seq<Action>, s: State)
    ensures Reaches(run, s)
    ensures s == State(Booting, Ready, true, false, true, false, c, [AboutToFinish], Some(c), true, None)
  {
    run, s := [], Initial();
    run, s := Extend(run, s, FinishAndStop(c));
    run, s := Extend(run, s, Record);
    run, s := Extend(run, s, CallHook);
    run, s := Extend(run, s, HookReturns);
    run, s := Extend(run, s, Quit);
  }

  /** A finishAndStop in a slot on started() has the hook run before threadStarted. */
  lemma EarlyFinishRunsTheHookFirst(c: Completion) returns (run: seq<Action>, s: State)
    ensures Reaches(run, s) && s.worker == Gone
    ensures s.callbacks == [AboutToFinish, Started, Finished] && s.completion == c
  {
    run, s := EarlyHook(c);
    run, s := Extend(run, s, CallThreadStarted);
    run, s := Extend(run, s, ThreadStartedReturns);
    run, s := Extend(run, s, LeaveLoop);
    run, s := Extend(run, s, CallThreadFinished);
    run, s := Extend(run, s, SetStopEvent);
    run, s := Extend(run, s, ClearStopping);
  }

  // ---------------------------------------------------------------- progress

  /** How far the end is from where a finishAndStop may be called. */
  function PlaceRank(w: Worker): nat {
    match w
    case Booting => 13
    case InStarted => 12
    case InLoop => 11
    case Leaving => 10
    case Signalling => 9
    case Clearing => 2
    case _ => 0
  }

  /** How much of the worker's run, and of its hooks, is still ahead. */
  function WorkerRank(s: State): nat {
    match s.worker
    case Recording(_, back) => PlaceRank(back) + 5
    case BeforeHook(back) => PlaceRank(back) + 4
    case InHook(back) => PlaceRank(back) + 3
    case Quitting(back) => PlaceRank(back) + 2
    case Clearing => PlaceRank(s.worker) + if s.late.Some? then 0 else 6
    case Booting | InStarted | InLoop => PlaceRank(s.worker) + if AboutToFinish in s.callbacks then 0 else 6
    case _ => PlaceRank(s.worker)
  }

  function StopperRank(p: Stopper): nat {
    match p
    case Ready => 8
    case Checked => 7
    case Posting => 6
    case QuittingFromOutside => 6
    case AboutToWait => 5
    case Asleep => 4
    case Awake => 3
    case Joining => 4
    case Resetting => 1
    case Returned => 0
  }

  function Rank(s: State): nat { WorkerRank(s) + StopperRank(s.stopper) }

  /** No step lets the rank stand, except a finishAndStop that lost and changes nothing: every
      run has a bounded number of steps that do something. */
  lemma EveryStepCounts(run: seq<Action>, s: State, a: Action)
    requires Reaches(run, s) && Enabled(s, a)
    ensures (Do(s, a) == s && a.FinishAndStop?) || Rank(Do(s, a)) < Rank(s)
  {
    Reachable(run, s);
    if IsStoppers(a) {
      StoppersStepCounts(s, a);
    } else {
      WorkersStepCounts(s, a);
    }
  }

  lemma StoppersStepCounts(s: State, a: Action)
    requires Enabled(s, a) && IsStoppers(a)
    ensures Rank(Do(s, a)) < Rank(s)
  {}

  lemma WorkersStepCounts(s: State, a: Action)
    requires Inv(s) && Enabled(s, a) && !IsStoppers(a)
    ensures (Do(s, a) == s && a.FinishAndStop?) || Rank(Do(s, a)) < Rank(s)
  {}

  /** The step the worker can take whatever the subclass does. */
  function NextWorkerStep(s: State): Action {
    match s.worker
    case Booting => CallThreadStarted
    case InStarted => ThreadStartedReturns
    case InLoop => if s.quit then LeaveLoop else ServiceQueued
    case Recording(_, _) => Record
    case BeforeHook(_) => CallHook
    case InHook(_) => HookReturns
    case Quitting(_) => Quit
    case Leaving => CallThreadFinished
    case Signalling => SetStopEvent
    case Clearing => ClearStopping
    case Gone => ClearStopping
  }

  /** The step the stopping thread takes when it is not blocked. */
  function NextStopperStep(s: State): Action {
    match s.stopper
    case Ready => CallStop
    case Checked => TestAndSet
    case Posting => Post
    case QuittingFromOutside => QuitOutside
    case AboutToWait => Wait
    case Asleep => NextWorkerStep(s)
    case Awake => WakeUp
    case Joining => if s.worker.Gone? then Join else NextWorkerStep(s)
    case Resetting => Reset
    case Returned => NextWorkerStep(s)
  }

  /** stop() is never left waiting for a worker that cannot move: while it sleeps or joins, the
      worker has a step of its own to take, and that step changes the state. */
  lemma NeverStuck(run: seq<Action>, s: State)
    requires Reaches(run, s) && !s.stopper.Returned?
    ensures Enabled(s, NextStopperStep(s)) && !NextStopperStep(s).FinishAndStop?
    ensures s.stopper.Asleep? && s.worker.InLoop? ==> s.queued || s.quit
  {
    Reachable(run, s);
  }

  /** From every reachable state, a finite run of such steps brings stop() to its return. */
  lemma {:induction false} StopReturns(run: seq<Action>, s: State) returns (more: seq<Action>, t: State)
    requires Reaches(run, s)
    ensures Reaches(run + more, t) && t.stopper.Returned? && |more| <= Rank(s)
    decreases Rank(s)
  {
    if s.stopper.Returned? {
      more, t := [], s;
      assert run + [] == run;
    } else {
      var a := NextStopperStep(s);
      NeverStuck(run, s);
      EveryStepCounts(run, s, a);
      var longer, next := Extend(run, s, a);
      var rest;
      rest, t := StopReturns(longer, next);
      more := [a] + rest;
      assert run + more == longer + rest;
    }
  }
}
