/** The client roster of TcpServer, shared by the server thread and the thread that calls stop().
    Clients finish on threads of their own and their finished() signals are delivered late, in
    any order, to the server thread's event loop. A client is known by its object identity. */
module TcpRoster {
  import opened Options

  type Client = nat

  /** Where the server thread stands. */
  datatype Server =
    | Loop                                       // in its event loop
    | Created(client: Client)                    // incomingConnection: createClient returned
    | Appended(client: Client)                   // on the roster
    | Wired(client: Client)                      // finished() connected, start() next
    | Removed(client: Client, wasOnRoster: bool) // onClientFinished: removeAll done, lock released
    | Finishing                                  // loop left, onThreadFinished next; not "running"
    | Signalled                                  // _stopEvent set
    | Gone                                       // QThread::wait() returns

  /** Where the thread calling stop() stands. Each client is reaped in three steps. */
  datatype Reap = Disconnecting | Stopping | Deleting

  datatype Stopper =
    | Ready
    | JoiningIdle                                // the thread was not running: join and return
    | AwaitingEvent                              // quit() called, in _stopEvent.wait()
    | Joining                                    // in QThread::wait()
    | Taking                                     // about to swap the roster out
    | Reaping(rest: seq<Client>, stage: Reap)
    | Returned(reaped: bool)

  /** What is done to a client object. */
  datatype Effect = Connected(client: Client) | Started(client: Client)
                  | Disconnected(client: Client) | Stopped(client: Client) | Deleted(client: Client)

  datatype State = State(server: Server, stopper: Stopper, quit: bool, event: bool, roster: seq<Client>,
                         posted: multiset<Client>, accepted: set<Client>, log: seq<Effect>)

  datatype Action =
    | Accept(client: Client) | AppendClient | ConnectClient | StartClient
    | ClientFinishes(client: Client)             // the client's thread emits finished()
    | Deliver(client: Client)                    // the loop runs onClientFinished up to the unlock
    | DeleteIfOnRoster
    | LeaveLoop | SetStopEvent | FinishThread
    | CallStop | EventArrives | EventTimesOut | Join | TakeClients | ReapStep

  function Initial(started: bool): State {
    State(if started then Loop else Gone, Ready, false, false, [], multiset{}, {}, [])
  }

  predicate IsRunning(v: Server) { !v.Finishing? && !v.Signalled? && !v.Gone? }

  predicate Alive(log: seq<Effect>, c: Client) { Deleted(c) !in log }

  predicate IsConnected(log: seq<Effect>, c: Client) { Connected(c) in log && Disconnected(c) !in log }

  predicate Enabled(s: State, a: Action) {
    match a
    case Accept(c) => s.server.Loop? && c !in s.accepted
    case AppendClient => s.server.Created?
    case ConnectClient => s.server.Appended?
    case StartClient => s.server.Wired?
    case ClientFinishes(c) => Started(c) in s.log && Alive(s.log, c) && IsConnected(s.log, c)
    case Deliver(c) => s.server.Loop? && c in s.posted
    case DeleteIfOnRoster => s.server.Removed?
    case LeaveLoop => s.server.Loop? && s.quit
    case SetStopEvent => s.server.Finishing?
    case FinishThread => s.server.Signalled?
    case CallStop => s.stopper.Ready?
    case EventArrives => s.stopper.AwaitingEvent? && s.event
    case EventTimesOut => s.stopper.AwaitingEvent?
    case Join => (s.stopper.Joining? || s.stopper.JoiningIdle?) && s.server.Gone?
    case TakeClients => s.stopper.Taking?
    case ReapStep => s.stopper.Reaping?
  }

  /** QList::removeAll */
  function Without(roster: seq<Client>, c: Client): seq<Client> {
    if roster == [] then []
    else (if roster[0] == c then [] else [roster[0]]) + Without(roster[1..], c)
  }

  function Do(s: State, a: Action): State
    requires Enabled(s, a)
  {
    match a
    case Accept(c) => s.(server := Created(c), accepted := s.accepted + {c})
    case AppendClient => s.(server := Appended(s.server.client), roster := s.roster + [s.server.client])
    case ConnectClient => s.(server := Wired(s.server.client), log := s.log + [Connected(s.server.client)])
    case StartClient => s.(server := Loop, log := s.log + [Started(s.server.client)])
    case ClientFinishes(c) => s.(posted := s.posted + multiset{c})
    case Deliver(c) =>
      s.(posted := s.posted - multiset{c}, roster := Without(s.roster, c), server := Removed(c, c in s.roster))
    case DeleteIfOnRoster =>
      s.(server := Loop, log := if s.server.wasOnRoster then s.log + [Deleted(s.server.client)] else s.log)
    case LeaveLoop => s.(server := Finishing)
    case SetStopEvent => s.(server := Signalled, event := true)
    case FinishThread => s.(server := Gone)
    case CallStop =>
      if IsRunning(s.server) then s.(quit := true, stopper := AwaitingEvent) else s.(stopper := JoiningIdle)
    case EventArrives => s.(event := false, stopper := Joining)
    case EventTimesOut => s.(stopper := Joining)
    case Join => s.(stopper := if s.stopper.Joining? then Taking else Returned(false))
    case TakeClients => s.(roster := [], stopper := Reaping(s.roster, Disconnecting))
    case ReapStep =>
      if s.stopper.rest == [] then s.(stopper := Returned(true))
      else
        var rest, c := s.stopper.rest, s.stopper.rest[0];
        match s.stopper.stage
        case Disconnecting => s.(log := s.log + [Disconnected(c)], stopper := Reaping(rest, Stopping))
        case Stopping => s.(log := s.log + [Stopped(c)], stopper := Reaping(rest, Deleting))
        case Deleting => s.(log := s.log + [Deleted(c)], stopper := Reaping(rest[1..], Disconnecting))
  }

  function Execute(started: bool, run: seq<Action>): Option<State> {
    if run == [] then Some(Initial(started))
    else
      var before := Execute(started, run[..|run| - 1]);
      var a := run[|run| - 1];
      if before.Some? && Enabled(before.value, a) then Some(Do(before.value, a)) else None
  }

  predicate Reaches(started: bool, run: seq<Action>, s: State) { Execute(started, run) == Some(s) }

  // ---------------------------------------------------------------- the invariant

  predicate NoRepeats(cs: seq<Client>) { forall i, j :: 0 <= i < j < |cs| ==> cs[i] != cs[j] }

  /** Nothing is done to a client once it is deleted; in particular it is deleted once. */
  predicate NothingAfterDelete(log: seq<Effect>) {
    forall i, j :: 0 <= i < j < |log| && log[i].Deleted? ==> log[j].client != log[i].client
  }

  /** The owner of a client that is not on the roster and not deleted. */
  predicate HeldByServer(s: State, c: Client) { s.server == Created(c) || s.server == Removed(c, true) }

  predicate HeldByStopper(s: State, c: Client) { s.stopper.Reaping? && c in s.stopper.rest }

  /** Every accepted client has exactly one owner until it is deleted. */
  ghost predicate OneOwner(s: State) {
    && NoRepeats(s.roster)
    && (s.stopper.Reaping? ==> NoRepeats(s.stopper.rest))
    && (forall c :: c in s.roster ==> c in s.accepted && Alive(s.log, c) && !HeldByServer(s, c) && !HeldByStopper(s, c))
    && (forall c :: HeldByServer(s, c) ==> c in s.accepted && Alive(s.log, c) && !HeldByStopper(s, c))
    && (forall c :: HeldByStopper(s, c) ==> c in s.accepted && Alive(s.log, c))
    && (forall c :: c in s.accepted && Alive(s.log, c) ==> c in s.roster || HeldByServer(s, c) || HeldByStopper(s, c))
  }

  ghost predicate Inv(s: State) {
    && OneOwner(s)
    && NothingAfterDelete(s.log)
    && (forall e :: e in s.log ==> e.client in s.accepted)
    && (s.server.Appended? || s.server.Wired? ==> s.server.client in s.roster)
    && (s.stopper.Taking? || s.stopper.Reaping? || s.stopper.Returned? ==> s.server.Gone?)
    && (s.stopper.Reaping? || s.stopper == Returned(true) ==> s.roster == [])
  }

  lemma {:induction false} WithoutFacts(roster: seq<Client>, c: Client)
    ensures forall d :: d in Without(roster, c) <==> d in roster && d != c
    ensures NoRepeats(roster) ==> NoRepeats(Without(roster, c))
  {
    if roster != [] {
      WithoutFacts(roster[1..], c);
      assert forall d :: d in roster <==> d == roster[0] || d in roster[1..];
      if NoRepeats(roster) {
        assert roster[0] !in roster[1..];
      }
    }
  }

  lemma LogEffect(log: seq<Effect>, e: Effect)
    requires NothingAfterDelete(log) && Alive(log, e.client)
    ensures NothingAfterDelete(log + [e])
    ensures forall c :: Alive(log + [e], c) <==> Alive(log, c) && e != Deleted(c)
  {
    forall i | 0 <= i < |log| && log[i].Deleted? ensures log[i].client != e.client {
      assert log[i] == Deleted(log[i].client);
    }
  }

  lemma AcceptingKeepsInv(s: State, a: Action)
    requires Inv(s) && Enabled(s, a) && (a.Accept? || a.AppendClient?)
    ensures Inv(Do(s, a))
  {
    var t := Do(s, a);
    match a {
      case AppendClient =>
        var c := s.server.client;
        assert HeldByServer(s, c);
        assert forall d :: d in t.roster <==> d in s.roster || d == c;
      case Accept(c) =>
        assert forall e :: e in s.log ==> e.client != c;
    }
  }

  lemma StartingKeepsInv(s: State, a: Action)
    requires Inv(s) && Enabled(s, a) && (a.ConnectClient? || a.StartClient?)
    ensures Inv(Do(s, a))
  {
    LogEffect(s.log, if a.ConnectClient? then Connected(s.server.client) else Started(s.server.client));
  }

  lemma DeliveringKeepsInv(s: State, c: Client)
    requires Inv(s) && Enabled(s, Deliver(c))
    ensures Inv(Do(s, Deliver(c)))
  {
    WithoutFacts(s.roster, c);
  }

  lemma DeletingKeepsInv(s: State)
    requires Inv(s) && Enabled(s, DeleteIfOnRoster)
    ensures Inv(Do(s, DeleteIfOnRoster))
  {
    if s.server.wasOnRoster {
      assert HeldByServer(s, s.server.client);
      LogEffect(s.log, Deleted(s.server.client));
    }
  }

  lemma ReapingKeepsInv(s: State)
    requires Inv(s) && Enabled(s, ReapStep)
    ensures Inv(Do(s, ReapStep))
  {
    var rest, t := s.stopper.rest, Do(s, ReapStep);
    if rest != [] {
      var c := rest[0];
      assert HeldByStopper(s, c);
      LogEffect(s.log, t.log[|s.log|]);
      assert forall d :: HeldByServer(t, d) <==> HeldByServer(s, d);
      if s.stopper.stage.Deleting? {
        LastReapOfClient(s, t);
      } else {
        assert forall d :: HeldByStopper(t, d) <==> HeldByStopper(s, d);
      }
    }
  }

  lemma LastReapOfClient(s: State, t: State)
    requires OneOwner(s) && s.roster == [] && s.stopper.Reaping? && s.stopper.rest != []
    requires t == s.(log := s.log + [Deleted(s.stopper.rest[0])],
                     stopper := Reaping(s.stopper.rest[1..], Disconnecting))
    requires forall c :: Alive(t.log, c) <==> Alive(s.log, c) && c != s.stopper.rest[0]
    ensures OneOwner(t)
  {
    var c, rest := s.stopper.rest[0], s.stopper.rest;
    assert HeldByStopper(s, c);
    assert forall d :: d in rest <==> d == c || d in rest[1..];
    assert c !in rest[1..];
    assert forall d :: HeldByStopper(t, d) <==> HeldByStopper(s, d) && d != c;
    assert forall d :: HeldByServer(t, d) <==> HeldByServer(s, d);
  }

  lemma OthersKeepInv(s: State, a: Action)
    requires Inv(s) && Enabled(s, a)
    requires a.ClientFinishes? || a.LeaveLoop? || a.SetStopEvent? || a.FinishThread? || a.CallStop?
          || a.EventArrives? || a.EventTimesOut? || a.Join? || a.TakeClients?
    ensures Inv(Do(s, a))
  {
    var t := Do(s, a);
    assert forall c :: HeldByServer(t, c) <==> HeldByServer(s, c);
    assert !a.TakeClients? ==> forall c :: HeldByStopper(t, c) <==> HeldByStopper(s, c);
  }

  lemma InvStep(s: State, a: Action)
    requires Inv(s) && Enabled(s, a)
    ensures Inv(Do(s, a))
  {
    match a {
      case Accept(_) => AcceptingKeepsInv(s, a);
      case AppendClient => AcceptingKeepsInv(s, a);
      case ConnectClient => StartingKeepsInv(s, a);
      case StartClient => StartingKeepsInv(s, a);
      case Deliver(c) => DeliveringKeepsInv(s, c);
      case DeleteIfOnRoster => DeletingKeepsInv(s);
      case ReapStep => ReapingKeepsInv(s);
      case _ => OthersKeepInv(s, a);
    }
  }

  lemma {:induction false} Reachable(started: bool, run: seq<Action>, s: State)
    requires Reaches(started, run, s)
    ensures Inv(s)
  {
    if run != [] {
      var init := run[..|run| - 1];
      Reachable(started, init, Execute(started, init).value);
      InvStep(Execute(started, init).value, run[|run| - 1]);
    }
  }

  // ---------------------------------------------------------------- what every run keeps

  /** Each accepted client is deleted at most once, and never started, connected, stopped or
      disconnected after that. */
  lemma DeletedOnceAndLast(started: bool, run: seq<Action>, s: State)
    requires Reaches(started, run, s)
    ensures NothingAfterDelete(s.log)
    ensures forall i, j :: 0 <= i < j < |s.log| && s.log[i].Deleted? ==> s.log[j] != s.log[i]
  {
    Reachable(started, run, s);
  }

  /** When stop() of a running server returns, the roster is empty and every accepted client
      has been deleted; when the server was not running, stop() has touched nothing. */
  lemma StopLeavesNothing(started: bool, run: seq<Action>, s: State)
    requires Reaches(started, run, s) && s.stopper.Returned?
    ensures s.stopper.reaped <==> started
    ensures started ==> s.roster == [] && s.server.Gone? && forall c :: c in s.accepted ==> Deleted(c) in s.log
    ensures !started ==> s.log == [] && s.accepted == {}
  {
    Reachable(started, run, s);
    ReturnedHow(started, run, s);
  }

  predicate ReturnsFit(started: bool, s: State) {
    if started then
      !s.stopper.JoiningIdle? && s.stopper != Returned(false) && (s.stopper.Ready? ==> IsRunning(s.server) && !s.quit)
    else
      && s.server.Gone? && s.log == [] && s.accepted == {} && s.posted == multiset{} && s.roster == []
      && (s.stopper.Ready? || s.stopper.JoiningIdle? || s.stopper == Returned(false))
  }

  lemma ReturnedStep(started: bool, s: State, a: Action)
    requires ReturnsFit(started, s) && Enabled(s, a)
    ensures ReturnsFit(started, Do(s, a))
  {}

  lemma {:induction false} ReturnedHow(started: bool, run: seq<Action>, s: State)
    requires Reaches(started, run, s)
    ensures ReturnsFit(started, s)
  {
    if run != [] {
      var before := Execute(started, run[..|run| - 1]).value;
      ReturnedHow(started, run[..|run| - 1], before);
      ReturnedStep(started, before, run[|run| - 1]);
    }
  }

  // ---------------------------------------------------------------- the life of a client

  /** What has been done to one client, in order. */
  function LifeOf(log: seq<Effect>, c: Client): seq<Effect> {
    if log == [] then []
    else
      var rest, last := LifeOf(log[..|log| - 1], c), log[|log| - 1];
      if last.client == c then rest + [last] else rest
  }

  lemma LifeOneMore(log: seq<Effect>, e: Effect, c: Client)
    ensures LifeOf(log + [e], c) == if e.client == c then LifeOf(log, c) + [e] else LifeOf(log, c)
  {
    assert (log + [e])[..|log|] == log;
  }

  /** Connected, then started; a client that ends by itself is deleted then, one that stop() reaps is disconnected and
      stopped before. */
  predicate EndedByItself(life: seq<Effect>, c: Client) { life == [Connected(c), Started(c), Deleted(c)] }

  predicate Reaped(life: seq<Effect>, c: Client) {
    life == [Connected(c), Started(c), Disconnected(c), Stopped(c), Deleted(c)]
  }

  /** The life of a client that is not deleted, by where the server thread stands and how far stop() has got with it. */
  function LifeSoFar(s: State, c: Client): seq<Effect> {
    if c in s.accepted then Begun(s.server, c) + Ending(s.stopper, c) else []
  }

  function Begun(v: Server, c: Client): seq<Effect> {
    if v == Created(c) || v == Appended(c) then []
    else if v == Wired(c) then [Connected(c)] else [Connected(c), Started(c)]
  }

  function Ending(p: Stopper, c: Client): seq<Effect> {
    if !p.Reaping? || p.rest == [] || p.rest[0] != c || p.stage.Disconnecting? then []
    else if p.stage.Stopping? then [Disconnected(c)] else [Disconnected(c), Stopped(c)]
  }

  predicate LifeFits(s: State, c: Client) {
    var life := LifeOf(s.log, c);
    if Alive(s.log, c) then life == LifeSoFar(s, c) else EndedByItself(life, c) || Reaped(life, c)
  }

  /** A step does at most one thing to a client. */
  lemma LogGrows(s: State, a: Action) returns (more: seq<Effect>)
    requires Enabled(s, a)
    ensures Do(s, a).log == s.log + more && |more| <= 1
    ensures more != [] ==> a.ConnectClient? || a.StartClient? || a.DeleteIfOnRoster? || a.ReapStep?
  {
    more := Do(s, a).log[|s.log|..];
  }

  lemma OwnerIsAlive(s: State, a: Action)
    requires Inv(s) && Enabled(s, a)
    ensures a.DeleteIfOnRoster? && s.server.wasOnRoster ==>
              Alive(s.log, s.server.client) && s.server.client in s.accepted
    ensures a.ReapStep? && s.stopper.rest != [] ==>
              Alive(s.log, s.stopper.rest[0]) && s.stopper.rest[0] in s.accepted && s.server.Gone?
    ensures a.ConnectClient? || a.StartClient? ==> Alive(s.log, s.server.client) && s.server.client in s.accepted
  {
    if a.DeleteIfOnRoster? && s.server.wasOnRoster { assert HeldByServer(s, s.server.client); }
    if a.ReapStep? && s.stopper.rest != [] { assert HeldByStopper(s, s.stopper.rest[0]); }
  }

  /** What is done to the client itself. */
  lemma ServersEffect(s: State, a: Action, e: Effect)
    requires Inv(s) && Enabled(s, a) && !a.ReapStep? && Do(s, a).log == s.log + [e]
    ensures Alive(s.log, e.client)
    ensures var life := LifeSoFar(s, e.client) + [e];
            if e.Deleted? then EndedByItself(life, e.client) && s.server == Removed(e.client, true)
            else LifeSoFar(Do(s, a), e.client) == life
  {
    OwnerIsAlive(s, a);
    assert Do(s, a).log[|s.log|] == e;
    if a.DeleteIfOnRoster? { assert HeldByServer(s, e.client); }
  }

  lemma StoppersEffect(s: State, e: Effect)
    requires Inv(s) && Enabled(s, ReapStep) && Do(s, ReapStep).log == s.log + [e]
    ensures Alive(s.log, e.client)
    ensures var life := LifeSoFar(s, e.client) + [e];
            if e.Deleted? then Reaped(life, e.client) else LifeSoFar(Do(s, ReapStep), e.client) == life
  {
    OwnerIsAlive(s, ReapStep);
    assert Do(s, ReapStep).log[|s.log|] == e;
    assert HeldByStopper(s, e.client);
  }

  lemma OwnLife(s: State, a: Action, e: Effect)
    requires Inv(s) && Enabled(s, a) && Do(s, a).log == s.log + [e] && LifeFits(s, e.client)
    ensures LifeFits(Do(s, a), e.client)
    ensures EndedByItself(LifeOf(Do(s, a).log, e.client), e.client) ==> s.server == Removed(e.client, true)
  {
    var c, t := e.client, Do(s, a);
    if a.ReapStep? { StoppersEffect(s, e); } else { ServersEffect(s, a, e); }
    LogEffect(s.log, e);
    LifeOneMore(s.log, e, c);
    assert LifeOf(t.log, c) == LifeSoFar(s, c) + [e] && (Alive(t.log, c) <==> !e.Deleted?);
    assert LifeOf(t.log, c)[|LifeSoFar(s, c)|] == e;
  }

  lemma OthersLife(s: State, a: Action, e: Effect, c: Client)
    requires Inv(s) && Enabled(s, a) && Do(s, a).log == s.log + [e] && e.client != c && LifeFits(s, c)
    ensures LifeFits(Do(s, a), c) && LifeOf(Do(s, a).log, c) == LifeOf(s.log, c)
  {
    LifeOneMore(s.log, e, c);
    OwnerIsAlive(s, a);
    assert Do(s, a).log[|s.log|] == e;
    assert Alive(Do(s, a).log, c) <==> Alive(s.log, c);
    SameStage(s, a, e, c);
  }

  lemma SameStage(s: State, a: Action, e: Effect, c: Client)
    requires Enabled(s, a) && Do(s, a).log == s.log + [e] && e.client != c
    ensures Begun(Do(s, a).server, c) == Begun(s.server, c) && Ending(Do(s, a).stopper, c) == Ending(s.stopper, c)
    ensures Do(s, a).accepted == s.accepted
  {
    assert Do(s, a).log[|s.log|] == e;
  }

  lemma LoudSteps(s: State, a: Action)
    requires Enabled(s, a)
    ensures a.ConnectClient? || a.StartClient? || (a.ReapStep? && s.stopper.rest != []) ==>
              |Do(s, a).log| == |s.log| + 1
  {}

  lemma QuietLife(s: State, a: Action, c: Client)
    requires Inv(s) && Enabled(s, a) && Do(s, a).log == s.log && LifeFits(s, c)
    ensures LifeFits(Do(s, a), c)
  {
    if Alive(s.log, c) {
      QuietStarts(s, a, c);
      QuietEnds(s, a, c);
    }
  }

  lemma QuietStarts(s: State, a: Action, c: Client)
    requires Inv(s) && Enabled(s, a) && Do(s, a).log == s.log
    ensures c in s.accepted ==> c in Do(s, a).accepted && Begun(Do(s, a).server, c) == Begun(s.server, c)
    ensures c !in s.accepted && c in Do(s, a).accepted ==> Begun(Do(s, a).server, c) == []
  {
    LoudSteps(s, a);
  }

  lemma QuietEnds(s: State, a: Action, c: Client)
    requires Inv(s) && Enabled(s, a) && Do(s, a).log == s.log
    ensures Ending(Do(s, a).stopper, c) == Ending(s.stopper, c)
    ensures c !in s.accepted ==> Ending(s.stopper, c) == []
  {
    LoudSteps(s, a);
    if s.stopper.Reaping? && s.stopper.rest != [] { assert HeldByStopper(s, s.stopper.rest[0]); }
  }

  lemma LifeStep(s: State, a: Action, c: Client)
    requires Inv(s) && Enabled(s, a) && LifeFits(s, c)
    ensures LifeFits(Do(s, a), c)
    ensures EndedByItself(LifeOf(Do(s, a).log, c), c) ==>
              EndedByItself(LifeOf(s.log, c), c) || s.server == Removed(c, true)
  {
    var more := LogGrows(s, a);
    if more == [] {
      assert s.log + more == s.log;
      QuietLife(s, a, c);
    } else if more[0].client == c {
      assert more == [more[0]];
      OwnLife(s, a, more[0]);
    } else {
      assert more == [more[0]];
      OthersLife(s, a, more[0], c);
    }
  }

  /** Whatever is done to an accepted client comes in this order: it is connected before it is started, and, unless it
      ends by itself, disconnected and stopped before it is deleted. */
  lemma {:induction false} LifeOfEveryClient(started: bool, run: seq<Action>, s: State, c: Client)
    requires Reaches(started, run, s)
    ensures LifeFits(s, c)
  {
    if run != [] {
      var init := run[..|run| - 1];
      var before := Execute(started, init).value;
      LifeOfEveryClient(started, init, before, c);
      Reachable(started, init, before);
      LifeStep(before, run[|run| - 1], c);
    }
  }

  function Times(run: seq<Action>, a: Action): nat {
    if run == [] then 0 else Times(run[..|run| - 1], a) + if run[|run| - 1] == a then 1 else 0
  }

  lemma PostedStep(s: State, a: Action, c: Client)
    requires Enabled(s, a)
    ensures Do(s, a).posted[c] + (if a == Deliver(c) then 1 else 0)
            == s.posted[c] + if a == ClientFinishes(c) then 1 else 0
    ensures Do(s, a).server.Removed? && Do(s, a).server.client == c ==> a == Deliver(c) || Do(s, a).server == s.server
  {}

  /** Each finished() is delivered once or still on its way. */
  lemma {:induction false} DeliveredOnce(started: bool, run: seq<Action>, s: State, c: Client)
    requires Reaches(started, run, s)
    ensures s.posted[c] + Times(run, Deliver(c)) == Times(run, ClientFinishes(c))
    ensures s.server.Removed? && s.server.client == c ==> Times(run, Deliver(c)) > 0
  {
    if run != [] {
      var init := run[..|run| - 1];
      DeliveredOnce(started, init, Execute(started, init).value, c);
      PostedStep(Execute(started, init).value, run[|run| - 1], c);
    }
  }

  /** A client that is deleted without having been stopped has finished. */
  lemma {:induction false} OnlyFinishedClientsEnd(started: bool, run: seq<Action>, s: State, c: Client)
    requires Reaches(started, run, s) && EndedByItself(LifeOf(s.log, c), c)
    ensures Times(run, ClientFinishes(c)) > 0
  {
    var init, a := run[..|run| - 1], run[|run| - 1];
    var before := Execute(started, init).value;
    Reachable(started, init, before);
    LifeOfEveryClient(started, init, before, c);
    LifeStep(before, a, c);
    if EndedByItself(LifeOf(before.log, c), c) {
      OnlyFinishedClientsEnd(started, init, before, c);
    } else {
      DeliveredOnce(started, init, before, c);
    }
  }

  /** A finished() that is emitted finds its client connected and started, and nothing more done to it. */
  lemma FinishesWhileConnected(started: bool, run: seq<Action>, s: State, c: Client)
    requires Reaches(started, run, s) && Enabled(s, ClientFinishes(c))
    ensures LifeOf(s.log, c) == [Connected(c), Started(c)]
  {
    LifeOfEveryClient(started, run, s, c);
    LifeIsIn(s.log, c, Connected(c));
    LifeIsIn(s.log, c, Started(c));
    LifeIsIn(s.log, c, Disconnected(c));
  }

  lemma {:induction false} LifeIsIn(log: seq<Effect>, c: Client, e: Effect)
    requires e.client == c
    ensures e in LifeOf(log, c) <==> e in log
  {
    if log != [] {
      LifeIsIn(log[..|log| - 1], c, e);
      assert e in log <==> e in log[..|log| - 1] || e == log[|log| - 1];
    }
  }

  /** The stop event is set by the server thread as it ends, and cleared by the wait in stop(): whoever has seen it
      arrive knows that the thread has left its loop. */
  lemma {:induction false} StopEventFits(started: bool, run: seq<Action>, s: State)
    requires Reaches(started, run, s)
    ensures Times(run, SetStopEvent) == if started && (s.server.Signalled? || s.server.Gone?) then 1 else 0
    ensures Times(run, EventArrives) + (if s.event then 1 else 0) == Times(run, SetStopEvent)
  {
    if run != [] {
      var before := Execute(started, run[..|run| - 1]).value;
      StopEventFits(started, run[..|run| - 1], before);
      ReturnedHow(started, run[..|run| - 1], before);
    }
  }

  // ---------------------------------------------------------------- stop() comes to its end

  function ServerRank(v: Server): nat {
    match v
    case Created(_) => 6
    case Appended(_) => 5
    case Wired(_) => 4
    case Removed(_, _) => 4
    case Loop => 3
    case Finishing => 2
    case Signalled => 1
    case Gone => 0
  }

  function StopperRank(p: Stopper): nat {
    match p
    case Ready => 5
    case AwaitingEvent => 4
    case Joining => 3
    case JoiningIdle => 3
    case Taking => 2
    case Reaping(_, _) => 1
    case Returned(_) => 0
  }

  function ReapRank(p: Stopper): nat {
    if !p.Reaping? then 0
    else 3 * |p.rest| + match p.stage case Disconnecting => 3 case Stopping => 2 case Deleting => 1
  }

  /** A step of the thread in stop(), or of the server thread it is waiting for. */
  function NextStep(s: State): Action {
    if s.stopper.Ready? then CallStop
    else if s.stopper.Taking? then TakeClients
    else if s.stopper.Reaping? then ReapStep
    else if s.stopper.AwaitingEvent? && s.event then EventArrives
    else
      match s.server
      case Created(_) => AppendClient
      case Appended(_) => ConnectClient
      case Wired(_) => StartClient
      case Removed(_, _) => DeleteIfOnRoster
      case Loop => LeaveLoop
      case Finishing => SetStopEvent
      case Signalled => FinishThread
      case Gone => if s.stopper.AwaitingEvent? then EventTimesOut else Join
  }

  predicate QuitAsked(s: State) {
    (s.stopper.AwaitingEvent? || s.stopper.Joining? ==> s.quit)
    && (s.stopper.JoiningIdle? ==> !IsRunning(s.server))
  }

  lemma QuitStep(s: State, a: Action)
    requires QuitAsked(s) && Enabled(s, a)
    ensures QuitAsked(Do(s, a))
  {}

  lemma {:induction false} QuitIsAsked(started: bool, run: seq<Action>, s: State)
    requires Reaches(started, run, s)
    ensures QuitAsked(s)
  {
    if run != [] {
      var before := Execute(started, run[..|run| - 1]).value;
      QuitIsAsked(started, run[..|run| - 1], before);
      QuitStep(before, run[|run| - 1]);
    }
  }

  /** From every reachable state, stop() can run to its return: nothing it waits for is stuck. */
  lemma {:induction false} StopReturns(started: bool, run: seq<Action>, s: State)
    returns (more: seq<Action>, t: State)
    requires Reaches(started, run, s)
    ensures Reaches(started, run + more, t) && t.stopper.Returned?
    decreases StopperRank(s.stopper), ServerRank(s.server), ReapRank(s.stopper)
  {
    if s.stopper.Returned? {
      more, t := [], s;
      assert run + [] == run;
    } else {
      QuitIsAsked(started, run, s);
      var a := NextStep(s);
      assert (run + [a])[..|run|] == run;
      var rest;
      rest, t := StopReturns(started, run + [a], Do(s, a));
      more := [a] + rest;
      assert run + more == run + [a] + rest;
    }
  }
}
