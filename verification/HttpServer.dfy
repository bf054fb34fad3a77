/**
 The server around its sessions: the accept loop, the connection limit, the drain and stop
 requests, and the two gauges. Signals to a session are posted to its strand and run later, in any
 order; the server's own strand runs one handler at a time, while session callbacks run at any
 moment in between. The sessions are those of HttpSession, by value; the class at the end does the
 server's own handlers in place.
 */
module HttpServer {
  import opened Common
  import S = HttpSession

  type Session = S.Session

  datatype Message = Message(id: nat, signal: S.Event)

  /** `opening` is a session made by the accept handler that it has not registered yet. */
  datatype System = System(
    tls: bool,
    max: nat,
    sessions: map<nat, Session>,
    registered: set<nat>,
    signals: set<Message>,
    draining: bool,
    stopped: bool,
    opening: Option<nat>,
    nextId: nat,
    connections: int,
    inFlight: int)

  datatype Event =
    | Accepted(failed: bool)
    | Registered
    | BeginDraining
    | StopServer
    | Deliver(message: Message)
    | Callback(id: nat, completion: S.Completion)

  function Initial(tls: bool, max: nat): System {
    System(tls, max, map[], {}, {}, false, false, None, 0, 0, 0)
  }

  predicate Enabled(y: System, e: Event) {
    match e
    case Accepted(_) => y.opening.None?
    case Registered => y.opening.Some?
    case BeginDraining => y.opening.None?
    case StopServer => y.opening.None?
    case Deliver(m) => m in y.signals && m.id in y.sessions
    case Callback(id, c) => id in y.sessions && S.OpOf(c) in y.sessions[id].ops
  }

  /** The accept handler up to the making of the session. */
  function Accept(y: System, failed: bool): System {
    if failed || y.stopped || y.draining || |y.registered| >= y.max then y
    else y.(sessions := y.sessions[y.nextId := S.Fresh(y.tls)],
            opening := Some(y.nextId),
            nextId := y.nextId + 1,
            connections := y.connections + 1)
  }

  /** ConnectionManager::start from the accept handler; a full table stops the session at once. */
  function Register(y: System): System
    requires y.opening.Some?
  {
    var id := y.opening.value;
    if |y.registered| >= y.max
    then y.(opening := None, signals := y.signals + {Message(id, S.Stop)})
    else y.(opening := None, registered := y.registered + {id}, signals := y.signals + {Message(id, S.Start)})
  }

  function ToAll(ids: set<nat>, signal: S.Event): set<Message> {
    set id | id in ids :: Message(id, signal)
  }

  function Draining(y: System): System {
    if y.draining || y.stopped then y
    else y.(draining := true, signals := y.signals + ToAll(y.registered, S.Drain))
  }

  function Stopping(y: System): System {
    if y.stopped then y
    else y.(draining := true, stopped := true, signals := y.signals + ToAll(y.registered, S.Stop))
  }

  function One(b: bool): int { if b then 1 else 0 }

  /** A session takes a step; it moves the gauges and leaves the manager when it stops. */
  function SessionStep(y: System, id: nat, e: S.Event): System
    requires id in y.sessions
  {
    var s := y.sessions[id];
    var t := S.Step(s, e);
    y.(sessions := y.sessions[id := t],
       registered := if t.stopped && !s.stopped then y.registered - {id} else y.registered,
       connections := y.connections - One(t.stopped && !s.stopped),
       inFlight := y.inFlight + One(t.requestActive) - One(s.requestActive))
  }

  function SysStep(y: System, e: Event): System
    requires Enabled(y, e)
  {
    match e
    case Accepted(failed) => Accept(y, failed)
    case Registered => Register(y)
    case BeginDraining => Draining(y)
    case StopServer => Stopping(y)
    case Deliver(m) => SessionStep(y.(signals := y.signals - {m}), m.id, m.signal)
    case Callback(id, c) => SessionStep(y, id, S.Done(c))
  }

  // ----- the invariant -----

  function Live(sessions: map<nat, Session>): set<nat> {
    set id | id in sessions && !sessions[id].stopped
  }

  function Active(sessions: map<nat, Session>): set<nat> {
    set id | id in sessions && sessions[id].requestActive
  }

  ghost predicate SessionsOk(sessions: map<nat, Session>, nextId: nat) {
    forall id :: id in sessions ==> id < nextId && S.Inv(sessions[id])
  }

  ghost predicate RegisteredOk(sessions: map<nat, Session>, registered: set<nat>, opening: Option<nat>) {
    forall id :: id in registered <==> id in sessions && !sessions[id].stopped && opening != Some(id)
  }

  ghost predicate OpeningOk(sessions: map<nat, Session>, opening: Option<nat>, tls: bool) {
    opening.Some? ==> opening.value in sessions && sessions[opening.value] == S.Fresh(tls)
  }

  /** Signals are starts, drains and stops of known, registered-at-the-time sessions. */
  ghost predicate SignalsOk(sessions: map<nat, Session>, signals: set<Message>, opening: Option<nat>) {
    forall m :: m in signals ==> m.id in sessions && !m.signal.Done? && opening != Some(m.id)
  }

  ghost predicate StartsPending(sessions: map<nat, Session>, registered: set<nat>, signals: set<Message>) {
    forall id :: id in registered && id in sessions && !sessions[id].started ==> Message(id, S.Start) in signals
  }

  ghost predicate DrainCovered(sessions: map<nat, Session>, registered: set<nat>, signals: set<Message>) {
    forall id :: id in registered && id in sessions && !sessions[id].draining ==>
      Message(id, S.Drain) in signals || Message(id, S.Stop) in signals
  }

  ghost predicate StopCovered(registered: set<nat>, signals: set<Message>) {
    forall id :: id in registered ==> Message(id, S.Stop) in signals
  }

  ghost predicate GaugesOk(sessions: map<nat, Session>, connections: int, inFlight: int) {
    connections == |Live(sessions)| && inFlight == |Active(sessions)|
  }

  ghost predicate Inv(y: System) {
    && SessionsOk(y.sessions, y.nextId)
    && RegisteredOk(y.sessions, y.registered, y.opening)
    && |y.registered| <= y.max
    && OpeningOk(y.sessions, y.opening, y.tls)
    && (y.opening.Some? ==> |y.registered| < y.max && !y.draining)
    && SignalsOk(y.sessions, y.signals, y.opening)
    && StartsPending(y.sessions, y.registered, y.signals)
    && (y.draining ==> DrainCovered(y.sessions, y.registered, y.signals))
    && (y.stopped ==> y.draining && StopCovered(y.registered, y.signals))
    && GaugesOk(y.sessions, y.connections, y.inFlight)
  }

  // ----- the gauges -----

  lemma LiveAfter(sessions: map<nat, Session>, id: nat, t: Session)
    ensures |Live(sessions[id := t])| == |Live(sessions)| + One(!t.stopped) - One(id in Live(sessions))
  {
    var without := Live(sessions) - {id};
    assert Live(sessions[id := t]) == if t.stopped then without else without + {id};
    assert Live(sessions) == if id in Live(sessions) then without + {id} else without;
  }

  lemma ActiveAfter(sessions: map<nat, Session>, id: nat, t: Session)
    ensures |Active(sessions[id := t])| == |Active(sessions)| + One(t.requestActive) - One(id in Active(sessions))
  {
    var without := Active(sessions) - {id};
    assert Active(sessions[id := t]) == if t.requestActive then without + {id} else without;
    assert Active(sessions) == if id in Active(sessions) then without + {id} else without;
  }

  // ----- preservation -----

  lemma AcceptKeepsInv(y: System, failed: bool)
    requires Inv(y) && y.opening.None?
    ensures Inv(Accept(y, failed))
  {
    var made := S.Fresh(y.tls);
    if y.nextId in y.sessions { assert false; }
    LiveAfter(y.sessions, y.nextId, made);
    ActiveAfter(y.sessions, y.nextId, made);
  }

  lemma RegisterKeepsInv(y: System)
    requires Inv(y) && y.opening.Some?
    ensures Inv(Register(y)) && |y.registered| < y.max && y.opening.value in Register(y).registered
  {
  }

  // What the server relies on in a session's step: the flags are monotone and signals do their job.
  ghost predicate FlagsMove(s: Session, e: S.Event, t: Session) {
    && (s.stopped ==> t.stopped)
    && (s.started ==> t.started) && (s.draining ==> t.draining)
    && (e.Start? ==> t.started || t.stopped)
    && (e.Drain? ==> t.draining || t.stopped)
    && (e.Stop? ==> t.stopped)
  }

  lemma SessionFlags(s: Session, e: S.Event)
    requires S.Enabled(s, e)
    ensures FlagsMove(s, e, S.Step(s, e))
  {
    if e.Done? {
      match e.completion {
        case HandshakeDone(_) =>
        case ReadDone(_) =>
        case WorkDone(_) =>
        case WriteDone(_, _) =>
        case ShutdownDone =>
      }
    }
  }

  lemma SessionGauges(y: System, id: nat, e: S.Event)
    requires id in y.sessions && GaugesOk(y.sessions, y.connections, y.inFlight)
    requires S.Inv(y.sessions[id]) && S.Enabled(y.sessions[id], e)
    ensures var z := SessionStep(y, id, e); GaugesOk(z.sessions, z.connections, z.inFlight)
  {
    var s := y.sessions[id];
    hide S.Step, S.Inv, S.Enabled;
    SessionFlags(s, e);
    LiveAfter(y.sessions, id, S.Step(s, e));
    ActiveAfter(y.sessions, id, S.Step(s, e));
  }

  lemma SessionsKept(y: System, id: nat, e: S.Event)
    requires id in y.sessions && S.Enabled(y.sessions[id], e) && y.opening != Some(id)
    requires SessionsOk(y.sessions, y.nextId) && OpeningOk(y.sessions, y.opening, y.tls)
    ensures var z := SessionStep(y, id, e); SessionsOk(z.sessions, z.nextId) && OpeningOk(z.sessions, z.opening, z.tls)
  {
    hide S.Step, S.Inv, S.Enabled;
    S.StepKeepsInv(y.sessions[id], e);
  }

  /** A step changes one session, whose flags only rise, and it unregisters it when it stops. */
  ghost predicate Moves(y: System, id: nat, e: S.Event, z: System) {
    && id in y.sessions && z.sessions.Keys == y.sessions.Keys
    && (forall k :: k in y.sessions && k != id ==> z.sessions[k] == y.sessions[k])
    && FlagsMove(y.sessions[id], e, z.sessions[id])
    && z.registered <= y.registered && |z.registered| <= |y.registered|
    && (id in z.registered ==> !z.sessions[id].stopped)
  }

  lemma RegisteredAfter(sessions: map<nat, Session>, registered: set<nat>, opening: Option<nat>, id: nat, t: Session)
    requires RegisteredOk(sessions, registered, opening) && id in sessions && opening != Some(id)
    requires sessions[id].stopped ==> t.stopped
    ensures RegisteredOk(sessions[id := t],
                         if t.stopped && !sessions[id].stopped then registered - {id} else registered, opening)
    ensures sessions[id := t].Keys == sessions.Keys
  {
    var after := if t.stopped && !sessions[id].stopped then registered - {id} else registered;
    forall k
      ensures k in after <==> k in sessions[id := t] && !sessions[id := t][k].stopped && opening != Some(k)
    {
      assert k in registered <==> k in sessions && !sessions[k].stopped && opening != Some(k);
    }
  }

  lemma SessionMoves(y: System, id: nat, e: S.Event)
    requires id in y.sessions && S.Enabled(y.sessions[id], e) && y.opening != Some(id)
    requires RegisteredOk(y.sessions, y.registered, y.opening)
    ensures var z := SessionStep(y, id, e); Moves(y, id, e, z) && RegisteredOk(z.sessions, z.registered, z.opening)
  {
    hide S.Step, S.Inv, S.Enabled;
    SessionFlags(y.sessions[id], e);
    SubsetCard(y.registered - {id}, y.registered);
    RegisteredAfter(y.sessions, y.registered, y.opening, id, S.Step(y.sessions[id], e));
  }

  // A signal that is gone has done its work, so what is owed to each session is still on its way.
  lemma CoverageKept(y: System, id: nat, e: S.Event, z: System)
    requires Moves(y, id, e, z) && y.signals - {Message(id, e)} <= z.signals <= y.signals && z.opening == y.opening
    requires SignalsOk(y.sessions, y.signals, y.opening)
    ensures SignalsOk(z.sessions, z.signals, z.opening)
    ensures StartsPending(y.sessions, y.registered, y.signals) ==> StartsPending(z.sessions, z.registered, z.signals)
    ensures DrainCovered(y.sessions, y.registered, y.signals) ==> DrainCovered(z.sessions, z.registered, z.signals)
    ensures StopCovered(y.registered, y.signals) ==> StopCovered(z.registered, z.signals)
  {
  }

  lemma DeliverKeepsInv(y: System, m: Message)
    requires Inv(y) && m in y.signals && m.id in y.sessions
    ensures Inv(SessionStep(y.(signals := y.signals - {m}), m.id, m.signal))
  {
    assert S.Enabled(y.sessions[m.id], m.signal) && y.opening != Some(m.id);
    hide S.Step, S.Inv, GaugesOk, OpeningOk, SessionsOk, RegisteredOk;
    var z := y.(signals := y.signals - {m});
    SessionsKept(z, m.id, m.signal);
    SessionMoves(z, m.id, m.signal);
    SessionGauges(z, m.id, m.signal);
    CoverageKept(y, m.id, m.signal, SessionStep(z, m.id, m.signal));
    hide SignalsOk, StartsPending, DrainCovered, StopCovered;
  }

  lemma CallbackKeepsInv(y: System, id: nat, c: S.Completion)
    requires Inv(y) && id in y.sessions && S.OpOf(c) in y.sessions[id].ops
    ensures Inv(SessionStep(y, id, S.Done(c)))
  {
    assert y.opening != Some(id);
    hide S.Step, S.Inv, GaugesOk, OpeningOk, SessionsOk, RegisteredOk;
    SessionsKept(y, id, S.Done(c));
    SessionMoves(y, id, S.Done(c));
    SessionGauges(y, id, S.Done(c));
    CoverageKept(y, id, S.Done(c), SessionStep(y, id, S.Done(c)));
    hide SignalsOk, StartsPending, DrainCovered, StopCovered;
  }

  lemma StepKeepsInv(y: System, e: Event)
    requires Inv(y) && Enabled(y, e)
    ensures Inv(SysStep(y, e))
  {
    match e {
      case Accepted(failed) => AcceptKeepsInv(y, failed);
      case Registered => RegisterKeepsInv(y);
      case Deliver(m) => DeliverKeepsInv(y, m);
      case Callback(id, c) => CallbackKeepsInv(y, id, c);
      case _ =>
    }
  }

  // ----- whole runs -----

  ghost predicate Stepped(ys: seq<System>, es: seq<Event>, i: nat)
    requires i < |es| && |ys| == |es| + 1
  {
    Enabled(ys[i], es[i]) && ys[i + 1] == SysStep(ys[i], es[i])
  }

  ghost predicate IsRun(ys: seq<System>, es: seq<Event>) {
    && |ys| == |es| + 1
    && ys[0] == Initial(ys[0].tls, ys[0].max)
    && forall i {:trigger Stepped(ys, es, i)} :: 0 <= i < |es| ==> Stepped(ys, es, i)
  }

  lemma InitialInv(tls: bool, max: nat)
    ensures Inv(Initial(tls, max))
  {
    assert Live(map[]) == {} && Active(map[]) == {};
  }

  lemma {:induction false} RunKeepsInv(ys: seq<System>, es: seq<Event>, i: nat)
    requires IsRun(ys, es) && i < |ys|
    ensures Inv(ys[i])
  {
    hide Inv, SysStep;
    if i == 0 {
      InitialInv(ys[0].tls, ys[0].max);
    } else {
      RunKeepsInv(ys, es, i - 1);
      assert Stepped(ys, es, i - 1);
      StepKeepsInv(ys[i - 1], es[i - 1]);
    }
  }

  /**
   In every reachable state the gauges equal the sessions not stopped and the sessions with an
   active request, and the connection limit holds, also for the session being accepted.
   */
  lemma GaugesExact(ys: seq<System>, es: seq<Event>, i: nat)
    requires IsRun(ys, es) && i < |ys|
    ensures ys[i].connections == |Live(ys[i].sessions)|
    ensures ys[i].inFlight == |Active(ys[i].sessions)|
    ensures 0 <= ys[i].inFlight <= ys[i].connections
    ensures ys[i].connections == |ys[i].registered| + One(ys[i].opening.Some?) <= ys[i].max
  {
    var y := ys[i];
    RunKeepsInv(ys, es, i);
    forall id | id in Active(y.sessions) ensures id in Live(y.sessions) {
      assert S.Inv(y.sessions[id]);
    }
    SubsetCard(Active(y.sessions), Live(y.sessions));
    if y.opening.Some? {
      assert y.opening.value !in y.registered;
      assert Live(y.sessions) == y.registered + {y.opening.value};
    } else {
      assert Live(y.sessions) == y.registered;
    }
  }

  /**
   A connection that arrives is taken exactly if there are fewer than the limit and the server is
   neither draining nor stopped; otherwise, or if the accept failed, nothing changes.
   */
  lemma AcceptedIff(ys: seq<System>, es: seq<Event>, i: nat)
    requires IsRun(ys, es) && i < |es| && es[i].Accepted?
    ensures var (y, z) := (ys[i], ys[i + 1]);
            var taken := !es[i].failed && !y.stopped && !y.draining && y.connections < y.max;
            && (taken ==>
                  && z.connections == y.connections + 1 && z.opening == Some(y.nextId)
                  && y.nextId !in y.sessions
                  && z.sessions == y.sessions[y.nextId := S.Session(y.tls, S.Created, false, false, false, false, 0,
                                                                    multiset{}, [])])
            && (!taken ==> z == y)
  {
    GaugesExact(ys, es, i);
    RunKeepsInv(ys, es, i);
    assert Stepped(ys, es, i);
  }

  /** The accept handler's fallback for a full table is never taken: it looked just before. */
  lemma RegistrationSucceeds(ys: seq<System>, es: seq<Event>, i: nat)
    requires IsRun(ys, es) && i < |es| && es[i].Registered?
    ensures ys[i].opening.Some? && ys[i + 1].registered == ys[i].registered + {ys[i].opening.value}
    ensures Message(ys[i].opening.value, S.Start) in ys[i + 1].signals
  {
    RunKeepsInv(ys, es, i);
    assert Stepped(ys, es, i);
  }

  /** Every registered session has its start still to come or exactly one operation outstanding. */
  lemma NobodyStranded(ys: seq<System>, es: seq<Event>, i: nat, id: nat)
    requires IsRun(ys, es) && i < |ys| && id in ys[i].registered
    ensures id in ys[i].sessions
    ensures Message(id, S.Start) in ys[i].signals || |ys[i].sessions[id].ops| == 1
  {
    RunKeepsInv(ys, es, i);
    assert S.Inv(ys[i].sessions[id]);
  }

  /** Once the server has stopped and its stop signals have run, nothing is left open. */
  lemma StopEmptiesServer(ys: seq<System>, es: seq<Event>, i: nat)
    requires IsRun(ys, es) && i < |ys| && ys[i].stopped
    requires forall m :: m in ys[i].signals ==> !m.signal.Stop?
    ensures ys[i].registered == {} && ys[i].connections == 0 && ys[i].inFlight == 0
  {
    RunKeepsInv(ys, es, i);
    forall id
      ensures id in ys[i].registered ==> Message(id, S.Stop) in ys[i].signals && Message(id, S.Stop).signal.Stop?
    {
    }
  }

  /** A draining server with no signal and no operation outstanding has no connection left. */
  lemma QuietDrainIsEmpty(ys: seq<System>, es: seq<Event>, i: nat)
    requires IsRun(ys, es) && i < |ys| && ys[i].draining && ys[i].signals == {}
    requires forall id :: id in ys[i].sessions ==> ys[i].sessions[id].ops == multiset{}
    ensures ys[i].registered == {} && ys[i].connections == 0 && ys[i].inFlight == 0
  {
    RunKeepsInv(ys, es, i);
    forall id ensures id !in ys[i].registered {
      if id in ys[i].registered { NobodyStranded(ys, es, i, id); }
    }
  }

  lemma DrainingStepKeeps(y: System, e: Event)
    requires Inv(y) && Enabled(y, e) && y.draining
    ensures SysStep(y, e).draining && SysStep(y, e).sessions.Keys == y.sessions.Keys
    ensures SysStep(y, e).registered <= y.registered && SysStep(y, e).connections <= y.connections
  {
    hide S.Step;
  }

  /** Once draining has begun no session is made: the connections only go down. */
  lemma {:induction false} NoNewConnections(ys: seq<System>, es: seq<Event>, i: nat, j: nat)
    requires IsRun(ys, es) && i <= j < |ys| && ys[i].draining
    ensures ys[j].draining && ys[j].sessions.Keys == ys[i].sessions.Keys
    ensures ys[j].registered <= ys[i].registered && ys[j].connections <= ys[i].connections
  {
    hide Inv, SysStep;
    if i < j {
      NoNewConnections(ys, es, i, j - 1);
      RunKeepsInv(ys, es, j - 1);
      assert Stepped(ys, es, j - 1);
      DrainingStepKeeps(ys[j - 1], es[j - 1]);
    }
  }

  // ----- the drain ends -----

  /** A posted signal runs, or a session that was told to drain or stop has a callback. */
  predicate Winding(y: System, e: Event) {
    match e
    case Deliver(_) => true
    case Callback(id, _) => id in y.sessions && (y.sessions[id].draining || y.sessions[id].stopped)
    case _ => false
  }

  ghost function WorkBelow(sessions: map<nat, Session>, n: nat): nat {
    if n == 0 then 0 else WorkBelow(sessions, n - 1) + if n - 1 in sessions then S.Work(sessions[n - 1]) else 0
  }

  /** What a draining server still has to do: its signals, those of a stop to come, and its sessions' work. */
  ghost function Left(y: System): nat {
    |y.signals| + (if y.stopped then 0 else |y.registered|) + WorkBelow(y.sessions, y.nextId)
  }

  lemma {:induction false} WorkAfter(sessions: map<nat, Session>, id: nat, t: Session, n: nat)
    requires id in sessions
    ensures WorkBelow(sessions[id := t], n)
         == WorkBelow(sessions, n) + if id < n then S.Work(t) - S.Work(sessions[id]) else 0
  {
    hide S.Work;
    if n > 0 { WorkAfter(sessions, id, t, n - 1); }
  }

  lemma SessionStepWorks(y: System, id: nat, e: S.Event)
    requires id in y.sessions && id < y.nextId && S.Inv(y.sessions[id]) && S.Enabled(y.sessions[id], e)
    ensures var z := SessionStep(y, id, e); var s := y.sessions[id];
            WorkBelow(z.sessions, z.nextId) + (if e.Done? && (s.draining || s.stopped) then 1 else 0)
            <= WorkBelow(y.sessions, y.nextId)
    ensures |SessionStep(y, id, e).registered| <= |y.registered|
  {
    hide S.Step, S.Inv, S.Enabled, S.Work;
    S.StepWorks(y.sessions[id], e);
    WorkAfter(y.sessions, id, S.Step(y.sessions[id], e), y.nextId);
    SubsetCard(y.registered - {id}, y.registered);
  }

  lemma {:induction false} ToAllCard(ids: set<nat>, signal: S.Event)
    ensures |ToAll(ids, signal)| <= |ids|
    decreases |ids|
  {
    if ids == {} {
      assert ToAll(ids, signal) == {};
    } else {
      var id :| id in ids;
      ToAllCard(ids - {id}, signal);
      assert ToAll(ids, signal) == ToAll(ids - {id}, signal) + {Message(id, signal)};
    }
  }

  lemma StoppingLeft(y: System)
    ensures Left(Stopping(y)) <= Left(y)
  {
    ToAllCard(y.registered, S.Stop);
    SubsetCard(y.signals - ToAll(y.registered, S.Stop), y.signals);
    assert y.signals + ToAll(y.registered, S.Stop)
        == (y.signals - ToAll(y.registered, S.Stop)) + ToAll(y.registered, S.Stop);
  }

  lemma DrainingStepWorks(y: System, e: Event)
    requires Inv(y) && Enabled(y, e) && y.draining
    ensures Left(SysStep(y, e)) + (if Winding(y, e) then 1 else 0) <= Left(y)
  {
    hide S.Step, S.Work, WorkBelow;
    match e
    case StopServer => StoppingLeft(y);
    case Deliver(m) => SessionStepWorks(y.(signals := y.signals - {m}), m.id, m.signal);
    case Callback(id, c) => SessionStepWorks(y, id, S.Done(c));
    case _ =>
  }

  function WindingSteps(ys: seq<System>, es: seq<Event>, i: nat, j: nat): nat
    requires i <= j <= |es| < |ys|
  {
    if i == j then 0 else WindingSteps(ys, es, i, j - 1) + if Winding(ys[j - 1], es[j - 1]) then 1 else 0
  }

  /**
   From the beginning of a drain on, in any run, the posted signals and the callbacks of sessions
   that were told to drain or stop take at most `Left` further steps.
   */
  lemma {:induction false} DrainIsBounded(ys: seq<System>, es: seq<Event>, i: nat, j: nat)
    requires IsRun(ys, es) && i <= j < |ys| && ys[i].draining
    ensures WindingSteps(ys, es, i, j) + Left(ys[j]) <= Left(ys[i])
  {
    hide Inv, SysStep, Left, Winding;
    if i < j {
      DrainIsBounded(ys, es, i, j - 1);
      NoNewConnections(ys, es, i, j - 1);
      RunKeepsInv(ys, es, j - 1);
      assert Stepped(ys, es, j - 1);
      DrainingStepWorks(ys[j - 1], es[j - 1]);
    }
  }

  function CompletionOf(op: S.Op): (c: S.Completion)
    ensures S.OpOf(c) == op
  {
    match op
    case HandshakeOp => S.HandshakeDone(false)
    case ReadOp => S.ReadDone(S.ReadFailed)
    case WorkOp => S.WorkDone(true)
    case WriteOp(close) => S.WriteDone(close, false)
    case ShutdownOp => S.ShutdownDone
  }

  /** While a draining server has a connection, one of those steps is possible, so when they are over it has none. */
  lemma DrainNeverBlocks(ys: seq<System>, es: seq<Event>, i: nat)
    requires IsRun(ys, es) && i < |ys| && ys[i].draining && ys[i].connections > 0
    ensures exists e :: Enabled(ys[i], e) && Winding(ys[i], e)
  {
    var y := ys[i];
    GaugesExact(ys, es, i);
    RunKeepsInv(ys, es, i);
    assert y.opening.None?;
    var id :| id in y.registered;
    NobodyStranded(ys, es, i, id);
    var e;
    if m :| m in y.signals {
      e := Deliver(m);
    } else {
      assert Message(id, S.Drain) !in y.signals && Message(id, S.Stop) !in y.signals;
      var op :| op in y.sessions[id].ops;
      e := Callback(id, CompletionOf(op));
    }
    assert Enabled(y, e) && Winding(y, e);
  }

  // ----- the server's sessions are runs of the session machine -----

  /** What a server event is to one session. */
  function EventOf(e: Event, id: nat): seq<S.Event> {
    match e
    case Deliver(m) => if m.id == id then [m.signal] else []
    case Callback(i, c) => if i == id then [S.Done(c)] else []
    case _ => []
  }

  function EventsOf(es: seq<Event>, id: nat, n: nat): seq<S.Event>
    requires n <= |es|
  {
    if n == 0 then [] else EventsOf(es, id, n - 1) + EventOf(es[n - 1], id)
  }

  lemma {:induction false} EventsOfGrow(es: seq<Event>, id: nat, i: nat, n: nat)
    requires i <= n <= |es|
    ensures EventsOf(es, id, i) <= EventsOf(es, id, n)
  {
    if i < n { EventsOfGrow(es, id, i, n - 1); }
  }

  /** The session's own states: those at the points where it takes a step. */
  ghost function StatesOf(ys: seq<System>, es: seq<Event>, id: nat, n: nat): seq<Session>
    requires n <= |es| < |ys| && id in ys[n].sessions
  {
    if n == 0 || id !in ys[n - 1].sessions then [ys[n].sessions[id]]
    else if EventOf(es[n - 1], id) == [] then StatesOf(ys, es, id, n - 1)
    else StatesOf(ys, es, id, n - 1) + [ys[n].sessions[id]]
  }

  // A step leaves a session alone, makes it, or is one event of its machine.
  lemma StepOnSession(y: System, e: Event, id: nat)
    requires Inv(y) && Enabled(y, e)
    ensures var z := SysStep(y, e);
            && z.tls == y.tls
            && (id in y.sessions ==>
                  && id in z.sessions
                  && (EventOf(e, id) == [] ==> z.sessions[id] == y.sessions[id])
                  && (EventOf(e, id) != [] ==>
                        && EventOf(e, id) == [EventOf(e, id)[0]]
                        && S.Enabled(y.sessions[id], EventOf(e, id)[0])
                        && z.sessions[id] == S.Step(y.sessions[id], EventOf(e, id)[0])))
            && (id !in y.sessions ==> EventOf(e, id) == [])
            && (id !in y.sessions && id in z.sessions ==> z.sessions[id] == S.Fresh(y.tls))
  {
    hide S.Step, S.Fresh;
  }

  lemma {:induction false} SameTls(ys: seq<System>, es: seq<Event>, n: nat)
    requires IsRun(ys, es) && n < |ys|
    ensures ys[n].tls == ys[0].tls
  {
    if n > 0 {
      SameTls(ys, es, n - 1);
      RunKeepsInv(ys, es, n - 1);
      assert Stepped(ys, es, n - 1);
      StepOnSession(ys[n - 1], es[n - 1], 0);
    }
  }

  lemma {:induction false} NoEventsBefore(ys: seq<System>, es: seq<Event>, id: nat, n: nat)
    requires IsRun(ys, es) && n < |ys| && id !in ys[n].sessions
    ensures EventsOf(es, id, n) == []
  {
    if n > 0 {
      RunKeepsInv(ys, es, n - 1);
      assert Stepped(ys, es, n - 1);
      StepOnSession(ys[n - 1], es[n - 1], id);
      NoEventsBefore(ys, es, id, n - 1);
    }
  }

  /**
   In any run of the server each session goes through a run of the session machine, made of the
   signals delivered to it and of its own callbacks.
   */
  lemma {:induction false} SessionsProject(ys: seq<System>, es: seq<Event>, id: nat, n: nat)
    requires IsRun(ys, es) && n < |ys| && id in ys[n].sessions
    ensures var ss, evs := StatesOf(ys, es, id, n), EventsOf(es, id, n);
            |ss| == |evs| + 1 && S.IsRun(ss, evs) && ss[|evs|] == ys[n].sessions[id]
  {
    hide Inv, SysStep, Enabled, S.Step, S.Enabled, S.IsRun, S.Fresh;
    assert n > 0;
    var y, e := ys[n - 1], es[n - 1];
    RunKeepsInv(ys, es, n - 1);
    SameTls(ys, es, n - 1);
    assert Stepped(ys, es, n - 1);
    StepOnSession(y, e, id);
    if id !in y.sessions {
      NoEventsBefore(ys, es, id, n - 1);
      FreshRun(y.tls);
    } else {
      SessionsProject(ys, es, id, n - 1);
      var ss, evs := StatesOf(ys, es, id, n - 1), EventsOf(es, id, n - 1);
      if EventOf(e, id) == [] {
        assert evs + [] == evs;
      } else {
        RunGrows(ss, evs, ys[n].sessions[id], EventOf(e, id)[0]);
      }
    }
  }

  lemma FreshRun(tls: bool)
    ensures S.IsRun([S.Fresh(tls)], [])
  {
  }

  lemma RunGrows(ss: seq<Session>, evs: seq<S.Event>, t: Session, e: S.Event)
    requires |ss| == |evs| + 1 && S.IsRun(ss, evs) && S.Enabled(ss[|evs|], e) && t == S.Step(ss[|evs|], e)
    ensures S.IsRun(ss + [t], evs + [e])
  {
    hide S.Step, S.Enabled;
    forall i: nat | i < |evs + [e]| ensures S.Stepped(ss + [t], evs + [e], i) {
      if i < |evs| { assert S.Stepped(ss, evs, i); }
    }
  }

  lemma {:induction false} StatesOfGrow(ys: seq<System>, es: seq<Event>, id: nat, i: nat, n: nat)
    requires IsRun(ys, es) && i <= n < |ys| && id in ys[i].sessions
    ensures id in ys[n].sessions && StatesOf(ys, es, id, i) <= StatesOf(ys, es, id, n)
  {
    hide Inv, SysStep, Enabled, S.Step, S.Enabled, S.Fresh;
    if i < n {
      StatesOfGrow(ys, es, id, i, n - 1);
      RunKeepsInv(ys, es, n - 1);
      assert Stepped(ys, es, n - 1);
      StepOnSession(ys[n - 1], es[n - 1], id);
    }
  }

  /**
   So in the server, too, a session reads at most one more request once its drain flag is set, and
   one that has stopped never changes again but for callbacks that drain away.
   */
  lemma SessionsStayWithinLimits(ys: seq<System>, es: seq<Event>, id: nat, i: nat, j: nat)
    requires IsRun(ys, es) && i <= j < |ys| && id in ys[i].sessions
    ensures id in ys[j].sessions
    ensures ys[i].sessions[id].draining ==> ys[j].sessions[id].completed <= ys[i].sessions[id].completed + 1
    ensures ys[i].sessions[id].stopped ==>
              && ys[j].sessions[id].ops <= ys[i].sessions[id].ops
              && ys[j].sessions[id].(ops := ys[i].sessions[id].ops) == ys[i].sessions[id]
  {
    StatesOfGrow(ys, es, id, i, j);
    SessionsProject(ys, es, id, i);
    SessionsProject(ys, es, id, j);
    EventsOfGrow(es, id, i, j);
    var ss, evs := StatesOf(ys, es, id, j), EventsOf(es, id, j);
    var at := |EventsOf(es, id, i)|;
    hide IsRun, StatesOf, EventsOf;
    assert ss[at] == ys[i].sessions[id];
    if ys[i].sessions[id].draining { S.AtMostOneReadAfterDrain(ss, evs, at, |evs|); }
    if ys[i].sessions[id].stopped { S.NothingAfterStop(ss, evs, at, |evs|); }
  }

  // ----- the server as an object -----

  class Server {
    const tls: bool
    const max: nat
    var sessions: map<nat, Session>
    var registered: set<nat>
    var signals: set<Message>
    var draining: bool
    var stopped: bool
    var opening: Option<nat>
    var nextId: nat
    var connections: int
    var inFlight: int

    function View(): System
      reads this
    {
      System(tls, max, sessions, registered, signals, draining, stopped, opening, nextId, connections, inFlight)
    }

    constructor (tls: bool, max: nat)
      ensures View() == Initial(tls, max) && Inv(View())
    {
      this.tls, this.max := tls, max;
      sessions, registered, signals, draining, stopped := map[], {}, {}, false, false;
      opening, nextId, connections, inFlight := None, 0, 0, 0;
      new;
      InitialInv(tls, max);
    }

    /** The loop of drain_all and stop_all over a snapshot of the table. */
    method SignalAll(signal: S.Event)
      modifies this`signals
      ensures signals == old(signals) + ToAll(registered, signal)
    {
      var snapshot := registered;
      assert registered - snapshot == {};
      hide ToAll;
      while snapshot != {}
        invariant snapshot <= registered
        invariant signals == old(signals) + ToAll(registered - snapshot, signal)
        decreases |snapshot|
      {
        var id :| id in snapshot;
        assert registered - (snapshot - {id}) == (registered - snapshot) + {id};
        snapshot := snapshot - {id};
        signals := signals + {Message(id, signal)};
      }
      assert registered - {} == registered;
    }

    method DoBeginDraining()
      requires Inv(View()) && Enabled(View(), BeginDraining)
      modifies this
      ensures Inv(View()) && View() == SysStep(old(View()), BeginDraining)
    {
      StepKeepsInv(View(), BeginDraining);
      hide Inv;
      if draining || stopped { return; }
      draining := true;
      SignalAll(S.Drain);
    }

    method DoStop()
      requires Inv(View()) && Enabled(View(), StopServer)
      modifies this
      ensures Inv(View()) && View() == SysStep(old(View()), StopServer)
    {
      StepKeepsInv(View(), StopServer);
      hide Inv;
      if stopped { return; }
      draining := true;
      stopped := true;
      SignalAll(S.Stop);
    }

    method HandleAccept(failed: bool)
      requires Inv(View()) && Enabled(View(), Accepted(failed))
      modifies this
      ensures Inv(View()) && View() == SysStep(old(View()), Accepted(failed))
    {
      StepKeepsInv(View(), Accepted(failed));
      hide Inv;
      if failed || stopped || draining { return; }
      if |registered| >= max { return; }
      sessions := sessions[nextId := S.Fresh(tls)];
      connections := connections + 1;
      opening := Some(nextId);
      nextId := nextId + 1;
    }

    method RegisterSession() returns (inserted: bool)
      requires Enabled(View(), Registered)
      modifies this
      ensures inserted == (|old(registered)| < max) && View() == SysStep(old(View()), Registered)
      ensures old(Inv(View())) ==> inserted && Inv(View())
    {
      if Inv(View()) { RegisterKeepsInv(View()); }
      hide Inv;
      var id := opening.value;
      opening := None;
      inserted := |registered| < max;
      if inserted {
        registered := registered + {id};
        signals := signals + {Message(id, S.Start)};
      } else {
        signals := signals + {Message(id, S.Stop)};
      }
    }
  }
}
