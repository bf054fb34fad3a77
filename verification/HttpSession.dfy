/**
 One HTTP connection as a callback-driven machine. The plain session and the TLS session are the
 same machine but for the handshake and the shutdown exchange, so `tls` tells them apart. All
 callbacks of a session run on its strand, one at a time and in any order.

 The machine comes first, with its invariant and the theorems about its runs. The class at the end
 does its steps in place, together with the gauges and the connection manager.
 */
module HttpSession {
  import opened Common
  import UriText

  datatype Phase = Created | Handshaking | Reading | Processing | Writing | ShuttingDown | Stopped

  /** Asynchronous operations; each ends in exactly one callback, also after a cancellation. */
  datatype Op = HandshakeOp | ReadOp | WorkOp | WriteOp(shouldClose: bool) | ShutdownOp

  /**
   `ops` are the operations started whose callback has not run yet, and `responses` the responses
   handed to a write so far, true for one that announces the end of the connection.
   */
  datatype Session = Session(
    tls: bool,
    phase: Phase,
    started: bool,
    stopped: bool,
    draining: bool,
    requestActive: bool,
    completed: nat,
    ops: multiset<Op>,
    responses: seq<bool>)

  datatype ReadResult = Request(target: string, accepted: bool) | TooLarge | ReadFailed

  datatype Completion =
    | HandshakeDone(ok: bool)
    | ReadDone(result: ReadResult)
    | WorkDone(needEof: bool)
    | WriteDone(shouldClose: bool, ok: bool)
    | ShutdownDone

  datatype Event = Start | Drain | Stop | Done(completion: Completion)

  function Fresh(tls: bool): Session {
    Session(tls, Created, false, false, false, false, 0, multiset{}, [])
  }

  function OpOf(c: Completion): Op {
    match c
    case HandshakeDone(_) => HandshakeOp
    case ReadDone(_) => ReadOp
    case WorkDone(_) => WorkOp
    case WriteDone(close, _) => WriteOp(close)
    case ShutdownDone => ShutdownOp
  }

  predicate AllowedDuringDrain(target: string) {
    UriText.PathOf(target) == "/ready" || UriText.PathOf(target) == "/metrics"
  }

  // ----- the callbacks -----

  function Disconnected(s: Session): Session {
    if s.stopped then s else s.(phase := Stopped, stopped := true, requestActive := false)
  }

  function Begin(s: Session, phase: Phase, op: Op): Session {
    s.(phase := phase, ops := s.ops + multiset{op})
  }

  /** send_response: while draining every response closes the connection. */
  function Sending(s: Session, needEof: bool): Session {
    var close := needEof || s.draining;
    Begin(s, Writing, WriteOp(close)).(responses := s.responses + [close])
  }

  function OnStart(s: Session): Session {
    if s.started || s.stopped then s
    else if s.tls then Begin(s.(started := true), Handshaking, HandshakeOp)
    else Begin(s.(started := true), Reading, ReadOp)
  }

  function OnDrain(s: Session): Session {
    if s.draining || s.stopped then s
    else if s.phase == Created || s.phase == Handshaking then Disconnected(s.(draining := true))
    else s.(draining := true)
  }

  function OnHandshake(s: Session, ok: bool): Session {
    if ok then Begin(s, Reading, ReadOp) else Disconnected(s)
  }

  function OnRead(s: Session, result: ReadResult): Session {
    match result
    case Request(target, accepted) =>
      var t := s.(completed := s.completed + 1, phase := Processing, requestActive := true);
      if t.draining && !AllowedDuringDrain(target) then Sending(t, true)
      else if accepted then Begin(t, Processing, WorkOp)
      else Sending(t, true)
    case TooLarge => Sending(s, true)
    case ReadFailed => Disconnected(s)
  }

  function OnWrite(s: Session, shouldClose: bool, ok: bool): Session {
    var t := s.(requestActive := false);
    if !ok then Disconnected(t)
    else if !shouldClose then Begin(t, Reading, ReadOp)
    else if t.tls then Begin(t, ShuttingDown, ShutdownOp)
    else Disconnected(t)
  }

  function OnDone(s: Session, c: Completion): Session {
    var t := s.(ops := s.ops - multiset{OpOf(c)});
    if t.stopped then t
    else
      match c
      case HandshakeDone(ok) => OnHandshake(t, ok)
      case ReadDone(result) => OnRead(t, result)
      case WorkDone(needEof) => Sending(t, needEof)
      case WriteDone(close, ok) => OnWrite(t, close, ok)
      case ShutdownDone => Disconnected(t)
  }

  predicate Enabled(s: Session, e: Event) {
    e.Done? ==> OpOf(e.completion) in s.ops
  }

  function Step(s: Session, e: Event): Session {
    match e
    case Start => OnStart(s)
    case Drain => OnDrain(s)
    case Stop => Disconnected(s)
    case Done(c) => OnDone(s, c)
  }

  // ----- the invariant -----

  /** The one operation that matches a phase, and how many responses it goes with. */
  ghost predicate PhaseMatches(s: Session) {
    match s.phase
    case Created => !s.started && s.ops == multiset{} && s.responses == [] && s.completed == 0
    case Handshaking => s.tls && s.started && s.ops == multiset{HandshakeOp} && s.responses == [] && s.completed == 0
    case Reading => s.started && s.ops == multiset{ReadOp} && |s.responses| == s.completed && !Closing(s)
    case Processing => s.started && s.ops == multiset{WorkOp} && |s.responses| + 1 == s.completed && !Closing(s)
    case Writing =>
      s.started && s.responses != [] && s.ops == multiset{WriteOp(Closing(s))} && AnsweredOnce(s)
    case ShuttingDown => s.tls && s.started && s.ops == multiset{ShutdownOp} && Closing(s) && AnsweredAtMostOnce(s)
    case Stopped => |s.ops| <= 1 && AnsweredAtMostOnce(s)
  }

  /** Some response has announced the end of the connection; it can only have been the last. */
  predicate Closing(s: Session) {
    s.responses != [] && s.responses[|s.responses| - 1]
  }

  /** A response being written answers the active request, or is a final protocol error. */
  predicate AnsweredOnce(s: Session) {
    if s.requestActive then |s.responses| == s.completed else |s.responses| == s.completed + 1 && Closing(s)
  }

  /** The last request may have gone unanswered, and one protocol error may have been added. */
  predicate AnsweredAtMostOnce(s: Session) {
    s.completed <= |s.responses| + 1 <= s.completed + 2
  }

  ghost predicate Inv(s: Session) {
    && (s.stopped <==> s.phase == Stopped)
    && PhaseMatches(s)
    && (forall i :: 0 <= i < |s.responses| - 1 ==> !s.responses[i])
    && (s.phase == Processing ==> s.requestActive)
    && (s.requestActive ==> s.phase == Processing || s.phase == Writing)
    && (s.draining && !s.stopped ==> s.phase != Created && s.phase != Handshaking)
  }

  /** How many more requests a draining session can still read. */
  ghost function ReadsLeft(s: Session): nat {
    if s.phase == Reading || (s.phase == Writing && !Closing(s)) then 1 else 0
  }

  /** How many more callbacks a draining session can still need before it stops. */
  ghost function Rank(s: Session): nat {
    match s.phase
    case Writing => if Closing(s) then 2 else 5
    case Reading => 4
    case Processing => 3
    case ShuttingDown => 1
    case _ => 0
  }

  function PhaseOf(op: Op): Phase {
    match op
    case HandshakeOp => Handshaking
    case ReadOp => Reading
    case WorkOp => Processing
    case WriteOp(_) => Writing
    case ShutdownOp => ShuttingDown
  }

  lemma SingleOp(op: Op)
    ensures multiset{op} - multiset{op} == multiset{} && multiset{} + multiset{op} == multiset{op}
  {
  }

  // In a live session an operation that can complete is the only one, and tells the phase.
  lemma OpTellsPhase(s: Session, op: Op)
    requires Inv(s) && op in s.ops && !s.stopped
    ensures s.ops == multiset{op} && s.ops - multiset{op} == multiset{} && s.phase == PhaseOf(op)
    ensures op.WriteOp? ==> op.shouldClose == Closing(s)
  {
    match s.phase {
      case Created => assert false;
      case Handshaking => SingleOp(HandshakeOp);
      case Reading => SingleOp(ReadOp);
      case Processing => SingleOp(WorkOp);
      case Writing => SingleOp(WriteOp(Closing(s)));
      case ShuttingDown => SingleOp(ShutdownOp);
    }
  }

  // Between taking a callback's operation off and starting the next, none is outstanding.
  ghost predicate Idle(s: Session) {
    !s.stopped && s.ops == multiset{} && s.started && (forall i :: 0 <= i < |s.responses| - 1 ==> !s.responses[i])
  }

  lemma DisconnectKeepsInv(s: Session)
    requires !s.stopped && |s.ops| <= 1 && AnsweredAtMostOnce(s)
    requires forall i :: 0 <= i < |s.responses| - 1 ==> !s.responses[i]
    ensures Inv(Disconnected(s))
  {
  }

  lemma ReadKeepsInv(s: Session)
    requires Idle(s) && !s.requestActive && |s.responses| == s.completed && !Closing(s)
    ensures Inv(Begin(s, Reading, ReadOp))
  {
    SingleOp(ReadOp);
  }

  lemma SendKeepsInv(s: Session, needEof: bool)
    requires Idle(s) && !Closing(s)
    requires if s.requestActive then |s.responses| + 1 == s.completed else |s.responses| == s.completed && needEof
    ensures Inv(Sending(s, needEof)) && Closing(Sending(s, needEof)) == (needEof || s.draining)
    ensures Sending(s, needEof).phase == Writing
  {
    SingleOp(WriteOp(needEof || s.draining));
  }

  lemma OnReadKeepsInv(s: Session, result: ReadResult)
    requires Idle(s) && !s.requestActive && |s.responses| == s.completed && !Closing(s)
    ensures Inv(OnRead(s, result))
    ensures s.draining ==> ReadsLeft(OnRead(s, result)) == 0 && Rank(OnRead(s, result)) < 4
    ensures OnRead(s, result).completed <= s.completed + 1 && OnRead(s, result).draining == s.draining
  {
    match result {
      case Request(target, accepted) =>
        var t := s.(completed := s.completed + 1, phase := Processing, requestActive := true);
        SendKeepsInv(t, true);
        SingleOp(WorkOp);
      case TooLarge => SendKeepsInv(s, true);
      case ReadFailed => DisconnectKeepsInv(s);
    }
  }

  lemma OnWriteKeepsInv(s: Session, shouldClose: bool, ok: bool)
    requires Idle(s) && shouldClose == Closing(s) && AnsweredOnce(s)
    ensures Inv(OnWrite(s, shouldClose, ok))
  {
    var t := s.(requestActive := false);
    if !ok || (shouldClose && !s.tls) { DisconnectKeepsInv(t); }
    else if !shouldClose { ReadKeepsInv(t); }
    else { SingleOp(ShutdownOp); }
  }

  // What a callback of a live session finds once its own operation is off the books.
  lemma Resumes(s: Session, op: Op)
    requires Inv(s) && op in s.ops && !s.stopped
    ensures s.phase == PhaseOf(op) && Idle(s.(ops := s.ops - multiset{op}))
    ensures AnsweredAtMostOnce(s)
    ensures op.HandshakeOp? || op.ReadOp? ==> !s.requestActive && |s.responses| == s.completed && !Closing(s)
    ensures op.HandshakeOp? ==> !s.draining
    ensures op.WorkOp? ==> s.requestActive && |s.responses| + 1 == s.completed && !Closing(s)
    ensures op.WriteOp? ==> op.shouldClose == Closing(s) && AnsweredOnce(s)
  {
    OpTellsPhase(s, op);
  }

  lemma SignalKeepsInv(s: Session, e: Event)
    requires Inv(s) && !e.Done?
    ensures Inv(Step(s, e))
  {
    match e {
      case Start => SingleOp(HandshakeOp); SingleOp(ReadOp);
      case Drain => if !s.stopped { DisconnectKeepsInv(s.(draining := true)); }
      case Stop => if !s.stopped { DisconnectKeepsInv(s); }
    }
  }

  lemma DoneKeepsInv(s: Session, c: Completion)
    requires Inv(s) && OpOf(c) in s.ops && !s.stopped
    ensures Inv(OnDone(s, c))
  {
    Resumes(s, OpOf(c));
    hide Inv;
    var t := s.(ops := s.ops - multiset{OpOf(c)});
    match c {
      case HandshakeDone(ok) => if ok { ReadKeepsInv(t); } else { DisconnectKeepsInv(t); }
      case ReadDone(result) => OnReadKeepsInv(t, result);
      case WorkDone(needEof) => SendKeepsInv(t, needEof);
      case WriteDone(close, ok) => OnWriteKeepsInv(t, close, ok);
      case ShutdownDone => DisconnectKeepsInv(t);
    }
  }

  /** Every callback, at any moment it can come, keeps the invariant. */
  lemma StepKeepsInv(s: Session, e: Event)
    requires Inv(s) && Enabled(s, e)
    ensures Inv(Step(s, e))
  {
    if !e.Done? { SignalKeepsInv(s, e); }
    else if !s.stopped { DoneKeepsInv(s, e.completion); }
  }

  lemma InvHasOneOp(s: Session)
    requires Inv(s)
    ensures |s.ops| <= 1 && (s.started && !s.stopped ==> |s.ops| == 1)
    ensures !s.started && !s.stopped <==> s.phase == Created
  {
  }

  /** A stopped session stays stopped, starts no operation, and in particular writes nothing. */
  lemma StoppedStepIsInert(s: Session, e: Event)
    requires s.stopped && Enabled(s, e)
    ensures var t := Step(s, e); t.ops <= s.ops && t.(ops := s.ops) == s
  {
  }

  lemma DrainingDone(s: Session, c: Completion)
    requires Inv(s) && OpOf(c) in s.ops && s.draining && !s.stopped
    ensures var t := OnDone(s, c);
            t.draining && t.completed + ReadsLeft(t) <= s.completed + ReadsLeft(s) && Rank(t) < Rank(s)
  {
    Resumes(s, OpOf(c));
    hide Inv;
    var t := s.(ops := s.ops - multiset{OpOf(c)});
    match c {
      case ReadDone(result) => OnReadKeepsInv(t, result);
      case WorkDone(needEof) => SendKeepsInv(t, needEof);
      case _ =>
    }
  }

  /** Draining is never undone, and the reads and callbacks still to come only shrink. */
  lemma DrainingStep(s: Session, e: Event)
    requires Inv(s) && Enabled(s, e) && s.draining
    ensures var t := Step(s, e);
            && t.draining
            && t.completed + ReadsLeft(t) <= s.completed + ReadsLeft(s)
            && (e.Done? && !s.stopped ==> Rank(t) < Rank(s))
            && Rank(t) <= Rank(s)
  {
    if e.Done? && !s.stopped { DrainingDone(s, e.completion); }
  }

  /** The callbacks and signals a session can still take up once it has been told to drain or stop. */
  ghost function Work(s: Session): nat {
    if s.stopped then |s.ops| else if s.draining then Rank(s) else 5
  }

  /** It never grows, and each callback of a session that was told to drain or stop uses some up. */
  lemma StepWorks(s: Session, e: Event)
    requires Inv(s) && Enabled(s, e)
    ensures Work(Step(s, e)) + (if e.Done? && (s.draining || s.stopped) then 1 else 0) <= Work(s)
  {
    if s.stopped {
      if e.Done? { SingleLeft(s.ops, OpOf(e.completion)); }
    } else if e.Done? {
      OpTellsPhase(s, OpOf(e.completion));
      StoppedIsEmpty(s, e.completion);
      if s.draining { DrainingStep(s, e); }
    } else {
      InvHasOneOp(s);
    }
  }

  lemma SingleLeft(ops: multiset<Op>, op: Op)
    requires op in ops && |ops| <= 1
    ensures |ops - multiset{op}| == 0
  {
  }

  lemma StoppedIsEmpty(s: Session, c: Completion)
    requires !s.stopped && s.ops - multiset{OpOf(c)} == multiset{}
    ensures OnDone(s, c).stopped ==> OnDone(s, c).ops == multiset{}
    ensures !OnDone(s, c).stopped ==> OnDone(s, c).draining == s.draining
  {
  }

  // ----- what a callback of a live session does -----

  /** A good handshake reads the first request, a failed one stops the session. */
  lemma HandshakeIs(s: Session, ok: bool)
    requires Inv(s) && HandshakeOp in s.ops && !s.stopped
    ensures var t := OnDone(s, HandshakeDone(ok));
            (t.stopped <==> !ok) && (ok ==> t.ops == multiset{ReadOp}) && (!ok ==> t.ops == multiset{})
  {
    Resumes(s, HandshakeOp);
  }

  /**
   A failed write stops the session; after a good one it reads on, or ends if the response closed
   the connection, over TLS by a shutdown first. Either way the request is no longer active.
   */
  lemma WriteIs(s: Session, close: bool, ok: bool)
    requires Inv(s) && WriteOp(close) in s.ops && !s.stopped
    ensures var t := OnDone(s, WriteDone(close, ok));
            && !t.requestActive
            && (t.stopped <==> !ok || (close && !s.tls))
            && (ok && !close ==> t.ops == multiset{ReadOp})
            && (ok && close && s.tls ==> t.ops == multiset{ShutdownOp})
  {
    Resumes(s, WriteOp(close));
  }

  /**
   A request is worked on exactly if the worker pool takes it and, during a drain, it is for the
   readiness or the metrics page; otherwise it gets a final response. A failed read stops the session.
   */
  lemma ReadIs(s: Session, result: ReadResult)
    requires Inv(s) && ReadOp in s.ops && !s.stopped
    ensures var t := OnDone(s, ReadDone(result));
            match result
            case Request(target, accepted) =>
              var page := UriText.PathOf(target);
              var worked := accepted && (s.draining ==> page == "/ready" || page == "/metrics");
              && t.completed == s.completed + 1 && t.requestActive && !t.stopped
              && t.ops == (if worked then multiset{WorkOp} else multiset{WriteOp(true)})
            case TooLarge => t.completed == s.completed && t.ops == multiset{WriteOp(true)} && !t.stopped
            case ReadFailed => t.completed == s.completed && t.stopped && t.ops == multiset{}
  {
    Resumes(s, ReadOp);
  }

  /** The worker's response keeps the connection exactly if it does not end it itself and no drain has begun. */
  lemma WorkIs(s: Session, needEof: bool)
    requires Inv(s) && WorkOp in s.ops && !s.stopped
    ensures var t := OnDone(s, WorkDone(needEof)); !t.stopped && t.ops == multiset{WriteOp(needEof || s.draining)}
  {
    Resumes(s, WorkOp);
  }

  // ----- whole runs -----

  ghost predicate Stepped(ss: seq<Session>, es: seq<Event>, i: nat)
    requires i < |es| && |ss| == |es| + 1
  {
    Enabled(ss[i], es[i]) && ss[i + 1] == Step(ss[i], es[i])
  }

  ghost predicate IsRun(ss: seq<Session>, es: seq<Event>) {
    && |ss| == |es| + 1
    && ss[0] == Fresh(ss[0].tls)
    && forall i {:trigger Stepped(ss, es, i)} :: 0 <= i < |es| ==> Stepped(ss, es, i)
  }

  lemma {:induction false} RunKeepsInv(ss: seq<Session>, es: seq<Event>, i: nat)
    requires IsRun(ss, es) && i < |ss|
    ensures Inv(ss[i])
  {
    if i > 0 {
      RunKeepsInv(ss, es, i - 1);
      assert Stepped(ss, es, i - 1);
      StepKeepsInv(ss[i - 1], es[i - 1]);
    }
  }

  /**
   Whatever the order of callbacks, a started session that has not stopped has exactly one
   operation outstanding, the one its phase names.
   */
  lemma OneOutstandingOperation(ss: seq<Session>, es: seq<Event>, i: nat)
    requires IsRun(ss, es) && i < |ss| && ss[i].started && !ss[i].stopped
    ensures |ss[i].ops| == 1
    ensures HandshakeOp in ss[i].ops <==> ss[i].phase == Handshaking
    ensures ReadOp in ss[i].ops <==> ss[i].phase == Reading
    ensures WorkOp in ss[i].ops <==> ss[i].phase == Processing
    ensures WriteOp(true) in ss[i].ops || WriteOp(false) in ss[i].ops <==> ss[i].phase == Writing
    ensures ShutdownOp in ss[i].ops <==> ss[i].phase == ShuttingDown
  {
    RunKeepsInv(ss, es, i);
  }

  /** After stop nothing is read, written or counted any more; callbacks already due only drain away. */
  lemma {:induction false} NothingAfterStop(ss: seq<Session>, es: seq<Event>, i: nat, j: nat)
    requires IsRun(ss, es) && i <= j < |ss| && ss[i].stopped
    ensures ss[j].ops <= ss[i].ops && ss[j].(ops := ss[i].ops) == ss[i]
  {
    hide Step;
    if i < j {
      NothingAfterStop(ss, es, i, j - 1);
      assert Stepped(ss, es, j - 1);
      StoppedStepIsInert(ss[j - 1], es[j - 1]);
    }
  }

  lemma {:induction false} DrainingRun(ss: seq<Session>, es: seq<Event>, i: nat, j: nat)
    requires IsRun(ss, es) && i <= j < |ss| && ss[i].draining
    ensures ss[j].draining && ss[j].completed + ReadsLeft(ss[j]) <= ss[i].completed + ReadsLeft(ss[i])
  {
    hide Inv, Step, ReadsLeft;
    if i < j {
      DrainingRun(ss, es, i, j - 1);
      RunKeepsInv(ss, es, j - 1);
      assert Stepped(ss, es, j - 1);
      DrainingStep(ss[j - 1], es[j - 1]);
    }
  }

  /** Once the drain flag is set at most one more request is read. */
  lemma AtMostOneReadAfterDrain(ss: seq<Session>, es: seq<Event>, i: nat, j: nat)
    requires IsRun(ss, es) && i <= j < |ss| && ss[i].draining
    ensures ss[j].completed <= ss[i].completed + 1
  {
    DrainingRun(ss, es, i, j);
  }

  ghost function Callbacks(es: seq<Event>, i: nat, j: nat): nat
    requires i <= j <= |es|
  {
    if i == j then 0 else Callbacks(es, i, j - 1) + if es[j - 1].Done? then 1 else 0
  }

  lemma RankRange(s: Session)
    ensures Rank(s) <= 5 && (Inv(s) && s.draining && !s.stopped ==> Rank(s) > 0)
  {
  }

  /** A draining session is stopped after at most five more of its own callbacks. */
  lemma {:induction false} DrainTerminates(ss: seq<Session>, es: seq<Event>, i: nat, j: nat)
    requires IsRun(ss, es) && i <= j < |ss| && ss[i].draining
    ensures ss[j].stopped || Callbacks(es, i, j) + Rank(ss[j]) <= Rank(ss[i])
    ensures Callbacks(es, i, j) >= 5 ==> ss[j].stopped
  {
    hide Inv, Step, Enabled, Rank, ReadsLeft;
    RunKeepsInv(ss, es, j);
    DrainingRun(ss, es, i, j);
    RankRange(ss[i]);
    RankRange(ss[j]);
    if i < j {
      DrainTerminates(ss, es, i, j - 1);
      DrainingRun(ss, es, i, j - 1);
      RunKeepsInv(ss, es, j - 1);
      assert Stepped(ss, es, j - 1);
      DrainingStep(ss[j - 1], es[j - 1]);
      if ss[j - 1].stopped { NothingAfterStop(ss, es, j - 1, j); }
    }
  }

  /**
   Every request is answered at most once, only the last one can stay unanswered, and a response
   announcing the end of the connection is the last one written. Responses begun while draining
   all announce it.
   */
  lemma AnswersMatchRequests(ss: seq<Session>, es: seq<Event>, i: nat)
    requires IsRun(ss, es) && i < |ss|
    ensures ss[i].completed - 1 <= |ss[i].responses| <= ss[i].completed + 1
    ensures forall k :: 0 <= k < |ss[i].responses| && ss[i].responses[k] ==> k == |ss[i].responses| - 1
    ensures i > 0 && ss[i - 1].draining && |ss[i - 1].responses| < |ss[i].responses| ==> Closing(ss[i])
  {
    RunKeepsInv(ss, es, i);
    if i > 0 {
      assert Stepped(ss, es, i - 1);
      if ss[i - 1].draining && |ss[i - 1].responses| < |ss[i].responses| {
        DrainedResponseCloses(ss[i - 1], es[i - 1]);
      }
    }
    hide Step;
  }

  lemma DrainedResponseCloses(s: Session, e: Event)
    requires s.draining && |s.responses| < |Step(s, e).responses|
    ensures Closing(Step(s, e))
  {
  }

  // ----- the session as an object -----

  lemma WrittenIs(s: Session, shouldClose: bool, ok: bool)
    ensures var t := s.(ops := s.ops - multiset{WriteOp(shouldClose)});
            OnDone(s, WriteDone(shouldClose, ok)) == if s.stopped then t else OnWrite(t, shouldClose, ok)
  {
  }

  class MetricsRegistry {
    var activeConnections: int
    var inFlightRequests: int

    constructor ()
      ensures activeConnections == 0 && inFlightRequests == 0
    {
      activeConnections, inFlightRequests := 0, 0;
    }
  }

  class ConnectionManager {
    const maxConnections: nat
    var connections: set<Connection>

    ghost predicate Valid()
      reads this
    {
      |connections| <= maxConnections
    }

    constructor (maxConnections: nat)
      ensures this.maxConnections == maxConnections && connections == {} && Valid()
    {
      this.maxConnections := maxConnections;
      connections := {};
    }

    method Add(c: Connection) returns (inserted: bool)
      requires Valid()
      modifies this`connections
      ensures Valid()
      ensures inserted <==> |old(connections)| < maxConnections && c !in old(connections)
      ensures connections == if |old(connections)| < maxConnections then old(connections) + {c} else old(connections)
    {
      if |connections| >= maxConnections { return false; }
      inserted := c !in connections;
      connections := connections + {c};
    }

    method Remove(c: Connection)
      requires Valid()
      modifies this`connections
      ensures Valid() && connections == old(connections) - {c}
    {
      assert connections - {c} <= connections;
      SubsetCard(connections - {c}, connections);
      connections := connections - {c};
    }
  }

  class Connection {
    const tls: bool
    const manager: ConnectionManager
    const metrics: MetricsRegistry
    var phase: Phase
    var started: bool
    var stopped: bool
    var draining: bool
    var requestActive: bool
    var completedRequests: nat
    ghost var ops: multiset<Op>
    ghost var responses: seq<bool>

    ghost function View(): Session
      reads this
    {
      Session(tls, phase, started, stopped, draining, requestActive, completedRequests, ops, responses)
    }

    /** What one callback does: the machine's step, the two gauges, and leaving the manager once. */
    twostate predicate Did(before: Session, after: Session)
      reads this, manager, metrics
    {
      && View() == after
      && metrics.activeConnections == old(metrics.activeConnections)
           - (if after.stopped && !before.stopped then 1 else 0)
      && metrics.inFlightRequests == old(metrics.inFlightRequests)
           + (if after.requestActive then 1 else 0) - (if before.requestActive then 1 else 0)
      && manager.Valid()
      && manager.connections ==
           if after.stopped && !before.stopped then old(manager.connections) - {this} else old(manager.connections)
    }

    constructor (tls: bool, manager: ConnectionManager, metrics: MetricsRegistry)
      modifies metrics
      ensures this.tls == tls && this.manager == manager && this.metrics == metrics
      ensures View() == Fresh(tls) && Inv(View())
      ensures metrics.activeConnections == old(metrics.activeConnections) + 1
      ensures metrics.inFlightRequests == old(metrics.inFlightRequests)
    {
      this.tls, this.manager, this.metrics := tls, manager, metrics;
      phase, started, stopped, draining, requestActive := Created, false, false, false, false;
      completedRequests, ops, responses := 0, multiset{}, [];
      new;
      metrics.activeConnections := metrics.activeConnections + 1;
    }

    method FinishRequest()
      modifies this`requestActive, metrics`inFlightRequests
      ensures View() == old(View()).(requestActive := false)
      ensures metrics.inFlightRequests == old(metrics.inFlightRequests) - (if old(requestActive) then 1 else 0)
    {
      if !requestActive { return; }
      requestActive := false;
      metrics.inFlightRequests := metrics.inFlightRequests - 1;
    }

    method HandleDisconnect()
      requires manager.Valid()
      modifies this, manager`connections, metrics
      ensures Did(old(View()), Disconnected(old(View())))
    {
      if stopped { return; }
      stopped := true;
      phase := Stopped;
      FinishRequest();
      metrics.activeConnections := metrics.activeConnections - 1;
      manager.Remove(this);
    }

    method DoStart()
      modifies this
      ensures View() == Step(old(View()), Start)
    {
      if started || stopped { return; }
      started := true;
      if tls {
        phase, ops := Handshaking, ops + multiset{HandshakeOp};
      } else {
        DoRead();
      }
    }

    method DoDrain()
      requires manager.Valid()
      modifies this, manager`connections, metrics
      ensures Did(old(View()), Step(old(View()), Drain))
    {
      if draining || stopped { return; }
      draining := true;
      if phase == Created || phase == Handshaking { HandleDisconnect(); }
    }

    method DoRead()
      modifies this`phase, this`ops
      ensures View() == if old(stopped) then old(View()) else Begin(old(View()), Reading, ReadOp)
    {
      if stopped { return; }
      phase, ops := Reading, ops + multiset{ReadOp};
    }

    method SendResponse(needEof: bool)
      modifies this`phase, this`ops, this`responses
      ensures View() == if old(stopped) then old(View()) else Sending(old(View()), needEof)
    {
      if stopped { return; }
      var shouldClose := needEof;
      if draining { shouldClose := true; }
      phase, ops, responses := Writing, ops + multiset{WriteOp(shouldClose)}, responses + [shouldClose];
    }

    method HandleHandshake(ok: bool)
      requires manager.Valid() && HandshakeOp in ops
      modifies this, manager`connections, metrics
      ensures Did(old(View()), OnDone(old(View()), HandshakeDone(ok)))
    {
      ops := ops - multiset{HandshakeOp};
      if stopped { return; }
      if !ok {
        HandleDisconnect();
        return;
      }
      DoRead();
    }

    /** handle_request: the worker pool either takes the request or it is refused at once. */
    method HandleRequest(accepted: bool)
      requires !stopped
      modifies this`phase, this`ops, this`responses
      ensures View() == if accepted then Begin(old(View()), old(phase), WorkOp) else Sending(old(View()), true)
    {
      if accepted {
        ops := ops + multiset{WorkOp};
      } else {
        SendResponse(true);
      }
    }

    /** The part of handle_read for a request that arrived whole. */
    method ServeRequest(target: string, accepted: bool)
      requires !stopped && !requestActive
      modifies this, metrics`inFlightRequests
      ensures View() == OnRead(old(View()), Request(target, accepted))
      ensures requestActive && !stopped && metrics.inFlightRequests == old(metrics.inFlightRequests) + 1
    {
      completedRequests := completedRequests + 1;
      phase := Processing;
      requestActive := true;
      metrics.inFlightRequests := metrics.inFlightRequests + 1;
      if draining && !AllowedDuringDrain(target) {
        SendResponse(true);
      } else {
        HandleRequest(accepted);
      }
    }

    method AfterRead(result: ReadResult)
      requires manager.Valid() && !stopped && !requestActive
      modifies this, manager`connections, metrics
      ensures Did(old(View()), OnRead(old(View()), result))
    {
      match result
      case Request(target, accepted) =>
        ServeRequest(target, accepted);
      case TooLarge =>
        SendResponse(true);
      case ReadFailed =>
        HandleDisconnect();
    }

    method HandleRead(result: ReadResult)
      requires manager.Valid() && ReadOp in ops && Inv(View())
      modifies this, manager`connections, metrics
      ensures Did(old(View()), OnDone(old(View()), ReadDone(result)))
    {
      if !stopped { Resumes(View(), ReadOp); }
      hide Inv, OnRead, Sending, Disconnected;
      ghost var after := OnDone(View(), ReadDone(result));
      ops := ops - multiset{ReadOp};
      assert after == if stopped then View() else OnRead(View(), result);
      hide OnDone;
      if !stopped { AfterRead(result); }
    }

    method CompleteRequest(needEof: bool)
      requires manager.Valid() && WorkOp in ops
      modifies this
      ensures Did(old(View()), OnDone(old(View()), WorkDone(needEof)))
    {
      ops := ops - multiset{WorkOp};
      if stopped { return; }
      SendResponse(needEof || draining);
    }

    method AfterWrite(shouldClose: bool, ok: bool)
      requires manager.Valid() && !stopped
      modifies this, manager`connections, metrics
      ensures Did(old(View()), OnWrite(old(View()), shouldClose, ok))
    {
      FinishRequest();
      if !ok {
        HandleDisconnect();
      } else if !shouldClose {
        DoRead();
      } else if tls {
        phase, ops := ShuttingDown, ops + multiset{ShutdownOp};
      } else {
        HandleDisconnect();
      }
    }

    method HandleWritten(shouldClose: bool, ok: bool)
      requires manager.Valid() && WriteOp(shouldClose) in ops
      modifies this, manager`connections, metrics
      ensures Did(old(View()), OnDone(old(View()), WriteDone(shouldClose, ok)))
    {
      hide OnWrite, Disconnected, OnDone;
      WrittenIs(View(), shouldClose, ok);
      ops := ops - multiset{WriteOp(shouldClose)};
      if !stopped { AfterWrite(shouldClose, ok); }
    }

    method HandleTlsShutdown()
      requires manager.Valid() && ShutdownOp in ops
      modifies this, manager`connections, metrics
      ensures Did(old(View()), OnDone(old(View()), ShutdownDone))
    {
      ops := ops - multiset{ShutdownOp};
      if stopped { return; }
      HandleDisconnect();
    }
  }
}
