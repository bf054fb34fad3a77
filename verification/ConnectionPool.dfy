/**
 The database connection pool and its leases; each section of code under the pool mutex is one step.
 Waiting threads are in `blocked` (asleep on the condition variable) or `awake` (woken, with a mark
 for an expired timeout); a lease that has let go but not yet retaken the mutex is in `returning`.
 */
module ConnectionPool {
  import opened Common

  type LeaseId = nat
  type Thread = nat

  /** The destructor: not called, asleep until the pool is idle, woken, or past its wait. */
  datatype Closer = NotClosing | ClosingAsleep | ClosingAwake | Closed

  datatype Pool = Pool(
    size: nat,
    available: seq<nat>,
    shuttingDown: bool,
    active: int,
    waiting: int,
    acquisitions: int,
    timeouts: int,
    leases: map<LeaseId, nat>,
    returning: map<LeaseId, nat>,
    blocked: set<Thread>,
    awake: map<Thread, bool>,
    notifyOne: nat,
    notifyAll: nat,
    closer: Closer)

  datatype Step =
    | Acquire(thread: Thread, lease: LeaseId)
    | Resume(thread: Thread, lease: LeaseId)
    | Timeout(thread: Thread)
    | Spurious(thread: Thread)
    | BeginRelease(lease: LeaseId)
    | EndRelease(lease: LeaseId)
    | Move(from: LeaseId, to: LeaseId)
    | DeliverToThread(thread: Thread)
    | DeliverToCloser
    | DeliverToNobody
    | DeliverAll
    | BeginClose
    | CloserSpurious
    | CloserResume

  predicate FreshLease(p: Pool, lease: LeaseId) { lease !in p.leases && lease !in p.returning }

  predicate Enabled(p: Pool, step: Step) {
    match step
    case Acquire(thread, lease) => thread !in p.blocked && thread !in p.awake && FreshLease(p, lease)
    case Resume(thread, lease) => thread in p.awake && FreshLease(p, lease)
    case Timeout(thread) => thread in p.blocked
    case Spurious(thread) => thread in p.blocked
    case BeginRelease(lease) => lease in p.leases && lease !in p.returning
    case EndRelease(lease) => lease in p.returning
    case Move(from, to) => FreshLease(p, to)
    case DeliverToThread(thread) => p.notifyOne > 0 && thread in p.blocked
    case DeliverToCloser => p.notifyOne > 0 && p.closer.ClosingAsleep?
    case DeliverToNobody => p.notifyOne > 0 && p.blocked == {} && !p.closer.ClosingAsleep?
    case DeliverAll => p.notifyAll > 0
    case BeginClose => p.closer.NotClosing?
    case CloserSpurious => p.closer.ClosingAsleep?
    case CloserResume => p.closer.ClosingAwake?
  }

  /** notify_all: every sleeper, the destructor included, goes to retake the mutex. */
  function WakeAll(p: Pool): Pool {
    p.(blocked := {}, awake := (map t | t in p.awake.Keys + p.blocked :: t in p.awake && p.awake[t]),
       closer := if p.closer.ClosingAsleep? then ClosingAwake else p.closer)
  }

  function WakeThread(p: Pool, thread: Thread, timedOut: bool): Pool {
    p.(blocked := p.blocked - {thread}, awake := p.awake[thread := timedOut])
  }

  /** The end of acquire_connection: the front index becomes a lease. */
  function Take(p: Pool, lease: LeaseId): Pool
    requires p.available != []
  {
    p.(available := p.available[1..], active := p.active + 1, acquisitions := p.acquisitions + 1,
       leases := p.leases[lease := p.available[0]])
  }

  function AfterAcquire(p: Pool, thread: Thread, lease: LeaseId): Pool {
    if p.shuttingDown then p
    else if p.available == [] then p.(waiting := p.waiting + 1, blocked := p.blocked + {thread})
    else Take(p, lease)
  }

  function AfterResume(p: Pool, thread: Thread, lease: LeaseId): Pool
    requires thread in p.awake
  {
    var left := p.(waiting := p.waiting - 1, awake := Without(p.awake, thread));
    if p.shuttingDown then WakeAll(left)
    else if p.available != [] then Take(left, lease)
    else if p.awake[thread] then left.(timeouts := p.timeouts + 1)
    else p.(awake := Without(p.awake, thread), blocked := p.blocked + {thread})
  }

  predicate Idle(p: Pool) { p.active == 0 && p.waiting == 0 }

  function AfterDrop(p: Pool, lease: LeaseId): Pool
    requires lease in p.leases
  {
    p.(leases := Without(p.leases, lease), returning := p.returning[lease := p.leases[lease]])
  }

  function AfterRelease(p: Pool, lease: LeaseId): Pool
    requires lease in p.returning
  {
    p.(available := p.available + [p.returning[lease]], active := p.active - 1,
       returning := Without(p.returning, lease),
       notifyAll := if p.shuttingDown then p.notifyAll + 1 else p.notifyAll,
       notifyOne := if p.shuttingDown then p.notifyOne else p.notifyOne + 1)
  }

  /** Construction from another lease; an inert one has nothing to hand over. */
  function AfterMove(p: Pool, from: LeaseId, to: LeaseId): Pool {
    if from in p.leases then p.(leases := Without(p.leases, from)[to := p.leases[from]]) else p
  }

  function AfterClose(p: Pool): Pool {
    WakeAll(p).(shuttingDown := true, closer := if Idle(p) then Closed else ClosingAsleep)
  }

  function Apply(p: Pool, step: Step): Pool
    requires Enabled(p, step)
  {
    match step
    case Acquire(thread, lease) => AfterAcquire(p, thread, lease)
    case Resume(thread, lease) => AfterResume(p, thread, lease)
    case Timeout(thread) => WakeThread(p, thread, true)
    case Spurious(thread) => WakeThread(p, thread, false)
    case BeginRelease(lease) => AfterDrop(p, lease)
    case EndRelease(lease) => AfterRelease(p, lease)
    case Move(from, to) => AfterMove(p, from, to)
    case DeliverToThread(thread) => WakeThread(p, thread, false).(notifyOne := p.notifyOne - 1)
    case DeliverToCloser => p.(notifyOne := p.notifyOne - 1, closer := ClosingAwake)
    case DeliverToNobody => p.(notifyOne := p.notifyOne - 1)
    case DeliverAll => WakeAll(p).(notifyAll := p.notifyAll - 1)
    case BeginClose => AfterClose(p)
    case CloserSpurious => p.(closer := ClosingAwake)
    case CloserResume => p.(closer := if Idle(p) then Closed else ClosingAsleep)
  }

  function Initial(size: nat): Pool {
    Pool(size, seq(size, i => i), false, 0, 0, 0, 0, map[], map[], {}, map[], 0, 0, NotClosing)
  }

  // ----- the invariant -----

  ghost predicate Injective(m: map<LeaseId, nat>, size: nat) {
    && (forall l <- m :: m[l] < size)
    && (forall a <- m, b <- m :: a != b ==> m[a] != m[b])
  }

  ghost predicate Apart(m: map<LeaseId, nat>, n: map<LeaseId, nat>) {
    forall a <- m, b <- n :: m[a] != n[b]
  }

  /** No index is in two places; with the counts below, that makes the three places a partition. */
  ghost predicate Exclusive(size: nat, available: seq<nat>, leases: map<LeaseId, nat>, returning: map<LeaseId, nat>) {
    && (forall i <- available :: i < size)
    && (forall i, j :: 0 <= i < j < |available| ==> available[i] != available[j])
    && Injective(leases, size) && Injective(returning, size)
    && Apart(leases, returning)
    && (forall l <- leases :: leases[l] !in available)
    && (forall l <- returning :: returning[l] !in available)
  }

  ghost predicate Gauges(p: Pool) {
    && p.active == |p.leases| + |p.returning|
    && p.waiting == |p.blocked| + |p.awake|
    && |p.available| + p.active == p.size
    && p.leases.Keys !! p.returning.Keys
    && p.blocked !! p.awake.Keys
  }

  ghost predicate Wakeups(p: Pool) {
    && p.shuttingDown == !p.closer.NotClosing?
    && (p.shuttingDown ==> p.blocked == {})
    && (!p.shuttingDown ==> p.notifyAll == 0)
    && (p.blocked != {} ==> |p.available| <= p.notifyOne + |p.awake|)
    && (p.closer.ClosingAsleep? && Idle(p) ==> p.notifyAll > 0)
    && (p.closer.Closed? ==> Idle(p))
  }

  ghost predicate Inv(p: Pool) { Exclusive(p.size, p.available, p.leases, p.returning) && Gauges(p) && Wakeups(p) }

  lemma InitialInv(size: nat)
    ensures Inv(Initial(size))
  {
  }

  lemma WakeAllCard(p: Pool)
    requires p.blocked !! p.awake.Keys
    ensures WakeAll(p).awake.Keys == p.awake.Keys + p.blocked
    ensures |WakeAll(p).awake| == |p.awake| + |p.blocked|
  {
    assert WakeAll(p).awake.Keys == p.awake.Keys + p.blocked;
    assert |p.awake.Keys + p.blocked| == |p.awake.Keys| + |p.blocked|;
    assert |WakeAll(p).awake.Keys| == |WakeAll(p).awake|;
  }

  lemma TakeKeepsExclusive(size: nat, available: seq<nat>, leases: map<LeaseId, nat>, returning: map<LeaseId, nat>,
                           lease: LeaseId)
    requires Exclusive(size, available, leases, returning) && lease !in leases && lease !in returning && available != []
    ensures Exclusive(size, available[1..], leases[lease := available[0]], returning)
  {
    assert available[0] in available;
    assert forall i <- available[1..] :: i in available && i != available[0];
  }

  lemma DropKeepsExclusive(size: nat, available: seq<nat>, leases: map<LeaseId, nat>, returning: map<LeaseId, nat>,
                           lease: LeaseId)
    requires Exclusive(size, available, leases, returning) && lease in leases && lease !in returning
    ensures Exclusive(size, available, Without(leases, lease), returning[lease := leases[lease]])
  {
  }

  lemma ReturnKeepsExclusive(size: nat, available: seq<nat>, leases: map<LeaseId, nat>, returning: map<LeaseId, nat>,
                             lease: LeaseId)
    requires Exclusive(size, available, leases, returning) && lease in returning
    ensures Exclusive(size, available + [returning[lease]], leases, Without(returning, lease))
  {
    var q := available + [returning[lease]];
    assert forall i :: i in q <==> i in available || i == returning[lease];
  }

  lemma MoveKeepsExclusive(size: nat, available: seq<nat>, leases: map<LeaseId, nat>, returning: map<LeaseId, nat>,
                           from: LeaseId, to: LeaseId)
    requires Exclusive(size, available, leases, returning) && from in leases && to !in leases
    ensures Exclusive(size, available, Without(leases, from)[to := leases[from]], returning)
  {
  }

  lemma AcquireKeepsInv(p: Pool, thread: Thread, lease: LeaseId)
    requires Inv(p) && Enabled(p, Acquire(thread, lease))
    ensures Inv(AfterAcquire(p, thread, lease))
  {
    if !p.shuttingDown && p.available != [] {
      TakeKeepsExclusive(p.size, p.available, p.leases, p.returning, lease);
    }
  }

  lemma StoppedWaiterKeepsInv(p: Pool, thread: Thread)
    requires Inv(p) && p.shuttingDown && thread in p.awake
    ensures Inv(WakeAll(p.(waiting := p.waiting - 1, awake := Without(p.awake, thread))))
  {
    var left := p.(waiting := p.waiting - 1, awake := Without(p.awake, thread));
    WithoutCard(p.awake, thread);
    WakeAllCard(left);
  }

  lemma LeavingKeepsInv(p: Pool, thread: Thread, timeouts: int)
    requires Inv(p) && !p.shuttingDown && thread in p.awake && p.available == []
    ensures Inv(p.(waiting := p.waiting - 1, awake := Without(p.awake, thread), timeouts := timeouts))
  {
    WithoutCard(p.awake, thread);
  }

  lemma SleepAgainKeepsInv(p: Pool, thread: Thread)
    requires Inv(p) && !p.shuttingDown && thread in p.awake && p.available == []
    ensures Inv(p.(awake := Without(p.awake, thread), blocked := p.blocked + {thread}))
  {
    WithoutCard(p.awake, thread);
  }

  lemma ResumeKeepsInv(p: Pool, thread: Thread, lease: LeaseId)
    requires Inv(p) && Enabled(p, Resume(thread, lease))
    ensures Inv(AfterResume(p, thread, lease))
  {
    if p.shuttingDown {
      StoppedWaiterKeepsInv(p, thread);
    } else if p.available != [] {
      WithoutCard(p.awake, thread);
      TakeKeepsExclusive(p.size, p.available, p.leases, p.returning, lease);
    } else if p.awake[thread] {
      LeavingKeepsInv(p, thread, p.timeouts + 1);
    } else {
      SleepAgainKeepsInv(p, thread);
    }
  }

  lemma BeginReleaseKeepsInv(p: Pool, lease: LeaseId)
    requires Inv(p) && lease in p.leases
    ensures Inv(AfterDrop(p, lease))
  {
    hide Exclusive;
    WithoutCard(p.leases, lease);
    DropKeepsExclusive(p.size, p.available, p.leases, p.returning, lease);
  }

  lemma EndReleaseKeepsInv(p: Pool, lease: LeaseId)
    requires Inv(p) && lease in p.returning
    ensures Inv(AfterRelease(p, lease))
  {
    hide Exclusive;
    WithoutCard(p.returning, lease);
    ReturnKeepsExclusive(p.size, p.available, p.leases, p.returning, lease);
  }

  lemma MoveKeepsInv(p: Pool, from: LeaseId, to: LeaseId)
    requires Inv(p) && FreshLease(p, to)
    ensures Inv(AfterMove(p, from, to))
  {
    hide Exclusive;
    if from in p.leases {
      WithoutCard(p.leases, from);
      MoveKeepsExclusive(p.size, p.available, p.leases, p.returning, from, to);
    }
  }

  lemma CloseKeepsInv(p: Pool)
    requires Inv(p) && Enabled(p, BeginClose)
    ensures Inv(AfterClose(p))
  {
    WakeAllCard(p);
  }

  lemma DeliverAllKeepsInv(p: Pool)
    requires Inv(p) && Enabled(p, DeliverAll)
    ensures Inv(WakeAll(p).(notifyAll := p.notifyAll - 1))
  {
    WakeAllCard(p);
  }

  lemma StepKeepsInv(p: Pool, step: Step)
    requires Inv(p) && Enabled(p, step)
    ensures Inv(Apply(p, step))
  {
    match step
    case Acquire(thread, lease) => AcquireKeepsInv(p, thread, lease);
    case Resume(thread, lease) => ResumeKeepsInv(p, thread, lease);
    case BeginRelease(lease) => BeginReleaseKeepsInv(p, lease);
    case EndRelease(lease) => EndReleaseKeepsInv(p, lease);
    case Move(from, to) => MoveKeepsInv(p, from, to);
    case DeliverAll => DeliverAllKeepsInv(p);
    case BeginClose => CloseKeepsInv(p);
    case _ =>
  }

  ghost predicate IsRun(ps: seq<Pool>, steps: seq<Step>) {
    && |ps| == |steps| + 1
    && forall i :: 0 <= i < |steps| ==> Enabled(ps[i], steps[i]) && ps[i + 1] == Apply(ps[i], steps[i])
  }

  /** Every state of every interleaving of acquirers, releasers, timers and the destructor. */
  lemma {:induction false} RunKeepsInv(ps: seq<Pool>, steps: seq<Step>, i: nat)
    requires IsRun(ps, steps) && Inv(ps[0]) && i < |ps|
    ensures Inv(ps[i])
  {
    if i > 0 {
      RunKeepsInv(ps, steps, i - 1);
      StepKeepsInv(ps[i - 1], steps[i - 1]);
    }
  }

  // ----- what the invariant means -----

  function Below(n: nat): (s: set<nat>)
    ensures forall i: nat :: i in s <==> i < n
    ensures |s| == n
  {
    if n == 0 then {} else Below(n - 1) + {n - 1}
  }

  function Elements(s: seq<nat>): (r: set<nat>)
    ensures forall i: nat :: i in r <==> i in s
  {
    set i | i in s
  }

  lemma {:induction false} DistinctCard(s: seq<nat>)
    requires forall i, j :: 0 <= i < j < |s| ==> s[i] != s[j]
    ensures |Elements(s)| == |s|
  {
    if s != [] {
      var n := |s| - 1;
      DistinctCard(s[..n]);
      assert s == s[..n] + [s[n]];
      assert Elements(s) == Elements(s[..n]) + {s[n]};
      assert s[n] !in s[..n];
    }
  }

  /** The indices a map of leases holds. */
  function Indices(m: map<LeaseId, nat>): set<nat> {
    set l | l in m :: m[l]
  }

  lemma {:induction false} IndicesCard(m: map<LeaseId, nat>)
    requires forall a <- m, b <- m :: a != b ==> m[a] != m[b]
    ensures |Indices(m)| == |m|
    decreases |m|
  {
    if |m| == 0 {
      assert Indices(m) == {};
    } else {
      var k :| k in m;
      var rest := Without(m, k);
      WithoutCard(m, k);
      IndicesCard(rest);
      forall i | i in Indices(m) && i != m[k] ensures i in Indices(rest) {
        var l :| l in m && m[l] == i;
        assert l in rest && rest[l] == i;
      }
      assert Indices(m) == Indices(rest) + {m[k]};
      assert m[k] !in Indices(rest);
    }
  }

  lemma FullSubset(s: set<nat>, n: nat)
    requires s <= Below(n) && |s| == n
    ensures s == Below(n)
  {
    var missing := Below(n) - s;
    assert Below(n) == s + missing;
    assert |missing| == 0;
  }

  lemma PlacesDisjoint(p: Pool)
    requires Exclusive(p.size, p.available, p.leases, p.returning)
    ensures Elements(p.available) <= Below(p.size)
    ensures Indices(p.leases) <= Below(p.size) && Indices(p.returning) <= Below(p.size)
    ensures Elements(p.available) !! Indices(p.leases)
    ensures Elements(p.available) !! Indices(p.returning)
    ensures Indices(p.leases) !! Indices(p.returning)
  {
  }

  lemma PlaceSizes(p: Pool)
    requires Exclusive(p.size, p.available, p.leases, p.returning)
    ensures |Elements(p.available)| == |p.available|
    ensures |Indices(p.leases)| == |p.leases| && |Indices(p.returning)| == |p.returning|
  {
    DistinctCard(p.available);
    IndicesCard(p.leases);
    IndicesCard(p.returning);
  }

  /**
   The free indices, the live leases and the connections on their way back partition the pool:
   every index is in exactly one of them, so no connection is ever held twice or lost.
   */
  lemma Partition(p: Pool)
    requires Inv(p)
    ensures var free := Elements(p.available);
            && free + Indices(p.leases) + Indices(p.returning) == Below(p.size)
            && free !! Indices(p.leases) && free !! Indices(p.returning) && Indices(p.leases) !! Indices(p.returning)
    ensures p.active == |Indices(p.leases)| + |Indices(p.returning)|
  {
    hide Exclusive;
    PlacesDisjoint(p);
    PlaceSizes(p);
    var free, leased, returning := Elements(p.available), Indices(p.leases), Indices(p.returning);
    FullSubset(free + leased + returning, p.size);
  }

  /** At no time in any run do two live leases hold the same connection. */
  lemma LeasesExclusive(ps: seq<Pool>, steps: seq<Step>, i: nat, a: LeaseId, b: LeaseId)
    requires IsRun(ps, steps) && Inv(ps[0]) && i < |ps|
    requires a in ps[i].leases && b in ps[i].leases && ps[i].leases[a] == ps[i].leases[b]
    ensures a == b
  {
    RunKeepsInv(ps, steps, i);
  }

  /** A thread never sleeps beside a free connection unless a wake-up is on its way. */
  lemma NoStrandedWaiter(p: Pool)
    requires Inv(p) && p.blocked != {} && p.available != []
    ensures p.notifyOne > 0 || exists t :: t in p.awake
  {
    if forall t :: t !in p.awake {
      assert p.awake == map[];
    }
  }

  lemma ClosedPoolIsFull(p: Pool)
    requires Inv(p) && p.closer.Closed?
    ensures p.leases == map[] && p.returning == map[] && p.blocked == {} && p.awake == map[]
    ensures |p.available| == p.size
  {
    hide Exclusive;
    assert |p.leases| == 0 && |p.returning| == 0 && |p.awake| == 0;
  }

  /**
   The destructor gets past its wait only with every index back in the pool and nobody waiting,
   and it never sleeps through the moment that becomes true.
   */
  lemma CloserSeesIdlePool(p: Pool)
    requires Inv(p)
    ensures p.closer.Closed? ==>
              p.leases == map[] && p.returning == map[] && Elements(p.available) == Below(p.size)
              && p.blocked == {} && p.awake == map[]
    ensures p.closer.ClosingAsleep? && Idle(p) ==> Enabled(p, DeliverAll) && Apply(p, DeliverAll).closer.ClosingAwake?
    ensures p.closer.ClosingAwake? && Idle(p) ==> Apply(p, CloserResume).closer.Closed?
  {
    hide Exclusive;
    if p.closer.Closed? {
      ClosedPoolIsFull(p);
      Partition(p);
      assert Indices(p.leases) == {} && Indices(p.returning) == {};
    }
  }

  // ----- who times out -----

  lemma AwakeStep(p: Pool, step: Step, thread: Thread)
    requires Enabled(p, step) && p.blocked !! p.awake.Keys && thread in Apply(p, step).awake
    ensures var q := Apply(p, step);
            q.awake[thread] == if thread in p.awake then p.awake[thread] else step == Timeout(thread)
  {
  }

  /** A woken waiter's time has passed exactly if it was its timer that woke it, when it last slept. */
  lemma {:induction false} TimerWokeIt(ps: seq<Pool>, steps: seq<Step>, thread: Thread, i: nat)
    requires IsRun(ps, steps) && Inv(ps[0]) && ps[0].awake == map[] && i < |ps| && thread in ps[i].awake
    ensures ps[i].awake[thread] <==>
              exists j :: 0 <= j < i && steps[j] == Timeout(thread) && forall k :: j < k <= i ==> thread in ps[k].awake
  {
    hide Inv, Apply;
    if i > 0 {
      RunKeepsInv(ps, steps, i - 1);
      InvApart(ps[i - 1]);
      AwakeStep(ps[i - 1], steps[i - 1], thread);
      if thread in ps[i - 1].awake {
        TimerWokeIt(ps, steps, thread, i - 1);
      }
    }
  }

  /**
   So a wait is counted as timed out exactly if the waiter's time passed while it last slept and,
   when it looks again, there is still no connection and no shutdown.
   */
  lemma TimedOutIff(ps: seq<Pool>, steps: seq<Step>, thread: Thread, lease: LeaseId, i: nat)
    requires IsRun(ps, steps) && Inv(ps[0]) && ps[0].awake == map[] && i < |steps| && steps[i] == Resume(thread, lease)
    ensures ps[i + 1].timeouts == ps[i].timeouts + 1 <==>
              && !ps[i].shuttingDown && ps[i].available == []
              && exists j :: 0 <= j < i && steps[j] == Timeout(thread)
                             && forall k :: j < k <= i ==> thread in ps[k].awake
    ensures ps[i + 1].timeouts == ps[i].timeouts + 1 ==> thread !in ps[i + 1].awake && thread !in ps[i + 1].blocked
  {
    TimerWokeIt(ps, steps, thread, i);
    RunKeepsInv(ps, steps, i);
    InvApart(ps[i]);
    hide Inv;
  }

  lemma InvApart(p: Pool)
    requires Inv(p)
    ensures p.blocked !! p.awake.Keys
  {
  }

  // ----- the destructor terminates -----

  /** What is still to be handed back, served and notified once shutdown has been announced. */
  function Remaining(p: Pool): nat {
    3 * |p.leases| + 2 * |p.returning| + |p.awake| + p.notifyOne + p.notifyAll
  }

  /** A step by which the rest of the program winds down: not a refused call, a move or a spurious wake-up. */
  predicate Winding(step: Step) {
    step.BeginRelease? || step.EndRelease? || step.Resume? || step.DeliverToCloser? || step.DeliverToNobody?
    || step.DeliverAll?
  }

  lemma ClosingResume(p: Pool, thread: Thread, lease: LeaseId)
    requires Gauges(p) && Wakeups(p) && p.shuttingDown && thread in p.awake
    ensures AfterResume(p, thread, lease).shuttingDown
    ensures Remaining(AfterResume(p, thread, lease)) + 1 == Remaining(p)
  {
    WithoutCard(p.awake, thread);
    WakeAllCard(p.(waiting := p.waiting - 1, awake := Without(p.awake, thread)));
  }

  lemma ClosingRelease(p: Pool, lease: LeaseId)
    requires Gauges(p) && Wakeups(p) && p.shuttingDown
    ensures lease in p.leases && lease !in p.returning ==> Remaining(AfterDrop(p, lease)) + 1 == Remaining(p)
    ensures lease in p.returning ==> Remaining(AfterRelease(p, lease)) + 1 == Remaining(p)
  {
    WithoutCard(p.leases, lease);
    WithoutCard(p.returning, lease);
    if lease in p.leases && lease !in p.returning {
      assert p.returning[lease := p.leases[lease]].Keys == p.returning.Keys + {lease};
      assert |p.returning[lease := p.leases[lease]].Keys| == |p.returning[lease := p.leases[lease]]|;
    }
  }

  lemma ClosingMove(p: Pool, from: LeaseId, to: LeaseId)
    requires to !in p.leases
    ensures Remaining(AfterMove(p, from, to)) == Remaining(p)
  {
    if from in p.leases {
      WithoutCard(p.leases, from);
      var moved := Without(p.leases, from)[to := p.leases[from]];
      assert moved.Keys == Without(p.leases, from).Keys + {to};
      assert |moved.Keys| == |moved|;
    }
  }

  /** During shutdown every such step makes progress and no other step undoes any. */
  lemma ClosingProgress(p: Pool, step: Step)
    requires Inv(p) && p.shuttingDown && Enabled(p, step)
    ensures Apply(p, step).shuttingDown
    ensures Remaining(Apply(p, step)) + (if Winding(step) then 1 else 0) <= Remaining(p)
  {
    hide Exclusive, AfterResume, AfterDrop, AfterRelease, AfterMove;
    ClosingFlags(p, step);
    match step
    case Resume(thread, lease) => ClosingResume(p, thread, lease);
    case BeginRelease(lease) => ClosingRelease(p, lease);
    case EndRelease(lease) => ClosingRelease(p, lease);
    case Move(from, to) => ClosingMove(p, from, to);
    case DeliverAll => WakeAllCard(p);
    case _ =>
  }

  lemma ClosingFlags(p: Pool, step: Step)
    requires p.shuttingDown && Enabled(p, step)
    ensures Apply(p, step).shuttingDown
  {
  }

  function WindingSteps(steps: seq<Step>): nat {
    if steps == [] then 0 else WindingSteps(steps[..|steps| - 1]) + if Winding(steps[|steps| - 1]) then 1 else 0
  }

  /**
   From the announcement on, in any run, releases, returning waiters and notifications together
   take at most `Remaining` further steps.
   */
  lemma {:induction false} ShutdownIsBounded(ps: seq<Pool>, steps: seq<Step>)
    requires IsRun(ps, steps) && Inv(ps[0]) && ps[0].shuttingDown
    ensures ps[|steps|].shuttingDown && WindingSteps(steps) + Remaining(ps[|steps|]) <= Remaining(ps[0])
    decreases |steps|
  {
    if steps != [] {
      var n := |steps| - 1;
      ShutdownIsBounded(ps[..n + 1], steps[..n]);
      RunKeepsInv(ps, steps, n);
      ClosingProgress(ps[n], steps[n]);
    }
  }

  /** Until the destructor is past its wait, one of those steps is possible or its own next look succeeds. */
  lemma ShutdownNeverBlocks(p: Pool)
    requires Inv(p) && p.shuttingDown && !p.closer.Closed?
    ensures (exists step :: Winding(step) && Enabled(p, step))
            || (p.closer.ClosingAwake? && Apply(p, CloserResume).closer.Closed?)
  {
    hide Exclusive;
    if l :| l in p.leases {
      assert Winding(BeginRelease(l)) && Enabled(p, BeginRelease(l));
    } else if l :| l in p.returning {
      assert Winding(EndRelease(l)) && Enabled(p, EndRelease(l));
    } else if t :| t in p.awake {
      assert p.leases == map[] && p.returning == map[];
      assert Winding(Resume(t, 0)) && Enabled(p, Resume(t, 0));
    } else {
      assert p.leases == map[] && p.returning == map[] && p.awake == map[];
      if p.notifyAll > 0 { assert Winding(DeliverAll) && Enabled(p, DeliverAll); }
    }
  }

  // ----- notifications after the unlock -----

  function Owed(p: Pool): nat { p.notifyOne + p.notifyAll }

  function Releases(steps: seq<Step>): nat {
    if steps == [] then 0 else Releases(steps[..|steps| - 1]) + if steps[|steps| - 1].EndRelease? then 1 else 0
  }

  /** In any run every acquisition counted is a connection that is out or one that was released. */
  lemma {:induction false} AcquisitionsAre(ps: seq<Pool>, steps: seq<Step>)
    requires IsRun(ps, steps) && ps[0].acquisitions == ps[0].active
    ensures ps[|steps|].acquisitions == ps[|steps|].active + Releases(steps)
    decreases |steps|
  {
    hide Apply, Enabled;
    if steps != [] {
      var n := |steps| - 1;
      AcquisitionsAre(ps[..n + 1], steps[..n]);
      AcquisitionsStep(ps[n], steps[n]);
    }
  }

  lemma AcquisitionsStep(p: Pool, step: Step)
    requires Enabled(p, step)
    ensures var q := Apply(p, step);
            q.acquisitions - q.active == p.acquisitions - p.active + if step.EndRelease? then 1 else 0
  {
    hide WakeAll;
    if step.Resume? { WakesOnly(p.(waiting := p.waiting - 1, awake := Without(p.awake, step.thread))); }
    WakesOnly(p);
  }

  lemma WakesOnly(p: Pool)
    ensures WakeAll(p).(blocked := p.blocked, awake := p.awake, closer := p.closer) == p
  {
  }

  predicate Delivers(step: Step) {
    step.DeliverToThread? || step.DeliverToCloser? || step.DeliverToNobody? || step.DeliverAll?
  }

  function Deliveries(steps: seq<Step>): nat {
    if steps == [] then 0 else Deliveries(steps[..|steps| - 1]) + if Delivers(steps[|steps| - 1]) then 1 else 0
  }

  /** Each release owes exactly one notification until it is delivered. */
  lemma {:induction false} OwedAreUndelivered(ps: seq<Pool>, steps: seq<Step>)
    requires IsRun(ps, steps) && Owed(ps[0]) == 0
    ensures Owed(ps[|steps|]) == Releases(steps) - Deliveries(steps)
    decreases |steps|
  {
    if steps != [] {
      var n := |steps| - 1;
      OwedAreUndelivered(ps[..n + 1], steps[..n]);
      assert ps[n + 1] == Apply(ps[n], steps[n]);
    }
  }

  // A run from p that ends with the destructor past its wait and a notification still to come.
  ghost predicate OwingRun(p: Pool, ps: seq<Pool>, steps: seq<Step>, spurious: bool) {
    && IsRun(ps, steps) && ps[0] == p
    && ps[|steps|].closer.Closed? && Owed(ps[|steps|]) > 0
    && (spurious || forall step <- steps :: !step.CloserSpurious?)
  }

  /**
   The destructor, called now, can get past its wait before some release has notified;
   `spurious` says whether it may also wake for no reason.
   */
  ghost predicate CanCloseOwing(p: Pool, spurious: bool) {
    exists ps, steps :: OwingRun(p, ps, steps, spurious) && steps != [] && steps[0] == BeginClose
  }

  ghost predicate CanEndOwing(p: Pool, spurious: bool) {
    exists ps, steps :: OwingRun(p, ps, steps, spurious)
  }

  /**
   During shutdown that takes a release or a notification besides the one that wakes the
   destructor; a waiter that leaves wakes it as well, and so does a spurious wake-up.
   */
  predicate Surplus(p: Pool, spurious: bool) {
    match p.closer
    case NotClosing => false
    case ClosingAsleep => p.active + Owed(p) > if spurious || p.waiting > 0 then 0 else 1
    case ClosingAwake => p.active + Owed(p) > 0
    case Closed => Owed(p) > 0
  }

  lemma SurplusOnlyFalls(p: Pool, step: Step, spurious: bool)
    requires Inv(p) && p.shuttingDown && Enabled(p, step) && (spurious || !step.CloserSpurious?)
    ensures Surplus(Apply(p, step), spurious) ==> Surplus(p, spurious)
  {
    hide Exclusive;
  }

  lemma {:induction false} SurplusIsNeeded(p: Pool, ps: seq<Pool>, steps: seq<Step>, spurious: bool)
    requires OwingRun(p, ps, steps, spurious) && Inv(p) && p.shuttingDown
    ensures Surplus(p, spurious)
    decreases |steps|
  {
    hide Inv, Surplus, Apply, Enabled;
    if steps == [] {
      LastHasSurplus(p, spurious);
    } else {
      assert steps[0] in steps;
      StepKeepsInv(p, steps[0]);
      ClosingFlags(p, steps[0]);
      SurplusIsNeeded(ps[1], ps[1..], steps[1..], spurious);
      SurplusOnlyFalls(p, steps[0], spurious);
    }
  }

  lemma LastHasSurplus(p: Pool, spurious: bool)
    requires p.closer.Closed? && Owed(p) > 0
    ensures Surplus(p, spurious)
  {
  }

  lemma PutInFront(p: Pool, step: Step, ps: seq<Pool>, steps: seq<Step>, spurious: bool)
    requires Enabled(p, step) && (spurious || !step.CloserSpurious?)
    requires OwingRun(Apply(p, step), ps, steps, spurious)
    ensures OwingRun(p, [p] + ps, [step] + steps, spurious)
  {
    hide Enabled, Apply;
    var qs, ts := [p] + ps, [step] + steps;
    forall i | 0 <= i < |ts| ensures Enabled(qs[i], ts[i]) && qs[i + 1] == Apply(qs[i], ts[i]) {
      if i > 0 { assert qs[i] == ps[i - 1] && ts[i] == steps[i - 1]; }
    }
  }

  lemma LastSteps(p: Pool, spurious: bool) returns (step: Step)
    requires Inv(p) && p.shuttingDown && !p.closer.Closed? && Surplus(p, spurious)
    requires p.leases == map[] && p.returning == map[] && p.awake == map[]
    ensures Enabled(p, step) && (spurious || !step.CloserSpurious?) && Surplus(Apply(p, step), spurious)
    ensures (p.closer.ClosingAsleep? && Apply(p, step).closer.ClosingAwake?)
            || (p.closer.ClosingAwake? && Apply(p, step).closer.Closed?)
  {
    hide Exclusive;
    step := if p.closer.ClosingAwake? then CloserResume else if spurious then CloserSpurious else DeliverAll;
  }

  // While there is a surplus the pool can wind down and keep it: release, let the waiters go, then look.
  lemma StepKeepingSurplus(p: Pool, spurious: bool) returns (step: Step)
    requires Inv(p) && p.shuttingDown && !p.closer.Closed? && Surplus(p, spurious)
    ensures Enabled(p, step) && (spurious || !step.CloserSpurious?) && Surplus(Apply(p, step), spurious)
    ensures Winding(step) || (p.closer.ClosingAsleep? && Apply(p, step).closer.ClosingAwake?)
            || (p.closer.ClosingAwake? && Apply(p, step).closer.Closed?)
  {
    hide Exclusive;
    if l :| l in p.leases {
      step := BeginRelease(l);
    } else if l :| l in p.returning {
      step := EndRelease(l);
    } else if t :| t in p.awake {
      assert p.leases == map[];
      step := Resume(t, 0);
    } else {
      assert p.leases == map[] && p.returning == map[] && p.awake == map[];
      step := LastSteps(p, spurious);
    }
  }

  function Waits(c: Closer): nat { if c.ClosingAsleep? then 2 else if c.ClosingAwake? then 1 else 0 }

  lemma {:induction false} SurplusIsEnough(p: Pool, spurious: bool)
    requires Inv(p) && p.shuttingDown && Surplus(p, spurious)
    ensures CanEndOwing(p, spurious)
    decreases Remaining(p), Waits(p.closer)
  {
    if p.closer.Closed? {
      assert OwingRun(p, [p], [], spurious);
    } else {
      var step := StepKeepingSurplus(p, spurious);
      hide Inv, Surplus, Apply, Enabled, Remaining, OwingRun;
      StepKeepsInv(p, step);
      ClosingProgress(p, step);
      SurplusIsEnough(Apply(p, step), spurious);
      var ps, steps :| OwingRun(Apply(p, step), ps, steps, spurious);
      PutInFront(p, step, ps, steps, spurious);
    }
  }

  lemma CloseNeedsSurplus(p: Pool, ps: seq<Pool>, steps: seq<Step>, spurious: bool)
    requires Inv(p) && p.closer.NotClosing?
    requires OwingRun(p, ps, steps, spurious) && steps != [] && steps[0] == BeginClose
    ensures Surplus(AfterClose(p), spurious)
  {
    CloseKeepsInv(p);
    hide Inv, Surplus, WakeAll;
    assert ps[1] == AfterClose(p);
    SurplusIsNeeded(ps[1], ps[1..], steps[1..], spurious);
  }

  lemma CloseWithSurplus(p: Pool, spurious: bool)
    requires Inv(p) && p.closer.NotClosing? && Surplus(AfterClose(p), spurious)
    ensures CanCloseOwing(p, spurious)
  {
    CloseKeepsInv(p);
    hide Inv, Surplus, WakeAll, OwingRun;
    SurplusIsEnough(AfterClose(p), spurious);
    var ps, steps :| OwingRun(AfterClose(p), ps, steps, spurious);
    PutInFront(p, BeginClose, ps, steps, spurious);
    assert ([BeginClose] + steps)[0] == BeginClose;
  }

  lemma CanCloseOwingIff(p: Pool, spurious: bool)
    requires Inv(p) && p.closer.NotClosing?
    ensures CanCloseOwing(p, spurious) <==> Surplus(AfterClose(p), spurious)
  {
    hide Inv, Surplus, AfterClose, OwingRun;
    if CanCloseOwing(p, spurious) {
      var ps, steps :| OwingRun(p, ps, steps, spurious) && steps != [] && steps[0] == BeginClose;
      CloseNeedsSurplus(p, ps, steps, spurious);
    }
    if Surplus(AfterClose(p), spurious) { CloseWithSurplus(p, spurious); }
  }

  /**
   release_connection notifies after it unlocks, so the destructor can get past its wait in between,
   and the notification then comes to a condition variable already destroyed. That can happen
   exactly if a connection is out, or a notification outstanding, when the destructor is called.
   */
  lemma QuietCloseIff(p: Pool)
    requires Inv(p) && p.closer.NotClosing?
    ensures !CanCloseOwing(p, true) <==> p.active == 0 && p.notifyOne == 0
  {
    CanCloseOwingIff(p, true);
    hide Exclusive;
  }

  /**
   If the destructor never wakes for no reason, a single connection still out does no harm by
   itself: its own notification is the one that wakes the destructor, unless a waiter does so first.
   */
  lemma QuietCloseUnlessSpuriousIff(p: Pool)
    requires Inv(p) && p.closer.NotClosing?
    ensures !CanCloseOwing(p, false) <==> p.notifyOne == 0 && (p.active == 0 || (p.active == 1 && p.waiting == 0))
  {
    CanCloseOwingIff(p, false);
    hide Exclusive;
  }

  lemma FourSteps(p0: Pool, a: Step, b: Step, c: Step, d: Step, p1: Pool, p2: Pool, p3: Pool, p4: Pool)
    requires Enabled(p0, a) && p1 == Apply(p0, a) && Enabled(p1, b) && p2 == Apply(p1, b)
    requires Enabled(p2, c) && p3 == Apply(p2, c) && Enabled(p3, d) && p4 == Apply(p3, d)
    ensures IsRun([p0, p1, p2, p3, p4], [a, b, c, d])
  {
    hide Enabled, Apply;
    var ps, steps := [p0, p1, p2, p3, p4], [a, b, c, d];
    assert ps[1] == p1 && ps[2] == p2 && ps[3] == p3 && ps[4] == p4;
    assert steps[1] == b && steps[2] == c && steps[3] == d;
  }

  /**
   An instance of the first kind: the connection is back before the destructor is called, which then
   does not wait, and the release has yet to notify.
   */
  lemma NotificationAfterClose()
    ensures var steps := [Acquire(1, 5), BeginRelease(5), EndRelease(5), BeginClose];
            var p0 := Initial(1);
            var p1 := AfterAcquire(p0, 1, 5);
            var p2 := AfterDrop(p1, 5);
            var p3 := AfterRelease(p2, 5);
            var p4 := AfterClose(p3);
            IsRun([p0, p1, p2, p3, p4], steps) && Inv(p0) && p4.closer.Closed? && Owed(p4) == 1
  {
    InitialInv(1);
    hide Inv;
    var p0 := Initial(1);
    assert p0.available == [0];
    var p1 := AfterAcquire(p0, 1, 5);
    var p2 := AfterDrop(p1, 5);
    var p3 := AfterRelease(p2, 5);
    var p4 := AfterClose(p3);
    FourSteps(p0, Acquire(1, 5), BeginRelease(5), EndRelease(5), BeginClose, p1, p2, p3, p4);
  }

  // ----- move assignment -----

  function Emptied(p: Pool, lease: LeaseId): Pool {
    if lease in p.leases then AfterRelease(AfterDrop(p, lease), lease) else p
  }

  /** Move assignment: release what the target holds, then take over what the source holds, if anything. */
  function AfterAssign(p: Pool, to: LeaseId, from: LeaseId): Pool {
    if to == from then p else AfterMove(Emptied(p, to), from, to)
  }

  lemma AssignFields(p: Pool, to: LeaseId, from: LeaseId)
    requires to != from && to !in p.returning
    ensures var q := AfterAssign(p, to, from);
            && q.leases == (if from in p.leases then Without(p.leases, from)[to := p.leases[from]]
                            else Without(p.leases, to))
            && q.available == p.available + (if to in p.leases then [p.leases[to]] else [])
            && q.returning == p.returning
            && q.active == p.active - (if to in p.leases then 1 else 0)
  {
    if to in p.leases && from in p.leases { Reassigned(p.leases, to, from); }
  }

  /**
   Afterwards the target holds what the source held, or nothing if that was inert, the source is
   inert, what the target held is free and other leases are as before. The steps it consists of are
   possible one after the other and keep the invariant.
   */
  lemma MoveAssign(p: Pool, to: LeaseId, from: LeaseId)
    requires Inv(p) && to != from && to !in p.returning
    ensures var q := AfterAssign(p, to, from);
            && Inv(q)
            && from !in q.leases && (to in q.leases <==> from in p.leases)
            && (from in p.leases ==> q.leases[to] == p.leases[from])
            && (to in p.leases ==> p.leases[to] in q.available)
            && (forall l :: l != to && l != from && l in p.leases ==> l in q.leases && q.leases[l] == p.leases[l])
  {
    hide Inv;
    if to in p.leases {
      BeginReleaseKeepsInv(p, to);
      EndReleaseKeepsInv(AfterDrop(p, to), to);
    }
    var emptied := Emptied(p, to);
    assert FreshLease(emptied, to);
    MoveKeepsInv(emptied, from, to);
    AssignFields(p, to, from);
  }

  lemma Reassigned(m: map<LeaseId, nat>, to: LeaseId, from: LeaseId)
    requires to in m && from in m && to != from
    ensures Without(Without(m, to), from)[to := Without(m, to)[from]] == Without(m, from)[to := m[from]]
  {
  }

  // ----- the pool as an object -----

  datatype AcquireResult = Acquired(index: nat) | Waiting | Stopping | TimedOut

  class Database {
    const size: nat
    var available: seq<nat>
    var shuttingDown: bool
    var activeConnections: int
    var waitingThreads: int
    var acquisitionsTotal: int
    var timeoutsTotal: int
    var leases: map<LeaseId, nat>
    var returning: map<LeaseId, nat>
    var blocked: set<Thread>
    var awake: map<Thread, bool>
    var notifyOne: nat
    var notifyAll: nat
    var closer: Closer

    function View(): Pool
      reads this
    {
      Pool(size, available, shuttingDown, activeConnections, waitingThreads, acquisitionsTotal, timeoutsTotal,
           leases, returning, blocked, awake, notifyOne, notifyAll, closer)
    }

    ghost predicate Valid()
      reads this
    {
      Inv(View())
    }

    constructor (size: nat)
      requires size > 0
      ensures Valid() && View() == Initial(size)
    {
      this.size := size;
      available := seq(size, i => i);
      shuttingDown, activeConnections, waitingThreads, acquisitionsTotal, timeoutsTotal := false, 0, 0, 0, 0;
      leases, returning, blocked, awake := map[], map[], {}, map[];
      notifyOne, notifyAll, closer := 0, 0, NotClosing;
      new;
      InitialInv(size);
    }

    /** acquire_connection from its entry to its return, or to its going to sleep. */
    method StartAcquire(thread: Thread, lease: LeaseId) returns (result: AcquireResult)
      requires Valid() && Enabled(View(), Acquire(thread, lease))
      modifies this
      ensures Valid() && View() == Apply(old(View()), Acquire(thread, lease))
      ensures result == if old(shuttingDown) then Stopping
                        else if old(available) == [] then Waiting
                        else Acquired(old(available)[0])
    {
      hide Inv;
      StepKeepsInv(View(), Acquire(thread, lease));
      if shuttingDown { return Stopping; }
      if available == [] {
        waitingThreads := waitingThreads + 1;
        blocked := blocked + {thread};
        return Waiting;
      }
      result := TakeFront(lease);
    }

    method TakeFront(lease: LeaseId) returns (result: AcquireResult)
      requires available != []
      modifies this
      ensures View() == Take(old(View()), lease) && result == Acquired(old(available)[0])
    {
      var index := available[0];
      available := available[1..];
      activeConnections := activeConnections + 1;
      acquisitionsTotal := acquisitionsTotal + 1;
      leases := leases[lease := index];
      return Acquired(index);
    }

    method WakeEverybody()
      modifies this
      ensures View() == WakeAll(old(View()))
    {
      awake := map t | t in awake.Keys + blocked :: t in awake && awake[t];
      blocked := {};
      if closer.ClosingAsleep? { closer := ClosingAwake; }
    }

    /** acquire_connection from a wake-up, after the mutex is held again. */
    method ResumeAcquire(thread: Thread, lease: LeaseId) returns (result: AcquireResult)
      requires Valid() && Enabled(View(), Resume(thread, lease))
      modifies this
      ensures Valid() && View() == Apply(old(View()), Resume(thread, lease))
      ensures result == if old(shuttingDown) then Stopping
                        else if old(available) != [] then Acquired(old(available)[0])
                        else if old(awake)[thread] then TimedOut
                        else Waiting
    {
      hide Inv;
      StepKeepsInv(View(), Resume(thread, lease));
      var ready := shuttingDown || available != [];
      var timedOut := awake[thread];
      awake := Without(awake, thread);
      if !ready && !timedOut {
        blocked := blocked + {thread};
        assert View() == AfterResume(old(View()), thread, lease);
        return Waiting;
      }
      waitingThreads := waitingThreads - 1;
      if shuttingDown {
        WakeEverybody();
        return Stopping;
      }
      if !ready {
        timeoutsTotal := timeoutsTotal + 1;
        assert View() == AfterResume(old(View()), thread, lease);
        return TimedOut;
      }
      result := TakeFront(lease);
    }

    method WakeWaiter(thread: Thread, timedOut: bool)
      requires Valid() && thread in blocked
      modifies this
      ensures Valid() && View() == Apply(old(View()), if timedOut then Timeout(thread) else Spurious(thread))
    {
      hide Inv;
      StepKeepsInv(View(), if timedOut then Timeout(thread) else Spurious(thread));
      blocked := blocked - {thread};
      awake := awake[thread := timedOut];
    }

    /** A lease lets go: release() clears its fields before it calls release_connection. */
    method DropLease(lease: LeaseId)
      requires Valid() && Enabled(View(), BeginRelease(lease))
      modifies this
      ensures Valid() && View() == Apply(old(View()), BeginRelease(lease))
    {
      hide Inv;
      StepKeepsInv(View(), BeginRelease(lease));
      var index := leases[lease];
      leases := Without(leases, lease);
      returning := returning[lease := index];
    }

    /** release_connection: the locked section and the choice of notification. */
    method ReleaseConnection(lease: LeaseId)
      requires Valid() && Enabled(View(), EndRelease(lease))
      modifies this
      ensures Valid() && View() == Apply(old(View()), EndRelease(lease))
    {
      hide Inv;
      StepKeepsInv(View(), EndRelease(lease));
      available := available + [returning[lease]];
      activeConnections := activeConnections - 1;
      returning := Without(returning, lease);
      if shuttingDown {
        notifyAll := notifyAll + 1;
      } else {
        notifyOne := notifyOne + 1;
      }
    }

    /** The move constructor; `to` is a new lease, inert if `from` is. */
    method MoveLease(from: LeaseId, to: LeaseId)
      requires Valid() && Enabled(View(), Move(from, to))
      modifies this
      ensures Valid() && View() == Apply(old(View()), Move(from, to))
    {
      hide Inv;
      StepKeepsInv(View(), Move(from, to));
      if from in leases {
        var index := leases[from];
        leases := Without(leases, from)[to := index];
      }
    }

    /** Move assignment between leases, alone in the pool; assigning a lease to itself does nothing. */
    method AssignLease(to: LeaseId, from: LeaseId)
      requires Valid() && to !in returning
      modifies this
      ensures Valid() && View() == AfterAssign(old(View()), to, from)
    {
      hide Inv;
      if to == from { return; }
      if to in leases {
        DropLease(to);
        ReleaseConnection(to);
      }
      MoveLease(from, to);
    }

    method DeliverNotifyOne(target: Option<Thread>)
      requires Valid() && notifyOne > 0
      requires match target
               case Some(thread) => thread in blocked
               case None => blocked == {}
      modifies this
      ensures Valid()
      ensures View() == Apply(old(View()), if target.Some? then DeliverToThread(target.value)
                                           else if old(closer).ClosingAsleep? then DeliverToCloser else DeliverToNobody)
    {
      hide Inv;
      StepKeepsInv(View(), if target.Some? then DeliverToThread(target.value)
                           else if closer.ClosingAsleep? then DeliverToCloser else DeliverToNobody);
      notifyOne := notifyOne - 1;
      if target.Some? {
        blocked := blocked - {target.value};
        awake := awake[target.value := false];
      } else if closer.ClosingAsleep? {
        closer := ClosingAwake;
      }
    }

    method DeliverNotifyAll()
      requires Valid() && notifyAll > 0
      modifies this
      ensures Valid() && View() == Apply(old(View()), DeliverAll)
    {
      hide Inv;
      StepKeepsInv(View(), DeliverAll);
      WakeEverybody();
      notifyAll := notifyAll - 1;
    }

    /** The destructor up to the first evaluation of its wait condition. */
    method Close() returns (closed: bool)
      requires Valid() && closer.NotClosing?
      modifies this
      ensures Valid() && View() == Apply(old(View()), BeginClose)
      ensures closed <==> closer.Closed?
      ensures closed ==> leases == map[] && |available| == size
    {
      hide Inv;
      StepKeepsInv(View(), BeginClose);
      shuttingDown := true;
      WakeEverybody();
      closed := activeConnections == 0 && waitingThreads == 0;
      closer := if closed then Closed else ClosingAsleep;
      if closed { ClosedPoolIsFull(View()); }
    }

    method ResumeClose() returns (closed: bool)
      requires Valid() && closer.ClosingAwake?
      modifies this
      ensures Valid() && View() == Apply(old(View()), CloserResume)
      ensures closed <==> closer.Closed?
      ensures closed ==> leases == map[] && |available| == size
    {
      hide Inv;
      StepKeepsInv(View(), CloserResume);
      closed := activeConnections == 0 && waitingThreads == 0;
      closer := if closed then Closed else ClosingAsleep;
      if closed { ClosedPoolIsFull(View()); }
    }
  }
}
