/**
 The bounded worker pool. Every section of code under the queue mutex is one step, every atomic
 update outside it is one step, and each worker thread is an explicit program counter. The
 condition variable is the set of sleeping workers plus the notifications still to be delivered;
 a sleeping worker may also wake for no reason.
 */
module WorkerPool {
  import opened Common

  /** The identity of a submitted callable. */
  type Task = int

  /**
   Checking: about to take the queue mutex and test the wait predicate. Finished: the task ran and
   active_tasks_ has dropped, but completed_tasks_ has not risen yet.
   */
  datatype Worker =
    | Checking
    | Sleeping
    | Running(task: Task)
    | Finished(task: Task)
    | Exited

  /** How far `stop` has got: flags set, then workers notified, then all joined. */
  datatype StopPhase = NotStopping | FlagsSet | Joining | Stopped

  datatype Pool = Pool(
    capacity: nat,
    tasks: seq<Task>,
    accepting: bool,
    stopping: bool,
    queued: int,
    active: int,
    completed: int,
    rejected: int,
    workers: seq<Worker>,
    notifies: nat,
    phase: StopPhase,
    accepted: seq<Task>,
    started: seq<Task>,
    done: seq<Task>)

  datatype SubmitResult = Accepted | QueueFull | PoolStopped

  // ----- the steps -----

  datatype Step =
    | Submit(task: Task)
    | NotifyOne(woken: Option<nat>)
    | Spurious(worker: nat)
    | Check(worker: nat)
    | Finish(worker: nat)
    | Complete(worker: nat)
    | SetStopFlags
    | NotifyAll
    | Join

  predicate SomeSleeping(workers: seq<Worker>) {
    exists w :: 0 <= w < |workers| && workers[w].Sleeping?
  }

  predicate Enabled(p: Pool, step: Step) {
    match step
    case Submit(_) => true
    case NotifyOne(woken) =>
      && p.notifies > 0
      && (match woken
          case None => !SomeSleeping(p.workers)
          case Some(w) => w < |p.workers| && p.workers[w].Sleeping?)
    case Spurious(w) => w < |p.workers| && p.workers[w].Sleeping?
    case Check(w) => w < |p.workers| && p.workers[w].Checking?
    case Finish(w) => w < |p.workers| && p.workers[w].Running?
    case Complete(w) => w < |p.workers| && p.workers[w].Finished?
    case SetStopFlags => p.phase.NotStopping?
    case NotifyAll => p.phase.FlagsSet?
    case Join => p.phase.Joining? && forall w :: 0 <= w < |p.workers| ==> p.workers[w].Exited?
  }

  function SubmitOutcome(p: Pool): SubmitResult {
    if !p.accepting then PoolStopped
    else if |p.tasks| >= p.capacity then QueueFull
    else Accepted
  }

  function AfterSubmit(p: Pool, task: Task): Pool {
    if SubmitOutcome(p).Accepted?
    then p.(tasks := p.tasks + [task], queued := p.queued + 1, notifies := p.notifies + 1,
            accepted := p.accepted + [task])
    else p.(rejected := p.rejected + 1)
  }

  function AfterCheck(p: Pool, w: nat): Pool
    requires w < |p.workers|
  {
    if !p.stopping && p.tasks == [] then p.(workers := p.workers[w := Sleeping])
    else if p.tasks == [] then p.(workers := p.workers[w := Exited])
    else p.(workers := p.workers[w := Running(p.tasks[0])], tasks := p.tasks[1..],
            queued := p.queued - 1, active := p.active + 1, started := p.started + [p.tasks[0]])
  }

  function WakeAll(workers: seq<Worker>): seq<Worker> {
    seq(|workers|, i requires 0 <= i < |workers| => if workers[i].Sleeping? then Checking else workers[i])
  }

  function Apply(p: Pool, step: Step): Pool
    requires Enabled(p, step)
  {
    match step
    case Submit(task) => AfterSubmit(p, task)
    case NotifyOne(None) => p.(notifies := p.notifies - 1)
    case NotifyOne(Some(w)) => p.(notifies := p.notifies - 1, workers := p.workers[w := Checking])
    case Spurious(w) => p.(workers := p.workers[w := Checking])
    case Check(w) => AfterCheck(p, w)
    case Finish(w) => p.(workers := p.workers[w := Finished(p.workers[w].task)], active := p.active - 1)
    case Complete(w) =>
      p.(workers := p.workers[w := Checking], completed := p.completed + 1, done := p.done + [p.workers[w].task])
    case SetStopFlags => p.(accepting := false, stopping := true, phase := FlagsSet)
    case NotifyAll => p.(workers := WakeAll(p.workers), phase := Joining)
    case Join => p.(phase := Stopped)
  }

  function Initial(threads: nat, capacity: nat): Pool {
    Pool(capacity, [], true, false, 0, 0, 0, 0, seq(threads, _ => Checking), 0, NotStopping, [], [], [])
  }

  // ----- counting workers -----

  datatype Kind = IsChecking | IsSleeping | IsRunning | IsFinished | IsExited

  function KindOf(w: Worker): Kind {
    match w
    case Checking => IsChecking
    case Sleeping => IsSleeping
    case Running(_) => IsRunning
    case Finished(_) => IsFinished
    case Exited => IsExited
  }

  function Count(workers: seq<Worker>, kind: Kind): nat {
    if workers == [] then 0
    else (if KindOf(workers[0]) == kind then 1 else 0) + Count(workers[1..], kind)
  }

  predicate Holds(w: Worker, task: Task) {
    (w.Running? || w.Finished?) && w.task == task
  }

  /** How many workers currently hold a task. */
  function HeldCount(workers: seq<Worker>, task: Task): nat {
    if workers == [] then 0
    else (if Holds(workers[0], task) then 1 else 0) + HeldCount(workers[1..], task)
  }

  lemma {:induction false} CountUpdate(workers: seq<Worker>, w: nat, next: Worker, kind: Kind)
    requires w < |workers|
    ensures Count(workers[w := next], kind) + (if KindOf(workers[w]) == kind then 1 else 0)
         == Count(workers, kind) + (if KindOf(next) == kind then 1 else 0)
  {
    if w > 0 {
      assert workers[w := next][1..] == workers[1..][w - 1 := next];
      CountUpdate(workers[1..], w - 1, next, kind);
    } else {
      assert workers[w := next][1..] == workers[1..];
    }
  }

  lemma {:induction false} HeldUpdate(workers: seq<Worker>, w: nat, next: Worker, task: Task)
    requires w < |workers|
    ensures HeldCount(workers[w := next], task) + (if Holds(workers[w], task) then 1 else 0)
         == HeldCount(workers, task) + (if Holds(next, task) then 1 else 0)
  {
    if w > 0 {
      assert workers[w := next][1..] == workers[1..][w - 1 := next];
      HeldUpdate(workers[1..], w - 1, next, task);
    } else {
      assert workers[w := next][1..] == workers[1..];
    }
  }

  lemma {:induction false} CountZero(workers: seq<Worker>, kind: Kind)
    ensures Count(workers, kind) == 0 <==> forall w :: 0 <= w < |workers| ==> KindOf(workers[w]) != kind
  {
    if workers != [] {
      var rest := workers[1..];
      CountZero(rest, kind);
      forall w | 0 <= w < |rest| ensures rest[w] == workers[w + 1] {}
      forall w | 1 <= w < |workers| ensures workers[w] == rest[w - 1] {}
      if Count(workers, kind) == 0 {
        forall w | 0 <= w < |workers| ensures KindOf(workers[w]) != kind {
          if w > 0 { assert KindOf(rest[w - 1]) != kind; }
        }
      } else if KindOf(workers[0]) != kind {
        var w :| 0 <= w < |rest| && KindOf(rest[w]) == kind;
        assert KindOf(workers[w + 1]) == kind;
      }
    }
  }

  lemma {:induction false} WakeAllCounts(workers: seq<Worker>)
    ensures forall task :: HeldCount(WakeAll(workers), task) == HeldCount(workers, task)
    ensures Count(WakeAll(workers), IsSleeping) == 0
    ensures forall kind :: kind !in {IsSleeping, IsChecking} ==> Count(WakeAll(workers), kind) == Count(workers, kind)
  {
    if workers != [] {
      assert WakeAll(workers)[1..] == WakeAll(workers[1..]);
      WakeAllCounts(workers[1..]);
    }
  }

  lemma {:induction false} AllExitedHoldNothing(workers: seq<Worker>)
    requires forall w :: 0 <= w < |workers| ==> workers[w].Exited?
    ensures forall task :: HeldCount(workers, task) == 0
    ensures forall kind :: kind != IsExited ==> Count(workers, kind) == 0
  {
    if workers != [] { AllExitedHoldNothing(workers[1..]); }
  }

  lemma {:induction false} CountBound(workers: seq<Worker>, kind: Kind)
    ensures Count(workers, kind) <= |workers|
  {
    if workers != [] { CountBound(workers[1..], kind); }
  }

  // ----- the invariant -----

  /** Counters agree with what they count, and every accepted task is somewhere. */
  ghost predicate Counters(p: Pool) {
    && p.queued == |p.tasks| <= p.capacity
    && p.active == Count(p.workers, IsRunning)
    && p.completed == |p.done|
    && |p.accepted| == |p.tasks| + p.active + Count(p.workers, IsFinished) + p.completed
  }

  /** Tasks leave the queue in the order they were accepted, and each is held or done once. */
  ghost predicate Fifo(p: Pool) {
    && p.accepted == p.started + p.tasks
    && forall task :: multiset(p.started)[task] == HeldCount(p.workers, task) + multiset(p.done)[task]
  }

  ghost predicate Stopping(p: Pool) {
    && p.stopping == !p.accepting == !p.phase.NotStopping?
    && (Count(p.workers, IsExited) > 0 ==> p.stopping && p.tasks == [])
    && (p.phase in {Joining, Stopped} ==> Count(p.workers, IsSleeping) == 0)
    && (p.phase.Stopped? ==> forall w :: 0 <= w < |p.workers| ==> p.workers[w].Exited?)
  }

  /**
   No wake-up is lost: while some worker sleeps, each queued task has a notification on its way or
   a worker about to look at the queue.
   */
  ghost predicate NoLostWakeup(p: Pool) {
    Count(p.workers, IsSleeping) > 0 ==> |p.tasks| <= p.notifies + Count(p.workers, IsChecking)
  }

  ghost predicate Inv(p: Pool) {
    |p.workers| > 0 && Counters(p) && Fifo(p) && Stopping(p) && NoLostWakeup(p)
  }

  lemma {:induction false} FreshCounts(threads: nat)
    ensures var ws := seq(threads, _ => Checking);
            && (forall task :: HeldCount(ws, task) == 0)
            && Count(ws, IsChecking) == threads
            && forall kind :: kind != IsChecking ==> Count(ws, kind) == 0
  {
    var ws := seq(threads, _ => Checking);
    if threads > 0 {
      FreshCounts(threads - 1);
      assert ws[1..] == seq(threads - 1, _ => Checking);
    }
  }

  lemma InitialInv(threads: nat, capacity: nat)
    requires threads > 0 && capacity > 0
    ensures Inv(Initial(threads, capacity))
  {
    FreshCounts(threads);
  }

  ghost predicate Moved(before: seq<Worker>, after: seq<Worker>, from: Worker, to: Worker, kind: Kind) {
    Count(after, kind) + (if KindOf(from) == kind then 1 else 0)
    == Count(before, kind) + (if KindOf(to) == kind then 1 else 0)
  }

  lemma WorkerMoves(workers: seq<Worker>, w: nat, next: Worker)
    requires w < |workers|
    ensures var after := workers[w := next];
            && Moved(workers, after, workers[w], next, IsChecking)
            && Moved(workers, after, workers[w], next, IsSleeping)
            && Moved(workers, after, workers[w], next, IsRunning)
            && Moved(workers, after, workers[w], next, IsFinished)
            && Moved(workers, after, workers[w], next, IsExited)
            && forall task :: HeldCount(after, task) + (if Holds(workers[w], task) then 1 else 0)
                           == HeldCount(workers, task) + (if Holds(next, task) then 1 else 0)
  {
    CountUpdate(workers, w, next, IsChecking);
    CountUpdate(workers, w, next, IsSleeping);
    CountUpdate(workers, w, next, IsRunning);
    CountUpdate(workers, w, next, IsFinished);
    CountUpdate(workers, w, next, IsExited);
    forall task ensures HeldCount(workers[w := next], task) + (if Holds(workers[w], task) then 1 else 0)
                     == HeldCount(workers, task) + (if Holds(next, task) then 1 else 0)
    {
      HeldUpdate(workers, w, next, task);
    }
  }

  lemma SubmitKeepsInv(p: Pool, task: Task)
    requires Inv(p)
    ensures Inv(AfterSubmit(p, task))
  {
    assert p.started + (p.tasks + [task]) == (p.started + p.tasks) + [task];
  }

  lemma SleepKeepsInv(p: Pool, w: nat)
    requires Inv(p) && w < |p.workers| && p.workers[w].Checking? && !p.stopping && p.tasks == []
    ensures Inv(p.(workers := p.workers[w := Sleeping]))
  {
    WorkerMoves(p.workers, w, Sleeping);
  }

  lemma ExitKeepsInv(p: Pool, w: nat)
    requires Inv(p) && w < |p.workers| && p.workers[w].Checking? && p.stopping && p.tasks == []
    ensures Inv(p.(workers := p.workers[w := Exited]))
  {
    WorkerMoves(p.workers, w, Exited);
  }

  lemma TakeKeepsInv(p: Pool, w: nat)
    requires Inv(p) && w < |p.workers| && p.workers[w].Checking? && p.tasks != []
    ensures Inv(AfterCheck(p, w))
  {
    var task := p.tasks[0];
    WorkerMoves(p.workers, w, Running(task));
    assert p.tasks == [task] + p.tasks[1..];
    assert p.started + p.tasks == (p.started + [task]) + p.tasks[1..];
    assert multiset(p.started + [task]) == multiset(p.started) + multiset{task};
  }

  lemma WakeKeepsInv(p: Pool, w: nat, notifies: nat)
    requires Inv(p) && w < |p.workers| && p.workers[w].Sleeping? && notifies + 1 >= p.notifies
    ensures Inv(p.(workers := p.workers[w := Checking], notifies := notifies))
  {
    WorkerMoves(p.workers, w, Checking);
  }

  lemma FinishKeepsInv(p: Pool, w: nat)
    requires Inv(p) && Enabled(p, Finish(w))
    ensures Inv(Apply(p, Finish(w)))
  {
    WorkerMoves(p.workers, w, Finished(p.workers[w].task));
  }

  lemma CompleteKeepsInv(p: Pool, w: nat)
    requires Inv(p) && Enabled(p, Complete(w))
    ensures Inv(Apply(p, Complete(w)))
  {
    WorkerMoves(p.workers, w, Checking);
    assert multiset(p.done + [p.workers[w].task]) == multiset(p.done) + multiset{p.workers[w].task};
  }

  lemma StepKeepsInv(p: Pool, step: Step)
    requires Inv(p) && Enabled(p, step)
    ensures Inv(Apply(p, step))
  {
    match step
    case Submit(task) => SubmitKeepsInv(p, task);
    case NotifyOne(None) => CountZero(p.workers, IsSleeping);
    case NotifyOne(Some(w)) => WakeKeepsInv(p, w, p.notifies - 1);
    case Spurious(w) => WakeKeepsInv(p, w, p.notifies);
    case Check(w) =>
      if p.tasks != [] {
        TakeKeepsInv(p, w);
      } else if p.stopping {
        ExitKeepsInv(p, w);
      } else {
        SleepKeepsInv(p, w);
      }
    case Finish(w) => FinishKeepsInv(p, w);
    case Complete(w) => CompleteKeepsInv(p, w);
    case SetStopFlags =>
    case NotifyAll => WakeAllCounts(p.workers);
    case Join =>
  }

  // ----- whole runs -----

  ghost predicate IsRun(ps: seq<Pool>, steps: seq<Step>) {
    && |ps| == |steps| + 1
    && forall i :: 0 <= i < |steps| ==> Enabled(ps[i], steps[i]) && ps[i + 1] == Apply(ps[i], steps[i])
  }

  lemma {:induction false} RunKeepsInv(ps: seq<Pool>, steps: seq<Step>, i: nat)
    requires IsRun(ps, steps) && Inv(ps[0]) && i < |ps|
    ensures Inv(ps[i])
  {
    if i > 0 {
      RunKeepsInv(ps, steps, i - 1);
      StepKeepsInv(ps[i - 1], steps[i - 1]);
    }
  }

  /**
   In every reachable state the queue is within capacity, no more tasks are active than there are
   threads, and accepted = queued + active + just finished + completed; the tasks taken so far are
   a prefix of those accepted, and every accepted task is queued, held or done exactly as often as
   it was accepted.
   */
  lemma Conservation(p: Pool)
    requires Inv(p)
    ensures |p.tasks| <= p.capacity && 0 <= p.active <= |p.workers|
    ensures |p.accepted| == p.queued + p.active + Count(p.workers, IsFinished) + p.completed
    ensures p.started <= p.accepted
    ensures forall task :: multiset(p.accepted)[task] ==
              multiset(p.tasks)[task] + HeldCount(p.workers, task) + multiset(p.done)[task]
  {
    CountBound(p.workers, IsRunning);
  }

  /** A task waiting in the queue always has an awake worker or a notification on its way. */
  lemma NobodyStranded(p: Pool)
    requires Inv(p) && p.tasks != []
    ensures p.notifies > 0 || exists w :: 0 <= w < |p.workers| && !p.workers[w].Sleeping? && !p.workers[w].Exited?
  {
    CountZero(p.workers, IsSleeping);
    CountZero(p.workers, IsChecking);
    CountZero(p.workers, IsExited);
    assert !p.workers[0].Exited? by { assert KindOf(p.workers[0]) != IsExited; }
    if Count(p.workers, IsSleeping) > 0 && p.notifies == 0 {
      var w :| 0 <= w < |p.workers| && KindOf(p.workers[w]) == IsChecking;
      assert !p.workers[w].Sleeping? && !p.workers[w].Exited?;
    } else if p.notifies == 0 {
      assert KindOf(p.workers[0]) != IsSleeping;
    }
  }

  /** When stop returns, every accepted task has completed and nothing more is accepted. */
  lemma StopDrains(p: Pool)
    requires Inv(p) && p.phase.Stopped?
    ensures p.tasks == [] && p.active == 0 && p.completed == |p.accepted|
    ensures multiset(p.done) == multiset(p.accepted)
    ensures SubmitOutcome(p) == PoolStopped
  {
    AllExitedHoldNothing(p.workers);
    CountZero(p.workers, IsExited);
    assert KindOf(p.workers[0]) == IsExited;
    assert p.accepted == p.started;
    forall task ensures multiset(p.done)[task] == multiset(p.accepted)[task] {
      assert HeldCount(p.workers, task) == 0;
    }
  }

  function Notified(steps: seq<Step>): nat {
    if steps == [] then 0 else Notified(steps[..|steps| - 1]) + if steps[|steps| - 1].NotifyOne? then 1 else 0
  }

  /** Each accepted task owes exactly one notification until it is delivered. */
  lemma {:induction false} OneNotificationPerTask(ps: seq<Pool>, steps: seq<Step>)
    requires IsRun(ps, steps) && ps[0].notifies == |ps[0].accepted|
    ensures ps[|steps|].notifies + Notified(steps) == |ps[|steps|].accepted|
    decreases |steps|
  {
    if steps != [] {
      var n := |steps| - 1;
      OneNotificationPerTask(ps[..n + 1], steps[..n]);
      assert ps[n + 1] == Apply(ps[n], steps[n]);
    }
  }

  /**
   A task is accepted exactly while the pool is not stopping and fewer than `capacity` tasks are
   queued. It then goes to the end of the queue; otherwise it is counted as rejected.
   */
  lemma AcceptedIff(p: Pool, task: Task)
    requires Inv(p)
    ensures var q := Apply(p, Submit(task));
            && (SubmitOutcome(p) == Accepted <==> !p.stopping && |p.tasks| < p.capacity)
            && (SubmitOutcome(p) == PoolStopped <==> p.stopping)
            && (SubmitOutcome(p) == Accepted ==>
                  q.tasks == p.tasks + [task] && q.accepted == p.accepted + [task] && q.rejected == p.rejected)
            && (SubmitOutcome(p) != Accepted ==>
                  q.tasks == p.tasks && q.accepted == p.accepted && q.rejected == p.rejected + 1)
  {
  }

  // ----- stop terminates -----

  function Weight(w: Worker): nat {
    match w
    case Exited => 0
    case Sleeping => 0
    case Checking => 1
    case Finished(_) => 2
    case Running(_) => 3
  }

  function Weights(workers: seq<Worker>): nat {
    if workers == [] then 0 else Weight(workers[0]) + Weights(workers[1..])
  }

  /** A bound on the worker steps still to come once stop is joining. */
  function Remaining(p: Pool): nat { 3 * |p.tasks| + Weights(p.workers) }

  predicate WorkerStep(step: Step) { step.Check? || step.Finish? || step.Complete? }

  lemma {:induction false} WeightsUpdate(workers: seq<Worker>, w: nat, next: Worker)
    requires w < |workers|
    ensures Weights(workers[w := next]) + Weight(workers[w]) == Weights(workers) + Weight(next)
  {
    if w > 0 {
      assert workers[w := next][1..] == workers[1..][w - 1 := next];
      WeightsUpdate(workers[1..], w - 1, next);
    } else {
      assert workers[w := next][1..] == workers[1..];
    }
  }

  /** While stop joins, every worker step makes progress and no other step undoes any. */
  lemma JoiningProgress(p: Pool, step: Step)
    requires Inv(p) && p.phase in {Joining, Stopped} && Enabled(p, step)
    ensures Apply(p, step).phase in {Joining, Stopped}
    ensures Remaining(Apply(p, step)) + (if WorkerStep(step) then 1 else 0) <= Remaining(p)
  {
    CountZero(p.workers, IsSleeping);
    match step
    case NotifyOne(Some(w)) =>
    case Spurious(w) =>
    case Check(w) => WeightsUpdate(p.workers, w, if p.tasks == [] then Exited else Running(p.tasks[0]));
    case Finish(w) => WeightsUpdate(p.workers, w, Finished(p.workers[w].task));
    case Complete(w) => WeightsUpdate(p.workers, w, Checking);
    case _ =>
  }

  /** Some worker can always move until all have exited, and then stop can return. */
  lemma JoiningNeverBlocks(p: Pool)
    requires Inv(p) && p.phase.Joining?
    ensures Enabled(p, Join)
            || exists w: nat :: Enabled(p, Check(w)) || Enabled(p, Finish(w)) || Enabled(p, Complete(w))
  {
    CountZero(p.workers, IsSleeping);
    if w: nat :| w < |p.workers| && !p.workers[w].Exited? {
      assert KindOf(p.workers[w]) != IsSleeping;
      assert Enabled(p, Check(w)) || Enabled(p, Finish(w)) || Enabled(p, Complete(w));
    }
  }

  function WorkerSteps(steps: seq<Step>): nat {
    if steps == [] then 0 else WorkerSteps(steps[..|steps| - 1]) + if WorkerStep(steps[|steps| - 1]) then 1 else 0
  }

  /**
   From the moment stop starts joining, the workers take at most `Remaining` further steps in any
   run, however submitters and late notifications interleave: stop terminates.
   */
  lemma {:induction false} StopTerminates(ps: seq<Pool>, steps: seq<Step>)
    requires IsRun(ps, steps) && Inv(ps[0]) && ps[0].phase in {Joining, Stopped}
    ensures ps[|steps|].phase in {Joining, Stopped}
    ensures WorkerSteps(steps) + Remaining(ps[|steps|]) <= Remaining(ps[0])
    decreases |steps|
  {
    if steps != [] {
      var n := |steps| - 1;
      StopTerminates(ps[..n + 1], steps[..n]);
      RunKeepsInv(ps, steps, n);
      JoiningProgress(ps[n], steps[n]);
    }
  }

  // ----- the pool as an object -----

  class WorkerPool {
    const capacity: nat
    var tasks: seq<Task>
    var accepting: bool
    var stopping: bool
    var queuedTasks: int
    var activeTasks: int
    var completedTasks: int
    var rejectedTasks: int
    var workers: seq<Worker>
    var notifies: nat
    var phase: StopPhase
    ghost var accepted: seq<Task>
    ghost var started: seq<Task>
    ghost var done: seq<Task>

    ghost function View(): Pool
      reads this
    {
      Pool(capacity, tasks, accepting, stopping, queuedTasks, activeTasks, completedTasks, rejectedTasks,
           workers, notifies, phase, accepted, started, done)
    }

    ghost predicate Valid()
      reads this
    {
      Inv(View())
    }

    constructor (threads: nat, capacity: nat)
      requires threads > 0 && capacity > 0
      ensures Valid() && View() == Initial(threads, capacity)
    {
      this.capacity := capacity;
      tasks, accepting, stopping := [], true, false;
      queuedTasks, activeTasks, completedTasks, rejectedTasks := 0, 0, 0, 0;
      workers, notifies, phase := seq(threads, _ => Checking), 0, NotStopping;
      accepted, started, done := [], [], [];
      new;
      InitialInv(threads, capacity);
    }

    /** try_submit's locked section; the notify_one that follows it is a separate step. */
    method TrySubmit(task: Task) returns (result: SubmitResult)
      requires Valid()
      modifies this
      ensures Valid() && View() == Apply(old(View()), Submit(task))
      ensures result == SubmitOutcome(old(View()))
    {
      StepKeepsInv(View(), Submit(task));
      if !accepting {
        rejectedTasks := rejectedTasks + 1;
        return PoolStopped;
      }
      if |tasks| >= capacity {
        rejectedTasks := rejectedTasks + 1;
        return QueueFull;
      }
      tasks := tasks + [task];
      queuedTasks := queuedTasks + 1;
      notifies := notifies + 1;
      accepted := accepted + [task];
      return Accepted;
    }

    method DeliverNotification(woken: Option<nat>)
      requires Valid() && Enabled(View(), NotifyOne(woken))
      modifies this
      ensures Valid() && View() == Apply(old(View()), NotifyOne(woken))
    {
      StepKeepsInv(View(), NotifyOne(woken));
      notifies := notifies - 1;
      if woken.Some? { workers := workers[woken.value := Checking]; }
    }

    method WakeSpuriously(w: nat)
      requires Valid() && Enabled(View(), Spurious(w))
      modifies this
      ensures Valid() && View() == Apply(old(View()), Spurious(w))
    {
      StepKeepsInv(View(), Spurious(w));
      workers := workers[w := Checking];
    }

    /** The locked section of worker_loop, up to the task being taken. */
    method TakeTask(w: nat)
      requires Valid() && Enabled(View(), Check(w))
      modifies this
      ensures Valid() && View() == Apply(old(View()), Check(w))
    {
      StepKeepsInv(View(), Check(w));
      if !(stopping || tasks != []) {
        workers := workers[w := Sleeping];
        return;
      }
      if tasks == [] {
        workers := workers[w := Exited];
        return;
      }
      var task := tasks[0];
      tasks := tasks[1..];
      queuedTasks := queuedTasks - 1;
      activeTasks := activeTasks + 1;
      workers := workers[w := Running(task)];
      started := started + [task];
    }

    method FinishTask(w: nat)
      requires Valid() && Enabled(View(), Finish(w))
      modifies this
      ensures Valid() && View() == Apply(old(View()), Finish(w))
    {
      StepKeepsInv(View(), Finish(w));
      activeTasks := activeTasks - 1;
      workers := workers[w := Finished(workers[w].task)];
    }

    method CompleteTask(w: nat)
      requires Valid() && Enabled(View(), Complete(w))
      modifies this
      ensures Valid() && View() == Apply(old(View()), Complete(w))
    {
      StepKeepsInv(View(), Complete(w));
      completedTasks := completedTasks + 1;
      done := done + [workers[w].task];
      workers := workers[w := Checking];
    }

    /** stop's locked section; false means an earlier stop had already finished. */
    method BeginStop() returns (proceed: bool)
      requires Valid() && phase in {NotStopping, Stopped}
      modifies this
      ensures Valid() && proceed == old(phase).NotStopping?
      ensures View() == if proceed then Apply(old(View()), SetStopFlags) else old(View())
    {
      if !accepting && stopping && phase.Stopped? { return false; }
      StepKeepsInv(View(), SetStopFlags);
      accepting := false;
      stopping := true;
      phase := FlagsSet;
      return true;
    }

    method NotifyAllWorkers()
      requires Valid() && Enabled(View(), NotifyAll)
      modifies this
      ensures Valid() && View() == Apply(old(View()), NotifyAll)
    {
      StepKeepsInv(View(), NotifyAll);
      workers := WakeAll(workers);
      phase := Joining;
    }

    method JoinWorkers()
      requires Valid() && Enabled(View(), Join)
      modifies this
      ensures Valid() && View() == Apply(old(View()), Join)
      ensures tasks == [] && completedTasks == |accepted| && multiset(done) == multiset(accepted)
    {
      StepKeepsInv(View(), Join);
      phase := Stopped;
      StopDrains(View());
    }
  }
}
