/**
 Protection against password guessing: per-account and per-address failure counters with
 exponentially growing lockouts. Times are nanoseconds of the steady clock, later than its epoch;
 the epoch itself is the "unset" mark, as in the default time_point.
 */
module AuthAbuse {
  import opened Common

  const MILLISECOND := 1_000_000
  const UINT32_LIMIT := 0x1_0000_0000
  const UINT64_LIMIT := 0x1_0000_0000_0000_0000
  const INT64_LIMIT := 0x8000_0000_0000_0000
  const PRUNE_PERIOD := 256
  const UNSET := 0

  /** Durations are in whole seconds. */
  datatype Config = Config(
    accountLimit: nat,
    ipLimit: nat,
    window: nat,
    base: nat,
    maximum: nat,
    maxAccounts: nat,
    maxIps: nat)

  ghost predicate ConfigOk(cfg: Config) {
    && cfg.accountLimit > 0 && cfg.ipLimit > 0
    && cfg.window > 0 && cfg.base > 0 && cfg.base <= cfg.maximum < INT64_LIMIT
    && cfg.maxAccounts > 0 && cfg.maxIps > 0
  }

  datatype FailureState = FailureState(
    failures: nat,
    level: nat,
    windowStarted: int,
    lockedUntil: int,
    lastSeen: int)

  const FRESH := FailureState(0, 0, UNSET, UNSET, UNSET)

  datatype Decision = Decision(allowed: bool, retryAfter: int, newlyLocked: bool)

  const ALLOWED := Decision(true, 0, false)

  // ----- rounding -----

  /** ceil_seconds: whole milliseconds first, then whole seconds rounded up, saturating. */
  function CeilSeconds(d: int): int {
    if d <= 0 then 0
    else
      var rounded := Max(1, (d / MILLISECOND + 999) / 1000);
      if rounded > UINT32_LIMIT - 1 then UINT32_LIMIT - 1 else rounded
  }

  /**
   The reported time falls short exactly when the duration exceeds whole seconds, at least one, by a
   fraction under a millisecond, or exceeds the largest 32-bit number of seconds. Otherwise it is
   less than a second too long; within the 32-bit range it is never a millisecond too short.
   */
  lemma CeilSecondsUndershoot(d: int)
    requires d > 0
    ensures CeilSeconds(d) * SECOND < d <==>
              (d > SECOND && 0 < d % SECOND < MILLISECOND) || d > (UINT32_LIMIT - 1) * SECOND
    ensures d <= (UINT32_LIMIT - 1) * SECOND ==> d - MILLISECOND < CeilSeconds(d) * SECOND
    ensures 1 <= CeilSeconds(d) && (d >= SECOND ==> CeilSeconds(d) * SECOND < d + SECOND)
  {
    var whole, part := d / SECOND, d % SECOND;
    var ms := part / MILLISECOND;
    assert d == whole * SECOND + part;
    assert d / MILLISECOND == whole * 1000 + ms;
    assert (d / MILLISECOND + 999) / 1000 == whole + (ms + 999) / 1000;
  }

  // ----- the lockout duration -----

  /** How many seconds the lock at a level lasts. */
  function LockSeconds(cfg: Config, level: nat): int
    requires level > 0
  {
    Min(cfg.maximum, cfg.base * Pow2(level - 1))
  }

  lemma ProductMonotone(base: nat, a: nat, b: nat)
    requires a <= b
    ensures base * a <= base * b
  {
  }

  /** The division guard takes the maximum exactly when the product would exceed it. */
  lemma DivisionGuard(base: nat, multiplier: nat, maximum: nat)
    requires multiplier > 0
    ensures base > maximum / multiplier <==> base * multiplier > maximum
  {
    var q := maximum / multiplier;
    assert maximum == q * multiplier + maximum % multiplier;
    if base > q { ProductMonotone(multiplier, q + 1, base); } else { ProductMonotone(multiplier, base, q); }
  }

  /** Leaving the doubling loop early is harmless: both powers already reach the maximum. */
  lemma EarlyExit(base: nat, maximum: nat, low: nat, high: nat)
    requires base > 0 && low <= high && maximum <= Pow2(low)
    ensures base * Pow2(low) >= maximum && base * Pow2(high) >= maximum
  {
    Pow2Grows(low, high);
    ProductMonotone(Pow2(low), 1, base);
    ProductMonotone(Pow2(high), 1, base);
  }

  /**
   lockout_duration's early-exit doubling loop computes min(maximum, base * 2^(level-1)), and none
   of its intermediate values leaves the unsigned 64-bit range.
   */
  method LockoutDuration(cfg: Config, level: nat) returns (seconds: int)
    requires ConfigOk(cfg) && level > 0
    ensures seconds == LockSeconds(cfg, level)
  {
    var multiplier := 1;
    var index := 1;
    while index < level
      invariant 1 <= index <= level
      invariant multiplier == Pow2(index - 1) && 1 <= multiplier < 2 * INT64_LIMIT
      decreases level - index
    {
      if multiplier >= cfg.maximum { break; }
      multiplier := multiplier * 2;
      index := index + 1;
    }
    assert multiplier < UINT64_LIMIT;
    DivisionGuard(cfg.base, multiplier, cfg.maximum);
    if index < level { EarlyExit(cfg.base, cfg.maximum, index - 1, level - 1); }
    assert cfg.base > cfg.maximum / multiplier || cfg.base * multiplier < UINT64_LIMIT;
    seconds := Min(cfg.maximum, if cfg.base > cfg.maximum / multiplier then cfg.maximum else cfg.base * multiplier);
  }

  // ----- one key -----

  /** check_state. */
  function CheckState(cfg: Config, s: FailureState, now: int): (FailureState, Decision) {
    var seen := s.(lastSeen := now);
    if s.lockedUntil > now then (seen, Decision(false, CeilSeconds(s.lockedUntil - now), false))
    else
      var quietAfterLock := s.lockedUntil != UNSET && now - s.lockedUntil > cfg.window * SECOND;
      var quietWithoutLock := s.lockedUntil == UNSET && s.lastSeen != UNSET && now - s.lastSeen > cfg.window * SECOND;
      if quietAfterLock || quietWithoutLock then (FailureState(0, 0, now, UNSET, now), ALLOWED)
      else if s.windowStarted != UNSET && now - s.windowStarted > cfg.window * SECOND
      then (seen.(failures := 0, windowStarted := now), ALLOWED)
      else (seen, ALLOWED)
  }

  /** record_failure_state. */
  function RecordFailureState(cfg: Config, limit: nat, s: FailureState, now: int): (FailureState, Decision) {
    var (checked, current) := CheckState(cfg, s, now);
    if !current.allowed then (checked, current)
    else
      var windowed :=
        if checked.windowStarted == UNSET || now - checked.windowStarted > cfg.window * SECOND
        then checked.(failures := 0, level := 0, windowStarted := now)
        else checked;
      var counted := windowed.(failures := windowed.failures + 1, lastSeen := now);
      if counted.failures < limit then (counted, ALLOWED)
      else
        var level := counted.level + 1;
        var seconds := LockSeconds(cfg, level);
        (counted.(failures := 0, level := level, lockedUntil := now + seconds * SECOND),
         Decision(false, seconds % UINT32_LIMIT, true))
  }

  /** What is true of every tracked state at time `last`. */
  ghost predicate StateInv(cfg: Config, limit: nat, s: FailureState, last: int) {
    && s.failures < limit
    && (s.level > 0 <==> s.lockedUntil != UNSET)
    && 0 < s.windowStarted <= last && 0 < s.lastSeen <= last
    && s.lockedUntil >= 0
    && s.lockedUntil <= s.lastSeen + cfg.maximum * SECOND
  }

  datatype Event = Attempt(now: int) | Failure(now: int) | Erase(now: int)

  /** One key of one map; None while it is not tracked. */
  function KeyStep(cfg: Config, limit: nat, key: Option<FailureState>, e: Event): (Option<FailureState>, Decision) {
    match e
    case Attempt(now) =>
      (match key
       case None => (None, ALLOWED)
       case Some(s) => var (s', d) := CheckState(cfg, s, now); (Some(s'), d))
    case Failure(now) =>
      var (s', d) := RecordFailureState(cfg, limit, if key.Some? then key.value else FRESH, now);
      (Some(s'), d)
    case Erase(_) => (None, ALLOWED)
  }

  ghost predicate KeyInv(cfg: Config, limit: nat, key: Option<FailureState>, last: int) {
    key.Some? ==> StateInv(cfg, limit, key.value, last)
  }

  lemma LockWithinMaximum(cfg: Config, level: nat)
    requires ConfigOk(cfg) && level > 0
    ensures 0 < LockSeconds(cfg, level) <= cfg.maximum
  {
    Pow2Grows(0, level - 1);
    ProductMonotone(cfg.base, 1, Pow2(level - 1));
  }

  lemma KeyStepKeepsInv(cfg: Config, limit: nat, key: Option<FailureState>, e: Event, last: int)
    requires ConfigOk(cfg) && limit > 0 && KeyInv(cfg, limit, key, last) && 0 < e.now && last <= e.now
    ensures KeyInv(cfg, limit, KeyStep(cfg, limit, key, e).0, e.now)
  {
    if e.Failure? {
      var s := if key.Some? then key.value else FRESH;
      var checked := CheckState(cfg, s, e.now).0;
      LockWithinMaximum(cfg, checked.level + 1);
      LockWithinMaximum(cfg, 1);
    }
  }

  ghost predicate IsKeyRun(cfg: Config, limit: nat, keys: seq<Option<FailureState>>, es: seq<Event>, ds: seq<Decision>)
  {
    && |keys| == |es| + 1 && |ds| == |es|
    && (forall i :: 0 <= i < |es| ==> 0 < es[i].now)
    && (forall i, j :: 0 <= i < j < |es| ==> es[i].now <= es[j].now)
    && (forall i {:trigger Stepped(cfg, limit, keys, es, ds, i)} ::
          0 <= i < |es| ==> Stepped(cfg, limit, keys, es, ds, i))
  }

  ghost predicate Stepped(cfg: Config, limit: nat, keys: seq<Option<FailureState>>, es: seq<Event>, ds: seq<Decision>,
                          i: nat)
    requires i < |es| && |keys| == |es| + 1 && |ds| == |es|
  {
    KeyStep(cfg, limit, keys[i], es[i]) == (keys[i + 1], ds[i])
  }

  /**
   In every time-ordered run of a key: failures stay below the limit, the level is positive exactly
   while a lock time is set, and no lock reaches further than the maximum past the last use.
   */
  lemma {:induction false} KeyRunKeepsInv(cfg: Config, limit: nat, keys: seq<Option<FailureState>>, es: seq<Event>,
                                          ds: seq<Decision>, i: nat)
    requires ConfigOk(cfg) && limit > 0 && IsKeyRun(cfg, limit, keys, es, ds) && keys[0] == None && i < |keys|
    ensures KeyInv(cfg, limit, keys[i], if i == 0 then 0 else es[i - 1].now)
  {
    if i > 0 {
      KeyRunKeepsInv(cfg, limit, keys, es, ds, i - 1);
      assert Stepped(cfg, limit, keys, es, ds, i - 1);
      KeyStepKeepsInv(cfg, limit, keys[i - 1], es[i - 1], if i == 1 then 0 else es[i - 2].now);
    }
  }

  /**
   A locked key is denied at every instant before its lock ends, and nothing tried meanwhile
   changes more than the time it was last seen: attempts never extend a lock.
   */
  lemma {:induction false} LockHolds(cfg: Config, limit: nat, keys: seq<Option<FailureState>>, es: seq<Event>,
                                     ds: seq<Decision>, i: nat, j: nat)
    requires IsKeyRun(cfg, limit, keys, es, ds) && i < j < |keys| && keys[i].Some?
    requires forall k :: i <= k < j ==> !es[k].Erase? && es[k].now < keys[i].value.lockedUntil
    ensures keys[j] == Some(keys[i].value.(lastSeen := es[j - 1].now))
    ensures !ds[j - 1].allowed && !ds[j - 1].newlyLocked && ds[j - 1].retryAfter >= 1
    ensures forall k :: i <= k < j ==> !ds[k].allowed
  {
    assert Stepped(cfg, limit, keys, es, ds, j - 1);
    if i < j - 1 { LockHolds(cfg, limit, keys, es, ds, i, j - 1); }
  }

  /** The level of a tracked key only ever falls a full quiet window after its lock ended, and then to zero. */
  lemma LevelFallsAfterQuiet(cfg: Config, limit: nat, s: FailureState, e: Event, last: int)
    requires ConfigOk(cfg) && limit > 0 && StateInv(cfg, limit, s, last) && last <= e.now && !e.Erase?
    ensures var (key, d) := KeyStep(cfg, limit, Some(s), e);
            && key.Some?
            && (key.value.level < s.level ==> e.now > s.lockedUntil + cfg.window * SECOND)
            && (e.Attempt? ==>
                  (key.value.level < s.level <==> s.level > 0 && e.now > s.lockedUntil + cfg.window * SECOND))
            && (e.Attempt? && key.value.level != s.level ==> key.value.level == 0)
  {
  }

  /**
   A failure locks the key exactly when it is the limit-th of its window; the lock then lasts
   min(maximum, base * 2^(level-1)) from that failure, one level above the one still in force. The
   number of seconds reported with it is cut to 32 bits, so it is right exactly if they suffice.
   */
  lemma NewLock(cfg: Config, limit: nat, key: Option<FailureState>, now: int, last: int)
    requires ConfigOk(cfg) && limit > 0 && KeyInv(cfg, limit, key, last) && 0 < now && last <= now
    ensures var (after, d) := KeyStep(cfg, limit, key, Failure(now));
            var s := if key.Some? then key.value else FRESH;
            var checked := CheckState(cfg, s, now).0;
            && (d.newlyLocked <==> s.lockedUntil <= now && checked.failures + 1 == limit)
            && (d.newlyLocked ==>
                  && after.value.level == checked.level + 1 >= 1
                  && after.value.lockedUntil == now + Min(cfg.maximum, cfg.base * Pow2(after.value.level - 1)) * SECOND
                  && after.value.lockedUntil > now
                  && d.retryAfter == Min(cfg.maximum, cfg.base * Pow2(after.value.level - 1)) % UINT32_LIMIT
                  && (d.retryAfter * SECOND == after.value.lockedUntil - now <==>
                        Min(cfg.maximum, cfg.base * Pow2(after.value.level - 1)) < UINT32_LIMIT))
            && (!d.newlyLocked && d.allowed ==>
                  after.value.failures == checked.failures + 1 && after.value.level == checked.level)
  {
    var s := if key.Some? then key.value else FRESH;
    LockWithinMaximum(cfg, CheckState(cfg, s, now).0.level + 1);
  }

  // ----- pruning -----

  predicate Prunable(cfg: Config, s: FailureState, now: int) {
    s.lastSeen != UNSET && now - s.lastSeen > (cfg.window + cfg.maximum) * SECOND
  }

  /**
   A pruned entry is unlocked, its next check would itself reset it to zero failures and level
   zero, and recording a failure against it leaves exactly what a fresh entry would become.
   */
  lemma PruningLosesNothingLive(cfg: Config, limit: nat, s: FailureState, now: int, later: int)
    requires ConfigOk(cfg) && limit > 0 && StateInv(cfg, limit, s, now) && Prunable(cfg, s, now) && now <= later
    ensures s.lockedUntil < now
    ensures CheckState(cfg, s, later) == (FailureState(0, 0, later, UNSET, later), ALLOWED)
    ensures RecordFailureState(cfg, limit, s, later) == RecordFailureState(cfg, limit, FRESH, later)
  {
  }

  // ----- exactly when pruning shows -----

  function AfterEvents(cfg: Config, limit: nat, key: Option<FailureState>, es: seq<Event>): Option<FailureState>
    decreases |es|
  {
    if es == [] then key else AfterEvents(cfg, limit, KeyStep(cfg, limit, key, es[0]).0, es[1..])
  }

  function Decisions(cfg: Config, limit: nat, key: Option<FailureState>, es: seq<Event>): (ds: seq<Decision>)
    ensures |ds| == |es|
    decreases |es|
  {
    if es == [] then []
    else
      var (next, d) := KeyStep(cfg, limit, key, es[0]);
      [d] + Decisions(cfg, limit, next, es[1..])
  }

  /** The events are in order of time and none comes before `from`. */
  predicate Timed(es: seq<Event>, from: int) {
    es == [] || (from <= es[0].now && Timed(es[1..], es[0].now))
  }

  predicate AllAttempts(es: seq<Event>) { forall e :: e in es ==> e.Attempt? }

  lemma {:induction false} EventsConcat(cfg: Config, limit: nat, key: Option<FailureState>, a: seq<Event>,
                                        b: seq<Event>)
    ensures AfterEvents(cfg, limit, key, a + b) == AfterEvents(cfg, limit, AfterEvents(cfg, limit, key, a), b)
    ensures Decisions(cfg, limit, key, a + b)
         == Decisions(cfg, limit, key, a) + Decisions(cfg, limit, AfterEvents(cfg, limit, key, a), b)
    decreases |a|
  {
    hide KeyStep;
    if a == [] {
      assert a + b == b && [] + Decisions(cfg, limit, key, b) == Decisions(cfg, limit, key, b);
    } else {
      assert (a + b)[0] == a[0] && (a + b)[1..] == a[1..] + b;
      var (next, d) := KeyStep(cfg, limit, key, a[0]);
      EventsConcat(cfg, limit, next, a[1..], b);
      var left, right := Decisions(cfg, limit, next, a[1..]), Decisions(cfg, limit, AfterEvents(cfg, limit, key, a), b);
      assert [d] + (left + right) == [d] + left + right;
    }
  }

  /** Where a window opened at `start` has moved after some attempts. */
  function WindowAfter(cfg: Config, start: int, attempts: seq<Event>): int
    decreases |attempts|
  {
    if attempts == [] then start
    else
      var now := attempts[0].now;
      WindowAfter(cfg, if now - start > cfg.window * SECOND then now else start, attempts[1..])
  }

  /** A tracked key without failures or lock, whose window opened at `start`. */
  function Quiet(start: int, seen: int): FailureState { FailureState(0, 0, start, UNSET, seen) }

  function LastTime(es: seq<Event>, from: int): int { if es == [] then from else es[|es| - 1].now }

  lemma {:induction false} AttemptsOnQuiet(cfg: Config, limit: nat, start: int, seen: int, attempts: seq<Event>)
    requires ConfigOk(cfg) && AllAttempts(attempts) && Timed(attempts, seen) && 0 < start <= seen
    ensures var last := LastTime(attempts, seen);
            && start <= WindowAfter(cfg, start, attempts) <= last && seen <= last
            && AfterEvents(cfg, limit, Some(Quiet(start, seen)), attempts)
               == Some(Quiet(WindowAfter(cfg, start, attempts), last))
            && AfterEvents(cfg, limit, None, attempts) == None
            && Decisions(cfg, limit, Some(Quiet(start, seen)), attempts) == Decisions(cfg, limit, None, attempts)
    decreases |attempts|
  {
    if attempts != [] {
      var now := attempts[0].now;
      assert attempts[0] in attempts && forall e :: e in attempts[1..] ==> e in attempts;
      assert attempts[0] == Attempt(now);
      AttemptsOnQuiet(cfg, limit, if now - start > cfg.window * SECOND then now else start, now, attempts[1..]);
    }
  }

  // With a limit of one no failures accumulate, so the window's start never matters.

  ghost predicate SameButWindow(a: FailureState, b: FailureState) {
    && a.(windowStarted := b.windowStarted) == b
    && a.failures == 0 && a.windowStarted > 0 && b.windowStarted > 0
  }

  lemma {:induction false} WindowIrrelevant(cfg: Config, a: Option<FailureState>, b: Option<FailureState>,
                                            es: seq<Event>, from: int)
    requires ConfigOk(cfg) && 0 < from && Timed(es, from)
    requires a == b || (a.Some? && b.Some? && SameButWindow(a.value, b.value))
    ensures Decisions(cfg, 1, a, es) == Decisions(cfg, 1, b, es)
    decreases |es|
  {
    if es != [] {
      WindowIrrelevant(cfg, KeyStep(cfg, 1, a, es[0]).0, KeyStep(cfg, 1, b, es[0]).0, es[1..], es[0].now);
    }
  }

  /** What one failure makes of a key kept quiet and of one that was pruned. */
  lemma FirstFailure(cfg: Config, limit: nat, start: int, seen: int, t: int)
    requires ConfigOk(cfg) && limit > 0 && 0 < start <= seen <= t
    ensures var (kept, d) := KeyStep(cfg, limit, Some(Quiet(start, seen)), Failure(t));
            var (pruned, e) := KeyStep(cfg, limit, None, Failure(t));
            && d == e
            && (t == start || t - start > cfg.window * SECOND ==> kept == pruned)
            && (limit == 1 ==> SameButWindow(kept.value, pruned.value))
            && (limit > 1 && start < t && t - start <= cfg.window * SECOND ==>
                  kept == Some(FailureState(1, 0, start, UNSET, t)) && pruned == Some(FailureState(1, 0, t, UNSET, t)))
  {
  }

  function Repeat(e: Event, n: nat): seq<Event> { seq(n, _ => e) }

  lemma {:induction false} FailuresCount(cfg: Config, limit: nat, failures: nat, start: int, t: int, n: nat)
    requires ConfigOk(cfg) && failures + n < limit && 0 < start <= t && t - start <= cfg.window * SECOND
    ensures AfterEvents(cfg, limit, Some(FailureState(failures, 0, start, UNSET, t)), Repeat(Failure(t), n))
         == Some(FailureState(failures + n, 0, start, UNSET, t))
    ensures Timed(Repeat(Failure(t), n), t)
    decreases n
  {
    if n > 0 {
      assert Repeat(Failure(t), n)[1..] == Repeat(Failure(t), n - 1);
      FailuresCount(cfg, limit, failures + 1, start, t, n - 1);
    }
  }

  lemma {:induction false} TimedConcat(a: seq<Event>, b: seq<Event>, from: int)
    ensures Timed(a + b, from) <==> Timed(a, from) && Timed(b, LastTime(a, from))
    decreases |a|
  {
    if a == [] {
      assert a + b == b;
    } else {
      assert (a + b)[0] == a[0] && (a + b)[1..] == a[1..] + b;
      TimedConcat(a[1..], b, a[0].now);
    }
  }

  /**
   The continuation that tells two keys apart whose windows opened at different times: failures up
   to one below the limit at once, and one more just as the earlier window has passed.
   */
  lemma WindowsToldApart(cfg: Config, limit: nat, start: int, t: int)
    requires ConfigOk(cfg) && limit > 1 && 0 < start < t && t - start <= cfg.window * SECOND
    ensures var kept, pruned := Some(FailureState(1, 0, start, UNSET, t)), Some(FailureState(1, 0, t, UNSET, t));
            var more := Repeat(Failure(t), limit - 2) + [Failure(start + cfg.window * SECOND + 1)];
            Timed(more, t) && Decisions(cfg, limit, kept, more) != Decisions(cfg, limit, pruned, more)
  {
    var kept, pruned := Some(FailureState(1, 0, start, UNSET, t)), Some(FailureState(1, 0, t, UNSET, t));
    var burst, last := Repeat(Failure(t), limit - 2), Failure(start + cfg.window * SECOND + 1);
    FailuresCount(cfg, limit, 1, start, t, limit - 2);
    FailuresCount(cfg, limit, 1, t, t, limit - 2);
    TimedConcat(burst, [last], t);
    assert [last][1..] == [];
    EventsConcat(cfg, limit, kept, burst, [last]);
    EventsConcat(cfg, limit, pruned, burst, [last]);
    LastDecision(cfg, limit, kept, burst, last);
    LastDecision(cfg, limit, pruned, burst, last);
    assert KeyStep(cfg, limit, Some(FailureState(limit - 1, 0, start, UNSET, t)), last).1.allowed;
    assert !KeyStep(cfg, limit, Some(FailureState(limit - 1, 0, t, UNSET, t)), last).1.allowed;
  }

  lemma LastDecision(cfg: Config, limit: nat, key: Option<FailureState>, es: seq<Event>, e: Event)
    ensures Decisions(cfg, limit, key, es + [e])[|es|] == KeyStep(cfg, limit, AfterEvents(cfg, limit, key, es), e).1
  {
    EventsConcat(cfg, limit, key, es, [e]);
  }

  /** Up to the next failure a kept and a pruned key give the same decisions; what is left of either then. */
  lemma KeptAndPruned(cfg: Config, limit: nat, s: FailureState, now: int, attempts: seq<Event>, t: int)
    requires ConfigOk(cfg) && limit > 0 && StateInv(cfg, limit, s, now) && Prunable(cfg, s, now) && 0 < now
    requires AllAttempts(attempts) && Timed(attempts + [Failure(t)], now)
    ensures var es := attempts + [Failure(t)];
            && Decisions(cfg, limit, Some(s), es) == Decisions(cfg, limit, None, es)
            && AfterEvents(cfg, limit, None, es) == KeyStep(cfg, limit, None, Failure(t)).0
            && if attempts == [] then AfterEvents(cfg, limit, Some(s), es) == AfterEvents(cfg, limit, None, es)
               else
                 var (start, seen) := (WindowAfter(cfg, attempts[0].now, attempts[1..]), LastTime(attempts, now));
                 && 0 < start <= seen <= t
                 && AfterEvents(cfg, limit, Some(s), es) == KeyStep(cfg, limit, Some(Quiet(start, seen)), Failure(t)).0
  {
    TimedConcat(attempts, [Failure(t)], now);
    EventsConcat(cfg, limit, Some(s), attempts, [Failure(t)]);
    EventsConcat(cfg, limit, None, attempts, [Failure(t)]);
    assert [Failure(t)][1..] == [];
    if attempts == [] {
      PruningLosesNothingLive(cfg, limit, s, now, t);
    } else {
      var first := attempts[0].now;
      assert attempts[0] in attempts && forall e :: e in attempts[1..] ==> e in attempts;
      assert attempts[0] == Attempt(first);
      PruningLosesNothingLive(cfg, limit, s, now, first);
      hide CheckState, RecordFailureState, StateInv, Prunable;
      AttemptsOnQuiet(cfg, limit, first, first, attempts[1..]);
      FirstFailure(cfg, limit, WindowAfter(cfg, first, attempts[1..]), LastTime(attempts, now), t);
    }
  }

  /**
   Pruning an entry shows in no decision up to the next failure. After it the pruned key and the
   kept one behave alike for ever exactly when no attempt came in between, or the failure came at
   the instant the window those attempts had opened began or after it had passed, or a single
   failure locks.
   */
  lemma PruningInvisibleIff(cfg: Config, limit: nat, s: FailureState, now: int, attempts: seq<Event>, t: int)
    requires ConfigOk(cfg) && limit > 0 && StateInv(cfg, limit, s, now) && Prunable(cfg, s, now) && 0 < now
    requires AllAttempts(attempts) && Timed(attempts + [Failure(t)], now)
    ensures var es := attempts + [Failure(t)];
            && Decisions(cfg, limit, Some(s), es) == Decisions(cfg, limit, None, es)
            && var (kept, pruned) := (AfterEvents(cfg, limit, Some(s), es), AfterEvents(cfg, limit, None, es));
               (forall more :: Timed(more, t) ==>
                  Decisions(cfg, limit, kept, more) == Decisions(cfg, limit, pruned, more)) <==>
                 (limit == 1 || attempts == [] ||
                   var start := WindowAfter(cfg, attempts[0].now, attempts[1..]);
                   t == start || t - start > cfg.window * SECOND)
  {
    KeptAndPruned(cfg, limit, s, now, attempts, t);
    hide StateInv, Prunable, AfterEvents, Timed, LastTime;
    if attempts != [] {
      var start, seen := WindowAfter(cfg, attempts[0].now, attempts[1..]), LastTime(attempts, now);
      FirstFailure(cfg, limit, start, seen, t);
      hide KeyStep;
      var kept := KeyStep(cfg, limit, Some(Quiet(start, seen)), Failure(t)).0;
      var pruned := KeyStep(cfg, limit, None, Failure(t)).0;
      if limit == 1 {
        forall more | Timed(more, t) ensures Decisions(cfg, limit, kept, more) == Decisions(cfg, limit, pruned, more) {
          WindowIrrelevant(cfg, kept, pruned, more, t);
        }
      } else if t != start && t - start <= cfg.window * SECOND {
        WindowsToldApart(cfg, limit, start, t);
      }
    }
  }

  /** A literal instance of it: the pruned key locks where the kept one would still have allowed. */
  lemma PruningSeenThroughCheck()
    ensures var cfg := Config(2, 2, 10, 10, 10, 4, 4);
            var s := FailureState(1, 0, 1 * SECOND, UNSET, 1 * SECOND);
            var (t1, t2, t3) := (100 * SECOND, 110 * SECOND, 110 * SECOND + 1);
            && StateInv(cfg, 2, s, t1) && Prunable(cfg, s, t1)
            && (var kept1 := KeyStep(cfg, 2, Some(s), Attempt(t1)).0;
                var kept2 := KeyStep(cfg, 2, kept1, Failure(t2)).0;
                KeyStep(cfg, 2, kept2, Failure(t3)).1.allowed)
            && (var pruned1 := KeyStep(cfg, 2, None, Attempt(t1)).0;
                var pruned2 := KeyStep(cfg, 2, pruned1, Failure(t2)).0;
                !KeyStep(cfg, 2, pruned2, Failure(t3)).1.allowed)
  {
  }

  // ----- both maps -----

  type States = map<string, FailureState>

  function Pruned(cfg: Config, states: States, now: int): States {
    map k | k in states && !Prunable(cfg, states[k], now) :: states[k]
  }

  function Lookup(states: States, key: string): Option<FailureState> {
    if key in states then Some(states[key]) else None
  }

  function Roomy(states: States, key: string, capacity: nat, first: string): States {
    if key in states || |states| < capacity then states else Without(states, first)
  }

  datatype Protector = Protector(accounts: States, ips: States, operations: nat)

  function AfterPrune(cfg: Config, p: Protector, now: int): Protector {
    if (p.operations + 1) % PRUNE_PERIOD != 0 then p.(operations := p.operations + 1)
    else Protector(Pruned(cfg, p.accounts, now), Pruned(cfg, p.ips, now), p.operations + 1)
  }

  function Combined(a: Decision, b: Decision, newly: bool): Decision {
    if a.allowed && b.allowed then ALLOWED else Decision(false, Max(a.retryAfter, b.retryAfter), newly)
  }

  function CheckIn(cfg: Config, states: States, key: string, now: int): (States, Decision) {
    if key in states
    then var (s, d) := CheckState(cfg, states[key], now); (states[key := s], d)
    else (states, ALLOWED)
  }

  function FailIn(cfg: Config, limit: nat, capacity: nat, states: States, key: string, now: int,
                  first: string): (States, Decision)
  {
    var roomy := Roomy(states, key, capacity, first);
    var (s, d) := RecordFailureState(cfg, limit, if key in roomy then roomy[key] else FRESH, now);
    (roomy[key := s], d)
  }

  function Check(cfg: Config, p: Protector, account: string, ip: string, now: int): (Protector, Decision) {
    var q := AfterPrune(cfg, p, now);
    var (accounts, a) := CheckIn(cfg, q.accounts, account, now);
    var (ips, i) := CheckIn(cfg, q.ips, ip, now);
    (Protector(accounts, ips, q.operations), Combined(a, i, false))
  }

  function RecordFailure(cfg: Config, p: Protector, account: string, ip: string, now: int, firstAccount: string,
                         firstIp: string)
    : (Protector, Decision)
  {
    var q := AfterPrune(cfg, p, now);
    var (accounts, a) := FailIn(cfg, cfg.accountLimit, cfg.maxAccounts, q.accounts, account, now, firstAccount);
    var (ips, i) := FailIn(cfg, cfg.ipLimit, cfg.maxIps, q.ips, ip, now, firstIp);
    (Protector(accounts, ips, q.operations), Combined(a, i, a.newlyLocked || i.newlyLocked))
  }

  ghost predicate StatesInv(cfg: Config, limit: nat, capacity: nat, states: States, last: int) {
    && |states| <= capacity
    && forall k <- states :: StateInv(cfg, limit, states[k], last)
  }

  ghost predicate Inv(cfg: Config, p: Protector, last: int) {
    && StatesInv(cfg, cfg.accountLimit, cfg.maxAccounts, p.accounts, last)
    && StatesInv(cfg, cfg.ipLimit, cfg.maxIps, p.ips, last)
  }

  /** begin() of a full table points at one of its keys. */
  ghost predicate FirstIsKey(states: States, key: string, capacity: nat, first: string) {
    key !in states && |states| >= capacity ==> first in states
  }

  lemma PrunedKeepsInv(cfg: Config, limit: nat, capacity: nat, states: States, last: int, now: int)
    requires StatesInv(cfg, limit, capacity, states, last) && last <= now
    ensures StatesInv(cfg, limit, capacity, Pruned(cfg, states, now), now)
    ensures StatesInv(cfg, limit, capacity, states, now)
  {
    var pruned := Pruned(cfg, states, now);
    assert states.Keys == pruned.Keys + (states.Keys - pruned.Keys);
    assert |pruned.Keys| == |pruned| && |states.Keys| == |states|;
  }

  lemma CheckInKeepsInv(cfg: Config, limit: nat, capacity: nat, states: States, key: string, now: int)
    requires ConfigOk(cfg) && limit > 0 && StatesInv(cfg, limit, capacity, states, now) && 0 < now
    ensures StatesInv(cfg, limit, capacity, CheckIn(cfg, states, key, now).0, now)
  {
    if key in states {
      KeyStepKeepsInv(cfg, limit, Some(states[key]), Attempt(now), now);
      assert states[key := CheckState(cfg, states[key], now).0].Keys == states.Keys;
    }
  }

  lemma FailInKeepsInv(cfg: Config, limit: nat, capacity: nat, states: States, key: string, now: int, first: string)
    requires ConfigOk(cfg) && limit > 0 && capacity > 0 && StatesInv(cfg, limit, capacity, states, now) && 0 < now
    requires FirstIsKey(states, key, capacity, first)
    ensures StatesInv(cfg, limit, capacity, FailIn(cfg, limit, capacity, states, key, now, first).0, now)
  {
    var roomy := Roomy(states, key, capacity, first);
    WithoutCard(states, first);
    KeyStepKeepsInv(cfg, limit, Lookup(roomy, key), Failure(now), now);
    var s := RecordFailureState(cfg, limit, if key in roomy then roomy[key] else FRESH, now).0;
    if key in roomy { assert roomy[key := s].Keys == roomy.Keys; }
  }

  /** Both maps stay within capacity and every tracked state keeps its invariant. */
  lemma CheckKeepsInv(cfg: Config, p: Protector, account: string, ip: string, now: int, last: int)
    requires ConfigOk(cfg) && Inv(cfg, p, last) && last <= now && 0 < now
    ensures Inv(cfg, Check(cfg, p, account, ip, now).0, now)
  {
    PrunedKeepsInv(cfg, cfg.accountLimit, cfg.maxAccounts, p.accounts, last, now);
    PrunedKeepsInv(cfg, cfg.ipLimit, cfg.maxIps, p.ips, last, now);
    var q := AfterPrune(cfg, p, now);
    CheckInKeepsInv(cfg, cfg.accountLimit, cfg.maxAccounts, q.accounts, account, now);
    CheckInKeepsInv(cfg, cfg.ipLimit, cfg.maxIps, q.ips, ip, now);
  }

  lemma RecordFailureKeepsInv(cfg: Config, p: Protector, account: string, ip: string, now: int,
                              firstAccount: string, firstIp: string, last: int)
    requires ConfigOk(cfg) && Inv(cfg, p, last) && last <= now && 0 < now
    requires FirstIsKey(AfterPrune(cfg, p, now).accounts, account, cfg.maxAccounts, firstAccount)
    requires FirstIsKey(AfterPrune(cfg, p, now).ips, ip, cfg.maxIps, firstIp)
    ensures Inv(cfg, RecordFailure(cfg, p, account, ip, now, firstAccount, firstIp).0, now)
  {
    PrunedKeepsInv(cfg, cfg.accountLimit, cfg.maxAccounts, p.accounts, last, now);
    PrunedKeepsInv(cfg, cfg.ipLimit, cfg.maxIps, p.ips, last, now);
    var q := AfterPrune(cfg, p, now);
    FailInKeepsInv(cfg, cfg.accountLimit, cfg.maxAccounts, q.accounts, account, now, firstAccount);
    FailInKeepsInv(cfg, cfg.ipLimit, cfg.maxIps, q.ips, ip, now, firstIp);
  }

  /** A lock on either the account or the address refuses the attempt, pruning notwithstanding. */
  lemma EitherLockRefuses(cfg: Config, p: Protector, account: string, ip: string, now: int)
    requires ConfigOk(cfg) && Inv(cfg, p, now) && 0 < now
    ensures Check(cfg, p, account, ip, now).1.allowed <==>
              (account in p.accounts ==> p.accounts[account].lockedUntil <= now)
              && (ip in p.ips ==> p.ips[ip].lockedUntil <= now)
  {
    if account in p.accounts && Prunable(cfg, p.accounts[account], now) {
      PruningLosesNothingLive(cfg, cfg.accountLimit, p.accounts[account], now, now);
    }
    if ip in p.ips && Prunable(cfg, p.ips[ip], now) {
      PruningLosesNothingLive(cfg, cfg.ipLimit, p.ips[ip], now, now);
    }
  }

  /**
   What is reported for a lock of `wait` nanoseconds: whole seconds, at least one, short of it by
   less than a millisecond and over it by less than a second, as far as 32 bits go.
   */
  ghost predicate Reports(retryAfter: int, wait: int) {
    && 1 <= retryAfter < UINT32_LIMIT
    && (wait < SECOND ==> retryAfter == 1)
    && (wait >= SECOND ==> retryAfter * SECOND < wait + SECOND)
    && (wait <= (UINT32_LIMIT - 1) * SECOND ==> wait - MILLISECOND < retryAfter * SECOND)
    && (wait > (UINT32_LIMIT - 1) * SECOND ==> retryAfter == UINT32_LIMIT - 1)
  }

  lemma CeilSecondsReports(wait: int)
    requires wait > 0
    ensures Reports(CeilSeconds(wait), wait)
  {
    CeilSecondsUndershoot(wait);
    if wait < SECOND { SubSecond(wait); }
  }

  lemma SubSecond(wait: int)
    requires 0 < wait < SECOND
    ensures CeilSeconds(wait) == 1
  {
    assert wait / MILLISECOND < 1000;
  }

  /** How long a key is still locked. */
  function WaitOf(states: States, key: string, now: int): int {
    if key in states && states[key].lockedUntil > now then states[key].lockedUntil - now else 0
  }

  /** An attempt on a locked key is told how long the lock still holds, and so is a failure on it. */
  lemma LockIsReported(cfg: Config, limit: nat, s: FailureState, now: int)
    requires s.lockedUntil > now
    ensures var d := CheckState(cfg, s, now).1;
            !d.allowed && !d.newlyLocked && Reports(d.retryAfter, s.lockedUntil - now)
    ensures RecordFailureState(cfg, limit, s, now).1 == CheckState(cfg, s, now).1
  {
    CeilSecondsReports(s.lockedUntil - now);
  }

  /** A refused attempt is told the wait of the longer of the two locks. */
  lemma LongerLockIsReported(cfg: Config, p: Protector, account: string, ip: string, now: int)
    requires ConfigOk(cfg) && Inv(cfg, p, now) && 0 < now
    ensures var d := Check(cfg, p, account, ip, now).1;
            var wait := Max(WaitOf(p.accounts, account, now), WaitOf(p.ips, ip, now));
            && (d.allowed <==> wait == 0)
            && (!d.allowed ==> !d.newlyLocked && Reports(d.retryAfter, wait))
  {
    var q := AfterPrune(cfg, p, now);
    CheckInReports(cfg, cfg.accountLimit, cfg.maxAccounts, p.accounts, account, now);
    CheckInReports(cfg, cfg.ipLimit, cfg.maxIps, p.ips, ip, now);
    var a, i := WaitOf(p.accounts, account, now), WaitOf(p.ips, ip, now);
    CeilSecondsGrows(Min(a, i), Max(a, i));
    if Max(a, i) > 0 { CeilSecondsReports(Max(a, i)); }
    hide Reports, CeilSeconds, CheckIn, WaitOf, Pruned;
  }

  // What one map answers, before or after its pruning pass.
  lemma CheckInReports(cfg: Config, limit: nat, capacity: nat, states: States, key: string, now: int)
    requires ConfigOk(cfg) && limit > 0 && StatesInv(cfg, limit, capacity, states, now) && 0 < now
    ensures var wait := WaitOf(states, key, now);
            && CheckIn(cfg, states, key, now).1 == Decision(wait == 0, CeilSeconds(wait), false)
            && CheckIn(cfg, Pruned(cfg, states, now), key, now).1 == Decision(wait == 0, CeilSeconds(wait), false)
  {
    if key in states && states[key].lockedUntil > now { NotPruned(cfg, limit, states[key], now); }
    hide Prunable;
  }

  lemma NotPruned(cfg: Config, limit: nat, s: FailureState, now: int)
    requires ConfigOk(cfg) && limit > 0 && StateInv(cfg, limit, s, now) && 0 < now < s.lockedUntil
    ensures !Prunable(cfg, s, now)
  {
    if Prunable(cfg, s, now) { PruningLosesNothingLive(cfg, limit, s, now, now); }
  }

  lemma CeilSecondsGrows(a: int, b: int)
    requires a <= b
    ensures CeilSeconds(a) <= CeilSeconds(b)
  {
    if 0 < a {
      assert a / MILLISECOND <= b / MILLISECOND;
      assert (a / MILLISECOND + 999) / 1000 <= (b / MILLISECOND + 999) / 1000;
    }
  }

  /** A failure is refused exactly if it leaves one of its keys locked, and says so if the lock is new. */
  lemma FailureRefusedIff(cfg: Config, p: Protector, account: string, ip: string, now: int, firstAccount: string,
                          firstIp: string)
    requires ConfigOk(cfg) && Inv(cfg, p, now) && 0 < now
    ensures var (q, d) := RecordFailure(cfg, p, account, ip, now, firstAccount, firstIp);
            && (d.allowed <==> WaitOf(q.accounts, account, now) == 0 && WaitOf(q.ips, ip, now) == 0)
  {
    var q := AfterPrune(cfg, p, now);
    FailureLocks(cfg, cfg.accountLimit, cfg.maxAccounts, q.accounts, account, now, firstAccount);
    FailureLocks(cfg, cfg.ipLimit, cfg.maxIps, q.ips, ip, now, firstIp);
    hide FailIn, AfterPrune, WaitOf;
  }

  lemma FailureLocks(cfg: Config, limit: nat, capacity: nat, states: States, key: string, now: int, first: string)
    requires ConfigOk(cfg) && 0 < now
    ensures var (after, d) := FailIn(cfg, limit, capacity, states, key, now, first);
            d.allowed <==> WaitOf(after, key, now) == 0
  {
    var roomy := Roomy(states, key, capacity, first);
    var s := if key in roomy then roomy[key] else FRESH;
    var checked := CheckState(cfg, s, now).0;
    if checked.lockedUntil <= now {
      forall level: nat | level > 0 ensures LockSeconds(cfg, level) > 0 { LockWithinMaximum(cfg, level); }
    }
    hide LockSeconds, Roomy;
  }

  /**
   Every 256th operation drops the entries not seen for a window and the longest lock; apart from
   them a check drops none and leaves those it is not about as they were.
   */
  lemma PruneIs(cfg: Config, p: Protector, account: string, ip: string, now: int, other: string)
    requires ConfigOk(cfg) && Inv(cfg, p, now) && other in p.accounts && other != account
    ensures var q := Check(cfg, p, account, ip, now).0;
            var quiet := now - p.accounts[other].lastSeen > (cfg.window + cfg.maximum) * SECOND;
            && q.operations == p.operations + 1
            && (other in q.accounts <==> !(quiet && (p.operations + 1) % 256 == 0))
            && (other in q.accounts ==> q.accounts[other] == p.accounts[other])
  {
  }

  /** What a key holds once this operation's pruning pass, if one is due, is over. */
  function Survivor(cfg: Config, p: Protector, key: Option<FailureState>, now: int): Option<FailureState> {
    if (p.operations + 1) % PRUNE_PERIOD == 0 && key.Some? && Prunable(cfg, key.value, now) then None else key
  }

  /**
   The whole protector treats each key as the single-key machine does: a check is an attempt on its
   account and its address, a failure a failure on both, and every other key keeps what pruning
   left, unless it is the one entry a full table gave up.
   */
  lemma ActsKeyByKey(cfg: Config, p: Protector, account: string, ip: string, now: int, firstAccount: string,
                     firstIp: string, k: string)
    ensures var q := Check(cfg, p, account, ip, now).0;
            var a, i := Survivor(cfg, p, Lookup(p.accounts, k), now), Survivor(cfg, p, Lookup(p.ips, k), now);
            && Lookup(q.accounts, k) == (if k == account then KeyStep(cfg, cfg.accountLimit, a, Attempt(now)).0 else a)
            && Lookup(q.ips, k) == (if k == ip then KeyStep(cfg, cfg.ipLimit, i, Attempt(now)).0 else i)
    ensures var q := RecordFailure(cfg, p, account, ip, now, firstAccount, firstIp).0;
            var a, i := Survivor(cfg, p, Lookup(p.accounts, k), now), Survivor(cfg, p, Lookup(p.ips, k), now);
            && (k == account ==> Lookup(q.accounts, k) == KeyStep(cfg, cfg.accountLimit, a, Failure(now)).0)
            && (k != account ==> Lookup(q.accounts, k) == a || (k == firstAccount && Lookup(q.accounts, k) == None))
            && (k == ip ==> Lookup(q.ips, k) == KeyStep(cfg, cfg.ipLimit, i, Failure(now)).0)
            && (k != ip ==> Lookup(q.ips, k) == i || (k == firstIp && Lookup(q.ips, k) == None))
  {
  }

  // ----- whole runs of the protector -----

  datatype Side = Accounts | Addresses

  datatype Op =
    | DoCheck(account: string, ip: string, now: int)
    | DoFailure(account: string, ip: string, now: int, firstAccount: string, firstIp: string)
    | DoSuccess(account: string, now: int)

  function Apply(cfg: Config, p: Protector, op: Op): (Protector, Decision) {
    match op
    case DoCheck(account, ip, now) => Check(cfg, p, account, ip, now)
    case DoFailure(account, ip, now, firstAccount, firstIp) =>
      RecordFailure(cfg, p, account, ip, now, firstAccount, firstIp)
    case DoSuccess(account, _) => (p.(accounts := Without(p.accounts, account)), ALLOWED)
  }

  function StatesOf(p: Protector, side: Side): States { if side.Accounts? then p.accounts else p.ips }

  function LimitOf(cfg: Config, side: Side): nat { if side.Accounts? then cfg.accountLimit else cfg.ipLimit }

  function CapacityOf(cfg: Config, side: Side): nat { if side.Accounts? then cfg.maxAccounts else cfg.maxIps }

  /** The operation concerns this key on this side. */
  predicate On(op: Op, side: Side, k: string) {
    if side.Accounts? then op.account == k else !op.DoSuccess? && op.ip == k
  }

  function FirstOf(op: Op, side: Side): string
    requires op.DoFailure?
  {
    if side.Accounts? then op.firstAccount else op.firstIp
  }

  /** The key gives way to a new one in a full table. */
  predicate EvictedBy(cfg: Config, p: Protector, op: Op, side: Side, k: string) {
    && op.DoFailure? && k == FirstOf(op, side)
    && var states := StatesOf(AfterPrune(cfg, p, op.now), side);
       (if side.Accounts? then op.account else op.ip) !in states && |states| >= CapacityOf(cfg, side)
  }

  /** What an operation means to one key: pruning and eviction erase it, as does success an account. */
  function OpEvents(cfg: Config, p: Protector, op: Op, side: Side, k: string): seq<Event> {
    if op.DoSuccess? then if On(op, side, k) then [Erase(op.now)] else []
    else
      var before := Lookup(StatesOf(p, side), k);
      var pruning := if Survivor(cfg, p, before, op.now) != before then [Erase(op.now)] else [];
      if On(op, side, k) then pruning + [if op.DoCheck? then Attempt(op.now) else Failure(op.now)]
      else if EvictedBy(cfg, p, op, side, k) then pruning + [Erase(op.now)]
      else pruning
  }

  lemma TwoEvents(cfg: Config, limit: nat, key: Option<FailureState>, e: Event, f: Event)
    ensures AfterEvents(cfg, limit, key, [e] + [f]) == KeyStep(cfg, limit, KeyStep(cfg, limit, key, e).0, f).0
  {
    EventsConcat(cfg, limit, key, [e], [f]);
  }

  // An operation on one map, as the key sees it.
  lemma ActsOn(cfg: Config, p: Protector, op: Op, side: Side, k: string)
    requires !op.DoSuccess?
    ensures var after := Lookup(StatesOf(Apply(cfg, p, op).0, side), k);
            var left := Survivor(cfg, p, Lookup(StatesOf(p, side), k), op.now);
            var e := if op.DoCheck? then Attempt(op.now) else Failure(op.now);
            after == if On(op, side, k) then KeyStep(cfg, LimitOf(cfg, side), left, e).0
                     else if EvictedBy(cfg, p, op, side, k) then None else left
  {
    hide CheckState, RecordFailureState;
  }

  /** Each operation takes each key through exactly its events. */
  lemma OpActs(cfg: Config, p: Protector, op: Op, side: Side, k: string)
    ensures AfterEvents(cfg, LimitOf(cfg, side), Lookup(StatesOf(p, side), k), OpEvents(cfg, p, op, side, k))
         == Lookup(StatesOf(Apply(cfg, p, op).0, side), k)
  {
    var limit, key := LimitOf(cfg, side), Lookup(StatesOf(p, side), k);
    if op.DoSuccess? {
    } else {
      ActsOn(cfg, p, op, side, k);
      hide Apply, Survivor, EvictedBy;
      var e := if On(op, side, k) then if op.DoCheck? then Attempt(op.now) else Failure(op.now) else Erase(op.now);
      TwoEvents(cfg, limit, key, Erase(op.now), e);
      hide CheckState, RecordFailureState;
    }
  }

  lemma OpEventsTimed(cfg: Config, p: Protector, op: Op, side: Side, k: string)
    ensures var es := OpEvents(cfg, p, op, side, k);
            && Timed(es, op.now) && LastTime(es, op.now) == op.now
            && forall e :: e in es ==> e.now == op.now
  {
    hide Survivor, EvictedBy, On;
    var es := OpEvents(cfg, p, op, side, k);
    AllAtOnce(es, op.now);
  }

  lemma {:induction false} AllAtOnce(es: seq<Event>, t: int)
    requires forall e :: e in es ==> e.now == t
    ensures Timed(es, t) && LastTime(es, t) == t
    decreases |es|
  {
    if es != [] {
      assert es[0] in es && es[|es| - 1] in es && forall e :: e in es[1..] ==> e in es;
      AllAtOnce(es[1..], t);
    }
  }

  ghost predicate Legal(cfg: Config, p: Protector, op: Op) {
    op.DoFailure? ==>
      && FirstIsKey(AfterPrune(cfg, p, op.now).accounts, op.account, cfg.maxAccounts, op.firstAccount)
      && FirstIsKey(AfterPrune(cfg, p, op.now).ips, op.ip, cfg.maxIps, op.firstIp)
  }

  ghost predicate Moved(cfg: Config, ps: seq<Protector>, ops: seq<Op>, i: nat)
    requires i < |ops| && |ps| == |ops| + 1
  {
    Legal(cfg, ps[i], ops[i]) && ps[i + 1] == Apply(cfg, ps[i], ops[i]).0
  }

  ghost predicate IsProtectorRun(cfg: Config, ps: seq<Protector>, ops: seq<Op>) {
    && |ps| == |ops| + 1
    && ps[0] == Protector(map[], map[], 0)
    && (forall i :: 0 <= i < |ops| ==> 0 < ops[i].now)
    && (forall i, j :: 0 <= i < j < |ops| ==> ops[i].now <= ops[j].now)
    && (forall i {:trigger Moved(cfg, ps, ops, i)} :: 0 <= i < |ops| ==> Moved(cfg, ps, ops, i))
  }

  /** The life of a key through the first n operations. */
  ghost function KeyEvents(cfg: Config, ps: seq<Protector>, ops: seq<Op>, side: Side, k: string, n: nat): seq<Event>
    requires n <= |ops| < |ps|
  {
    if n == 0 then [] else KeyEvents(cfg, ps, ops, side, k, n - 1) + OpEvents(cfg, ps[n - 1], ops[n - 1], side, k)
  }

  function TimeBefore(ops: seq<Op>, n: nat): int
    requires n <= |ops|
  {
    if n == 0 then 0 else ops[n - 1].now
  }

  /** Through a whole run each key goes through its own events, in order of time. */
  lemma {:induction false} KeyEventsAct(cfg: Config, ps: seq<Protector>, ops: seq<Op>, side: Side, k: string, n: nat)
    requires IsProtectorRun(cfg, ps, ops) && n <= |ops|
    ensures var es := KeyEvents(cfg, ps, ops, side, k, n);
            && AfterEvents(cfg, LimitOf(cfg, side), None, es) == Lookup(StatesOf(ps[n], side), k)
            && Timed(es, 0) && (forall e :: e in es ==> 0 < e.now)
            && LastTime(es, 0) <= TimeBefore(ops, n)
  {
    if n > 0 {
      KeyEventsAct(cfg, ps, ops, side, k, n - 1);
      assert Moved(cfg, ps, ops, n - 1);
      var es, more := KeyEvents(cfg, ps, ops, side, k, n - 1), OpEvents(cfg, ps[n - 1], ops[n - 1], side, k);
      assert TimeBefore(ops, n - 1) <= ops[n - 1].now;
      hide IsProtectorRun, OpEvents, Apply, KeyStep, AfterEvents;
      OpActs(cfg, ps[n - 1], ops[n - 1], side, k);
      OpEventsTimed(cfg, ps[n - 1], ops[n - 1], side, k);
      EventsConcat(cfg, LimitOf(cfg, side), None, es, more);
      TimedConcat(es, more, 0);
      assert es + more != [] ==> LastTime(es + more, 0) == if more == [] then LastTime(es, 0) else more[|more| - 1].now;
    }
  }

  /** The states a key goes through. */
  function StatesAlong(cfg: Config, limit: nat, key: Option<FailureState>,
                       es: seq<Event>): (ks: seq<Option<FailureState>>)
    ensures |ks| == |es| + 1 && ks[0] == key
    decreases |es|
  {
    if es == [] then [key] else [key] + StatesAlong(cfg, limit, KeyStep(cfg, limit, key, es[0]).0, es[1..])
  }

  lemma {:induction false} TimedPairs(es: seq<Event>, from: int, i: nat, j: nat)
    requires Timed(es, from) && i < j < |es|
    ensures from <= es[i].now <= es[j].now
    decreases |es|
  {
    if i > 0 {
      TimedPairs(es[1..], es[0].now, i - 1, j - 1);
    } else if j > 1 {
      TimedPairs(es[1..], es[0].now, 0, j - 1);
    }
  }

  lemma {:induction false} AlongSteps(cfg: Config, limit: nat, key: Option<FailureState>, es: seq<Event>, i: nat)
    requires i < |es|
    ensures var ks := StatesAlong(cfg, limit, key, es);
            KeyStep(cfg, limit, ks[i], es[i]) == (ks[i + 1], Decisions(cfg, limit, key, es)[i])
    decreases |es|
  {
    if i > 0 { AlongSteps(cfg, limit, KeyStep(cfg, limit, key, es[0]).0, es[1..], i - 1); }
  }

  lemma AlongIsRun(cfg: Config, limit: nat, es: seq<Event>)
    requires Timed(es, 0) && forall e :: e in es ==> 0 < e.now
    ensures IsKeyRun(cfg, limit, StatesAlong(cfg, limit, None, es), es, Decisions(cfg, limit, None, es))
  {
    forall i, j | 0 <= i < j < |es| ensures es[i].now <= es[j].now { TimedPairs(es, 0, i, j); }
    forall i: nat | i < |es|
      ensures Stepped(cfg, limit, StatesAlong(cfg, limit, None, es), es, Decisions(cfg, limit, None, es), i)
    {
      AlongSteps(cfg, limit, None, es, i);
    }
  }

  lemma {:induction false} AlongPrefix(cfg: Config, limit: nat, key: Option<FailureState>, a: seq<Event>, b: seq<Event>)
    ensures StatesAlong(cfg, limit, key, a + b)[|a|] == AfterEvents(cfg, limit, key, a)
    decreases |a|
  {
    hide KeyStep;
    if a == [] {
      assert a + b == b;
    } else {
      assert (a + b)[0] == a[0] && (a + b)[1..] == a[1..] + b;
      AlongPrefix(cfg, limit, KeyStep(cfg, limit, key, a[0]).0, a[1..], b);
    }
  }

  lemma {:induction false} KeyEventsGrow(cfg: Config, ps: seq<Protector>, ops: seq<Op>, side: Side, k: string, i: nat,
                                         n: nat)
    requires i <= n <= |ops| < |ps|
    ensures KeyEvents(cfg, ps, ops, side, k, i) <= KeyEvents(cfg, ps, ops, side, k, n)
  {
    if i < n { KeyEventsGrow(cfg, ps, ops, side, k, i, n - 1); }
  }

  /** Where a key stands after n operations, in the run of its own events. */
  ghost predicate ProjectsAt(cfg: Config, ps: seq<Protector>, ops: seq<Op>, side: Side, k: string, n: nat)
    requires n <= |ops| < |ps|
  {
    var es, at := KeyEvents(cfg, ps, ops, side, k, |ops|), |KeyEvents(cfg, ps, ops, side, k, n)|;
    at <= |es| && StatesAlong(cfg, LimitOf(cfg, side), None, es)[at] == Lookup(StatesOf(ps[n], side), k)
  }

  lemma ProjectAt(cfg: Config, ps: seq<Protector>, ops: seq<Op>, side: Side, k: string, n: nat)
    requires IsProtectorRun(cfg, ps, ops) && n <= |ops|
    ensures ProjectsAt(cfg, ps, ops, side, k, n)
  {
    var es, part := KeyEvents(cfg, ps, ops, side, k, |ops|), KeyEvents(cfg, ps, ops, side, k, n);
    hide IsProtectorRun, KeyEvents, Timed, AfterEvents, StatesOf, StatesAlong;
    KeyEventsGrow(cfg, ps, ops, side, k, n, |ops|);
    KeyEventsAct(cfg, ps, ops, side, k, n);
    AlongPart(cfg, LimitOf(cfg, side), es, part);
  }

  lemma AlongPart(cfg: Config, limit: nat, es: seq<Event>, part: seq<Event>)
    requires part <= es
    ensures StatesAlong(cfg, limit, None, es)[|part|] == AfterEvents(cfg, limit, None, part)
  {
    hide StatesAlong, AfterEvents;
    AlongPrefix(cfg, limit, None, part, es[|part|..]);
    assert part + es[|part|..] == es;
  }

  /**
   Any run of the protector is, for every account and every address, a run of the single-key
   machine, with pruning, eviction and success as erasures; so what is proved of those runs holds
   of the protector.
   */
  lemma RunsProject(cfg: Config, ps: seq<Protector>, ops: seq<Op>, side: Side, k: string)
    requires IsProtectorRun(cfg, ps, ops)
    ensures var es, limit := KeyEvents(cfg, ps, ops, side, k, |ops|), LimitOf(cfg, side);
            var ks := StatesAlong(cfg, limit, None, es);
            IsKeyRun(cfg, limit, ks, es, Decisions(cfg, limit, None, es)) && ks[0] == None
    ensures forall n: nat :: n <= |ops| ==> ProjectsAt(cfg, ps, ops, side, k, n)
  {
    KeyEventsAct(cfg, ps, ops, side, k, |ops|);
    AlongIsRun(cfg, LimitOf(cfg, side), KeyEvents(cfg, ps, ops, side, k, |ops|));
    hide IsKeyRun, Timed, KeyEvents, ProjectsAt;
    forall n: nat | n <= |ops| ensures ProjectsAt(cfg, ps, ops, side, k, n) { ProjectAt(cfg, ps, ops, side, k, n); }
  }

  /** Every reachable protector is within capacity and all its entries are valid. */
  lemma {:induction false} ProtectorRunKeepsInv(cfg: Config, ps: seq<Protector>, ops: seq<Op>, n: nat)
    requires ConfigOk(cfg) && IsProtectorRun(cfg, ps, ops) && n <= |ops|
    ensures Inv(cfg, ps[n], TimeBefore(ops, n))
  {
    if n > 0 {
      ProtectorRunKeepsInv(cfg, ps, ops, n - 1);
      assert Moved(cfg, ps, ops, n - 1);
      var p, op, last := ps[n - 1], ops[n - 1], TimeBefore(ops, n - 1);
      hide Check, RecordFailure, StatesInv;
      match op
      case DoCheck(account, ip, now) => CheckKeepsInv(cfg, p, account, ip, now, last);
      case DoFailure(account, ip, now, a, i) => RecordFailureKeepsInv(cfg, p, account, ip, now, a, i, last);
      case DoSuccess(account, now) => ForgettingKeepsInv(cfg, p, account, last, now);
    }
  }

  lemma ForgettingKeepsInv(cfg: Config, p: Protector, account: string, last: int, now: int)
    requires Inv(cfg, p, last) && last <= now
    ensures Inv(cfg, p.(accounts := Without(p.accounts, account)), now)
  {
    WithoutCard(p.accounts, account);
  }

  /** An operation on a key whose lock has not ended is refused and leaves the lock as it is. */
  lemma LockedOpRefused(cfg: Config, p: Protector, op: Op, side: Side, k: string, last: int)
    requires ConfigOk(cfg) && Inv(cfg, p, last) && last <= op.now
    requires k in StatesOf(p, side) && op.now < StatesOf(p, side)[k].lockedUntil
    ensures !op.DoSuccess? && On(op, side, k) ==> !Apply(cfg, p, op).1.allowed
    ensures !op.DoSuccess? && On(op, side, k) ==>
              Lookup(StatesOf(Apply(cfg, p, op).0, side), k) == Some(StatesOf(p, side)[k].(lastSeen := op.now))
    ensures !On(op, side, k) && !EvictedBy(cfg, p, op, side, k) ==>
              Lookup(StatesOf(Apply(cfg, p, op).0, side), k) == Lookup(StatesOf(p, side), k)
  {
    assert StateInv(cfg, LimitOf(cfg, side), StatesOf(p, side)[k], last);
    assert !Prunable(cfg, StatesOf(p, side)[k], op.now);
    if !op.DoSuccess? { ActsOn(cfg, p, op, side, k); }
  }

  /** Operation m comes before the lock ends, does not evict the key, and is no login of its account. */
  ghost predicate DuringLock(cfg: Config, ps: seq<Protector>, ops: seq<Op>, side: Side, k: string, end: int, m: nat)
    requires m < |ops| < |ps|
  {
    ops[m].now < end && !EvictedBy(cfg, ps[m], ops[m], side, k) && !(ops[m].DoSuccess? && On(ops[m], side, k))
  }

  ghost predicate RefusedIfOn(cfg: Config, ps: seq<Protector>, ops: seq<Op>, side: Side, k: string, m: nat)
    requires m < |ops| < |ps|
  {
    On(ops[m], side, k) ==> !Apply(cfg, ps[m], ops[m]).1.allowed
  }

  /**
   A lock holds in every run of the protector: until it ends, unless the key is evicted or its
   account logs in, every check and every failure on it is refused and none moves its end.
   */
  lemma {:induction false} ProtectorLockHolds(cfg: Config, ps: seq<Protector>, ops: seq<Op>, side: Side, k: string,
                                              i: nat, j: nat)
    requires ConfigOk(cfg) && IsProtectorRun(cfg, ps, ops) && i <= j < |ps| && k in StatesOf(ps[i], side)
    requires forall m :: i <= m < j ==> DuringLock(cfg, ps, ops, side, k, StatesOf(ps[i], side)[k].lockedUntil, m)
    ensures k in StatesOf(ps[j], side)
    ensures var (s, t) := (StatesOf(ps[i], side)[k], StatesOf(ps[j], side)[k]); t == s.(lastSeen := t.lastSeen)
    ensures forall m :: i <= m < j ==> RefusedIfOn(cfg, ps, ops, side, k, m)
  {
    if i < j {
      ProtectorLockHolds(cfg, ps, ops, side, k, i, j - 1);
      ProtectorRunKeepsInv(cfg, ps, ops, j - 1);
      assert Moved(cfg, ps, ops, j - 1);
      assert TimeBefore(ops, j - 1) <= ops[j - 1].now;
      assert DuringLock(cfg, ps, ops, side, k, StatesOf(ps[i], side)[k].lockedUntil, j - 1);
      hide Apply, Inv, EvictedBy, IsProtectorRun, On;
      LockedOpRefused(cfg, ps[j - 1], ops[j - 1], side, k, TimeBefore(ops, j - 1));
    }
  }

  // ----- the protector as an object -----

  class AuthAbuseProtector {
    const cfg: Config
    var accountStates: States
    var ipStates: States
    var operationCount: nat
    ghost var lastNow: int

    function View(): Protector
      reads this
    {
      Protector(accountStates, ipStates, operationCount)
    }

    ghost predicate Valid()
      reads this
    {
      ConfigOk(cfg) && Inv(cfg, View(), lastNow)
    }

    constructor (cfg: Config)
      requires ConfigOk(cfg)
      ensures this.cfg == cfg && Valid() && View() == Protector(map[], map[], 0) && lastNow == 0
    {
      this.cfg := cfg;
      accountStates, ipStates, operationCount, lastNow := map[], map[], 0, 0;
    }

    /** The pruning lambda: one pass over a map, erasing what has been quiet long enough. */
    method Prune(states: States, now: int) returns (kept: States)
      ensures kept == Pruned(cfg, states, now)
    {
      kept := states;
      var pending := states.Keys;
      while pending != {}
        invariant pending <= states.Keys
        invariant kept == map k | k in states && (k in pending || !Prunable(cfg, states[k], now)) :: states[k]
        decreases |pending|
      {
        var key :| key in pending;
        pending := pending - {key};
        if kept[key].lastSeen != UNSET && now - kept[key].lastSeen > (cfg.window + cfg.maximum) * SECOND {
          kept := Without(kept, key);
        }
      }
    }

    method PruneIfNeeded(now: int)
      modifies this
      ensures View() == AfterPrune(cfg, old(View()), now) && lastNow == old(lastNow)
    {
      operationCount := operationCount + 1;
      if operationCount % PRUNE_PERIOD != 0 { return; }
      accountStates := Prune(accountStates, now);
      ipStates := Prune(ipStates, now);
    }

    method CheckStateOf(s: FailureState, now: int) returns (next: FailureState, decision: Decision)
      ensures (next, decision) == CheckState(cfg, s, now)
    {
      var previousLastSeen := s.lastSeen;
      next := s.(lastSeen := now);
      if next.lockedUntil > now {
        return next, Decision(false, CeilSeconds(next.lockedUntil - now), false);
      }
      var quietAfterLock := next.lockedUntil != UNSET && now - next.lockedUntil > cfg.window * SECOND;
      var quietWithoutLock :=
        next.lockedUntil == UNSET && previousLastSeen != UNSET && now - previousLastSeen > cfg.window * SECOND;
      if quietAfterLock || quietWithoutLock {
        next := next.(failures := 0, level := 0, windowStarted := now, lockedUntil := UNSET);
        return next, ALLOWED;
      }
      if next.windowStarted != UNSET && now - next.windowStarted > cfg.window * SECOND {
        next := next.(failures := 0, windowStarted := now);
      }
      return next, ALLOWED;
    }

    method RecordFailureOf(s: FailureState, limit: nat, now: int) returns (next: FailureState, decision: Decision)
      requires ConfigOk(cfg)
      ensures (next, decision) == RecordFailureState(cfg, limit, s, now)
    {
      next, decision := CheckStateOf(s, now);
      if !decision.allowed { return; }
      if next.windowStarted == UNSET || now - next.windowStarted > cfg.window * SECOND {
        next := next.(failures := 0, level := 0, windowStarted := now);
      }
      next := next.(failures := next.failures + 1, lastSeen := now);
      if next.failures < limit { return next, ALLOWED; }
      next := next.(failures := 0, level := next.level + 1);
      var duration := LockoutDuration(cfg, next.level);
      next := next.(lockedUntil := now + duration * SECOND);
      return next, Decision(false, duration % UINT32_LIMIT, true);
    }

    method CheckAttempt(account: string, ip: string, now: int) returns (decision: Decision)
      requires Valid() && lastNow <= now && 0 < now
      modifies this
      ensures Valid() && lastNow == now
      ensures (View(), decision) == Check(cfg, old(View()), account, ip, now)
    {
      CheckKeepsInv(cfg, View(), account, ip, now, lastNow);
      PruneIfNeeded(now);
      var accountDecision, ipDecision := ALLOWED, ALLOWED;
      if account in accountStates {
        var s, d := CheckStateOf(accountStates[account], now);
        accountStates := accountStates[account := s];
        accountDecision := d;
      }
      if ip in ipStates {
        var s, d := CheckStateOf(ipStates[ip], now);
        ipStates := ipStates[ip := s];
        ipDecision := d;
      }
      lastNow := now;
      if accountDecision.allowed && ipDecision.allowed { return ALLOWED; }
      return Decision(false, Max(accountDecision.retryAfter, ipDecision.retryAfter), false);
    }

    method EnsureCapacity(states: States, key: string, capacity: nat, first: string) returns (roomy: States)
      ensures roomy == Roomy(states, key, capacity, first)
    {
      if key in states || |states| < capacity { return states; }
      return Without(states, first);
    }

    method RecordFailedLogin(account: string, ip: string, now: int, firstAccount: string, firstIp: string)
      returns (decision: Decision)
      requires Valid() && lastNow <= now && 0 < now
      requires FirstIsKey(AfterPrune(cfg, View(), now).accounts, account, cfg.maxAccounts, firstAccount)
      requires FirstIsKey(AfterPrune(cfg, View(), now).ips, ip, cfg.maxIps, firstIp)
      modifies this
      ensures Valid() && lastNow == now
      ensures (View(), decision) == RecordFailure(cfg, old(View()), account, ip, now, firstAccount, firstIp)
    {
      RecordFailureKeepsInv(cfg, View(), account, ip, now, firstAccount, firstIp, lastNow);
      PruneIfNeeded(now);
      accountStates := EnsureCapacity(accountStates, account, cfg.maxAccounts, firstAccount);
      ipStates := EnsureCapacity(ipStates, ip, cfg.maxIps, firstIp);
      var a, accountDecision :=
        RecordFailureOf(if account in accountStates then accountStates[account] else FRESH, cfg.accountLimit, now);
      accountStates := accountStates[account := a];
      var i, ipDecision := RecordFailureOf(if ip in ipStates then ipStates[ip] else FRESH, cfg.ipLimit, now);
      ipStates := ipStates[ip := i];
      lastNow := now;
      if accountDecision.allowed && ipDecision.allowed { return ALLOWED; }
      return Decision(false, Max(accountDecision.retryAfter, ipDecision.retryAfter),
                      accountDecision.newlyLocked || ipDecision.newlyLocked);
    }

    /** A successful login forgives the account but not the address. */
    method RecordSuccess(account: string)
      requires Valid()
      modifies this
      ensures Valid() && lastNow == old(lastNow)
      ensures accountStates == Without(old(accountStates), account) && ipStates == old(ipStates)
      ensures operationCount == old(operationCount)
    {
      WithoutCard(accountStates, account);
      accountStates := Without(accountStates, account);
    }
  }
}
