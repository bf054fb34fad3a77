/**
 The fixed-window rate limiter. Times are integer nanoseconds of the steady clock and do not
 decrease from one locked section to the next. The hash table's iteration order is unknown:
 `first` is whatever key its begin() happens to point at.
 */
module RateLimiter {
  import opened Common

  const CLEANUP_PERIOD := 1024

  datatype Config = Config(maxRequests: nat, windowSeconds: nat, maxBuckets: nat)

  function Window(cfg: Config): int { cfg.windowSeconds * SECOND }

  ghost predicate ConfigOk(cfg: Config) { cfg.windowSeconds > 0 && cfg.maxBuckets > 0 }

  datatype Bucket = Bucket(start: int, count: nat)

  datatype Decision = Decision(allowed: bool, limit: nat, remaining: int, retryAfter: int)

  datatype Limiter = Limiter(buckets: map<string, Bucket>, checks: nat)

  /** std::chrono::ceil<seconds>. */
  function CeilSeconds(d: int): int { (d + SECOND - 1) / SECOND }

  // ----- one client's bucket -----

  function Refreshed(cfg: Config, bucket: Option<Bucket>, now: int): Bucket {
    match bucket
    case None => Bucket(now, 0)
    case Some(b) => if now - b.start >= Window(cfg) then Bucket(now, 0) else b
  }

  function RetryAfter(cfg: Config, start: int, now: int): int {
    var retry := CeilSeconds(Window(cfg) - (now - start));
    if retry < 1 then 1 else retry
  }

  function CheckBucket(cfg: Config, bucket: Option<Bucket>, now: int): (Bucket, Decision) {
    var b := Refreshed(cfg, bucket, now);
    if b.count >= cfg.maxRequests
    then (b, Decision(false, cfg.maxRequests, 0, RetryAfter(cfg, b.start, now)))
    else (Bucket(b.start, b.count + 1), Decision(true, cfg.maxRequests, cfg.maxRequests - (b.count + 1), 0))
  }

  function Lookup(buckets: map<string, Bucket>, client: string): Option<Bucket> {
    if client in buckets then Some(buckets[client]) else None
  }

  // ----- the whole table -----

  predicate Stale(cfg: Config, b: Bucket, now: int) { b.start < now - Window(cfg) * 2 }

  function Swept(cfg: Config, buckets: map<string, Bucket>, now: int): map<string, Bucket> {
    map client | client in buckets && !Stale(cfg, buckets[client], now) :: buckets[client]
  }

  function Cleaned(cfg: Config, l: Limiter, now: int): map<string, Bucket> {
    if (l.checks + 1) % CLEANUP_PERIOD != 0 then l.buckets else Swept(cfg, l.buckets, now)
  }

  predicate Evicts(cfg: Config, buckets: map<string, Bucket>, client: string) {
    client !in buckets && |buckets| >= cfg.maxBuckets
  }

  function Roomy(cfg: Config, buckets: map<string, Bucket>, client: string, first: string): map<string, Bucket> {
    if Evicts(cfg, buckets, client) then Without(buckets, first) else buckets
  }

  function Check(cfg: Config, l: Limiter, client: string, now: int, first: string): (Limiter, Decision) {
    if cfg.maxRequests == 0 then (l, Decision(true, 0, 0, 0))
    else
      var buckets := Roomy(cfg, Cleaned(cfg, l, now), client, first);
      var (b, d) := CheckBucket(cfg, Lookup(buckets, client), now);
      (Limiter(buckets[client := b], l.checks + 1), d)
  }

  /** What the hash table guarantees about begin(): it points at some key of a non-empty table. */
  ghost predicate FirstIsKey(cfg: Config, l: Limiter, client: string, now: int, first: string) {
    var cleaned := Cleaned(cfg, l, now);
    Evicts(cfg, cleaned, client) ==> first in cleaned
  }

  /** One check keeps the table within its capacity. */
  lemma CapacityKept(cfg: Config, l: Limiter, client: string, now: int, first: string)
    requires ConfigOk(cfg) && |l.buckets| <= cfg.maxBuckets && FirstIsKey(cfg, l, client, now, first)
    ensures |Check(cfg, l, client, now, first).0.buckets| <= cfg.maxBuckets
  {
    var cleaned := Cleaned(cfg, l, now);
    SubmapCard(cleaned, l.buckets);
    WithoutCard(cleaned, first);
    var buckets := Roomy(cfg, cleaned, client, first);
    var b := CheckBucket(cfg, Lookup(buckets, client), now).0;
    if client in buckets { assert buckets[client := b].Keys == buckets.Keys; }
  }

  /**
   Every 1024th check removes the buckets that have been idle for two windows, and only those; apart
   from them a check removes at most the one bucket that makes room.
   */
  lemma SweepIs(cfg: Config, l: Limiter, client: string, now: int, first: string, other: string)
    requires ConfigOk(cfg) && cfg.maxRequests > 0 && other in l.buckets && other != client
    ensures var l' := Check(cfg, l, client, now, first).0;
            var swept := (l.checks + 1) % 1024 == 0 && now - l.buckets[other].start > 2 * cfg.windowSeconds * SECOND;
            && l'.checks == l.checks + 1
            && (swept ==> other !in l'.buckets)
            && (!swept && other !in l'.buckets ==> other == first)
            && (other in l'.buckets ==> l'.buckets[other] == l.buckets[other])
  {
  }

  lemma SubmapCard(a: map<string, Bucket>, b: map<string, Bucket>)
    requires a.Keys <= b.Keys
    ensures |a| <= |b|
  {
    assert b.Keys == a.Keys + (b.Keys - a.Keys);
    assert |a.Keys| == |a| && |b.Keys| == |b|;
  }

  // ----- traces -----

  datatype Request = Request(client: string, now: int, first: string)

  ghost predicate InOrder(reqs: seq<Request>) {
    forall i, j :: 0 <= i < j < |reqs| ==> reqs[i].now <= reqs[j].now
  }

  ghost predicate Served(cfg: Config, reqs: seq<Request>, ls: seq<Limiter>, ds: seq<Decision>, i: nat)
    requires i < |reqs| && |ls| == |reqs| + 1 && |ds| == |reqs|
  {
    && FirstIsKey(cfg, ls[i], reqs[i].client, reqs[i].now, reqs[i].first)
    && Check(cfg, ls[i], reqs[i].client, reqs[i].now, reqs[i].first) == (ls[i + 1], ds[i])
  }

  /** `ls` are the states and `ds` the decisions of serving `reqs` in order from an empty table. */
  ghost predicate IsTrace(cfg: Config, reqs: seq<Request>, ls: seq<Limiter>, ds: seq<Decision>) {
    && |ls| == |reqs| + 1 && |ds| == |reqs|
    && ls[0] == Limiter(map[], 0)
    && InOrder(reqs)
    && forall i {:trigger Served(cfg, reqs, ls, ds, i)} :: 0 <= i < |reqs| ==> Served(cfg, reqs, ls, ds, i)
  }

  /** In no trace does the table ever outgrow its capacity. */
  lemma {:induction false} NeverOverCapacity(cfg: Config, reqs: seq<Request>, ls: seq<Limiter>, ds: seq<Decision>,
                                             i: nat)
    requires ConfigOk(cfg) && IsTrace(cfg, reqs, ls, ds) && i < |ls|
    ensures |ls[i].buckets| <= cfg.maxBuckets
  {
    if i > 0 {
      NeverOverCapacity(cfg, reqs, ls, ds, i - 1);
      assert Served(cfg, reqs, ls, ds, i - 1);
      CapacityKept(cfg, ls[i - 1], reqs[i - 1].client, reqs[i - 1].now, reqs[i - 1].first);
    }
  }

  /** The client's bucket is never the one evicted for capacity. */
  ghost predicate NeverEvicted(cfg: Config, reqs: seq<Request>, ls: seq<Limiter>, client: string)
    requires |ls| == |reqs| + 1
  {
    forall i :: 0 <= i < |reqs| ==>
      Evicts(cfg, Cleaned(cfg, ls[i], reqs[i].now), reqs[i].client) ==> reqs[i].first != client
  }

  /** The times at which the client was allowed, among the first n requests. */
  ghost function AllowedTimes(reqs: seq<Request>, ds: seq<Decision>, client: string, n: nat): seq<int>
    requires n <= |reqs| == |ds|
  {
    if n == 0 then []
    else
      var before := AllowedTimes(reqs, ds, client, n - 1);
      if reqs[n - 1].client == client && ds[n - 1].allowed then before + [reqs[n - 1].now] else before
  }

  /** How many times are at or after `lo`. */
  ghost function From(times: seq<int>, lo: int): nat {
    if times == [] then 0
    else From(times[..|times| - 1], lo) + if times[|times| - 1] >= lo then 1 else 0
  }

  /** How many times lie in the half-open interval from `lo` to `hi`. */
  ghost function Within(times: seq<int>, lo: int, hi: int): nat {
    if times == [] then 0
    else Within(times[..|times| - 1], lo, hi) + if lo <= times[|times| - 1] < hi then 1 else 0
  }

  lemma {:induction false} FromMonotone(times: seq<int>, lo: int, hi: int)
    requires lo <= hi
    ensures From(times, hi) <= From(times, lo)
  {
    if times != [] { FromMonotone(times[..|times| - 1], lo, hi); }
  }

  lemma {:induction false} WithinAtMostFrom(times: seq<int>, lo: int, hi: int)
    ensures Within(times, lo, hi) <= From(times, lo)
  {
    if times != [] { WithinAtMostFrom(times[..|times| - 1], lo, hi); }
  }

  // ----- the bound on allowed requests -----

  /**
   What a client's bucket says about its past: the current window holds exactly `count` allowed
   requests, the first of them at its start; fewer than maxRequests others are less than one
   window older. Without a bucket, nothing was allowed in the last window.
   */
  ghost predicate Explains(cfg: Config, bucket: Option<Bucket>, times: seq<int>, last: int) {
    match bucket
    case None => From(times, last - Window(cfg) + 1) == 0
    case Some(b) =>
      && 1 <= b.count <= cfg.maxRequests && b.start <= last
      && From(times, b.start) == b.count
      && From(times, b.start + 1) <= b.count - 1
      && From(times, b.start + Window(cfg)) == 0
      && From(times, b.start - Window(cfg) + 1) <= b.count + cfg.maxRequests - 1
  }

  ghost predicate Bounded(cfg: Config, times: seq<int>) {
    forall lo, hi :: hi == lo + Window(cfg) ==> Within(times, lo, hi) <= 2 * cfg.maxRequests - 1
  }

  /** Time passing, or a sweep, keeps the explanation. */
  lemma StillExplains(cfg: Config, bucket: Option<Bucket>, times: seq<int>, last: int, now: int)
    requires ConfigOk(cfg) && Explains(cfg, bucket, times, last) && last <= now
    ensures Explains(cfg, bucket, times, now)
    ensures bucket.Some? && Stale(cfg, bucket.value, now) ==> Explains(cfg, None, times, now)
  {
    if bucket.None? {
      FromMonotone(times, last - Window(cfg) + 1, now - Window(cfg) + 1);
    } else if Stale(cfg, bucket.value, now) {
      FromMonotone(times, bucket.value.start + Window(cfg), now - Window(cfg) + 1);
    }
  }

  lemma AllowedInNewWindow(cfg: Config, bucket: Option<Bucket>, times: seq<int>, now: int)
    requires ConfigOk(cfg) && cfg.maxRequests > 0 && Explains(cfg, bucket, times, now)
    requires bucket.Some? ==> now - bucket.value.start >= Window(cfg)
    ensures Explains(cfg, Some(Bucket(now, 1)), times + [now], now)
  {
    var w := Window(cfg);
    match bucket {
      case None =>
        FromMonotone(times, now - w + 1, now);
      case Some(b) =>
        FromMonotone(times, b.start + w, now);
        FromMonotone(times, b.start + 1, now - w + 1);
    }
    FromMonotone(times, now, now + 1);
    FromMonotone(times, now, now + w);
  }

  /** Serving the client keeps the explanation and the bound. */
  lemma CheckKeepsBound(cfg: Config, bucket: Option<Bucket>, times: seq<int>, now: int)
    requires ConfigOk(cfg) && cfg.maxRequests > 0 && Explains(cfg, bucket, times, now) && Bounded(cfg, times)
    ensures var (b, d) := CheckBucket(cfg, bucket, now);
            var times' := if d.allowed then times + [now] else times;
            Explains(cfg, Some(b), times', now) && Bounded(cfg, times')
  {
    var (b, d) := CheckBucket(cfg, bucket, now);
    if d.allowed {
      var times' := times + [now];
      if bucket.Some? && now - bucket.value.start < Window(cfg) {
      } else {
        AllowedInNewWindow(cfg, bucket, times, now);
      }
      forall lo, hi | hi == lo + Window(cfg) ensures Within(times', lo, hi) <= 2 * cfg.maxRequests - 1 {
        if lo <= now < hi {
          WithinAtMostFrom(times', lo, hi);
          FromMonotone(times', b.start - Window(cfg) + 1, lo);
        }
      }
    }
  }

  lemma StepKeepsBound(cfg: Config, l: Limiter, req: Request, client: string, times: seq<int>)
    requires ConfigOk(cfg) && cfg.maxRequests > 0
    requires Explains(cfg, Lookup(l.buckets, client), times, req.now) && Bounded(cfg, times)
    requires Evicts(cfg, Cleaned(cfg, l, req.now), req.client) ==> req.first != client
    ensures var (l', d) := Check(cfg, l, req.client, req.now, req.first);
            var times' := if req.client == client && d.allowed then times + [req.now] else times;
            Explains(cfg, Lookup(l'.buckets, client), times', req.now) && Bounded(cfg, times')
  {
    var cleaned := Cleaned(cfg, l, req.now);
    StillExplains(cfg, Lookup(l.buckets, client), times, req.now, req.now);
    assert Explains(cfg, Lookup(cleaned, client), times, req.now);
    var roomy := Roomy(cfg, cleaned, req.client, req.first);
    assert Lookup(roomy, client) == Lookup(cleaned, client);
    CheckKeepsBound(cfg, Lookup(roomy, client), times, req.now);
  }

  lemma NothingAllowed(cfg: Config, now: int)
    requires cfg.maxRequests > 0
    ensures Bounded(cfg, []) && Explains(cfg, None, [], now)
  {
  }

  /**
   In any trace in which the client's bucket is not evicted for capacity, every half-open
   interval of one window length holds at most 2 * maxRequests - 1 allowed requests of the client.
   */
  lemma {:induction false} WindowBound(cfg: Config, reqs: seq<Request>, ls: seq<Limiter>, ds: seq<Decision>,
                                       client: string, n: nat)
    requires ConfigOk(cfg) && cfg.maxRequests > 0
    requires IsTrace(cfg, reqs, ls, ds) && NeverEvicted(cfg, reqs, ls, client) && n <= |reqs|
    ensures Bounded(cfg, AllowedTimes(reqs, ds, client, n))
    ensures n > 0 ==> Explains(cfg, Lookup(ls[n].buckets, client), AllowedTimes(reqs, ds, client, n), reqs[n - 1].now)
  {
    hide Explains, Bounded, Check, Cleaned, Evicts;
    if n == 0 {
      NothingAllowed(cfg, 0);
    } else {
      var i := n - 1;
      var req, times := reqs[i], AllowedTimes(reqs, ds, client, i);
      WindowBound(cfg, reqs, ls, ds, client, i);
      if i > 0 {
        StillExplains(cfg, Lookup(ls[i].buckets, client), times, reqs[i - 1].now, req.now);
      } else {
        NothingAllowed(cfg, req.now);
      }
      assert Served(cfg, reqs, ls, ds, i);
      StepKeepsBound(cfg, ls[i], req, client, times);
    }
  }

  /**
   What a client is told to have left is the maximum less the requests it was allowed since its
   window opened, this one included; a window less than its length ago. It is denied exactly when
   nothing was left.
   */
  lemma RemainingIs(cfg: Config, reqs: seq<Request>, ls: seq<Limiter>, ds: seq<Decision>, client: string, i: nat)
    requires ConfigOk(cfg) && cfg.maxRequests > 0
    requires IsTrace(cfg, reqs, ls, ds) && NeverEvicted(cfg, reqs, ls, client)
    requires i < |reqs| && reqs[i].client == client
    ensures client in ls[i + 1].buckets
    ensures var start := ls[i + 1].buckets[client].start;
            && start <= reqs[i].now < start + Window(cfg)
            && ds[i].limit == cfg.maxRequests
            && ds[i].remaining == cfg.maxRequests - From(AllowedTimes(reqs, ds, client, i + 1), start) >= 0
            && (!ds[i].allowed ==> ds[i].remaining == 0)
            && (ds[i].allowed <==> From(AllowedTimes(reqs, ds, client, i), start) < cfg.maxRequests)
  {
    hide Explains, Bounded, Check, AllowedTimes, From, NeverEvicted;
    WindowBound(cfg, reqs, ls, ds, client, i + 1);
    assert Served(cfg, reqs, ls, ds, i);
    hide IsTrace;
    TrackedNow(cfg, ls[i], reqs[i]);
    var b := ls[i + 1].buckets[client];
    ExplainsCount(cfg, b, AllowedTimes(reqs, ds, client, i + 1), reqs[i].now);
    OneMoreAllowed(reqs, ds, client, i, b.start);
  }

  lemma OneMoreAllowed(reqs: seq<Request>, ds: seq<Decision>, client: string, i: nat, start: int)
    requires i < |reqs| == |ds| && reqs[i].client == client && start <= reqs[i].now
    ensures From(AllowedTimes(reqs, ds, client, i + 1), start) ==
              From(AllowedTimes(reqs, ds, client, i), start) + if ds[i].allowed then 1 else 0
  {
    var before := AllowedTimes(reqs, ds, client, i);
    assert (before + [reqs[i].now])[..|before|] == before;
  }

  lemma ExplainsCount(cfg: Config, b: Bucket, times: seq<int>, last: int)
    requires Explains(cfg, Some(b), times, last)
    ensures From(times, b.start) == b.count <= cfg.maxRequests && b.start <= last
  {
  }

  lemma TrackedNow(cfg: Config, l: Limiter, req: Request)
    requires ConfigOk(cfg) && cfg.maxRequests > 0
    ensures var (l', d) := Check(cfg, l, req.client, req.now, req.first);
            && req.client in l'.buckets
            && req.now - l'.buckets[req.client].start < Window(cfg)
            && d.limit == cfg.maxRequests
            && (d.allowed ==> d.remaining == cfg.maxRequests - l'.buckets[req.client].count)
            && (!d.allowed ==> d.remaining == 0 && l'.buckets[req.client].count >= cfg.maxRequests)
  {
  }

  /** A maximum of zero switches the limiter off: everything is allowed and nothing is kept. */
  lemma {:induction false} ZeroSwitchesOff(cfg: Config, reqs: seq<Request>, ls: seq<Limiter>, ds: seq<Decision>,
                                           i: nat)
    requires cfg.maxRequests == 0 && IsTrace(cfg, reqs, ls, ds) && i < |reqs|
    ensures ds[i] == Decision(true, 0, 0, 0) && ls[i + 1].buckets == map[]
  {
    assert Served(cfg, reqs, ls, ds, i);
    if i > 0 { ZeroSwitchesOff(cfg, reqs, ls, ds, i - 1); }
  }

  /** One request, then the rest of its window at the window's last instant, then a full new window. */
  ghost function BurstTime(cfg: Config, i: nat): int {
    if i == 0 then 0 else if i < cfg.maxRequests then Window(cfg) - 1 else Window(cfg)
  }

  ghost function Burst(cfg: Config, n: nat): seq<int> {
    seq(n, i requires 0 <= i => BurstTime(cfg, i))
  }

  ghost function BurstState(cfg: Config, n: nat): Option<Bucket> {
    if n == 0 then None
    else if n <= cfg.maxRequests then Some(Bucket(0, n))
    else Some(Bucket(Window(cfg), n - cfg.maxRequests))
  }

  lemma {:induction false} BurstCount(cfg: Config, n: nat)
    requires ConfigOk(cfg) && 0 < n <= 2 * cfg.maxRequests
    ensures Within(Burst(cfg, n), Window(cfg) - 1, 2 * Window(cfg) - 1) == n - 1
  {
    var times := Burst(cfg, n);
    assert times[..n - 1] == Burst(cfg, n - 1);
    if n > 1 {
      BurstCount(cfg, n - 1);
    } else {
      assert Within(Burst(cfg, 0), Window(cfg) - 1, 2 * Window(cfg) - 1) == 0;
    }
  }

  // The trace of one client alone sending the burst.

  ghost function BurstRequests(cfg: Config, client: string): seq<Request> {
    seq(2 * cfg.maxRequests, i requires 0 <= i => Request(client, BurstTime(cfg, i), client))
  }

  ghost function BurstTable(cfg: Config, client: string, n: nat): Limiter {
    Limiter(if n == 0 then map[] else map[client := BurstState(cfg, n).value], n)
  }

  ghost function BurstTables(cfg: Config, client: string): seq<Limiter> {
    seq(2 * cfg.maxRequests + 1, n requires 0 <= n => BurstTable(cfg, client, n))
  }

  ghost function BurstDecisions(cfg: Config): seq<Decision> {
    seq(2 * cfg.maxRequests, i requires 0 <= i => CheckBucket(cfg, BurstState(cfg, i), BurstTime(cfg, i)).1)
  }

  lemma BurstServed(cfg: Config, client: string, i: nat)
    requires ConfigOk(cfg) && cfg.maxRequests > 0 && i < 2 * cfg.maxRequests
    ensures var l := BurstTable(cfg, client, i);
            && !Evicts(cfg, Cleaned(cfg, l, BurstTime(cfg, i)), client)
            && Check(cfg, l, client, BurstTime(cfg, i), client)
               == (BurstTable(cfg, client, i + 1), CheckBucket(cfg, BurstState(cfg, i), BurstTime(cfg, i)).1)
  {
    var l := BurstTable(cfg, client, i);
    if i > 0 { assert l.buckets[client].start >= 0; }
    assert Cleaned(cfg, l, BurstTime(cfg, i)) == l.buckets;
    assert |l.buckets| <= 1;
    if i > 0 {
      var b := BurstState(cfg, i + 1).value;
      assert l.buckets[client := b] == map[client := b];
    }
  }

  lemma {:induction false} BurstAllowed(cfg: Config, client: string, n: nat)
    requires ConfigOk(cfg) && cfg.maxRequests > 0 && n <= 2 * cfg.maxRequests
    ensures AllowedTimes(BurstRequests(cfg, client), BurstDecisions(cfg), client, n) == Burst(cfg, n)
  {
    if n > 0 {
      BurstAllowed(cfg, client, n - 1);
      assert Burst(cfg, n) == Burst(cfg, n - 1) + [BurstTime(cfg, n - 1)];
    }
  }

  lemma BurstInOrder(cfg: Config, client: string)
    requires ConfigOk(cfg)
    ensures InOrder(BurstRequests(cfg, client))
  {
  }

  lemma BurstIsTrace(cfg: Config, client: string)
    requires ConfigOk(cfg) && cfg.maxRequests > 0
    ensures var (reqs, ls, ds) := (BurstRequests(cfg, client), BurstTables(cfg, client), BurstDecisions(cfg));
            IsTrace(cfg, reqs, ls, ds) && NeverEvicted(cfg, reqs, ls, client)
  {
    hide Check, Cleaned, Evicts, CheckBucket, BurstState, BurstTime, InOrder;
    var (reqs, ls, ds) := (BurstRequests(cfg, client), BurstTables(cfg, client), BurstDecisions(cfg));
    BurstInOrder(cfg, client);
    forall i: nat | i < |reqs|
      ensures Served(cfg, reqs, ls, ds, i) && !Evicts(cfg, Cleaned(cfg, ls[i], reqs[i].now), reqs[i].client)
    {
      BurstServed(cfg, client, i);
    }
  }

  /**
   The bound is attained: the burst is a trace of the limiter without eviction in which one
   interval of a window's length holds 2 * maxRequests - 1 allowed requests.
   */
  lemma BoundIsTight(cfg: Config, client: string)
    requires ConfigOk(cfg) && cfg.maxRequests > 0
    ensures var (reqs, ls, ds) := (BurstRequests(cfg, client), BurstTables(cfg, client), BurstDecisions(cfg));
            && IsTrace(cfg, reqs, ls, ds) && NeverEvicted(cfg, reqs, ls, client)
            && Within(AllowedTimes(reqs, ds, client, |reqs|), Window(cfg) - 1, Window(cfg) - 1 + Window(cfg))
               == 2 * cfg.maxRequests - 1
  {
    hide AllowedTimes, IsTrace, NeverEvicted, Within;
    BurstIsTrace(cfg, client);
    BurstAllowed(cfg, client, 2 * cfg.maxRequests);
    BurstCount(cfg, 2 * cfg.maxRequests);
  }

  // ----- retry times -----

  /**
   A denial's retry time is the least whole number of seconds after which the bucket allows the
   client again, and the computed value is already at least one second.
   */
  lemma RetryIsLeast(cfg: Config, bucket: Option<Bucket>, now: int, later: int)
    requires ConfigOk(cfg) && cfg.maxRequests > 0 && !CheckBucket(cfg, bucket, now).1.allowed && now <= later
    ensures var (b, d) := CheckBucket(cfg, bucket, now);
            && bucket == Some(b)
            && d.retryAfter == CeilSeconds(Window(cfg) - (now - b.start)) >= 1
            && (CheckBucket(cfg, Some(b), later).1.allowed <==> later >= b.start + Window(cfg))
            && CheckBucket(cfg, Some(b), now + d.retryAfter * SECOND).1.allowed
            && !CheckBucket(cfg, Some(b), now + (d.retryAfter - 1) * SECOND).1.allowed
  {
  }

  /**
   A denied client that sends nothing until its retry time has passed is then allowed, whatever
   other clients do meanwhile, sweeps and evictions included.
   */
  lemma SilentClientIsAllowed(cfg: Config, reqs: seq<Request>, ls: seq<Limiter>, ds: seq<Decision>, i: nat, j: nat)
    requires ConfigOk(cfg) && cfg.maxRequests > 0 && IsTrace(cfg, reqs, ls, ds)
    requires i < j < |reqs| && !ds[i].allowed && reqs[j].client == reqs[i].client
    requires forall k :: i < k < j ==> reqs[k].client != reqs[i].client
    requires reqs[j].now >= reqs[i].now + ds[i].retryAfter * SECOND
    ensures ds[j].allowed
  {
    assert Served(cfg, reqs, ls, ds, i) && Served(cfg, reqs, ls, ds, j);
    SilenceKeepsBucket(cfg, reqs, ls, ds, reqs[i].client, i + 1, j);
  }

  lemma {:induction false} SilenceKeepsBucket(cfg: Config, reqs: seq<Request>, ls: seq<Limiter>, ds: seq<Decision>,
                                              client: string, i: nat, j: nat)
    requires IsTrace(cfg, reqs, ls, ds) && i <= j < |ls|
    requires forall k :: i <= k < j ==> reqs[k].client != client
    ensures Lookup(ls[j].buckets, client) in {None, Lookup(ls[i].buckets, client)}
    decreases j
  {
    if i < j {
      SilenceKeepsBucket(cfg, reqs, ls, ds, client, i, j - 1);
      assert Served(cfg, reqs, ls, ds, j - 1);
    }
  }

  // ----- cleanup is invisible -----

  /** The same limiter if it never removed a bucket. */
  ghost function IdealAfter(cfg: Config, reqs: seq<Request>): map<string, Bucket> {
    if reqs == [] then map[]
    else
      var n := |reqs| - 1;
      var before := IdealAfter(cfg, reqs[..n]);
      before[reqs[n].client := CheckBucket(cfg, Lookup(before, reqs[n].client), reqs[n].now).0]
  }

  ghost function IdealDecision(cfg: Config, reqs: seq<Request>, i: nat): Decision
    requires i < |reqs|
  {
    CheckBucket(cfg, Lookup(IdealAfter(cfg, reqs[..i]), reqs[i].client), reqs[i].now).1
  }

  /** The real table agrees with the ideal one except for buckets that are stale by `now`. */
  ghost predicate Agrees(cfg: Config, kept: map<string, Bucket>, ideal: map<string, Bucket>, now: int) {
    && kept.Keys <= ideal.Keys
    && (forall c <- kept :: kept[c] == ideal[c])
    && (forall c <- ideal :: c in kept || Stale(cfg, ideal[c], now))
  }

  ghost predicate ClientsWithin(reqs: seq<Request>, clients: set<string>) {
    forall i :: 0 <= i < |reqs| ==> reqs[i].client in clients
  }

  lemma NoRoomNeeded(cfg: Config, buckets: map<string, Bucket>, client: string, clients: set<string>)
    requires buckets.Keys <= clients && client in clients && |clients| <= cfg.maxBuckets
    ensures !Evicts(cfg, buckets, client)
  {
    if client !in buckets {
      assert clients == buckets.Keys + (clients - buckets.Keys);
      assert client in clients - buckets.Keys;
      assert |buckets.Keys| == |buckets|;
      assert clients - buckets.Keys == {client} + (clients - buckets.Keys - {client});
    }
  }

  lemma StepAgrees(cfg: Config, l: Limiter, ideal: map<string, Bucket>, req: Request, clients: set<string>)
    requires ConfigOk(cfg) && cfg.maxRequests > 0 && Agrees(cfg, l.buckets, ideal, req.now)
    requires l.buckets.Keys <= clients && req.client in clients && |clients| <= cfg.maxBuckets
    ensures var (l', d) := Check(cfg, l, req.client, req.now, req.first);
            var (b, expected) := CheckBucket(cfg, Lookup(ideal, req.client), req.now);
            d == expected && Agrees(cfg, l'.buckets, ideal[req.client := b], req.now) && l'.buckets.Keys <= clients
  {
    var cleaned := Cleaned(cfg, l, req.now);
    assert Agrees(cfg, cleaned, ideal, req.now);
    NoRoomNeeded(cfg, cleaned, req.client, clients);
  }

  /**
   With at most maxBuckets distinct clients, periodic cleanup and bucket reuse cannot be observed:
   every decision, remaining count and retry time is the one of a limiter that keeps all buckets.
   */
  lemma {:induction false} CleanupIsInvisible(cfg: Config, reqs: seq<Request>, ls: seq<Limiter>, ds: seq<Decision>,
                                              clients: set<string>, n: nat)
    requires ConfigOk(cfg) && cfg.maxRequests > 0 && IsTrace(cfg, reqs, ls, ds) && n <= |reqs|
    requires ClientsWithin(reqs, clients) && |clients| <= cfg.maxBuckets
    ensures n > 0 ==> Agrees(cfg, ls[n].buckets, IdealAfter(cfg, reqs[..n]), reqs[n - 1].now)
    ensures ls[n].buckets.Keys <= clients
    ensures forall i :: 0 <= i < n ==> ds[i] == IdealDecision(cfg, reqs, i)
  {
    if n > 0 {
      var i := n - 1;
      CleanupIsInvisible(cfg, reqs, ls, ds, clients, i);
      var ideal := IdealAfter(cfg, reqs[..i]);
      assert Served(cfg, reqs, ls, ds, i);
      StepAgrees(cfg, ls[i], ideal, reqs[i], clients);
      assert reqs[..n][..i] == reqs[..i] && reqs[..n][i] == reqs[i];
    }
  }

  // ----- the limiter as an object -----

  class RateLimiter {
    const cfg: Config
    var buckets: map<string, Bucket>
    var checkCount: nat

    function View(): Limiter
      reads this
    {
      Limiter(buckets, checkCount)
    }

    ghost predicate Valid()
      reads this
    {
      ConfigOk(cfg) && |buckets| <= cfg.maxBuckets
    }

    constructor (cfg: Config)
      requires ConfigOk(cfg)
      ensures this.cfg == cfg && Valid() && View() == Limiter(map[], 0)
    {
      this.cfg := cfg;
      buckets, checkCount := map[], 0;
    }

    /** The sweep visits every key once, in whatever order the table yields them. */
    method Cleanup(now: int)
      modifies this
      ensures checkCount == old(checkCount) + 1
      ensures buckets == Cleaned(cfg, old(View()), now)
    {
      checkCount := checkCount + 1;
      if checkCount % CLEANUP_PERIOD != 0 { return; }
      var staleBefore := now - Window(cfg) * 2;
      var pending := buckets.Keys;
      while pending != {}
        invariant pending <= old(buckets).Keys
        invariant buckets ==
                    map c | c in old(buckets) && (c in pending || !Stale(cfg, old(buckets)[c], now)) :: old(buckets)[c]
        invariant checkCount == old(checkCount) + 1
        decreases |pending|
      {
        var client :| client in pending;
        pending := pending - {client};
        if buckets[client].start < staleBefore {
          buckets := Without(buckets, client);
        }
      }
    }

    method CheckClient(client: string, now: int, first: string) returns (decision: Decision)
      requires Valid() && FirstIsKey(cfg, View(), client, now, first)
      modifies this
      ensures Valid() && (View(), decision) == Check(cfg, old(View()), client, now, first)
    {
      CapacityKept(cfg, View(), client, now, first);
      if cfg.maxRequests == 0 { return Decision(true, 0, 0, 0); }
      Cleanup(now);
      if client !in buckets && |buckets| >= cfg.maxBuckets {
        buckets := Without(buckets, first);
      }
      ghost var roomy := buckets;
      var inserted := client !in buckets;
      if inserted {
        buckets := buckets[client := Bucket(now, 0)];
      }
      var bucket := buckets[client];
      if !inserted && now - bucket.start >= Window(cfg) {
        bucket := Bucket(now, 0);
        buckets := buckets[client := bucket];
      }
      if bucket.count >= cfg.maxRequests {
        var retryAfter := CeilSeconds(Window(cfg) - (now - bucket.start));
        if retryAfter < 1 { retryAfter := 1; }
        assert buckets == roomy[client := bucket];
        return Decision(false, cfg.maxRequests, 0, retryAfter);
      }
      bucket := Bucket(bucket.start, bucket.count + 1);
      buckets := buckets[client := bucket];
      assert buckets == roomy[client := bucket];
      return Decision(true, cfg.maxRequests, cfg.maxRequests - bucket.count, 0);
    }
  }
}
