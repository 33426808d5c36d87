/** The rate limiter's token bucket: refill, clamp, spend, and the eviction of
    buckets left alone, over whole runs. */
module TokenBucket {
  import opened Wrappers

  const STALE_SECONDS := 300.0
  const MAX_U64 := 0xFFFF_FFFF_FFFF_FFFF

  datatype Config = Config(capacity: nat, refillRate: real)

  datatype Bucket = Bucket(tokens: real, capacity: nat, refillRate: real, lastRefill: real, lastAccess: real)

  /** `resetIn` is the reset header less the wall clock. */
  datatype Answer =
    | Allowed(remaining: nat, limit: nat, resetIn: nat)
    | Limited(retryAfter: nat, limit: nat, resetIn: nat)
    | Disabled

  function Ceil(x: real): int { -((-x).Floor) }

  /** `amount / rate`, rounded up and cast to an unsigned integer: a cast of
      infinity or of a value too large saturates, one of a negative gives 0. */
  function WholeSeconds(amount: real, rate: real): nat {
    if rate == 0.0 then if amount > 0.0 then MAX_U64 else 0
    else
      var s := Ceil(amount / rate);
      if s < 0 then 0 else if s > MAX_U64 then MAX_U64 else s
  }

  /** Time since `last`; a sample taken before it counts as no time. */
  function Elapsed(last: real, now: real): real {
    if now >= last then now - last else 0.0
  }

  function Min(a: real, b: real): real { if a <= b then a else b }

  /** What refills in `time`. */
  function Gain(rate: real, time: real): real { rate * time }

  function Times(a: real, n: nat): real { a * (n as real) }

  function NewBucket(cfg: Config, now: real): Bucket {
    Bucket(cfg.capacity as real, cfg.capacity, cfg.refillRate, now, now)
  }

  /** The bucket brought up to `now`, or a full one. */
  function Refill(bucket: Option<Bucket>, cfg: Config, now: real): Bucket {
    var b := if bucket.Some? then bucket.value else NewBucket(cfg, now);
    var tokens := Min(b.tokens + Gain(cfg.refillRate, Elapsed(b.lastRefill, now)), cfg.capacity as real);
    Bucket(tokens, cfg.capacity, cfg.refillRate, now, now)
  }

  function Spend(bucket: Option<Bucket>, cfg: Config, cost: nat, now: real): (Bucket, Answer) {
    var b := Refill(bucket, cfg, now);
    var cap := cfg.capacity as real;
    var reset := if b.tokens < cap then WholeSeconds(cap - b.tokens, cfg.refillRate) else 0;
    if b.tokens >= cost as real then
      var left := b.tokens - cost as real;
      (b.(tokens := left), Allowed(if left < 0.0 then 0 else left.Floor, cfg.capacity, reset))
    else
      (b, Limited(WholeSeconds(cost as real - b.tokens, cfg.refillRate), cfg.capacity,
                  WholeSeconds(cap, cfg.refillRate)))
  }

  predicate Stale(bucket: Option<Bucket>, now: real) {
    bucket.Some? && Elapsed(bucket.value.lastAccess, now) >= STALE_SECONDS
  }

  function Evict(bucket: Option<Bucket>, now: real): Option<Bucket> {
    if Stale(bucket, now) then None else bucket
  }

  class RateLimiter {
    var buckets: map<string, Bucket>
    var clientConfigs: map<string, Config>

    constructor ()
      ensures buckets == map[] && clientConfigs == map[]
    {
      buckets, clientConfigs := map[], map[];
    }

    function BucketOf(key: string): Option<Bucket>
      reads this
    {
      if key in buckets then Some(buckets[key]) else None
    }

    /** The client as a run of its events would have it, with nothing counted. */
    ghost function ClientOf(key: string): Client
      reads this
    {
      Client(if key in clientConfigs then Some(clientConfigs[key]) else None, Tally(BucketOf(key), 0, 0, 0.0))
    }

    /** `check`. A key with no config is not limited and gets no bucket. */
    method Check(key: string, cost: nat, now: real) returns (answer: Answer)
      modifies `buckets
      ensures key !in clientConfigs ==> answer == Disabled && buckets == old(buckets)
      ensures key in clientConfigs ==>
                var (b, a) := Spend(old(BucketOf(key)), clientConfigs[key], cost, now);
                answer == a && buckets == old(buckets)[key := b]
      ensures key in clientConfigs ==> !answer.Disabled? && answer.limit == clientConfigs[key].capacity
      ensures ClientOf(key).tally.bucket == StepClient(old(ClientOf(key)), Act(Step.Check(cost, now))).tally.bucket
    {
      hide WholeSeconds, Elapsed;
      if key !in clientConfigs {
        return Disabled;
      }
      var cfg := clientConfigs[key];
      var cap := cfg.capacity as real;
      if key !in buckets {
        buckets := buckets[key := NewBucket(cfg, now)];
      }
      var b := buckets[key];
      b := b.(capacity := cfg.capacity, refillRate := cfg.refillRate);
      b := b.(tokens := Min(b.tokens + Gain(cfg.refillRate, Elapsed(b.lastRefill, now)), cap));
      b := b.(lastRefill := now, lastAccess := now);
      assert b == Refill(old(BucketOf(key)), cfg, now);
      var reset := if b.tokens < cap then WholeSeconds(cap - b.tokens, cfg.refillRate) else 0;
      if b.tokens >= cost as real {
        b := b.(tokens := b.tokens - cost as real);
        answer := Allowed(if b.tokens < 0.0 then 0 else b.tokens.Floor, cfg.capacity, reset);
      } else {
        answer := Limited(WholeSeconds(cost as real - b.tokens, cfg.refillRate), cfg.capacity,
                          WholeSeconds(cap, cfg.refillRate));
      }
      buckets := buckets[key := b];
    }

    method RegisterClientConfig(key: string, cfg: Config)
      modifies `clientConfigs
      ensures clientConfigs == old(clientConfigs)[key := cfg]
      ensures ClientOf(key) == StepClient(old(ClientOf(key)), Register(cfg))
    {
      clientConfigs := clientConfigs[key := cfg];
    }

    /** The client's bucket, if it has one, stays until it goes stale. */
    method RemoveClientConfig(key: string)
      modifies `clientConfigs
      ensures clientConfigs == old(clientConfigs) - {key}
      ensures ClientOf(key) == StepClient(old(ClientOf(key)), Remove)
    {
      clientConfigs := clientConfigs - {key};
    }

    /** One round of `spawn_cleanup`. */
    method Cleanup(now: real)
      modifies `buckets
      ensures forall key :: BucketOf(key) == Evict(old(BucketOf(key)), now)
      ensures forall key :: key in buckets <==> key in old(buckets) && now - old(buckets)[key].lastAccess < 300.0
    {
      buckets := map key | key in buckets && !Stale(Some(buckets[key]), now) :: buckets[key];
    }
  }

  // ---- Runs of one client under one config ----

  datatype Step = Check(cost: nat, now: real) | Cleanup(now: real)

  /** Where a run has got to: the bucket, the cost allowed, the evictions, and how
      far time moved forward from check to check. */
  datatype Tally = Tally(bucket: Option<Bucket>, allowed: nat, evictions: nat, forward: real)

  function StepTally(cfg: Config, t: Tally, step: Step): Tally {
    match step
    case Check(cost, now) =>
      var (b, a) := Spend(t.bucket, cfg, cost, now);
      var moved := if t.bucket.Some? then Elapsed(t.bucket.value.lastRefill, now) else 0.0;
      Tally(Some(b), t.allowed + if a.Allowed? then cost else 0, t.evictions, t.forward + moved)
    case Cleanup(now) =>
      t.(bucket := Evict(t.bucket, now), evictions := t.evictions + if Stale(t.bucket, now) then 1 else 0)
  }

  function RunTally(cfg: Config, start: Tally, steps: seq<Step>): Tally {
    if steps == [] then start
    else StepTally(cfg, RunTally(cfg, start, steps[..|steps| - 1]), steps[|steps| - 1])
  }

  lemma TimesNext(a: real, n: nat)
    ensures Times(a, 0) == 0.0 && Times(a, n + 1) == Times(a, n) + a
  {
  }

  lemma GainSum(rate: real, x: real, y: real)
    ensures Gain(rate, x + y) == Gain(rate, x) + Gain(rate, y)
  {
  }

  lemma GainZero(rate: real)
    ensures Gain(rate, 0.0) == 0.0
  {
  }

  lemma GainMonotone(rate: real, x: real, y: real)
    requires rate >= 0.0 && x <= y
    ensures Gain(rate, x) <= Gain(rate, y) && (rate > 0.0 && x < y ==> Gain(rate, x) < Gain(rate, y))
  {
  }

  lemma GainNonnegative(rate: real, x: real)
    requires rate >= 0.0 && x >= 0.0
    ensures Gain(rate, x) >= 0.0
  {
  }

  /** What is allowed, with what the bucket still holds, is within the bound. */
  ghost predicate Bounded(cfg: Config, t: Tally) {
    var cap := cfg.capacity as real;
    t.forward >= 0.0 &&
    match t.bucket
    case Some(b) =>
      && 0.0 <= b.tokens <= cap
      && t.allowed as real + b.tokens <= Times(cap, t.evictions + 1) + Gain(cfg.refillRate, t.forward)
    case None => t.allowed as real <= Times(cap, t.evictions) + Gain(cfg.refillRate, t.forward)
  }

  lemma {:induction false} CheckBounded(cfg: Config, t: Tally, cost: nat, now: real)
    requires cfg.refillRate >= 0.0 && Bounded(cfg, t)
    ensures Bounded(cfg, StepTally(cfg, t, Check(cost, now)))
  {
    hide WholeSeconds, Gain, Times;
    GainZero(cfg.refillRate);
    TimesNext(cfg.capacity as real, t.evictions);
    if t.bucket.Some? {
      var moved := Elapsed(t.bucket.value.lastRefill, now);
      GainSum(cfg.refillRate, t.forward, moved);
      GainNonnegative(cfg.refillRate, moved);
    }
  }

  lemma {:induction false} CleanupBounded(cfg: Config, t: Tally, now: real)
    requires Bounded(cfg, t)
    ensures Bounded(cfg, StepTally(cfg, t, Cleanup(now)))
  {
    hide Gain, Times;
    TimesNext(cfg.capacity as real, t.evictions);
  }

  /** The tally of a first check, whatever bucket it finds. */
  function First(cfg: Config, bucket: Option<Bucket>, cost: nat, now: real): Tally {
    StepTally(cfg, Tally(bucket, 0, 0, 0.0), Check(cost, now)).(forward := 0.0)
  }

  lemma {:induction false} FirstBounded(cfg: Config, bucket: Option<Bucket>, cost: nat, now: real)
    requires cfg.refillRate >= 0.0 && (bucket.Some? ==> bucket.value.tokens >= 0.0)
    ensures Bounded(cfg, First(cfg, bucket, cost, now))
  {
    hide Gain, Times;
    GainZero(cfg.refillRate);
    if bucket.Some? { GainNonnegative(cfg.refillRate, Elapsed(bucket.value.lastRefill, now)); }
    TimesNext(cfg.capacity as real, 0);
  }

  /** Whatever the order of the samples: what is allowed is at most a full bucket
      at the start and after each eviction, and what refills as time moves. */
  lemma {:induction false} AllowedBound(cfg: Config, start: Tally, steps: seq<Step>)
    requires cfg.refillRate >= 0.0 && Bounded(cfg, start)
    ensures Bounded(cfg, RunTally(cfg, start, steps))
  {
    hide Gain, Times;
    if steps != [] {
      var n := |steps| - 1;
      AllowedBound(cfg, start, steps[..n]);
      match steps[n]
      case Check(cost, now) => CheckBounded(cfg, RunTally(cfg, start, steps[..n]), cost, now);
      case Cleanup(now) => CleanupBounded(cfg, RunTally(cfg, start, steps[..n]), now);
    }
  }

  /** Samples from `t0` on, none before the one before it. */
  predicate InOrder(t0: real, steps: seq<Step>) {
    forall i :: 0 <= i < |steps| ==> t0 <= steps[i].now && (i > 0 ==> steps[i - 1].now <= steps[i].now)
  }

  function LastTime(t0: real, steps: seq<Step>): real {
    if steps == [] then t0 else steps[|steps| - 1].now
  }

  /** With samples in order, time moves forward by no more than has passed, and
      each eviction takes its 300 seconds. */
  lemma {:induction false} TimeBound(cfg: Config, bucket: Option<Bucket>, cost: nat, t0: real, steps: seq<Step>)
    requires InOrder(t0, steps)
    ensures var t, now := RunTally(cfg, First(cfg, bucket, cost, t0), steps), LastTime(t0, steps);
            var since := if t.bucket.Some? then t.bucket.value.lastAccess else now;
            && t.forward <= since - t0 && since <= now
            && (t.bucket.Some? ==> t.bucket.value.lastRefill == t.bucket.value.lastAccess)
            && Times(STALE_SECONDS, t.evictions) <= since - t0
  {
    hide Gain, Times;
    TimesNext(STALE_SECONDS, 0);
    if steps != [] {
      var n := |steps| - 1;
      TimeBound(cfg, bucket, cost, t0, steps[..n]);
      TimesNext(STALE_SECONDS, RunTally(cfg, First(cfg, bucket, cost, t0), steps[..n]).evictions);
      assert steps[n].now >= LastTime(t0, steps[..n]);
    }
  }

  /** A full bucket, one more for each eviction, and what refills in time `d`. */
  function Quota(cfg: Config, evictions: nat, d: real): real {
    Times(cfg.capacity as real, evictions + 1) + Gain(cfg.refillRate, d)
  }

  /** The window bound: from a first check at `t0` to the last at `now`. */
  lemma {:induction false} WindowBound(cfg: Config, bucket: Option<Bucket>, cost: nat, t0: real, steps: seq<Step>,
                                       now: real)
    requires cfg.refillRate >= 0.0 && (bucket.Some? ==> bucket.value.tokens >= 0.0)
    requires InOrder(t0, steps) && LastTime(t0, steps) <= now
    ensures var t := RunTally(cfg, First(cfg, bucket, cost, t0), steps);
            && t.allowed as real <= Quota(cfg, t.evictions, now - t0)
            && t.evictions <= ((now - t0) / STALE_SECONDS).Floor
  {
    hide Bounded, RunTally, First, InOrder, Quota, Gain, Times;
    var t := RunTally(cfg, First(cfg, bucket, cost, t0), steps);
    FirstBounded(cfg, bucket, cost, t0);
    AllowedBound(cfg, First(cfg, bucket, cost, t0), steps);
    TimeBound(cfg, bucket, cost, t0, steps);
    WithinBound(cfg, t, now - t0);
    WholeEvictions(t.evictions, now - t0);
  }

  // ---- Runs with registrations between the checks ----

  datatype Event = Register(cfg: Config) | Remove | Act(step: Step)

  /** A client that may have a config, and its run so far. */
  datatype Client = Client(cfg: Option<Config>, tally: Tally)

  /** A check goes by the config in force then, for all the time since the last
      one; without a config it is let through and not counted. */
  function StepClient(c: Client, e: Event): Client {
    match e
    case Register(cfg) => c.(cfg := Some(cfg))
    case Remove => c.(cfg := None)
    case Act(Cleanup(now)) =>
      var t := c.tally;
      c.(tally := t.(bucket := Evict(t.bucket, now), evictions := t.evictions + if Stale(t.bucket, now) then 1 else 0))
    case Act(step) => if c.cfg.None? then c else c.(tally := StepTally(c.cfg.value, c.tally, step))
  }

  function RunClient(start: Client, events: seq<Event>): Client {
    if events == [] then start
    else StepClient(RunClient(start, events[..|events| - 1]), events[|events| - 1])
  }

  /** No config has more than this capacity or a faster rate. */
  predicate Within(cfg: Config, most: Config) {
    cfg.capacity <= most.capacity && 0.0 <= cfg.refillRate <= most.refillRate
  }

  /** The time after the events, the last sample's. */
  function EventTime(t0: real, events: seq<Event>): real {
    if events == [] then t0
    else
      match events[|events| - 1]
      case Act(step) => step.now
      case _ => EventTime(t0, events[..|events| - 1])
  }

  /** The samples are in order, and every config is within `most`. */
  predicate EventsOk(t0: real, events: seq<Event>, most: Config) {
    events == [] ||
    (EventsOk(t0, events[..|events| - 1], most) &&
     match events[|events| - 1]
     case Register(cfg) => Within(cfg, most)
     case Remove => true
     case Act(step) => EventTime(t0, events[..|events| - 1]) <= step.now)
  }

  /** By `now`, what was allowed since `t0` is within the quota of the largest
      capacity and the fastest rate. */
  ghost predicate InWindow(c: Client, most: Config, t0: real, now: real) {
    var t := c.tally;
    var since := if t.bucket.Some? then t.bucket.value.lastAccess else now;
    && (c.cfg.Some? ==> Within(c.cfg.value, most))
    && t0 <= since <= now && Times(STALE_SECONDS, t.evictions) <= since - t0
    && match t.bucket
       case Some(b) =>
         && b.lastRefill == b.lastAccess && b.tokens >= 0.0
         && t.allowed as real + b.tokens <= Quota(most, t.evictions, since - t0)
       case None => t.allowed as real + most.capacity as real <= Quota(most, t.evictions, since - t0)
  }

  lemma GainFaster(rate: real, most: real, x: real)
    requires 0.0 <= rate <= most && x >= 0.0
    ensures 0.0 <= Gain(rate, x) <= Gain(most, x)
  {
  }

  lemma {:induction false} QuotaGrows(most: Config, evictions: nat, x: real, y: real)
    requires most.refillRate >= 0.0 && x <= y
    ensures Quota(most, evictions, x) + Gain(most.refillRate, y - x) == Quota(most, evictions, y)
    ensures Quota(most, evictions, x) <= Quota(most, evictions, y)
    ensures Quota(most, evictions + 1, x) == Quota(most, evictions, x) + most.capacity as real
  {
    hide Gain, Times;
    GainSum(most.refillRate, x, y - x);
    GainNonnegative(most.refillRate, y - x);
    TimesNext(most.capacity as real, evictions + 1);
    assert x + (y - x) == y;
  }

  lemma {:induction false} CheckInWindow(c: Client, most: Config, t0: real, now: real, cost: nat, at: real)
    requires InWindow(c, most, t0, now) && now <= at && c.cfg.Some?
    ensures InWindow(StepClient(c, Act(Check(cost, at))), most, t0, at)
  {
    hide Gain, Times, Quota, WholeSeconds;
    var t, cfg := c.tally, c.cfg.value;
    var since := if t.bucket.Some? then t.bucket.value.lastAccess else now;
    GainZero(cfg.refillRate);
    GainFaster(cfg.refillRate, most.refillRate, at - since);
    QuotaGrows(most, t.evictions, since - t0, at - t0);
    assert at - t0 - (since - t0) == at - since;
  }

  lemma {:induction false} CleanupInWindow(c: Client, most: Config, t0: real, now: real, at: real)
    requires InWindow(c, most, t0, now) && now <= at && most.refillRate >= 0.0
    ensures InWindow(StepClient(c, Act(Cleanup(at))), most, t0, at)
  {
    hide Gain, Times, Quota;
    var t := c.tally;
    var since := if t.bucket.Some? then t.bucket.value.lastAccess else now;
    QuotaGrows(most, t.evictions, since - t0, at - t0);
    QuotaGrows(most, t.evictions, at - t0, at - t0);
    TimesNext(STALE_SECONDS, t.evictions);
  }

  /** A client that has just made a check is at the start of a window, whatever
      bucket the check found; and so is one that has made none. */
  lemma {:induction false} WindowStarts(cfg: Config, bucket: Option<Bucket>, cost: nat, most: Config, t0: real)
    requires Within(cfg, most) && (bucket.Some? ==> bucket.value.tokens >= 0.0)
    ensures InWindow(Client(Some(cfg), First(cfg, bucket, cost, t0)), most, t0, t0)
    ensures InWindow(Client(Some(cfg), Tally(None, 0, 0, 0.0)), most, t0, t0)
  {
    hide Gain, Times, WholeSeconds;
    GainZero(most.refillRate);
    TimesNext(most.capacity as real, 0);
    TimesNext(STALE_SECONDS, 0);
    RefillBounds(bucket, cfg, t0);
  }

  /** The window bound with registrations anywhere between the checks: that of the
      largest capacity and the fastest rate among them. */
  lemma {:induction false} RegisteredWindowBound(start: Client, events: seq<Event>, most: Config, t0: real)
    requires InWindow(start, most, t0, t0) && EventsOk(t0, events, most) && most.refillRate >= 0.0
    ensures var now := EventTime(t0, events);
            var c := RunClient(start, events);
            && InWindow(c, most, t0, now)
            && c.tally.allowed as real <= Quota(most, c.tally.evictions, now - t0)
            && c.tally.evictions <= ((now - t0) / STALE_SECONDS).Floor
  {
    hide Gain, Times, Quota;
    if events != [] {
      var n := |events| - 1;
      RegisteredWindowBound(start, events[..n], most, t0);
      var c, now := RunClient(start, events[..n]), EventTime(t0, events[..n]);
      match events[n]
      case Act(Check(cost, at)) =>
        if c.cfg.Some? {
          CheckInWindow(c, most, t0, now, cost, at);
        } else {
          LaterInWindow(c, most, t0, now, at);
        }
      case Act(Cleanup(at)) => CleanupInWindow(c, most, t0, now, at);
      case _ =>
    }
    InWindowIsBound(RunClient(start, events), most, t0, EventTime(t0, events));
  }

  lemma {:induction false} LaterInWindow(c: Client, most: Config, t0: real, now: real, at: real)
    requires InWindow(c, most, t0, now) && now <= at && most.refillRate >= 0.0
    ensures InWindow(c, most, t0, at)
  {
    hide Gain, Times, Quota;
    QuotaGrows(most, c.tally.evictions, now - t0, at - t0);
  }

  lemma {:induction false} InWindowIsBound(c: Client, most: Config, t0: real, now: real)
    requires InWindow(c, most, t0, now) && most.refillRate >= 0.0
    ensures c.tally.allowed as real <= Quota(most, c.tally.evictions, now - t0)
    ensures c.tally.evictions <= ((now - t0) / STALE_SECONDS).Floor
  {
    hide Gain, Quota;
    var t := c.tally;
    var since := if t.bucket.Some? then t.bucket.value.lastAccess else now;
    QuotaGrows(most, t.evictions, since - t0, now - t0);
    assert (t.evictions as real) <= (now - t0) / STALE_SECONDS;
  }

  /** A rate registered just before a check refills the time before it too: ten
      spent at a rate of none, ten seconds, and ten more. */
  lemma {:induction false} NewRateRefillsThePast()
    ensures var start := Client(Some(Config(10, 0.0)), Tally(None, 0, 0, 0.0));
            var spent := StepClient(start, Act(Check(10, 0.0)));
            && StepClient(spent, Act(Check(10, 10.0))).tally.allowed == 10
            && StepClient(StepClient(spent, Register(Config(10, 1.0))), Act(Check(10, 10.0))).tally.allowed == 20
  {
  }

  lemma {:induction false} WithinBound(cfg: Config, t: Tally, d: real)
    requires Bounded(cfg, t)
    requires cfg.refillRate >= 0.0 && t.forward <= d
    ensures t.allowed as real <= Quota(cfg, t.evictions, d)
  {
    hide Gain, Times;
    var cap := cfg.capacity as real;
    assert cap >= 0.0;
    TimesNext(cap, t.evictions);
    GainMonotone(cfg.refillRate, t.forward, d);
  }

  lemma WholeEvictions(evictions: nat, d: real)
    requires Times(STALE_SECONDS, evictions) <= d
    ensures evictions <= (d / STALE_SECONDS).Floor
  {
  }

  // ---- Samples out of order ----

  /** Checks at the sample times `ts`, with the given costs, from no bucket. */
  function Tallies(cfg: Config, ts: seq<real>, costs: seq<nat>, n: nat): Tally
    requires 1 <= n <= |ts| && n <= |costs|
  {
    if n == 1 then First(cfg, None, costs[0], ts[0])
    else StepTally(cfg, Tallies(cfg, ts, costs, n - 1), Check(costs[n - 1], ts[n - 1]))
  }

  /** How far the first `n` samples move forward, counting each move once. */
  function Forward(ts: seq<real>, n: nat): (f: real)
    requires 1 <= n <= |ts|
    ensures f >= 0.0
  {
    if n == 1 then 0.0 else Forward(ts, n - 1) + Elapsed(ts[n - 2], ts[n - 1])
  }

  /** The window bound over time `d`, for every config and all costs. */
  ghost predicate BoundHolds(ts: seq<real>, d: real)
    requires ts != []
  {
    forall cfg: Config, costs: seq<nat> :: cfg.refillRate >= 0.0 && |costs| == |ts| ==> WithinQuota(cfg, ts, costs, d)
  }

  predicate WithinQuota(cfg: Config, ts: seq<real>, costs: seq<nat>, d: real)
    requires 1 <= |ts| == |costs|
  {
    Tallies(cfg, ts, costs, |ts|).allowed as real <= Quota(cfg, 0, d)
  }

  lemma {:induction false} TalliesBounded(cfg: Config, ts: seq<real>, costs: seq<nat>, n: nat)
    requires 1 <= n <= |ts| && n <= |costs| && cfg.refillRate >= 0.0
    ensures var t := Tallies(cfg, ts, costs, n);
            && Bounded(cfg, t) && t.evictions == 0 && t.forward == Forward(ts, n)
            && t.bucket.Some? && t.bucket.value.lastRefill == ts[n - 1]
  {
    hide Bounded, WholeSeconds, Refill, Gain, Times;
    if n == 1 {
      FirstBounded(cfg, None, costs[0], ts[0]);
      SpendAnswer(cfg, None, costs[0], ts[0]);
    } else {
      var before := Tallies(cfg, ts, costs, n - 1);
      TalliesBounded(cfg, ts, costs, n - 1);
      CheckBounded(cfg, before, costs[n - 1], ts[n - 1]);
      SpendAnswer(cfg, before.bucket, costs[n - 1], ts[n - 1]);
    }
  }

  /** Costs that take every whole token there is at each sample. */
  function Greedy(cfg: Config, ts: seq<real>, n: nat): (costs: seq<nat>)
    requires 1 <= n <= |ts|
    ensures |costs| == n
  {
    if n == 1 then [cfg.capacity]
    else
      var before := Greedy(cfg, ts, n - 1);
      var tokens := Refill(Tallies(cfg, ts, before, n - 1).bucket, cfg, ts[n - 1]).tokens;
      before + [if tokens < 0.0 then 0 else tokens.Floor]
  }

  lemma {:induction false} TalliesPrefix(cfg: Config, ts: seq<real>, costs: seq<nat>, more: seq<nat>, n: nat)
    requires 1 <= n <= |ts| && n <= |costs|
    ensures Tallies(cfg, ts, costs + more, n) == Tallies(cfg, ts, costs, n)
  {
    hide Gain, Times;
    if n > 1 { TalliesPrefix(cfg, ts, costs, more, n - 1); }
  }

  lemma {:induction false} ForwardGrows(ts: seq<real>, m: nat, n: nat)
    requires 1 <= m <= n <= |ts|
    ensures Forward(ts, m) <= Forward(ts, n)
  {
    hide Gain, Times;
    if m < n { ForwardGrows(ts, m, n - 1); }
  }

  /** Spent as it comes, everything that refills is allowed, but for less than one
      token. */
  lemma {:induction false} GreedySpendsAll(cfg: Config, ts: seq<real>, n: nat)
    requires 1 <= n <= |ts| && cfg.refillRate >= 0.0
    requires 1.0 + Gain(cfg.refillRate, Forward(ts, |ts|)) <= cfg.capacity as real
    ensures var t := Tallies(cfg, ts, Greedy(cfg, ts, n), n);
            && t.bucket.Some? && 0.0 <= t.bucket.value.tokens < 1.0
            && t.allowed as real + t.bucket.value.tokens == cfg.capacity as real + Gain(cfg.refillRate, Forward(ts, n))
  {
    hide StepTally, Refill, Tallies, Greedy, Elapsed, Gain, Times;
    GreedyUnfolds(cfg, ts, n);
    if n == 1 {
      GreedyFirst(cfg, ts);
      NoForward(ts, cfg.refillRate);
    } else {
      GreedySpendsAll(cfg, ts, n - 1);
      TalliesBounded(cfg, ts, Greedy(cfg, ts, n - 1), n - 1);
      ForwardGrows(ts, n, |ts|);
      GreedyNext(cfg, Tallies(cfg, ts, Greedy(cfg, ts, n - 1), n - 1), ts[n - 1], Forward(ts, n - 1),
                 Forward(ts, |ts|));
    }
  }

  lemma NoForward(ts: seq<real>, rate: real)
    requires ts != []
    ensures Gain(rate, Forward(ts, 1)) == 0.0
  {
  }

  /** The greedy run's next step. */
  lemma {:induction false} GreedyUnfolds(cfg: Config, ts: seq<real>, n: nat)
    requires 1 <= n <= |ts|
    ensures n == 1 ==> Greedy(cfg, ts, n) == [cfg.capacity]
    ensures n > 1 ==>
              var before := Tallies(cfg, ts, Greedy(cfg, ts, n - 1), n - 1);
              var tokens := Refill(before.bucket, cfg, ts[n - 1]).tokens;
              tokens >= 0.0 ==>
                Tallies(cfg, ts, Greedy(cfg, ts, n), n) == StepTally(cfg, before, Check(tokens.Floor, ts[n - 1]))
  {
    hide StepTally, Refill, Gain, Times;
    if n > 1 {
      var costs, cost := Greedy(cfg, ts, n - 1), Greedy(cfg, ts, n)[n - 1];
      TalliesPrefix(cfg, ts, costs, [cost], n - 1);
      assert Greedy(cfg, ts, n) == costs + [cost];
    }
  }

  lemma {:induction false} GreedyFirst(cfg: Config, ts: seq<real>)
    requires ts != [] && cfg.refillRate >= 0.0
    ensures var t := Tallies(cfg, ts, [cfg.capacity], 1);
            t.bucket.Some? && t.bucket.value.tokens == 0.0 && t.allowed == cfg.capacity
  {
    hide WholeSeconds, Gain, Times;
    FullStaysFull(cfg, None, ts[0]);
  }

  lemma {:induction false} GreedyNext(cfg: Config, t: Tally, now: real, forward: real, most: real)
    requires cfg.refillRate >= 0.0 && t.bucket.Some? && 0.0 <= t.bucket.value.tokens < 1.0
    requires t.allowed as real + t.bucket.value.tokens == cfg.capacity as real + Gain(cfg.refillRate, forward)
    requires forward >= 0.0 && forward + Elapsed(t.bucket.value.lastRefill, now) <= most
    requires 1.0 + Gain(cfg.refillRate, most) <= cfg.capacity as real
    ensures var tokens := Refill(t.bucket, cfg, now).tokens;
            && tokens >= 0.0
            && var u := StepTally(cfg, t, Check(tokens.Floor, now));
               && u.bucket.Some? && 0.0 <= u.bucket.value.tokens < 1.0
               && u.allowed as real + u.bucket.value.tokens ==
                  cfg.capacity as real + Gain(cfg.refillRate, forward + Elapsed(t.bucket.value.lastRefill, now))
  {
    hide WholeSeconds, Gain, Times;
    var rate, moved := cfg.refillRate, Elapsed(t.bucket.value.lastRefill, now);
    GainNonnegative(rate, moved);
    GainMonotone(rate, moved, most);
    GainSum(rate, forward, moved);
    assert Refill(t.bucket, cfg, now).tokens == t.bucket.value.tokens + Gain(rate, moved);
  }

  /** A config that shows a time `d` shorter than the samples move forward. */
  function Showing(excess: real, forward: real): Config
    requires excess > 0.0 && forward >= 0.0
  {
    var rate := 1.0 / excess;
    var need := Ceil(1.0 + Gain(rate, forward));
    Config(if need < 0 then 0 else need, rate)
  }

  lemma {:induction false} ShowingShows(excess: real, forward: real)
    requires excess > 0.0 && forward >= 0.0
    ensures var cfg := Showing(excess, forward);
            && cfg.refillRate > 0.0 && Gain(cfg.refillRate, excess) == 1.0
            && 1.0 + Gain(cfg.refillRate, forward) <= cfg.capacity as real
  {
  }

  /** The bound over time `d` holds for every config and all costs exactly when the
      samples move forward by no more than `d` in all. */
  lemma {:induction false} BoundHoldsExactly(ts: seq<real>, d: real)
    requires ts != []
    ensures BoundHolds(ts, d) <==> Forward(ts, |ts|) <= d
  {
    hide Quota, Tallies, Bounded, Greedy, Showing, Gain, Times;
    var n, f := |ts|, Forward(ts, |ts|);
    if f <= d {
      forall cfg: Config, costs: seq<nat> | cfg.refillRate >= 0.0 && |costs| == n
        ensures WithinQuota(cfg, ts, costs, d)
      {
        TalliesBounded(cfg, ts, costs, n);
        WithinBound(cfg, Tallies(cfg, ts, costs, n), d);
      }
    } else {
      var cfg := Showing(f - d, f);
      ShowingShows(f - d, f);
      GreedySpendsAll(cfg, ts, n);
      Exceeds(cfg, Tallies(cfg, ts, Greedy(cfg, ts, n), n), f, d);
      assert !WithinQuota(cfg, ts, Greedy(cfg, ts, n), d);
    }
  }

  lemma {:induction false} Exceeds(cfg: Config, t: Tally, f: real, d: real)
    requires t.bucket.Some? && t.bucket.value.tokens < 1.0
    requires t.allowed as real + t.bucket.value.tokens == cfg.capacity as real + Gain(cfg.refillRate, f)
    requires Gain(cfg.refillRate, f - d) == 1.0
    ensures t.allowed as real > Quota(cfg, 0, d)
  {
    hide Gain, Times;
    GainSum(cfg.refillRate, d, f - d);
    TimesNext(cfg.capacity as real, 0);
    assert d + (f - d) == f;
  }

  /** No sample of the first `n` precedes an earlier one. */
  predicate Sorted(ts: seq<real>, n: nat)
    requires n <= |ts|
  {
    forall i, j :: 0 <= i < j < n ==> ts[i] <= ts[j]
  }

  /** Once a sample has gone back, none after it goes forward. */
  predicate NoRiseAfterFall(ts: seq<real>, n: nat)
    requires n <= |ts|
  {
    forall i, j, k :: 0 <= i < j < k < n && ts[j] < ts[i] ==> ts[k] <= ts[j]
  }

  function Latest(ts: seq<real>, n: nat): (t: real)
    requires 1 <= n <= |ts|
    ensures forall i :: 0 <= i < n ==> ts[i] <= t
    ensures exists i :: 0 <= i < n && ts[i] == t
  {
    if n == 1 then ts[0]
    else
      var t := Latest(ts, n - 1);
      if t < ts[n - 1] then ts[n - 1] else t
  }

  lemma {:induction false} ForwardWhenSorted(ts: seq<real>, n: nat)
    requires 1 <= n <= |ts|
    ensures Forward(ts, n) >= ts[n - 1] - ts[0]
    ensures Forward(ts, n) == ts[n - 1] - ts[0] <==> Sorted(ts, n)
  {
    hide Sorted, Gain, Times;
    if n > 1 {
      ForwardWhenSorted(ts, n - 1);
      SortedNext(ts, n);
    } else {
      SortedOne(ts);
    }
  }

  lemma SortedOne(ts: seq<real>)
    requires ts != []
    ensures Sorted(ts, 1) && NoRiseAfterFall(ts, 1)
  {
  }

  lemma {:induction false} SortedNext(ts: seq<real>, n: nat)
    requires 1 < n <= |ts|
    ensures Sorted(ts, n) <==> Sorted(ts, n - 1) && ts[n - 2] <= ts[n - 1]
  {
  }

  lemma {:induction false} ForwardWhenUp(ts: seq<real>, n: nat)
    requires 1 <= n <= |ts|
    ensures Forward(ts, n) >= Latest(ts, n) - ts[0]
    ensures Forward(ts, n) == Latest(ts, n) - ts[0] <==> NoRiseAfterFall(ts, n)
  {
    hide NoRiseAfterFall, Gain, Times;
    if n > 1 {
      ForwardWhenUp(ts, n - 1);
      RiseNext(ts, n);
    } else {
      SortedOne(ts);
    }
  }

  /** One more sample makes a rise after a fall just when it rises from below the
      latest one. */
  lemma {:induction false} RiseNext(ts: seq<real>, n: nat)
    requires 1 < n <= |ts|
    ensures NoRiseAfterFall(ts, n) <==>
            NoRiseAfterFall(ts, n - 1) && !(ts[n - 2] < Latest(ts, n - 1) && ts[n - 2] < ts[n - 1])
  {
    hide Latest, Gain, Times;
    if ts[n - 2] < Latest(ts, n - 1) && ts[n - 2] < ts[n - 1] {
      var top :| 0 <= top < n - 1 && ts[top] == Latest(ts, n - 1);
      assert top < n - 2 < n - 1 && ts[n - 2] < ts[top];
    } else if NoRiseAfterFall(ts, n - 1) {
      forall i, j, k | 0 <= i < j < k < n && ts[j] < ts[i]
        ensures ts[k] <= ts[j]
      {
        if k == n - 1 && j < n - 2 { assert ts[n - 2] <= ts[j]; }
      }
    }
  }

  /** Up to its last sample the window bound holds, for every config and all costs,
      exactly when no sample precedes an earlier one; and up to the latest sample,
      exactly when none that has gone back is followed by a later one. */
  lemma {:induction false} WindowBoundExactly(ts: seq<real>)
    requires ts != []
    ensures BoundHolds(ts, ts[|ts| - 1] - ts[0]) <==> Sorted(ts, |ts|)
    ensures BoundHolds(ts, Latest(ts, |ts|) - ts[0]) <==> NoRiseAfterFall(ts, |ts|)
  {
    hide BoundHolds, Gain, Times;
    BoundHoldsExactly(ts, ts[|ts| - 1] - ts[0]);
    BoundHoldsExactly(ts, Latest(ts, |ts|) - ts[0]);
    ForwardWhenSorted(ts, |ts|);
    ForwardWhenUp(ts, |ts|);
  }

  /** A run over the bound: a sample goes back to 0 and the two seconds after it
      refill twice. */
  lemma {:induction false} BackwardSampleOverruns()
    ensures var cfg, ts, costs := Config(2, 1.0), [0.0, 2.0, 0.0, 2.0], [2, 2, 0, 2];
            Tallies(cfg, ts, costs, 4).allowed == 6 && Quota(cfg, 0, 2.0) == 4.0
  {
    hide WholeSeconds;
    var cfg, ts, costs := Config(2, 1.0), [0.0, 2.0, 0.0, 2.0], [2, 2, 0, 2];
    var t1 := Tallies(cfg, ts, costs, 1);
    assert t1.allowed == 2 && t1.bucket == Some(Bucket(0.0, 2, 1.0, 0.0, 0.0));
    var t2 := Tallies(cfg, ts, costs, 2);
    assert t2.allowed == 4 && t2.bucket == Some(Bucket(0.0, 2, 1.0, 2.0, 2.0));
    var t3 := Tallies(cfg, ts, costs, 3);
    assert t3.allowed == 4 && t3.bucket == Some(Bucket(0.0, 2, 1.0, 0.0, 0.0));
  }

  // ---- Retry-After ----

  /** The bucket after the steps. */
  function RunBucket(cfg: Config, bucket: Option<Bucket>, steps: seq<Step>): Option<Bucket> {
    if steps == [] then bucket
    else
      var b := RunBucket(cfg, bucket, steps[..|steps| - 1]);
      match steps[|steps| - 1]
      case Check(cost, now) => Some(Spend(b, cfg, cost, now).0)
      case Cleanup(now) => Evict(b, now)
  }

  /** Every check among the steps is limited. */
  predicate AllLimited(cfg: Config, bucket: Option<Bucket>, steps: seq<Step>) {
    steps == [] ||
    (AllLimited(cfg, bucket, steps[..|steps| - 1]) &&
     match steps[|steps| - 1]
     case Check(cost, now) => Spend(RunBucket(cfg, bucket, steps[..|steps| - 1]), cfg, cost, now).1.Limited?
     case Cleanup(_) => true)
  }

  /** The tokens after waiting from `t0` to `t` with nothing spent. */
  function Waited(cfg: Config, tokens: real, t0: real, t: real): real {
    Min(tokens + Gain(cfg.refillRate, t - t0), cfg.capacity as real)
  }

  lemma {:induction false} WaitedOn(cfg: Config, tokens: real, t0: real, t: real, u: real)
    requires cfg.refillRate >= 0.0 && t0 <= t <= u
    ensures Min(Waited(cfg, tokens, t0, t) + Gain(cfg.refillRate, u - t), cfg.capacity as real)
            == Waited(cfg, tokens, t0, u)
  {
    hide Gain, Times;
    GainSum(cfg.refillRate, t - t0, u - t);
    GainNonnegative(cfg.refillRate, u - t);
    assert (t - t0) + (u - t) == u - t0;
  }

  lemma {:induction false} RefillWaits(cfg: Config, tokens: real, t0: real, c: Bucket, now: real)
    requires cfg.refillRate >= 0.0 && t0 <= c.lastRefill <= now && c.tokens == Waited(cfg, tokens, t0, c.lastRefill)
    ensures var r := Refill(Some(c), cfg, now); r.tokens == Waited(cfg, tokens, t0, now) && r.lastRefill == now
  {
    hide Waited, Gain, Times;
    WaitedOn(cfg, tokens, t0, c.lastRefill, now);
    assert Elapsed(c.lastRefill, now) == now - c.lastRefill;
  }

  /** Limited checks spend nothing: the bucket is as if left alone, unless it was
      evicted. */
  lemma {:induction false} LimitedOnlyWaits(cfg: Config, b: Bucket, steps: seq<Step>)
    requires cfg.refillRate >= 0.0 && b.tokens <= cfg.capacity as real
    requires InOrder(b.lastRefill, steps) && AllLimited(cfg, Some(b), steps)
    ensures var c := RunBucket(cfg, Some(b), steps);
            NoEviction(cfg, Some(b), steps) ==>
              && c.Some? && b.lastRefill <= c.value.lastRefill <= LastTime(b.lastRefill, steps)
              && c.value.tokens == Waited(cfg, b.tokens, b.lastRefill, c.value.lastRefill)
  {
    hide Waited, WholeSeconds, Refill, Gain, Times;
    WaitedNone(cfg, b);
    if steps != [] {
      var n := |steps| - 1;
      LimitedOnlyWaits(cfg, b, steps[..n]);
      assert steps[n].now >= LastTime(b.lastRefill, steps[..n]);
      var c := RunBucket(cfg, Some(b), steps[..n]);
      if NoEviction(cfg, Some(b), steps) {
        RefillWaits(cfg, b.tokens, b.lastRefill, c.value, steps[n].now);
      }
    }
  }

  lemma WaitedNone(cfg: Config, b: Bucket)
    requires b.tokens <= cfg.capacity as real
    ensures Waited(cfg, b.tokens, b.lastRefill, b.lastRefill) == b.tokens
  {
  }

  /** No cleanup among the steps finds the bucket stale. */
  predicate NoEviction(cfg: Config, bucket: Option<Bucket>, steps: seq<Step>) {
    steps == [] ||
    (NoEviction(cfg, bucket, steps[..|steps| - 1]) &&
     (steps[|steps| - 1].Cleanup? ==> !Stale(RunBucket(cfg, bucket, steps[..|steps| - 1]), steps[|steps| - 1].now)))
  }

  /** Once evicted, a bucket is full or missing for as long as checks are limited. */
  lemma {:induction false} EvictedIsFull(cfg: Config, bucket: Option<Bucket>, steps: seq<Step>)
    requires cfg.refillRate >= 0.0 && AllLimited(cfg, bucket, steps) && !NoEviction(cfg, bucket, steps)
    ensures var c := RunBucket(cfg, bucket, steps); c.Some? ==> c.value.tokens == cfg.capacity as real
  {
    hide WholeSeconds, Refill, Gain, Times;
    var n := |steps| - 1;
    if !NoEviction(cfg, bucket, steps[..n]) {
      EvictedIsFull(cfg, bucket, steps[..n]);
      var c := RunBucket(cfg, bucket, steps[..n]);
      FullStaysFull(cfg, c, steps[n].now);
    }
  }

  lemma {:induction false} FullStaysFull(cfg: Config, c: Option<Bucket>, now: real)
    requires cfg.refillRate >= 0.0 && (c.Some? ==> c.value.tokens == cfg.capacity as real)
    ensures Refill(c, cfg, now).tokens == cfg.capacity as real
  {
    hide Gain, Times;
    GainZero(cfg.refillRate);
    if c.Some? { GainNonnegative(cfg.refillRate, Elapsed(c.value.lastRefill, now)); }
  }

  /** The advertised wait is the least whole number of seconds that refills the
      deficit. */
  lemma {:induction false} WholeSecondsIsLeast(amount: real, rate: real, t: real)
    requires rate > 0.0 && amount > 0.0
    ensures var s := WholeSeconds(amount, rate);
            && s >= 1
            && (s < MAX_U64 && t >= s as real ==> Gain(rate, t) >= amount)
            && (t <= (s - 1) as real ==> Gain(rate, t) < amount)
  {
    var x := amount / rate;
    assert Gain(rate, x) == amount && x > 0.0;
    var s := WholeSeconds(amount, rate);
    assert (s - 1) as real < x && (s < MAX_U64 ==> x <= s as real);
    if t >= x { GainMonotone(rate, x, t); } else { GainMonotone(rate, t, x); }
  }

  lemma SpendAnswer(cfg: Config, bucket: Option<Bucket>, cost: nat, now: real)
    ensures var (b, answer), refilled := Spend(bucket, cfg, cost, now), Refill(bucket, cfg, now);
            && (answer.Allowed? <==> refilled.tokens >= cost as real)
            && (!answer.Allowed? ==>
                  && answer.Limited? && b == refilled
                  && answer.retryAfter == WholeSeconds(cost as real - b.tokens, cfg.refillRate))
    ensures var r := Refill(bucket, cfg, now); r.tokens <= cfg.capacity as real && r.lastRefill == now
  {
  }

  /** A limited client that waits as told is allowed, whatever limited checks and
      cleanups come between; and unless its bucket is evicted, not any whole
      second sooner. */
  lemma {:induction false} RetryAfterExact(cfg: Config, bucket: Option<Bucket>, cost: nat, now: real,
                                           steps: seq<Step>, later: real)
    requires cfg.refillRate > 0.0 && cost <= cfg.capacity
    requires Spend(bucket, cfg, cost, now).1.Limited?
    requires var b := Some(Spend(bucket, cfg, cost, now).0);
             InOrder(now, steps) && AllLimited(cfg, b, steps) && LastTime(now, steps) <= later
    ensures var (b, answer) := Spend(bucket, cfg, cost, now);
            var again := Spend(RunBucket(cfg, Some(b), steps), cfg, cost, later).1;
            && (answer.retryAfter < MAX_U64 && later >= now + answer.retryAfter as real ==> again.Allowed?)
            && (NoEviction(cfg, Some(b), steps) && later <= now + (answer.retryAfter - 1) as real ==> again.Limited?)
  {
    hide WholeSeconds, RunBucket, AllLimited, NoEviction, InOrder, Spend, Refill, Gain, Times;
    SpendAnswer(cfg, bucket, cost, now);
    SpendAnswer(cfg, RunBucket(cfg, Some(Spend(bucket, cfg, cost, now).0), steps), cost, later);
    var b := Spend(bucket, cfg, cost, now).0;
    var c := RunBucket(cfg, Some(b), steps);
    if NoEviction(cfg, Some(b), steps) {
      LimitedOnlyWaits(cfg, b, steps);
      RefillWaits(cfg, b.tokens, now, c.value, later);
      WholeSecondsIsLeast(cost as real - b.tokens, cfg.refillRate, later - now);
    } else {
      EvictedIsFull(cfg, Some(b), steps);
      FullStaysFull(cfg, c, later);
    }
  }

  // ---- The other numbers in an answer ----

  /** `remaining` is exact: what costs that much or less is allowed at once, and
      nothing dearer. */
  lemma {:induction false} RemainingIsExact(cfg: Config, bucket: Option<Bucket>, cost: nat, now: real, more: nat)
    requires cfg.refillRate >= 0.0 && Spend(bucket, cfg, cost, now).1.Allowed?
    ensures var (b, answer) := Spend(bucket, cfg, cost, now);
            Spend(Some(b), cfg, more, now).1.Allowed? <==> more <= answer.remaining
  {
    hide WholeSeconds, Gain, Times;
    var b := Spend(bucket, cfg, cost, now).0;
    GainZero(cfg.refillRate);
    assert Refill(Some(b), cfg, now).tokens == b.tokens;
  }

  /** The reset of an allowed check is the least whole number of seconds that
      fills the bucket as the check found it: what the check then spends is not
      in it. */
  lemma {:induction false} ResetLeavesOutTheSpend(cfg: Config, bucket: Option<Bucket>, cost: nat, now: real, t: real)
    requires cfg.refillRate > 0.0 && t >= 0.0 && Spend(bucket, cfg, cost, now).1.Allowed?
    ensures var (b, answer), found := Spend(bucket, cfg, cost, now), Refill(bucket, cfg, now);
            && (answer.resetIn < MAX_U64 && t >= answer.resetIn as real ==>
                  Waited(cfg, found.tokens, now, now + t) == cfg.capacity as real)
            && (t <= (answer.resetIn - 1) as real ==> Waited(cfg, found.tokens, now, now + t) < cfg.capacity as real)
            && (found.tokens == cfg.capacity as real && cost > 0 ==>
                  answer.resetIn == 0 && b.tokens < cfg.capacity as real)
  {
    hide WholeSeconds, Gain, Times;
    var found := Refill(bucket, cfg, now);
    var lack := cfg.capacity as real - found.tokens;
    GainNonnegative(cfg.refillRate, t);
    assert (now + t) - now == t;
    if lack > 0.0 { WholeSecondsIsLeast(lack, cfg.refillRate, t); }
  }

  /** A bucket of the config left alone is full again in a time that is counted. */
  predicate Refills(cfg: Config) {
    cfg.refillRate == 0.0 || (cfg.refillRate > 0.0 && WholeSeconds(cfg.capacity as real, cfg.refillRate) < MAX_U64)
  }

  /** `s` is the time in which a bucket with so many tokens, left alone, will be
      full: it is by then, and was not a whole second sooner. */
  predicate FullIn(cfg: Config, tokens: real, now: real, s: nat) {
    && Waited(cfg, tokens, now, now + s as real) == cfg.capacity as real
    && (s > 0 ==> Waited(cfg, tokens, now, now + (s - 1) as real) < cfg.capacity as real)
  }

  lemma {:induction false} LessIsSooner(cfg: Config, lack: real)
    requires cfg.refillRate > 0.0 && 0.0 < lack <= cfg.capacity as real
    ensures WholeSeconds(lack, cfg.refillRate) <= WholeSeconds(cfg.capacity as real, cfg.refillRate)
  {
    var s := WholeSeconds(lack, cfg.refillRate);
    var all := WholeSeconds(cfg.capacity as real, cfg.refillRate);
    if all < s {
      WholeSecondsIsLeast(cfg.capacity as real, cfg.refillRate, all as real);
      WholeSecondsIsLeast(lack, cfg.refillRate, all as real);
    }
  }

  lemma WaitedIs(cfg: Config, tokens: real, now: real, s: nat)
    ensures Waited(cfg, tokens, now, now + s as real) ==
            Min(tokens + Gain(cfg.refillRate, s as real), cfg.capacity as real)
  {
    assert now + s as real - now == s as real;
  }

  /** The one right time is the whole seconds that what is lacking takes. */
  lemma {:induction false} FullInExactly(cfg: Config, tokens: real, now: real, s: nat)
    requires Refills(cfg) && 0.0 <= tokens <= cfg.capacity as real
    ensures FullIn(cfg, tokens, now, s) <==>
            && s == WholeSeconds(cfg.capacity as real - tokens, cfg.refillRate)
            && (cfg.refillRate > 0.0 || tokens == cfg.capacity as real)
  {
    hide Gain, Times, Waited, WholeSeconds;
    var lack := cfg.capacity as real - tokens;
    WaitedIs(cfg, tokens, now, s);
    if s > 0 { WaitedIs(cfg, tokens, now, s - 1); }
    if cfg.refillRate == 0.0 {
      GainNothing(s as real);
      if s > 0 { GainNothing((s - 1) as real); }
      NothingLacking(0.0);
    } else if lack == 0.0 {
      NothingLacking(cfg.refillRate);
      GainNonnegative(cfg.refillRate, s as real);
      if s > 0 { GainNonnegative(cfg.refillRate, (s - 1) as real); }
    } else {
      LessIsSooner(cfg, lack);
      WholeSecondsIsLeast(lack, cfg.refillRate, s as real);
      if s > 0 { WholeSecondsIsLeast(lack, cfg.refillRate, (s - 1) as real); }
    }
  }

  lemma GainNothing(t: real)
    ensures Gain(0.0, t) == 0.0
  {
  }

  lemma NothingLacking(rate: real)
    requires rate >= 0.0
    ensures WholeSeconds(0.0, rate) == 0
  {
  }

  /** The header says when the bucket will be full. After an allowed check it is
      right exactly when the spend takes no further second to refill. */
  lemma {:induction false} AllowedResetExactly(cfg: Config, bucket: Option<Bucket>, cost: nat, now: real)
    requires Refills(cfg) && (bucket.Some? ==> bucket.value.tokens >= 0.0)
    requires Spend(bucket, cfg, cost, now).1.Allowed?
    ensures var (b, answer), found := Spend(bucket, cfg, cost, now), Refill(bucket, cfg, now);
            var lack := cfg.capacity as real - found.tokens;
            FullIn(cfg, b.tokens, now, answer.resetIn) <==>
            if cfg.refillRate == 0.0 then lack == 0.0 && cost == 0
            else WholeSeconds(lack + cost as real, cfg.refillRate) == WholeSeconds(lack, cfg.refillRate)
  {
    hide WholeSeconds, Gain, Times, FullIn, Refill;
    RefillBounds(bucket, cfg, now);
    NothingLacking(cfg.refillRate);
    var (b, answer) := Spend(bucket, cfg, cost, now);
    FullInExactly(cfg, b.tokens, now, answer.resetIn);
    assert cfg.capacity as real - b.tokens == cfg.capacity as real - Refill(bucket, cfg, now).tokens + cost as real;
  }

  lemma RefillBounds(bucket: Option<Bucket>, cfg: Config, now: real)
    requires cfg.refillRate >= 0.0 && (bucket.Some? ==> bucket.value.tokens >= 0.0)
    ensures 0.0 <= Refill(bucket, cfg, now).tokens <= cfg.capacity as real
  {
    hide Gain;
    GainZero(cfg.refillRate);
    if bucket.Some? { GainNonnegative(cfg.refillRate, Elapsed(bucket.value.lastRefill, now)); }
  }

  /** After a limited one it is what an empty bucket takes: the bucket is full by
      then, and it is right exactly when what there is saves no second. */
  lemma {:induction false} LimitedResetExactly(cfg: Config, bucket: Option<Bucket>, cost: nat, now: real)
    requires Refills(cfg) && (bucket.Some? ==> bucket.value.tokens >= 0.0)
    requires Spend(bucket, cfg, cost, now).1.Limited?
    ensures var (b, answer), cap := Spend(bucket, cfg, cost, now), cfg.capacity as real;
            && (cfg.refillRate > 0.0 ==> Waited(cfg, b.tokens, now, now + answer.resetIn as real) == cap)
            && (FullIn(cfg, b.tokens, now, answer.resetIn) <==>
                && WholeSeconds(cap - b.tokens, cfg.refillRate) == WholeSeconds(cap, cfg.refillRate)
                && (cfg.refillRate > 0.0 || b.tokens == cap))
  {
    hide WholeSeconds, Gain, Times, FullIn, Refill;
    RefillBounds(bucket, cfg, now);
    var (b, answer) := Spend(bucket, cfg, cost, now);
    FullInExactly(cfg, b.tokens, now, answer.resetIn);
    WaitedIs(cfg, b.tokens, now, answer.resetIn);
    if cfg.refillRate > 0.0 {
      if cfg.capacity > 0 {
        WholeSecondsIsLeast(cfg.capacity as real, cfg.refillRate, answer.resetIn as real);
      } else {
        GainNonnegative(cfg.refillRate, answer.resetIn as real);
      }
    }
  }

  /** Five tokens of ten, and six asked for: told ten seconds, the bucket is full
      in five. */
  lemma {:induction false} LimitedResetIsLate(now: real)
    ensures var cfg := Config(10, 1.0);
            var (b, answer) := Spend(Some(Bucket(5.0, 10, 1.0, now, now)), cfg, 6, now);
            answer.Limited? && answer.resetIn == 10 && FullIn(cfg, b.tokens, now, 5)
  {
    var cfg := Config(10, 1.0);
    assert Refill(Some(Bucket(5.0, 10, 1.0, now, now)), cfg, now).tokens == 5.0;
    assert WholeSeconds(10.0, 1.0) == 10;
    WaitedIs(cfg, 5.0, now, 5);
    WaitedIs(cfg, 5.0, now, 4);
  }

  // ---- When eviction cannot be seen ----

  /** The answers of the checks among the steps, with cleanup or without. */
  function Answers(cfg: Config, bucket: Option<Bucket>, steps: seq<Step>, cleanup: bool)
    : (Option<Bucket>, seq<Answer>)
  {
    if steps == [] then (bucket, [])
    else
      var (b, answers) := Answers(cfg, bucket, steps[..|steps| - 1], cleanup);
      match steps[|steps| - 1]
      case Check(cost, now) => var (c, a) := Spend(b, cfg, cost, now); (Some(c), answers + [a])
      case Cleanup(now) => (if cleanup then Evict(b, now) else b, answers)
  }

  /** The two buckets at time `t`: the same, or the evicted one's other is full
      again by then. */
  ghost predicate Agree(cfg: Config, evicted: Option<Bucket>, kept: Option<Bucket>, t: real) {
    && (kept.Some? ==> kept.value.tokens >= 0.0 && kept.value.lastRefill == kept.value.lastAccess)
    && (evicted == kept ||
        (evicted.None? && kept.Some? && STALE_SECONDS <= t - kept.value.lastRefill))
  }

  lemma {:induction false} RefilledInTime(cfg: Config, b: Bucket, now: real)
    requires cfg.refillRate >= 0.0 && Gain(cfg.refillRate, STALE_SECONDS) >= cfg.capacity as real
    requires b.tokens >= 0.0 && STALE_SECONDS <= now - b.lastRefill
    ensures Refill(Some(b), cfg, now) == Refill(None, cfg, now)
  {
    hide Gain, Times;
    GainZero(cfg.refillRate);
    GainMonotone(cfg.refillRate, STALE_SECONDS, now - b.lastRefill);
    assert Elapsed(b.lastRefill, now) == now - b.lastRefill;
  }

  lemma {:induction false} SpendKeeps(cfg: Config, bucket: Option<Bucket>, cost: nat, now: real)
    requires cfg.refillRate >= 0.0 && (bucket.Some? ==> bucket.value.tokens >= 0.0)
    ensures var b := Spend(bucket, cfg, cost, now).0; b.tokens >= 0.0 && b.lastRefill == b.lastAccess == now
  {
    hide Gain, Times;
    GainZero(cfg.refillRate);
    if bucket.Some? { GainNonnegative(cfg.refillRate, Elapsed(bucket.value.lastRefill, now)); }
  }

  lemma {:induction false} AnswersAgree(cfg: Config, steps: seq<Step>, t0: real)
    requires cfg.refillRate >= 0.0 && Gain(cfg.refillRate, STALE_SECONDS) >= cfg.capacity as real && InOrder(t0, steps)
    ensures var (b, with), (c, without) := Answers(cfg, None, steps, true), Answers(cfg, None, steps, false);
            with == without && Agree(cfg, b, c, LastTime(t0, steps))
  {
    hide WholeSeconds, Refill, Gain, Times;
    if steps != [] {
      var n := |steps| - 1;
      AnswersAgree(cfg, steps[..n], t0);
      var b, c := Answers(cfg, None, steps[..n], true).0, Answers(cfg, None, steps[..n], false).0;
      assert steps[n].now >= LastTime(t0, steps[..n]);
      match steps[n]
      case Cleanup(now) =>
      case Check(cost, now) =>
        SpendKeeps(cfg, c, cost, now);
        if b != c { RefilledInTime(cfg, c.value, now); }
    }
  }

  /** A client that empties its bucket and comes back as it is evicted. */
  function ComesBack(cfg: Config): seq<Step> {
    [Check(cfg.capacity, 0.0)] + [Cleanup(STALE_SECONDS)] + [Check(cfg.capacity, STALE_SECONDS)]
  }

  lemma {:induction false} AnswersOn(cfg: Config, steps: seq<Step>, step: Step, cleanup: bool)
    ensures var (b, answers) := Answers(cfg, None, steps, cleanup);
            Answers(cfg, None, steps + [step], cleanup) ==
            match step
            case Check(cost, now) => var (c, a) := Spend(b, cfg, cost, now); (Some(c), answers + [a])
            case Cleanup(now) => (if cleanup then Evict(b, now) else b, answers)
  {
    hide Gain, Times;
    assert (steps + [step])[..|steps|] == steps;
  }

  lemma {:induction false} EvictionShows(cfg: Config, cleanup: bool)
    requires cfg.refillRate >= 0.0 && Gain(cfg.refillRate, STALE_SECONDS) < cfg.capacity as real
    ensures var answers := Answers(cfg, None, ComesBack(cfg), cleanup).1;
            |answers| == 2 && (answers[1].Allowed? <==> cleanup)
  {
    hide WholeSeconds, Answers;
    var first := [Check(cfg.capacity, 0.0)];
    FirstAnswer(cfg, cleanup);
    AnswersOn(cfg, first, Cleanup(STALE_SECONDS), cleanup);
    AnswersOn(cfg, first + [Cleanup(STALE_SECONDS)], Check(cfg.capacity, STALE_SECONDS), cleanup);
  }

  lemma {:induction false} FirstAnswer(cfg: Config, cleanup: bool)
    requires cfg.refillRate >= 0.0
    ensures var (b, answers) := Answers(cfg, None, [Check(cfg.capacity, 0.0)], cleanup);
            |answers| == 1 && b == Some(Bucket(0.0, cfg.capacity, cfg.refillRate, 0.0, 0.0))
  {
    AnswersOn(cfg, [], Check(cfg.capacity, 0.0), cleanup);
    assert [] + [Check(cfg.capacity, 0.0)] == [Check(cfg.capacity, 0.0)];
  }

  /** Cleanup never shows in an answer, in any run with samples in order, exactly
      when a bucket refills within the time it takes to go stale. */
  lemma {:induction false} EvictionInvisibleExactly(cfg: Config)
    requires cfg.refillRate >= 0.0
    ensures (forall steps, t0 :: InOrder(t0, steps) ==>
               Answers(cfg, None, steps, true).1 == Answers(cfg, None, steps, false).1)
            <==> Gain(cfg.refillRate, STALE_SECONDS) >= cfg.capacity as real
  {
    hide Gain, Times;
    if Gain(cfg.refillRate, STALE_SECONDS) >= cfg.capacity as real {
      forall steps, t0 | InOrder(t0, steps)
        ensures Answers(cfg, None, steps, true).1 == Answers(cfg, None, steps, false).1
      {
        AnswersAgree(cfg, steps, t0);
      }
    } else {
      EvictionShows(cfg, true);
      EvictionShows(cfg, false);
      assert InOrder(0.0, ComesBack(cfg));
    }
  }
}
