/** The sweep of expired labels: batches deleted against one cutoff while the
    stream goes on delivering labels. */
module LabelSweep {
  import opened Wrappers
  import opened BatchedDelete
  import opened SqlText
  import opened LabelExpiry

  const EXPIRY_BATCH_SIZE: nat := 5000

  /** The label table's expiries, by the label's key. */
  type Expiries = map<int, Option<string>>

  datatype Delivery = Put(key: int, exp: Option<string>) | Remove(key: int)

  /** What happens around a sweep. `steps[t]` is delivered just before its `t`-th
      batch, and `faults` are the batches that fail. */
  datatype Env = Env(steps: seq<seq<Delivery>>, faults: set<nat>)

  /** What happened to the table: labels delivered, or a batch collected. */
  datatype Entry = Delivered(labels: seq<Delivery>) | Collected(keys: set<int>)

  function Apply(t: Expiries, d: Delivery): Expiries {
    match d
    case Put(key, exp) => t[key := exp]
    case Remove(key) => t - {key}
  }

  function ApplyAll(t: Expiries, labels: seq<Delivery>): Expiries {
    if labels == [] then t else Apply(ApplyAll(t, labels[..|labels| - 1]), labels[|labels| - 1])
  }

  function Step(t: Expiries, entry: Entry): Expiries {
    match entry
    case Delivered(labels) => ApplyAll(t, labels)
    case Collected(keys) => Without(t, keys)
  }

  function Without(t: Expiries, keys: set<int>): Expiries { t - keys }

  function Replay(t: Expiries, log: seq<Entry>): Expiries {
    if log == [] then t else Step(Replay(t, log[..|log| - 1]), log[|log| - 1])
  }

  /** The labels whose expiry the sweep takes. */
  function ExpiredIn(fold: bool, t: Expiries, cutoff: string): set<int> {
    set k | k in t && Expired(fold, t[k], cutoff)
  }

  /** Each batch collected only labels that were expired as they stood. */
  predicate Lawful(fold: bool, cutoff: string, t: Expiries, log: seq<Entry>) {
    log == [] ||
    var n := |log| - 1;
    Lawful(fold, cutoff, t, log[..n]) &&
    (log[n].Collected? ==> log[n].keys <= ExpiredIn(fold, Replay(t, log[..n]), cutoff))
  }

  function Count(log: seq<Entry>): nat {
    if log == [] then 0
    else Count(log[..|log| - 1]) + if log[|log| - 1].Collected? then |log[|log| - 1].keys| else 0
  }

  lemma {:induction false} LogNext(fold: bool, cutoff: string, t: Expiries, log: seq<Entry>, entry: Entry)
    requires Lawful(fold, cutoff, t, log)
    requires entry.Collected? ==> entry.keys <= ExpiredIn(fold, Replay(t, log), cutoff)
    ensures var all := log + [entry];
            && Lawful(fold, cutoff, t, all) && Replay(t, all) == Step(Replay(t, log), entry)
            && Count(all) == Count(log) + if entry.Collected? then |entry.keys| else 0
  {
    assert (log + [entry])[..|log|] == log;
  }

  /** At entry `j` a batch took label `k`, expired as it stood. */
  ghost predicate TakenAt(fold: bool, cutoff: string, t: Expiries, log: seq<Entry>, j: nat, k: int) {
    && j < |log| && log[j].Collected? && k in log[j].keys
    && var was := Replay(t, log[..j]); k in was && Due(fold, was[k], cutoff)
  }

  /** An expiry that is in a UTC form and, as text, before the cutoff. */
  ghost predicate Due(fold: bool, exp: Option<string>, cutoff: string) {
    exp.Some? && UtcForm(fold, exp.value) && Less(exp.value, cutoff)
  }

  lemma ExpiredIsDue(fold: bool, exp: Option<string>, cutoff: string)
    ensures Expired(fold, exp, cutoff) <==> Due(fold, exp, cutoff)
  {
    hide Swept, UtcForm;
    if exp.Some? { SweptExactly(fold, exp.value); }
  }

  ghost predicate NoneDue(fold: bool, t: Expiries, cutoff: string) {
    forall k :: k in t ==> !Due(fold, t[k], cutoff)
  }

  lemma {:induction false} NoneDueExactly(fold: bool, t: Expiries, cutoff: string)
    ensures NoneDue(fold, t, cutoff) <==> ExpiredIn(fold, t, cutoff) == {}
  {
    hide Expired, Due;
    forall k | k in t
      ensures k in ExpiredIn(fold, t, cutoff) <==> Due(fold, t[k], cutoff)
    {
      ExpiredIsDue(fold, t[k], cutoff);
    }
    if NoneDue(fold, t, cutoff) { assert forall k :: k !in ExpiredIn(fold, t, cutoff); }
  }

  /** In time: of the UTC expiries strictly before the cutoff, only a `Z` one in the
      cutoff's own second, whose digits the cutoff's go on from, can be left; and
      what is due is not after it. */
  lemma {:induction false} DueInTime(leaps: nat -> nat, fold: bool, exp: Stamp, cutoff: Stamp)
    requires LeapSeconds(leaps) && Valid(leaps, exp) && Valid(leaps, cutoff) && !cutoff.zulu
    ensures Due(fold, Some(Text(exp)), Text(cutoff)) ==> Instant(leaps, exp) <= Instant(leaps, cutoff)
    ensures Instant(leaps, exp) < Instant(leaps, cutoff) ==>
              (Due(fold, Some(Text(exp)), Text(cutoff)) <==>
               !(exp.zulu && SameSecond(exp, cutoff) && exp.fraction <= cutoff.fraction))
  {
    hide Due, Expired, Text, Instant;
    ExpiredIsDue(fold, Some(Text(exp)), Text(cutoff));
    DueIsBefore(fold, Text(exp), Text(cutoff));
    SweptIsPast(leaps, exp, cutoff);
    if Instant(leaps, exp) < Instant(leaps, cutoff) { PastIsSwept(leaps, fold, exp, cutoff); }
  }

  lemma DueIsBefore(fold: bool, exp: string, cutoff: string)
    ensures Due(fold, Some(exp), cutoff) ==> Less(exp, cutoff)
  {
  }

  ghost predicate RemovedAt(log: seq<Entry>, j: nat, k: int) {
    j < |log| && log[j].Delivered? && Remove(k) in log[j].labels
  }

  lemma {:induction false} DeliveryFate(t: Expiries, labels: seq<Delivery>, k: int)
    requires k in t && Remove(k) !in labels
    ensures k in ApplyAll(t, labels)
  {
    if labels != [] { DeliveryFate(t, labels[..|labels| - 1], k); }
  }

  /** A label that is gone was taken as expired, or negated by a delivery. */
  lemma {:induction false} LabelFate(fold: bool, cutoff: string, t: Expiries, log: seq<Entry>, k: int)
    requires Lawful(fold, cutoff, t, log) && k in t
    ensures k in Replay(t, log) || exists j: nat :: TakenAt(fold, cutoff, t, log, j, k) || RemovedAt(log, j, k)
  {
    hide Expired, Due;
    if log != [] {
      var n := |log| - 1;
      var before := log[..n];
      LabelFate(fold, cutoff, t, before, k);
      if j: nat :| TakenAt(fold, cutoff, t, before, j, k) || RemovedAt(before, j, k) {
        assert before[..j] == log[..j] && before[j] == log[j];
        assert TakenAt(fold, cutoff, t, log, j, k) || RemovedAt(log, j, k);
      } else {
        LastFate(fold, cutoff, t, log, k);
      }
    }
  }

  lemma {:induction false} LastFate(fold: bool, cutoff: string, t: Expiries, log: seq<Entry>, k: int)
    requires log != [] && Lawful(fold, cutoff, t, log) && k in Replay(t, log[..|log| - 1])
    ensures var n := |log| - 1;
            k in Replay(t, log) || TakenAt(fold, cutoff, t, log, n, k) || RemovedAt(log, n, k)
  {
    hide Expired, Due;
    var n := |log| - 1;
    var was := Replay(t, log[..n]);
    match log[n]
    case Delivered(labels) => if Remove(k) !in labels { DeliveryFate(was, labels, k); }
    case Collected(keys) =>
      if k in keys {
        assert k in ExpiredIn(fold, was, cutoff);
        ExpiredIsDue(fold, was[k], cutoff);
      }
  }

  class LabelTable {
    var expiries: Expiries
    /** Whether LIKE folds case. */
    const fold: bool

    /** One batch: up to so many of the expired labels, of the database's choosing. */
    method DeleteBatch(cutoff: string) returns (affected: nat, ghost keys: set<int>)
      modifies this
      ensures keys <= ExpiredIn(fold, old(expiries), cutoff) && affected == |keys| <= EXPIRY_BATCH_SIZE
      ensures affected < EXPIRY_BATCH_SIZE ==> keys == ExpiredIn(fold, old(expiries), cutoff)
      ensures expiries == Without(old(expiries), keys)
    {
      hide Expired;
      var selected := set k | k in expiries && Expired(fold, expiries[k], cutoff);
      affected := if |selected| < EXPIRY_BATCH_SIZE then |selected| else EXPIRY_BATCH_SIZE;
      ghost var some := SomeOf(selected, affected);
      var taken :| taken <= selected && |taken| == affected;
      if affected < EXPIRY_BATCH_SIZE { AllOfThem(taken, selected); }
      keys := taken;
      expiries := Without(expiries, taken);
    }

    /** One turn of the sweep: labels are delivered, then a batch is deleted, or
        fails. `log` is the sweep's history so far, from table `t`. */
    method SweepOnce(cutoff: string, env: Env, clock: nat, ghost t: Expiries, ghost log: seq<Entry>)
      returns (affected: nat, failed: bool, ghost keys: set<int>, ghost after: seq<Entry>)
      requires expiries == Replay(t, log) && Lawful(fold, cutoff, t, log)
      modifies this
      ensures expiries == Replay(t, after) && Lawful(fold, cutoff, t, after)
      ensures failed == (clock in env.faults) && affected == |keys| <= EXPIRY_BATCH_SIZE
      ensures Count(after) == Count(log) + affected
      ensures !failed && affected < EXPIRY_BATCH_SIZE ==> ExpiredIn(fold, expiries, cutoff) == {}
      ensures clock >= |env.steps| ==>
                && keys <= ExpiredIn(fold, old(expiries), cutoff) && expiries == Without(old(expiries), keys)
                && ExpiredIn(fold, expiries, cutoff) == ExpiredIn(fold, old(expiries), cutoff) - keys
                && if keys == {} then expiries == old(expiries) else |expiries| < |old(expiries)|
    {
      hide ExpiredIn, Lawful, Replay, ApplyAll, Count, Without;
      after, affected, keys := log, 0, {};
      NoneTaken(expiries);
      if clock < |env.steps| {
        LogNext(fold, cutoff, t, after, Delivered(env.steps[clock]));
        expiries := ApplyAll(expiries, env.steps[clock]);
        after := after + [Delivered(env.steps[clock])];
      }
      failed := clock in env.faults;
      if failed {
        return;
      }
      ghost var was := expiries;
      affected, keys := DeleteBatch(cutoff);
      LogNext(fold, cutoff, t, after, Collected(keys));
      BatchTaken(fold, was, cutoff, keys);
      after := after + [Collected(keys)];
    }

    /** `delete_expired_labels`, against one cutoff for the whole sweep. A short batch
        ends it, though labels past the cutoff may be delivered as it goes. A batch
        that fails ends it too, and what earlier ones deleted stays deleted. */
    method DeleteExpired(cutoff: string, env: Env) returns (deleted: Option<nat>, ghost log: seq<Entry>)
      modifies this
      ensures expiries == Replay(old(expiries), log) && Lawful(fold, cutoff, old(expiries), log)
      ensures deleted.Some? ==>
                && ExpiredIn(fold, expiries, cutoff) == {} && NoneDue(fold, expiries, cutoff)
                && deleted.value == Count(log)
      ensures deleted.None? ==> env.faults != {}
      // With nothing delivered, it is one delete of everything expired.
      ensures env == Env([], {}) ==>
                && expiries == Without(old(expiries), ExpiredIn(fold, old(expiries), cutoff))
                && deleted == Some(|ExpiredIn(fold, old(expiries), cutoff)|)
    {
      hide ExpiredIn, Lawful, Replay, Count, Without, NoneDue;
      log := [];
      LogStart(fold, cutoff, expiries);
      NoneTaken(expiries);
      var clock, count, affected: nat := 0, 0, EXPIRY_BATCH_SIZE;
      ghost var quiet, first, taken := env == Env([], {}), ExpiredIn(fold, expiries, cutoff), {};
      while affected == EXPIRY_BATCH_SIZE
        invariant affected <= EXPIRY_BATCH_SIZE && count == Count(log)
        invariant expiries == Replay(old(expiries), log) && Lawful(fold, cutoff, old(expiries), log)
        invariant affected < EXPIRY_BATCH_SIZE ==> ExpiredIn(fold, expiries, cutoff) == {}
        invariant quiet ==> expiries == Without(old(expiries), taken) && taken <= first && count == |taken|
        invariant quiet ==> ExpiredIn(fold, expiries, cutoff) == first - taken
        decreases if clock < |env.steps| then |env.steps| - clock else 0, |expiries|, affected
      {
        var failed;
        ghost var keys;
        affected, failed, keys, log := SweepOnce(cutoff, env, clock, old(expiries), log);
        if failed {
          return None, log;
        }
        clock, count := clock + 1, count + affected;
        if quiet {
          WithoutBoth(old(expiries), taken, keys);
          taken := taken + keys;
        }
      }
      deleted := Some(count);
      NoneDueExactly(fold, expiries, cutoff);
      assert quiet ==> taken == first;
    }
  }

  lemma LogStart(fold: bool, cutoff: string, t: Expiries)
    ensures Replay(t, []) == t && Lawful(fold, cutoff, t, []) && Count([]) == 0
  {
  }

  lemma NoneTaken(t: Expiries)
    ensures Without(t, {}) == t
  {
  }

  lemma WithoutBoth(t: Expiries, a: set<int>, b: set<int>)
    ensures Without(Without(t, a), b) == Without(t, a + b)
  {
    assert t - a - b == t - (a + b);
  }

  /** What is left to collect after a batch, and that the table shrinks with it. */
  lemma {:induction false} BatchTaken(fold: bool, t: Expiries, cutoff: string, keys: set<int>)
    requires keys <= ExpiredIn(fold, t, cutoff)
    ensures ExpiredIn(fold, Without(t, keys), cutoff) == ExpiredIn(fold, t, cutoff) - keys
    ensures if keys == {} then Without(t, keys) == t else |Without(t, keys)| < |t|
  {
    hide Expired;
    var u := Without(t, keys);
    assert u.Keys == t.Keys - keys && keys <= t.Keys;
    assert |u.Keys| == |t.Keys| - |keys|;
  }
}
