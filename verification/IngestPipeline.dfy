/** The batch loop itself: hooks ahead of the writes, runs flushed where they
    end, and a failed write cutting the batch back. */
module IngestPipeline {
  import opened Wrappers
  import opened RecordWrites
  import opened IngestBatch

  /** The keys `write_network` reports as inserted or changed. */
  function ChangedKeys(db: Db, recs: seq<Prepared>): set<RecordKey> {
    set q | 0 <= q < |recs| && IsLast(recs, q) && Changes(db, recs[q]) :: recs[q].key
  }

  /** Each entry has a slot of its own, in order. */
  ghost predicate Slotted(run: seq<RunEntry>, slots: nat) {
    && (forall q :: 0 <= q < |run| ==> run[q].slot < slots)
    && Ordered(run)
  }

  /** A record is flagged as changed once, on its last copy, when its write
      inserted or changed the row. */
  ghost predicate Flagged(db: Db, run: seq<RunEntry>, before: seq<bool>, after: seq<bool>, from: nat)
    requires |before| == |after| && from <= |run| && forall q :: 0 <= q < |run| ==> run[q].slot < |before|
  {
    var recs := Recs(run);
    && (forall q :: from <= q < |run| ==>
          after[run[q].slot] == (before[run[q].slot] || (IsLast(recs, q) && Changes(db, recs[q]))))
    && (forall s :: 0 <= s < |before| && (forall q :: from <= q < |run| ==> run[q].slot != s) ==> after[s] == before[s])
  }

  /** The keys of `all` that no entry from `from` on has. */
  ghost predicate Left(left: set<RecordKey>, all: set<RecordKey>, recs: seq<Prepared>, from: nat) {
    forall k :: k in left <==> k in all && forall q :: from <= q < |recs| ==> recs[q].key != k
  }

  /** The keys left name, at each entry, just the records that changed with it. */
  lemma {:induction false} LeftAt(db: Db, recs: seq<Prepared>, left: set<RecordKey>, q: nat)
    requires q < |recs| && Left(left, ChangedKeys(db, recs), recs, q + 1)
    ensures recs[q].key in left <==> IsLast(recs, q) && Changes(db, recs[q])
    ensures Left(left - {recs[q].key}, ChangedKeys(db, recs), recs, q)
  {
    if recs[q].key in left {
      var s :| 0 <= s < |recs| && IsLast(recs, s) && Changes(db, recs[s]) && recs[s].key == recs[q].key;
      assert s <= q;
    }
  }

  method FlagChanged(db: Db, run: seq<RunEntry>, before: seq<bool>) returns (after: seq<bool>)
    requires Slotted(run, |before|)
    ensures |after| == |before| && Flagged(db, run, before, after, 0)
  {
    hide Left, IsLast, Changes, ChangedKeys;
    var recs := Recs(run);
    var left := ChangedKeys(db, recs);
    NoneLeft(left, recs);
    after := before;
    var q := |run|;
    while q > 0
      invariant 0 <= q <= |run| && |after| == |before|
      invariant Left(left, ChangedKeys(db, recs), recs, q)
      invariant Flagged(db, run, before, after, q)
    {
      q := q - 1;
      var key := run[q].rec.key;
      LeftAt(db, recs, left, q);
      assert key !in left ==> left - {key} == left;
      if key in left {
        after := after[run[q].slot := true];
        left := left - {key};
      }
    }
  }

  lemma NoneLeft(all: set<RecordKey>, recs: seq<Prepared>)
    ensures Left(all, all, recs, |recs|)
  {
  }

  // ---- Which hooks run at once ----

  /** What a claiming storage caps the batch at. */
  function StorageLimit(p: Pipeline, e: Event): Option<nat> {
    if e.Record? && p.external(e.ev.key.collection).Some? then p.external(e.ev.key.collection).value else None
  }

  /** Backfill records, no key twice, among the first `n`. */
  predicate Independent(events: seq<Event>, n: nat)
    requires n <= |events|
  {
    && (forall k :: 0 <= k < n ==> events[k].Record? && events[k].ev.origin.Backfill?)
    && (forall k, l :: 0 <= k < l < n ==> events[k].ev.key != events[l].ev.key)
  }

  /** The event's collection is claimed by a storage that takes `cap` at once. */
  predicate CappedAt(p: Pipeline, e: Event, cap: nat) {
    e.Record? && p.external(e.ev.key.collection) == Some(Some(cap))
  }

  /** `limit` is the least of the configured limit and those of the storages of
      the first `n` events, and at least one. */
  ghost predicate IsLimit(p: Pipeline, configured: nat, events: seq<Event>, n: nat, limit: nat)
    requires n <= |events|
  {
    && 1 <= limit <= configured
    && (forall k, cap: nat :: 0 <= k < n && CappedAt(p, events[k], cap) ==> limit <= Max(1, cap))
    && (limit == configured
        || exists k, cap: nat :: 0 <= k < n && CappedAt(p, events[k], cap) && limit == Max(1, cap))
  }

  /** `batch_concurrency`. */
  method BatchConcurrency(p: Pipeline, configured: nat, events: seq<Event>) returns (limit: nat)
    requires configured >= 1
    ensures limit > 1 ==> Independent(events, |events|)
    ensures Independent(events, |events|) ==> IsLimit(p, configured, events, |events|, limit)
    ensures !Independent(events, |events|) ==> limit == 1
  {
    if configured == 1 {
      return 1;
    }
    var keys: set<RecordKey> := {};
    limit := configured;
    for i := 0 to |events|
      invariant Independent(events, i) && IsLimit(p, configured, events, i, limit)
      invariant forall key :: key in keys <==> exists k :: 0 <= k < i && events[k].Record? && events[k].ev.key == key
    {
      if !events[i].Record? || !events[i].ev.origin.Backfill? || events[i].ev.key in keys {
        return 1;
      }
      keys := keys + {events[i].ev.key};
      var cap := StorageLimit(p, events[i]);
      if cap.Some? && cap.value < limit {
        limit := Max(1, cap.value);
      }
    }
  }

  /** Where the events to hook are, in order. */
  function Hookable(p: Pipeline, events: seq<Event>, n: nat): (waiting: seq<nat>)
    requires n <= |events|
    ensures forall k: nat :: k in waiting <==> k < n && InRun(p, events[k])
    ensures forall k: nat :: multiset(waiting)[k] <= 1
  {
    if n == 0 then [] else Hookable(p, events, n - 1) + if InRun(p, events[n - 1]) then [n - 1] else []
  }

  lemma Dropped<T>(s: seq<T>, j: nat)
    requires j < |s|
    ensures multiset(s[..j] + s[j + 1..]) == multiset(s) - multiset{s[j]}
  {
    assert s == s[..j] + [s[j]] + s[j + 1..];
  }

  lemma Taken<T>(s: seq<T>, n: nat)
    requires n < |s|
    ensures multiset(s[..n + 1]) == multiset(s[..n]) + multiset{s[n]}
  {
    assert s[..n + 1] == s[..n] + [s[n]];
  }

  lemma Prefix<T>(s: seq<T>, n: nat)
    requires n <= |s|
    ensures multiset(s[..n]) <= multiset(s)
  {
    assert s == s[..n] + s[n..];
  }

  /** Each hook's answer is filed under its event's place. */
  ghost predicate Answered(p: Pipeline, events: seq<Event>, hooked: map<nat, Hooked>) {
    forall k: nat :: k in hooked ==> k < |events| && events[k].Record? && hooked[k] == p.hook(events[k].ev)
  }

  /** The hooks started are those running and those finished, none twice. */
  ghost predicate Conserved(waiting: seq<nat>, started: nat, running: seq<nat>, done: set<nat>) {
    started <= |waiting| && multiset(waiting[..started]) == multiset(running) + multiset(done)
  }

  lemma Started(waiting: seq<nat>, started: nat)
    requires started <= |waiting|
    ensures Conserved(waiting, started, waiting[..started], {})
  {
  }

  lemma {:induction false} Running(waiting: seq<nat>, started: nat, running: seq<nat>, j: nat, done: set<nat>)
    requires Conserved(waiting, started, running, done) && j < |running|
    requires forall k: nat :: multiset(waiting)[k] <= 1
    ensures running[j] in waiting && running[j] !in done
  {
    var k := running[j];
    Prefix(waiting, started);
    assert k in multiset(running) && multiset(waiting[..started])[k] <= multiset(waiting)[k] <= 1;
    assert multiset(done)[k] == 0;
  }

  lemma {:induction false} Finish(waiting: seq<nat>, started: nat, running: seq<nat>, j: nat, done: set<nat>)
    requires Conserved(waiting, started, running, done) && j < |running| && running[j] !in done
    ensures Conserved(waiting, started, running[..j] + running[j + 1..], done + {running[j]})
  {
    Dropped(running, j);
    assert multiset(done + {running[j]}) == multiset(done) + multiset{running[j]};
  }

  lemma {:induction false} Start(waiting: seq<nat>, started: nat, running: seq<nat>, done: set<nat>)
    requires Conserved(waiting, started, running, done) && started < |waiting|
    ensures Conserved(waiting, started + 1, running + [waiting[started]], done)
  {
    Taken(waiting, started);
  }

  lemma {:induction false} AllFinished(waiting: seq<nat>, done: set<nat>)
    requires Conserved(waiting, |waiting|, [], done)
    ensures forall k: nat :: k in done <==> k in waiting
  {
    assert waiting[..|waiting|] == waiting;
    forall k: nat
      ensures k in done <==> k in waiting
    {
      assert k in multiset(waiting) <==> k in multiset(done);
    }
  }

  /** `hook_ahead`: any running hook may finish next, and then the next waiting
      one starts. `hooks` are the hooks run, `most` the most that ran at once. */
  method HookAhead(p: Pipeline, events: seq<Event>, concurrency: nat)
    returns (hooked: map<nat, Hooked>, ghost hooks: multiset<nat>, ghost most: nat)
    ensures concurrency <= 1 ==> hooked == map[]
    ensures concurrency > 1 ==> forall k: nat :: k in hooked <==> k < |events| && InRun(p, events[k])
    ensures Answered(p, events, hooked)
    ensures forall k: nat :: hooks[k] == if k in hooked then 1 else 0
    ensures most <= Max(1, concurrency)
  {
    hide Hookable, Conserved;
    hooked, hooks, most := map[], multiset{}, 0;
    if concurrency <= 1 {
      return;
    }
    var waiting := Hookable(p, events, |events|);
    var started := if |waiting| < concurrency then |waiting| else concurrency;
    var running := waiting[..started];
    most := |running|;
    Started(waiting, started);
    assert hooked.Keys == {};
    while running != []
      invariant started <= |waiting| && |running| <= most <= concurrency
      invariant |running| < concurrency ==> started == |waiting|
      invariant Conserved(waiting, started, running, hooked.Keys)
      invariant Answered(p, events, hooked)
      invariant forall k: nat :: hooks[k] == if k in hooked then 1 else 0
      decreases |waiting| - started, |running|
    {
      var j :| 0 <= j < |running|;
      var k := running[j];
      Running(waiting, started, running, j, hooked.Keys);
      Finish(waiting, started, running, j, hooked.Keys);
      assert hooked[k := p.hook(events[k].ev)].Keys == hooked.Keys + {k};
      hooked := hooked[k := p.hook(events[k].ev)];
      hooks := hooks + multiset{k};
      running := running[..j] + running[j + 1..];
      if started < |waiting| {
        Start(waiting, started, running, hooked.Keys);
        running := running + [waiting[started]];
        started := started + 1;
      }
    }
    AllFinished(waiting, hooked.Keys);
  }
}
