/** `apply_events` itself: runs flushed where they end, a failed write cutting
    the batch back, and a batch a storage claims applied several at once. */
module IngestApply {
  import opened Wrappers
  import opened RecordWrites
  import opened IngestBatch
  import opened IngestPipeline

  /** The database event `k` is applied to: the events before it one by one,
      leaving out copies that a later one in the same run replaces. */
  ghost function Before(p: Pipeline, db: Db, events: seq<Event>, k: nat): Db
    requires k <= |events|
  {
    Kept(p, db, events, |events|, k)
  }

  ghost function OutcomeOf(p: Pipeline, db: Db, events: seq<Event>, k: nat): Outcome
    requires k < |events|
  {
    ApplyOne(p, Before(p, db, events, k), events[k]).outcome
  }

  /** Whether event `k` is reported as changing what is stored. */
  ghost predicate ChangedOf(p: Pipeline, db: Db, events: seq<Event>, k: nat)
    requires k < |events|
  {
    if IsStored(p, events[k]) then
      !Replaced(p, events, |events|, k) && Changes(Before(p, db, events, k), RecOf(p, events[k]))
    else ApplyOne(p, Before(p, db, events, k), events[k]).changed
  }

  // ---- The flags of a run ----

  lemma {:induction false} EarlierCopiesLeaveRow(db: Db, recs: seq<Prepared>, c: nat)
    requires c < |recs| && IsLast(recs, c)
    ensures Changes(WriteEach(db, LastCopies(recs, c)), recs[c]) <==> Changes(db, recs[c])
  {
    LastAtIs(recs, c);
    BatchIsLastCopy(db, recs, c, recs[c].key);
    EachIsFold(db, LastCopies(recs, c), recs[c].key);
  }

  lemma {:induction false} ReplacedAcross(p: Pipeline, events: seq<Event>, i: nat, m: nat)
    requires m < i <= |events| && Cut(p, events, i)
    ensures Replaced(p, events, |events|, m) <==> Replaced(p, events, i, m)
  {
  }

  lemma {:induction false} FlagInRun(p: Pipeline, db: Db, events: seq<Event>, r: nat, m: nat, i: nat)
    requires r <= m < i <= |events| && IsStored(p, events[m])
    requires OneRun(p, events, r, i) && Cut(p, events, i)
    ensures var recs, c := Recs(RunOf(p, events, r, i)), |RunOf(p, events, r, m)|;
            && c < |recs| && recs[c] == RecOf(p, events[m])
            && (ChangedOf(p, db, events, m) <==> IsLast(recs, c) && Changes(Before(p, db, events, r), recs[c]))
  {
    hide OneRun, Cut, Replaced, RunOf, Changes, IsLast, Kept, IsStored;
    var recs, c := Recs(RunOf(p, events, r, i)), |RunOf(p, events, r, m)|;
    ReplacedInRun(p, events, r, m, i);
    ReplacedAcross(p, events, i, m);
    RunIsKept(p, db, events, r, m, i);
    KeptAcross(p, db, events, i, |events|, m);
    KeptAcross(p, db, events, i, |events|, r);
    if IsLast(recs, c) { EarlierCopiesLeaveRow(Before(p, db, events, r), recs, c); }
  }

  // ---- One step of the batch loop ----

  /** The loop has taken the first `i` events; those from `r` on are the run not
      yet written. */
  ghost predicate Reached(p: Pipeline, db0: Db, events: seq<Event>, r: nat, i: nat, db: Db,
                          run: seq<RunEntry>, out: BatchOutcome)
  {
    && r <= i <= |events| && Cut(p, events, r) && OneRun(p, events, r, i)
    && run == RunOf(p, events, r, i)
    && (if run == [] then r == i else r == run[0].slot)
    && db == Before(p, db0, events, r)
    && Settled(p, db0, events, r, i, out)
  }

  ghost predicate Settled(p: Pipeline, db0: Db, events: seq<Event>, r: nat, i: nat, out: BatchOutcome) {
    && r <= i <= |events| && |out.outcomes| == |out.changed| == i
    && (forall k :: 0 <= k < i ==> out.outcomes[k] == OutcomeOf(p, db0, events, k))
    && (forall k :: 0 <= k < r ==> out.changed[k] == ChangedOf(p, db0, events, k))
    && (forall k :: r <= k < i ==> !out.changed[k])
  }

  lemma {:induction false} FlagsSettled(p: Pipeline, db0: Db, events: seq<Event>, r: nat, i: nat, db: Db,
                                        run: seq<RunEntry>, out: BatchOutcome, changed: seq<bool>)
    requires Reached(p, db0, events, r, i, db, run, out) && Cut(p, events, i)
    requires |changed| == i && Slotted(run, i) && Flagged(db, run, out.changed, changed, 0)
    ensures Settled(p, db0, events, i, i, out.(changed := changed))
  {
    hide OneRun, Cut, Changes, IsLast, Kept, RunOf, OutcomeOf;
    RunEntries(p, events, r, i);
    forall k | 0 <= k < i
      ensures changed[k] == ChangedOf(p, db0, events, k)
    {
      if k < r {
        assert forall q :: 0 <= q < |run| ==> run[q] in run && run[q].slot != k;
      } else if IsStored(p, events[k]) {
        FlagInRun(p, db0, events, r, k, i);
        EntryAt(p, events, r, k, i);
      } else {
        assert forall q :: 0 <= q < |run| ==> run[q] in run && run[q].slot != k;
        NotFlagged(p, db0, events, r, k, i);
      }
    }
  }

  lemma NotFlagged(p: Pipeline, db0: Db, events: seq<Event>, r: nat, k: nat, i: nat)
    requires r <= k < i <= |events| && OneRun(p, events, r, i) && !IsStored(p, events[k])
    ensures !ChangedOf(p, db0, events, k)
  {
  }

  lemma {:induction false} Flush(p: Pipeline, db0: Db, events: seq<Event>, r: nat, i: nat, db: Db,
                                 run: seq<RunEntry>, out: BatchOutcome, changed: seq<bool>)
    requires Reached(p, db0, events, r, i, db, run, out) && Cut(p, events, i)
    requires |changed| == i && Slotted(run, i) && Flagged(db, run, out.changed, changed, 0)
    ensures Reached(p, db0, events, i, i, WriteBatch(db, Recs(run)), [], out.(changed := changed))
  {
    hide Cut, Settled, Flagged, Slotted, Kept, WriteBatch;
    FlagsSettled(p, db0, events, r, i, db, run, out, changed);
    FlushAdvances(p, db0, events, r, i);
    KeptAcross(p, db0, events, r, |events|, r);
    KeptAcross(p, db0, events, i, |events|, i);
  }

  lemma {:induction false} CutAtBreak(p: Pipeline, events: seq<Event>, i: nat)
    requires i == |events| || (i < |events| && !InRun(p, events[i]))
    ensures Cut(p, events, i)
  {
  }

  function Push(out: BatchOutcome, outcome: Outcome, changed: bool): BatchOutcome {
    BatchOutcome(out.outcomes + [outcome], out.changed + [changed])
  }

  /** Whether the next stored event is of the run so far. */
  predicate Joins(run: seq<RunEntry>, ev: RecordEvent) {
    run == [] || run[|run| - 1].ev.origin == ev.origin
  }

  lemma {:induction false} RunEnd(p: Pipeline, events: seq<Event>, r: nat, i: nat, run: seq<RunEntry>)
    requires r <= i <= |events| && run == RunOf(p, events, r, i) && run != []
    ensures var l := run[|run| - 1]; IsEntry(p, events, r, i, l)
  {
    RunEntries(p, events, r, i);
  }

  lemma {:induction false} StoreNext(p: Pipeline, db0: Db, events: seq<Event>, r: nat, i: nat, db: Db,
                                     run: seq<RunEntry>, out: BatchOutcome)
    requires Reached(p, db0, events, r, i, db, run, out) && i < |events| && IsStored(p, events[i])
    requires Joins(run, events[i].ev)
    ensures Reached(p, db0, events, r, i + 1, db, run + [RunEntry(i, events[i].ev, RecOf(p, events[i]))],
                    Push(out, Matched, false))
  {
    hide Cut, Before, ChangedOf;
    if run != [] { RunEnd(p, events, r, i, run); }
  }

  lemma {:induction false} SkipNext(p: Pipeline, db0: Db, events: seq<Event>, r: nat, i: nat, db: Db,
                                    run: seq<RunEntry>, out: BatchOutcome)
    requires Reached(p, db0, events, r, i, db, run, out) && i < |events|
    requires InRun(p, events[i]) && !IsStored(p, events[i])
    ensures Reached(p, db0, events, if run == [] then i + 1 else r, i + 1, db, run, Push(out, Skipped, false))
  {
    hide Cut;
    if run == [] { CutAfterSkip(p, events, i); }
  }

  lemma {:induction false} ApartNext(p: Pipeline, db0: Db, events: seq<Event>, i: nat, db: Db, out: BatchOutcome)
    requires Reached(p, db0, events, i, i, db, [], out) && i < |events| && !InRun(p, events[i])
    ensures var a := ApplyOne(p, db, events[i]);
            Reached(p, db0, events, i + 1, i + 1, a.db, [], Push(out, a.outcome, a.changed))
  {
    CutAfterBreak(p, events, i);
  }

  lemma {:induction false} OriginCut(p: Pipeline, db0: Db, events: seq<Event>, r: nat, i: nat, db: Db,
                                     run: seq<RunEntry>, out: BatchOutcome)
    requires Reached(p, db0, events, r, i, db, run, out) && i < |events| && IsStored(p, events[i])
    requires !Joins(run, events[i].ev)
    ensures Cut(p, events, i)
  {
    RunEnd(p, events, r, i, run);
    CutAtOrigin(p, events, r, run[|run| - 1].slot, i);
  }

  /** What a batch leaves: the events before `cut` applied, one outcome an
      event, and the failure's outcome for every event from `cut` on. */
  ghost predicate BatchDone(p: Pipeline, db0: Db, events: seq<Event>, db: Db, out: BatchOutcome,
                          failure: Option<Outcome>, cut: nat)
  {
    && cut <= |events| && |out.outcomes| == |out.changed| == |events|
    && (failure.None? ==> cut == |events|)
    && (failure.Some? ==> cut < |events| && IsStored(p, events[cut]))
    && Cut(p, events, cut)
    && db == Before(p, db0, events, cut)
    && (forall k :: 0 <= k < cut ==>
          out.outcomes[k] == OutcomeOf(p, db0, events, k) && out.changed[k] == ChangedOf(p, db0, events, k))
    && (forall k :: cut <= k < |events| ==> failure.Some? && out.outcomes[k] == failure.value && !out.changed[k])
  }

  /** At event `i`: the answers still to use, of all those `first` hooked ahead,
      and each event hooked once, ahead or in its turn. */
  ghost predicate HookedOnce(p: Pipeline, events: seq<Event>, i: nat, ahead: map<nat, Hooked>, first: set<nat>,
                             hooks: multiset<nat>)
  {
    && i <= |events| && Answered(p, events, ahead)
    && (forall k: nat :: k >= i ==> (k in ahead <==> k in first))
    && (forall k: nat :: k in first ==> k < |events| && InRun(p, events[k]))
    && (forall k: nat :: hooks[k] == if k in first || (k < i && IsHooked(p, events[k])) then 1 else 0)
  }

  /** The hook's answer for event `i`: kept from ahead, or asked for now. */
  method TakeHook(p: Pipeline, events: seq<Event>, i: nat, ahead: map<nat, Hooked>, ghost first: set<nat>,
                  ghost hooks: multiset<nat>)
    returns (answer: Hooked, left: map<nat, Hooked>, ghost after: multiset<nat>)
    requires i < |events| && InRun(p, events[i]) && HookedOnce(p, events, i, ahead, first, hooks)
    ensures answer == p.hook(events[i].ev) && HookedOnce(p, events, i + 1, left, first, after)
  {
    if i in ahead {
      answer, left, after := ahead[i], ahead - {i}, hooks;
    } else {
      answer, left, after := p.hook(events[i].ev), ahead, hooks + multiset{i};
    }
  }

  lemma FirstHooks(p: Pipeline, events: seq<Event>, ahead: map<nat, Hooked>, hooks: multiset<nat>)
    requires Answered(p, events, ahead) && forall k: nat :: k in ahead ==> k < |events| && InRun(p, events[k])
    requires forall k: nat :: hooks[k] == if k in ahead then 1 else 0
    ensures HookedOnce(p, events, 0, ahead, ahead.Keys, hooks)
  {
  }

  /** An event applied apart is hooked as it is applied. */
  lemma ApartHook(p: Pipeline, events: seq<Event>, i: nat, ahead: map<nat, Hooked>, first: set<nat>,
                  hooks: multiset<nat>)
    requires i < |events| && !InRun(p, events[i]) && HookedOnce(p, events, i, ahead, first, hooks)
    ensures HookedOnce(p, events, i + 1, ahead, first, Hook(p, events[i], i, hooks))
  {
  }

  ghost function Hook(p: Pipeline, e: Event, i: nat, hooks: multiset<nat>): multiset<nat> {
    if IsHooked(p, e) then hooks + multiset{i} else hooks
  }

  lemma HooksRun(p: Pipeline, events: seq<Event>, i: nat, ahead: map<nat, Hooked>, first: set<nat>,
                 hooks: multiset<nat>)
    requires HookedOnce(p, events, i, ahead, first, hooks)
    ensures AtMostOnce(p, events, hooks) && (i == |events| ==> EachOnce(p, events, hooks))
  {
  }

  /** No event is hooked twice, and none that has no hook. */
  ghost predicate AtMostOnce(p: Pipeline, events: seq<Event>, hooks: multiset<nat>) {
    forall k: nat :: hooks[k] <= 1 && (hooks[k] == 1 ==> k < |events| && IsHooked(p, events[k]))
  }

  ghost predicate EachOnce(p: Pipeline, events: seq<Event>, hooks: multiset<nat>) {
    forall k: nat :: hooks[k] == if k < |events| && IsHooked(p, events[k]) then 1 else 0
  }

  lemma {:induction false} Filled(p: Pipeline, db0: Db, events: seq<Event>, r: nat, i: nat, db: Db,
                                  run: seq<RunEntry>, out: BatchOutcome, failure: Outcome)
    requires Reached(p, db0, events, r, i, db, run, out) && run != []
    ensures BatchDone(p, db0, events, db, FillFailed(out, run[0].slot, |events|, failure), Some(failure), r)
  {
    hide Cut, OutcomeOf, ChangedOf, Before;
    RunEntries(p, events, r, i);
    assert run[0] in run;
  }

  /** The outcomes cut back to `slot` and filled up to `total`. */
  function FillFailed(out: BatchOutcome, slot: nat, total: nat, failure: Outcome): BatchOutcome
    requires slot <= total && slot <= |out.outcomes| && slot <= |out.changed|
  {
    BatchOutcome(out.outcomes[..slot] + seq(total - slot, _ => failure),
                 out.changed[..slot] + seq(total - slot, _ => false))
  }

  // ---- A batch a storage claims whole ----

  function Look(deltas: map<RecordKey, int>, key: RecordKey): Option<int> {
    if key in deltas then Some(deltas[key]) else None
  }

  function Put(deltas: map<RecordKey, int>, key: RecordKey, delta: Option<int>): map<RecordKey, int> {
    if delta.Some? then deltas[key := delta.value] else deltas - {key}
  }

  /** An event in the window: not begun, its delta worked out from what was
      stored, or stored. */
  datatype Progress = Waiting | Worked(delta: Option<int>, outcome: Outcome, changed: bool)
                    | Done(outcome: Outcome, changed: bool)

  predicate AllClaimed(p: Pipeline, events: seq<Event>) {
    forall k :: 0 <= k < |events| ==> IsClaimed(p, events[k])
  }

  /** What the storage answers for event `k` on the deltas of `db`. */
  function Answer(p: Pipeline, db: Db, events: seq<Event>, k: nat): (Option<int>, Outcome, bool)
    requires k < |events| && events[k].Record?
  {
    p.claimed(events[k].ev, Look(db.deltas, events[k].ev.key))
  }

  ghost predicate StepOk(p: Pipeline, db0: Db, events: seq<Event>, k: nat, step: Progress)
    requires k < |events| && events[k].Record?
  {
    var (delta, outcome, changed) := Answer(p, db0, events, k);
    match step
    case Waiting => true
    case Worked(d, o, c) => d == delta && o == outcome && c == changed
    case Done(o, c) => o == outcome && c == changed
  }

  /** Deltas of the events done are stored, those of the others are as at first,
      and nothing else is touched. */
  ghost predicate InWindow(p: Pipeline, db0: Db, events: seq<Event>, progress: seq<Progress>, db: Db) {
    && |progress| == |events| && AllClaimed(p, events)
    && db == db0.(deltas := db.deltas)
    && (forall k :: 0 <= k < |events| ==> StepOk(p, db0, events, k, progress[k]))
    && (forall k :: 0 <= k < |events| ==>
          Look(db.deltas, events[k].ev.key) ==
          if progress[k].Done? then Answer(p, db0, events, k).0 else Look(db0.deltas, events[k].ev.key))
    && (forall key :: Untouched(events, |events|, key) ==> Look(db.deltas, key) == Look(db0.deltas, key))
  }

  ghost predicate Untouched(events: seq<Event>, n: nat, key: RecordKey)
    requires n <= |events|
  {
    forall k :: 0 <= k < n ==> events[k].Record? && events[k].ev.key != key
  }

  lemma {:induction false} Work(p: Pipeline, db0: Db, events: seq<Event>, progress: seq<Progress>, db: Db, j: nat)
    requires InWindow(p, db0, events, progress, db) && j < |events| && progress[j].Waiting?
    ensures var (delta, outcome, changed) := Answer(p, db, events, j);
            InWindow(p, db0, events, progress[j := Worked(delta, outcome, changed)], db)
  {
  }

  lemma {:induction false} StoreDelta(p: Pipeline, db0: Db, events: seq<Event>, progress: seq<Progress>, db: Db, j: nat)
    requires InWindow(p, db0, events, progress, db) && j < |events| && progress[j].Worked?
    requires Independent(events, |events|)
    ensures var step := progress[j];
            InWindow(p, db0, events, progress[j := Done(step.outcome, step.changed)],
                     db.(deltas := Put(db.deltas, events[j].ev.key, step.delta)))
  {
  }

  /** One by one, each claimed event with a key of its own stores what the
      storage answers on the first deltas. */
  lemma {:induction false} ClaimedOneByOne(p: Pipeline, db: Db, events: seq<Event>, n: nat)
    requires n <= |events| && AllClaimed(p, events) && Independent(events, |events|)
    ensures var after := OneByOne(p, db, events, n);
            && after == db.(deltas := after.deltas)
            && (forall k :: 0 <= k < |events| ==>
                  Look(after.deltas, events[k].ev.key) ==
                  if k < n then Answer(p, db, events, k).0 else Look(db.deltas, events[k].ev.key))
            && (forall key :: Untouched(events, |events|, key) ==> Look(after.deltas, key) == Look(db.deltas, key))
  {
    if n > 0 { ClaimedOneByOne(p, db, events, n - 1); }
  }

  /** How many steps are left to take. */
  function StepsLeft(progress: seq<Progress>): nat {
    if progress == [] then 0
    else StepsLeft(progress[..|progress| - 1]) +
         match progress[|progress| - 1] case Waiting => 2 case Worked(_, _, _) => 1 case Done(_, _) => 0
  }

  lemma {:induction false} StepTaken(progress: seq<Progress>, j: nat, step: Progress)
    requires j < |progress|
    requires (progress[j].Waiting? && !step.Waiting?) || (progress[j].Worked? && step.Done?)
    ensures StepsLeft(progress[j := step]) < StepsLeft(progress)
  {
    var n := |progress| - 1;
    if j < n {
      StepTaken(progress[..n], j, step);
      assert progress[j := step][..n] == progress[..n][j := step];
    } else {
      assert progress[j := step][..n] == progress[..n];
    }
  }

  lemma {:induction false} NoneReplaced(p: Pipeline, db: Db, events: seq<Event>)
    requires AllClaimed(p, events)
    ensures forall k: nat :: k <= |events| ==> Before(p, db, events, k) == OneByOne(p, db, events, k)
  {
    forall k: nat | k <= |events|
      ensures Before(p, db, events, k) == OneByOne(p, db, events, k)
    {
      NothingReplaced(p, db, events, |events|, k);
    }
  }

  lemma {:induction false} SameDeltas(events: seq<Event>, a: map<RecordKey, int>, b: map<RecordKey, int>)
    requires forall k :: 0 <= k < |events| ==> events[k].Record?
    requires forall k :: 0 <= k < |events| ==> Look(a, events[k].ev.key) == Look(b, events[k].ev.key)
    requires forall key :: Untouched(events, |events|, key) ==> Look(a, key) == Look(b, key)
    ensures a == b
  {
    forall key: RecordKey
      ensures Look(a, key) == Look(b, key)
    {
      if !Untouched(events, |events|, key) {
        var k :| 0 <= k < |events| && events[k].ev.key == key;
      }
    }
    assert forall key: RecordKey :: key in a <==> Look(a, key).Some?;
    assert forall key: RecordKey :: key in b <==> Look(b, key).Some?;
    assert forall key: RecordKey :: key in a ==> Look(a, key).value == a[key] == b[key];
  }

  /** With every event of the window done, the batch is as if in order. */
  lemma {:induction false} ClaimedDone(p: Pipeline, db0: Db, events: seq<Event>, progress: seq<Progress>, db: Db,
                                       out: BatchOutcome)
    requires InWindow(p, db0, events, progress, db) && Independent(events, |events|)
    requires |out.outcomes| == |out.changed| == |events|
    requires forall k :: 0 <= k < |events| ==> progress[k] == Done(out.outcomes[k], out.changed[k])
    ensures BatchDone(p, db0, events, db, out, None, |events|)
  {
    NoneReplaced(p, db0, events);
    CutAtBreak(p, events, |events|);
    ClaimedOneByOne(p, db0, events, |events|);
    SameDeltas(events, db.deltas, OneByOne(p, db0, events, |events|).deltas);
    forall k | 0 <= k < |events|
      ensures out.outcomes[k] == OutcomeOf(p, db0, events, k) && out.changed[k] == ChangedOf(p, db0, events, k)
    {
      ClaimedOneByOne(p, db0, events, k);
      assert StepOk(p, db0, events, k, progress[k]);
    }
  }

  class Ingest {
    const p: Pipeline
    const configured: nat
    /** The outcome with which the n-th write fails, if it does. */
    const faults: nat -> Option<Outcome>
    var db: Db
    var writes: nat

    /** `write_run`: one transaction, under the one origin of its events; on failure
        nothing is stored. */
    method WriteRun(run: seq<RunEntry>, changed: seq<bool>) returns (flags: seq<bool>, failure: Option<Outcome>)
      requires Slotted(run, |changed|) && OneOrigin(run)
      modifies this
      ensures |flags| == |changed|
      ensures failure.Some? ==> run != [] && db == old(db) && flags == changed
      ensures failure.None? ==> db == WriteBatch(old(db), Recs(run)) && Flagged(old(db), run, changed, flags, 0)
    {
      if run == [] {
        return changed, None;
      }
      failure := faults(writes);
      writes := writes + 1;
      if failure.Some? {
        return changed, failure;
      }
      flags := FlagChanged(db, run, changed);
      db := WriteBatch(db, Recs(run));
    }

    /** A run written where it ends. On failure the batch is over. */
    method FlushRun(ghost db0: Db, events: seq<Event>, ghost r: nat, ghost i: nat, run: seq<RunEntry>,
                    out: BatchOutcome)
      returns (after: BatchOutcome, failure: Option<Outcome>)
      requires Reached(p, db0, events, r, i, db, run, out) && Cut(p, events, i)
      modifies this
      ensures failure.None? ==> Reached(p, db0, events, i, i, db, [], after)
      ensures failure.Some? ==> BatchDone(p, db0, events, db, after, failure, r)
    {
      hide Cut, OneRun, RunOf, Before, Settled, BatchDone, Recs, WriteBatch;
      after := out;
      RunSlots(p, db0, events, r, i, db, run, out);
      RunOrigin(p, db0, events, r, i, db, run, out);
      var flags;
      ghost var was := db;
      flags, failure := WriteRun(run, out.changed);
      if failure.Some? {
        Filled(p, db0, events, r, i, db, run, out, failure.value);
        after := FillFailed(out, run[0].slot, |events|, failure.value);
      } else {
        Flush(p, db0, events, r, i, was, run, out, flags);
        after := out.(changed := flags);
      }
    }

    /** The batch loop: creates and updates this instance stores gather in a
        run; anything else ends it. */
    method ApplyInOrder(events: seq<Event>, concurrency: nat)
      returns (out: BatchOutcome, failure: Option<Outcome>, ghost cut: nat, ghost hooks: multiset<nat>, ghost most: nat)
      modifies this
      ensures BatchDone(p, old(db), events, db, out, failure, cut)
      ensures AtMostOnce(p, events, hooks)
      ensures failure.None? ==> EachOnce(p, events, hooks)
      ensures most <= Max(1, concurrency)
    {
      hide Cut, OneRun, RunOf, Before, Settled, BatchDone, Reached, HookedOnce, AtMostOnce, EachOnce, Answered,
           ApplyOne, Hook;
      var ahead;
      ahead, hooks, most := HookAhead(p, events, concurrency);
      ghost var first := ahead.Keys;
      FirstHooks(p, events, ahead, hooks);
      out, failure := BatchOutcome([], []), None;
      var run: seq<RunEntry> := [];
      cut := 0;
      NothingYet(p, db, events);
      var i := 0;
      while i < |events|
        invariant 0 <= i <= |events|
        invariant Reached(p, old(db), events, cut, i, db, run, out)
        invariant HookedOnce(p, events, i, ahead, first, hooks)
      {
        HooksRun(p, events, i, ahead, first, hooks);
        var e := events[i];
        if InRun(p, e) {
          var answer;
          answer, ahead, hooks := TakeHook(p, events, i, ahead, first, hooks);
          HooksRun(p, events, i + 1, ahead, first, hooks);
          if answer.Store? {
            if !Joins(run, e.ev) {
              OriginCut(p, old(db), events, cut, i, db, run, out);
              out, failure := FlushRun(old(db), events, cut, i, run, out);
              if failure.Some? { return; }
              run, cut := [], i;
            }
            StoreNext(p, old(db), events, cut, i, db, run, out);
            run := run + [RunEntry(i, e.ev, Prepare(e.ev, answer.body))];
            out := Push(out, Matched, false);
          } else {
            SkipNext(p, old(db), events, cut, i, db, run, out);
            if run == [] { cut := i + 1; }
            out := Push(out, Skipped, false);
          }
        } else {
          CutAtBreak(p, events, i);
          out, failure := FlushRun(old(db), events, cut, i, run, out);
          if failure.Some? { return; }
          ApartNext(p, old(db), events, i, db, out);
          run, cut := [], i + 1;
          ApartHook(p, events, i, ahead, first, hooks);
          hooks := Hook(p, e, i, hooks);
          var applied := ApplyOne(p, db, e);
          db := applied.db;
          out := Push(out, applied.outcome, applied.changed);
        }
        i := i + 1;
      }
      HooksRun(p, events, i, ahead, first, hooks);
      CutAtBreak(p, events, i);
      out, failure := FlushRun(old(db), events, cut, i, run, out);
      if failure.None? {
        cut := i;
        AllApplied(p, old(db), events, db, out);
      }
    }

    /** The batch a storage claims whole, up to `concurrency` of its events at
        once. Any event in the window may take its next step; outcomes come out
        in the batch's order. `most` is the most ever begun and not yet out. */
    method ApplyClaimed(events: seq<Event>, concurrency: nat)
      returns (out: BatchOutcome, ghost hooks: multiset<nat>, ghost most: nat)
      requires concurrency >= 1 && Independent(events, |events|)
      modifies this
      ensures |out.outcomes| == |out.changed| == |events| && most <= concurrency
      ensures EachOnce(p, events, hooks)
      ensures AllClaimed(p, events) ==> BatchDone(p, old(db), events, db, out, None, |events|)
    {
      hide InWindow, BatchDone, IsClaimed, ApplyOne, AllClaimed, BegunOnce, EachOnce, Emitted, Hook;
      var progress := seq(|events|, _ => Waiting);
      out, hooks, most := BatchOutcome([], []), multiset{}, 0;
      NoneBegun(p, events, progress);
      ghost var begun: nat := 0;
      if AllClaimed(p, events) { WindowOpens(p, db, events); }
      while |out.outcomes| < |events|
        invariant |progress| == |events| && |out.outcomes| == |out.changed| <= |events|
        invariant begun - |out.outcomes| <= most <= concurrency
        invariant BegunOnce(p, events, progress, hooks) && Emitted(progress, out)
        invariant AllClaimed(p, events) ==> InWindow(p, old(db), events, progress, db)
        decreases StepsLeft(progress) + |events| - |out.outcomes|
      {
        var emitted := |out.outcomes|;
        if progress[emitted].Done? {
          EmitNext(progress, out);
          out := Push(out, progress[emitted].outcome, progress[emitted].changed);
        } else {
          var j :| emitted <= j < |events| && j < emitted + concurrency && !progress[j].Done?;
          begun := Max(begun, j + 1);
          most := Max(most, begun - emitted);
          var step := TakeStep(events, progress, j);
          StepTaken(progress, j, step);
          BeginNext(p, events, progress, hooks, out, j, step);
          if progress[j].Waiting? { hooks := Hook(p, events[j], j, hooks); }
          progress := progress[j := step];
        }
      }
      AllBegun(p, events, progress, hooks, out);
      if AllClaimed(p, events) { ClaimedDone(p, old(db), events, progress, db, out); }
    }

    /** The next step of event `j`: ask the storage, or store what it answered. */
    method TakeStep(events: seq<Event>, progress: seq<Progress>, j: nat) returns (step: Progress)
      requires Independent(events, |events|) && |progress| == |events| && j < |events| && !progress[j].Done?
      modifies this
      ensures (progress[j].Waiting? && !step.Waiting?) || (progress[j].Worked? && step.Done?)
      ensures forall db0 :: InWindow(p, db0, events, progress, old(db)) ==>
                InWindow(p, db0, events, progress[j := step], db)
    {
      hide InWindow, IsClaimed, ApplyOne;
      if progress[j].Waiting? {
        if IsClaimed(p, events[j]) {
          var (delta, outcome, changed) := Answer(p, db, events, j);
          step := Worked(delta, outcome, changed);
          forall db0 | InWindow(p, db0, events, progress, db)
            ensures InWindow(p, db0, events, progress[j := step], db)
          {
            Work(p, db0, events, progress, db, j);
          }
        } else {
          forall db0 ensures !InWindow(p, db0, events, progress, db) { NotInWindow(p, db0, events, progress, db, j); }
          var applied := ApplyOne(p, db, events[j]);
          db := applied.db;
          step := Done(applied.outcome, applied.changed);
        }
      } else {
        step := Done(progress[j].outcome, progress[j].changed);
        forall db0 | InWindow(p, db0, events, progress, db)
          ensures InWindow(p, db0, events, progress[j := step],
                           db.(deltas := Put(db.deltas, events[j].ev.key, progress[j].delta)))
        {
          StoreDelta(p, db0, events, progress, db, j);
        }
        db := db.(deltas := Put(db.deltas, events[j].ev.key, progress[j].delta));
      }
    }

    /** `apply_events`. A storage that claims lexicon schema events too is the
        one case in which order is not promised. `limit` is how many events it may
        have in hand, `hooks` the events hooked, `most` the most in hand at once. */
    method ApplyEvents(events: seq<Event>)
      returns (out: BatchOutcome, failure: Option<Outcome>, ghost cut: nat,
               ghost limit: nat, ghost hooks: multiset<nat>, ghost most: nat)
      requires configured >= 1
      modifies this
      ensures |out.outcomes| == |out.changed| == |events|
      ensures (forall k :: 0 <= k < |events| && IsExternal(p, events[k]) ==> IsClaimed(p, events[k])) ==>
                BatchDone(p, old(db), events, db, out, failure, cut)
      // Each event that has a hook is hooked once, unless a write fails first; and at
      // most the limit are in hand.
      ensures AtMostOnce(p, events, hooks) && (failure.None? ==> EachOnce(p, events, hooks)) && most <= limit
      ensures if Independent(events, |events|) then IsLimit(p, configured, events, |events|, limit) else limit == 1
    {
      hide BatchDone, AtMostOnce, EachOnce, Independent, IsLimit, AllClaimed;
      var concurrency := BatchConcurrency(p, configured, events);
      limit := concurrency;
      AtLeastOne(p, configured, events, concurrency);
      if concurrency > 1 && forall k :: 0 <= k < |events| ==> IsExternal(p, events[k]) {
        out, hooks, most := ApplyClaimed(events, concurrency);
        failure, cut := None, |events|;
        OnceIsAtMost(p, events, hooks);
        if forall k :: 0 <= k < |events| ==> IsClaimed(p, events[k]) { EachClaimed(p, events); }
      } else {
        out, failure, cut, hooks, most := ApplyInOrder(events, concurrency);
        DoneLengths(p, old(db), events, db, out, failure, cut);
      }
    }
  }

  lemma AtLeastOne(p: Pipeline, configured: nat, events: seq<Event>, limit: nat)
    requires Independent(events, |events|) ==> IsLimit(p, configured, events, |events|, limit)
    requires !Independent(events, |events|) ==> limit == 1
    ensures limit >= 1
  {
  }

  /** Every event that is begun and has a hook is hooked once. */
  ghost predicate BegunOnce(p: Pipeline, events: seq<Event>, progress: seq<Progress>, hooks: multiset<nat>)
    requires |progress| == |events|
  {
    forall k: nat :: hooks[k] == if k < |events| && !progress[k].Waiting? && IsHooked(p, events[k]) then 1 else 0
  }

  /** What came out is done, as it came out. */
  ghost predicate Emitted(progress: seq<Progress>, out: BatchOutcome) {
    && |out.outcomes| == |out.changed| <= |progress|
    && forall k :: 0 <= k < |out.outcomes| ==> progress[k] == Done(out.outcomes[k], out.changed[k])
  }

  lemma NoneBegun(p: Pipeline, events: seq<Event>, progress: seq<Progress>)
    requires progress == seq(|events|, _ => Waiting)
    ensures BegunOnce(p, events, progress, multiset{}) && Emitted(progress, BatchOutcome([], []))
  {
  }

  lemma EmitNext(progress: seq<Progress>, out: BatchOutcome)
    requires Emitted(progress, out) && |out.outcomes| < |progress| && progress[|out.outcomes|].Done?
    ensures var next := progress[|out.outcomes|]; Emitted(progress, Push(out, next.outcome, next.changed))
  {
  }

  lemma BeginNext(p: Pipeline, events: seq<Event>, progress: seq<Progress>, hooks: multiset<nat>, out: BatchOutcome,
                  j: nat, step: Progress)
    requires |progress| == |events| && j < |events| && !progress[j].Done? && !step.Waiting?
    requires BegunOnce(p, events, progress, hooks) && Emitted(progress, out)
    ensures var after := if progress[j].Waiting? then Hook(p, events[j], j, hooks) else hooks;
            BegunOnce(p, events, progress[j := step], after) && Emitted(progress[j := step], out)
  {
    hide IsHooked;
  }

  lemma AllBegun(p: Pipeline, events: seq<Event>, progress: seq<Progress>, hooks: multiset<nat>, out: BatchOutcome)
    requires |progress| == |events| == |out.outcomes|
    requires BegunOnce(p, events, progress, hooks) && Emitted(progress, out)
    ensures EachOnce(p, events, hooks)
    ensures forall k :: 0 <= k < |events| ==> progress[k] == Done(out.outcomes[k], out.changed[k])
  {
    hide IsHooked;
  }

  lemma OnceIsAtMost(p: Pipeline, events: seq<Event>, hooks: multiset<nat>)
    requires EachOnce(p, events, hooks)
    ensures AtMostOnce(p, events, hooks)
  {
  }

  lemma EachClaimed(p: Pipeline, events: seq<Event>)
    requires forall k :: 0 <= k < |events| ==> IsClaimed(p, events[k])
    ensures AllClaimed(p, events)
  {
  }

  lemma DoneLengths(p: Pipeline, db0: Db, events: seq<Event>, db: Db, out: BatchOutcome,
                    failure: Option<Outcome>, cut: nat)
    requires BatchDone(p, db0, events, db, out, failure, cut)
    ensures |out.outcomes| == |out.changed| == |events|
  {
  }

  predicate IsExternal(p: Pipeline, e: Event) {
    e.Record? && p.external(e.ev.key.collection).Some?
  }

  lemma WindowOpens(p: Pipeline, db: Db, events: seq<Event>)
    requires AllClaimed(p, events)
    ensures InWindow(p, db, events, seq(|events|, _ => Waiting), db)
  {
  }

  lemma NotInWindow(p: Pipeline, db0: Db, events: seq<Event>, progress: seq<Progress>, db: Db, j: nat)
    requires j < |events| && !IsClaimed(p, events[j])
    ensures !InWindow(p, db0, events, progress, db)
  {
  }

  /** Every event of a run has the same origin. */
  ghost predicate OneOrigin(run: seq<RunEntry>) {
    forall e :: e in run ==> e.ev.origin == run[0].ev.origin
  }

  lemma {:induction false} RunOrigin(p: Pipeline, db0: Db, events: seq<Event>, r: nat, i: nat, db: Db,
                                     run: seq<RunEntry>, out: BatchOutcome)
    requires Reached(p, db0, events, r, i, db, run, out)
    ensures OneOrigin(run)
  {
    RunEntries(p, events, r, i);
    forall e | e in run
      ensures e.ev.origin == run[0].ev.origin
    {
      assert IsEntry(p, events, r, i, e) && run[0] in run && IsEntry(p, events, r, i, run[0]);
    }
  }

  lemma RunSlots(p: Pipeline, db0: Db, events: seq<Event>, r: nat, i: nat, db: Db, run: seq<RunEntry>,
                 out: BatchOutcome)
    requires Reached(p, db0, events, r, i, db, run, out)
    ensures Slotted(run, i) && |out.changed| == |out.outcomes| == i <= |events|
    ensures run != [] ==> run[0].slot < i
  {
    RunEntries(p, events, r, i);
    assert forall q :: 0 <= q < |run| ==> run[q] in run;
  }

  lemma NothingYet(p: Pipeline, db: Db, events: seq<Event>)
    ensures Reached(p, db, events, 0, 0, db, [], BatchOutcome([], []))
  {
  }

  lemma AllApplied(p: Pipeline, db0: Db, events: seq<Event>, db: Db, out: BatchOutcome)
    requires Reached(p, db0, events, |events|, |events|, db, [], out)
    ensures BatchDone(p, db0, events, db, out, None, |events|)
  {
  }
}
