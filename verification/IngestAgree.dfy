/** When a batch is its events one by one: the database, the outcomes and the
    flags, with records that come more than once in a run. */
module IngestAgree {
  import opened Wrappers
  import opened RecordWrites
  import opened IngestBatch
  import opened IngestApply

  /** Events `r` to `i` are a whole run: nothing reaches across either end. */
  ghost predicate IsRun(p: Pipeline, events: seq<Event>, r: nat, i: nat) {
    r <= i <= |events| && Cut(p, events, r) && Cut(p, events, i) && OneRun(p, events, r, i)
  }

  /** In every run, each copy of a record only repeats the last one. */
  ghost predicate RunsOnlyRepeat(p: Pipeline, events: seq<Event>) {
    forall r: nat, i: nat :: IsRun(p, events, r, i) ==> OnlyRepeats(Recs(RunOf(p, events, r, i)))
  }

  /** No record comes twice in a run. */
  ghost predicate NoRepeats(p: Pipeline, events: seq<Event>) {
    forall i, j :: 0 <= i < j < |events| && IsStored(p, events[i]) && IsStored(p, events[j]) ==>
      SameRun(p, events, i, j) ==> events[i].ev.key != events[j].ev.key
  }

  lemma {:induction false} NoRepeatsOnlyRepeats(p: Pipeline, events: seq<Event>)
    requires NoRepeats(p, events)
    ensures RunsOnlyRepeat(p, events)
  {
    forall r: nat, i: nat | IsRun(p, events, r, i)
      ensures OnlyRepeats(Recs(RunOf(p, events, r, i)))
    {
      var run := RunOf(p, events, r, i);
      RunEntries(p, events, r, i);
      forall a, b | 0 <= a < b < |run|
        ensures run[a].rec.key != run[b].rec.key
      {
        assert run[a] in run && run[b] in run;
        assert SameRun(p, events, run[a].slot, run[b].slot);
      }
    }
  }

  lemma {:induction false} OneByOneRun(p: Pipeline, db: Db, events: seq<Event>, r: nat, i: nat)
    requires r <= i <= |events| && OneRun(p, events, r, i)
    ensures OneByOne(p, db, events, i) == WriteEach(OneByOne(p, db, events, r), Recs(RunOf(p, events, r, i)))
  {
    hide WriteOne, Prepare;
    if r < i {
      OneByOneRun(p, db, events, r, i - 1);
      var before, run := RunOf(p, events, r, i - 1), RunOf(p, events, r, i);
      if IsStored(p, events[i - 1]) {
        assert Recs(run)[..|before|] == Recs(before);
      } else {
        assert run == before;
      }
    }
  }

  /** A run whose copies only repeat takes both from agreement to agreement. */
  lemma {:induction false} RunAgrees(p: Pipeline, db: Db, events: seq<Event>, r: nat, i: nat)
    requires IsRun(p, events, r, i) && OnlyRepeats(Recs(RunOf(p, events, r, i)))
    requires Before(p, db, events, r) == OneByOne(p, db, events, r)
    ensures Before(p, db, events, i) == OneByOne(p, db, events, i)
  {
    hide Kept, OneByOne, Cut, OneRun, RunOf, OnlyRepeats, WriteBatch, WriteEach;
    KeptAcross(p, db, events, r, |events|, r);
    KeptAcross(p, db, events, i, |events|, i);
    FlushAdvances(p, db, events, r, i);
    OneByOneRun(p, db, events, r, i);
    RepeatsAgree(OneByOne(p, db, events, r), Recs(RunOf(p, events, r, i)));
  }

  lemma {:induction false} BreakAgrees(p: Pipeline, db: Db, events: seq<Event>, i: nat)
    requires i < |events| && !InRun(p, events[i]) && Before(p, db, events, i) == OneByOne(p, db, events, i)
    ensures Before(p, db, events, i + 1) == OneByOne(p, db, events, i + 1) && Cut(p, events, i + 1)
  {
    CutAfterBreak(p, events, i);
  }

  lemma NothingBefore(p: Pipeline, db: Db, events: seq<Event>)
    ensures Cut(p, events, 0) && OneRun(p, events, 0, 0) && Before(p, db, events, 0) == OneByOne(p, db, events, 0)
  {
  }

  /** The next event is of the run from `r`, or of none. */
  ghost predicate Continues(p: Pipeline, events: seq<Event>, r: nat, i: nat)
    requires r <= i < |events|
  {
    InRun(p, events[i]) &&
    (IsStored(p, events[i]) ==>
       forall l :: r <= l < i && IsStored(p, events[l]) ==> events[l].ev.origin == events[i].ev.origin)
  }

  lemma {:induction false} RunEndsBefore(p: Pipeline, events: seq<Event>, r: nat, i: nat)
    requires r <= i < |events| && Cut(p, events, r) && OneRun(p, events, r, i) && !Continues(p, events, r, i)
    ensures Cut(p, events, i)
  {
    if InRun(p, events[i]) {
      var l :| r <= l < i && IsStored(p, events[l]) && events[l].ev.origin != events[i].ev.origin;
      CutAtOrigin(p, events, r, l, i);
    } else {
      CutAtBreak(p, events, i);
    }
  }

  lemma OneRunNext(p: Pipeline, events: seq<Event>, r: nat, i: nat)
    requires r <= i < |events|
    ensures OneRun(p, events, r, i) && Continues(p, events, r, i) ==> OneRun(p, events, r, i + 1)
    ensures InRun(p, events[i]) ==> OneRun(p, events, i, i + 1)
    ensures OneRun(p, events, i + 1, i + 1)
  {
  }

  /** Where a run ends, the batch and its events one by one have left the same
      database. */
  lemma {:induction false} AgreeAtCut(p: Pipeline, db: Db, events: seq<Event>, c: nat)
    requires c <= |events| && Cut(p, events, c) && RunsOnlyRepeat(p, events)
    ensures Before(p, db, events, c) == OneByOne(p, db, events, c)
  {
    hide Before, OneByOne, Cut, OneRun, OnlyRepeats, Continues, InRun, IsStored;
    NothingBefore(p, db, events);
    var r, i := 0, 0;
    while i < c
      invariant r <= i <= c && Cut(p, events, r) && OneRun(p, events, r, i)
      invariant Before(p, db, events, r) == OneByOne(p, db, events, r)
    {
      OneRunNext(p, events, r, i);
      if !Continues(p, events, r, i) {
        RunEndsBefore(p, events, r, i);
        assert IsRun(p, events, r, i);
        RunAgrees(p, db, events, r, i);
        r := i;
        if !InRun(p, events[i]) {
          BreakAgrees(p, db, events, i);
          r := i + 1;
        }
      }
      i := i + 1;
    }
    assert IsRun(p, events, r, c);
    RunAgrees(p, db, events, r, c);
  }

  /** When the copies of a record in a run only repeat its last one, a batch is its
      events one by one, up to the run whose write failed: the same database, each
      outcome that of the event applied in turn, and the flag of an event applied
      apart its own. */
  lemma {:induction false} BatchIsOneByOne(p: Pipeline, db0: Db, events: seq<Event>, db: Db, out: BatchOutcome,
                                           failure: Option<Outcome>, cut: nat)
    requires BatchDone(p, db0, events, db, out, failure, cut) && RunsOnlyRepeat(p, events)
    ensures db == OneByOne(p, db0, events, cut)
    ensures forall k :: 0 <= k < cut ==>
              var alone := ApplyOne(p, OneByOne(p, db0, events, k), events[k]);
              out.outcomes[k] == alone.outcome && (!IsStored(p, events[k]) ==> out.changed[k] == alone.changed)
  {
    hide Before, OneByOne, Cut, RunsOnlyRepeat;
    AgreeAtCut(p, db0, events, cut);
    forall k | 0 <= k < cut
      ensures var alone := ApplyOne(p, OneByOne(p, db0, events, k), events[k]);
              out.outcomes[k] == alone.outcome && (!IsStored(p, events[k]) ==> out.changed[k] == alone.changed)
    {
      if !InRun(p, events[k]) {
        CutAtBreak(p, events, k);
        AgreeAtCut(p, db0, events, k);
      }
    }
  }

  /** A stored event is flagged when it is its record's last copy in the run and
      changes the row that the events before the run, one by one, have left. */
  lemma {:induction false} FlagIsOneByOne(p: Pipeline, db0: Db, events: seq<Event>, r: nat, k: nat, i: nat)
    requires IsRun(p, events, r, i) && RunsOnlyRepeat(p, events) && r <= k < i && IsStored(p, events[k])
    ensures ChangedOf(p, db0, events, k) <==>
            !Replaced(p, events, |events|, k) && Changes(OneByOne(p, db0, events, r), RecOf(p, events[k]))
  {
    hide Before, OneByOne, Cut, OneRun, Changes, IsLast, RunsOnlyRepeat;
    AgreeAtCut(p, db0, events, r);
    FlagInRun(p, db0, events, r, k, i);
    ReplacedInRun(p, events, r, k, i);
    ReplacedAcross(p, events, i, k);
  }

  /** A batch that is one run is its events one by one, whatever the database
      holds, exactly when each copy of a record only repeats the last one. */
  lemma {:induction false} OneRunExactly(p: Pipeline, events: seq<Event>)
    requires IsRun(p, events, 0, |events|)
    ensures (forall db :: Before(p, db, events, |events|) == OneByOne(p, db, events, |events|)) <==>
            OnlyRepeats(Recs(RunOf(p, events, 0, |events|)))
  {
    hide Kept, Cut, OneRun, RunOf, OnlyRepeats, WriteBatch, WriteEach;
    var n, recs := |events|, Recs(RunOf(p, events, 0, |events|));
    forall db: Db
      ensures Before(p, db, events, n) == WriteBatch(db, recs)
      ensures OneByOne(p, db, events, n) == WriteEach(db, recs)
    {
      KeptNone(p, db, events);
      FlushAdvances(p, db, events, 0, n);
      OneByOneRun(p, db, events, 0, n);
    }
    BatchIsEachExactly(recs);
  }

  lemma KeptNone(p: Pipeline, db: Db, events: seq<Event>)
    ensures Kept(p, db, events, 0, 0) == db
  {
  }

  // ---- Revs in order in every run are not enough ----

  /** A pipeline that stores every body as it comes. */
  function StoresAll(): Pipeline {
    Pipeline(0, _ => true, _ => None, (ev: RecordEvent) => Store(if ev.body.Some? then ev.body.value else 0),
             (ev, d) => (d, Matched, false), (db, e) => Applied(db, Skipped, false))
  }

  function Copy(content: int, rev: int, origin: Origin): Event {
    Record(RecordEvent(RecordKey(1, 1, 1), Update, Some(content), Some(rev), Some(content), origin))
  }

  /** Two copies of one content, then an older record from another origin. */
  function TwoRuns(): seq<Event> {
    [Copy(7, 1, Live), Copy(7, 5, Live), Copy(8, 3, Backfill(1))]
  }

  lemma {:induction false} TwoRunsReplaced()
    ensures var p, events := StoresAll(), TwoRuns();
            Replaced(p, events, 3, 0) && !Replaced(p, events, 3, 1) && !Replaced(p, events, 3, 2)
  {
    var p, events := StoresAll(), TwoRuns();
    assert SameRun(p, events, 0, 1);
    assert IsStored(p, events[2]) && events[2].ev.origin != events[1].ev.origin;
    assert !SameRun(p, events, 1, 2);
  }

  /** Each run has its revs in order, so each stores the content its events would
      one by one; the batch does not, because the first run leaves a newer rev. */
  lemma {:induction false} RevsInOrderDoNotCompose()
    ensures var p, events, key := StoresAll(), TwoRuns(), RecordKey(1, 1, 1);
            && RevsInOrder(Recs(RunOf(p, events, 0, 2))) && RevsInOrder(Recs(RunOf(p, events, 2, 3)))
            && RowOf(Before(p, EMPTY, events, 3), key) == Some(Row(7, 7, Some(5), true))
            && RowOf(OneByOne(p, EMPTY, events, 3), key) == Some(Row(8, 8, Some(3), true))
  {
    var p, events, key := StoresAll(), TwoRuns(), RecordKey(1, 1, 1);
    TwoRunsReplaced();
    assert RunOf(p, events, 0, 0) == [] && RunOf(p, events, 2, 2) == [];
    assert |RunOf(p, events, 0, 1)| == 1 && |RunOf(p, events, 0, 2)| == 2 && |RunOf(p, events, 2, 3)| == 1;
    var k1 := Before(p, EMPTY, events, 1);
    assert k1 == EMPTY;
    var k2 := Before(p, EMPTY, events, 2);
    assert RowOf(k2, key) == Some(Row(7, 7, Some(5), true)) && k2.recordTombs == map[] && k2.didTombs == map[];
    var o1 := OneByOne(p, EMPTY, events, 1);
    assert RowOf(o1, key) == Some(Row(7, 7, Some(1), true)) && o1.recordTombs == map[] && o1.didTombs == map[];
    var o2 := OneByOne(p, EMPTY, events, 2);
    assert RowOf(o2, key) == Some(Row(7, 7, Some(1), true)) && o2.recordTombs == map[] && o2.didTombs == map[];
  }
}
