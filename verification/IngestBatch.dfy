/** `apply_events`: a batch grouped into runs of creates and updates, each run
    written in one transaction, against one event at a time. */
module IngestBatch {
  import opened Wrappers
  import opened RecordWrites

  datatype Origin = Live | Backfill(job: int)

  datatype Action = Create | Update | Delete

  datatype RecordEvent = RecordEvent(
    key: RecordKey, action: Action, cid: Option<int>, rev: Option<int>, body: Option<int>, origin: Origin)

  /** `Other` is an account, sync or identity event. */
  datatype Event = Record(ev: RecordEvent) | Other(id: int)

  datatype Outcome = Matched | Skipped | SchemaEvent | Errored | Unavailable | Invalid

  datatype Hooked = Store(body: int) | Skip | CidMismatch

  datatype Applied = Applied(db: Db, outcome: Outcome, changed: bool)

  /** What the pipeline asks of the rest of the system: which collections are
      tracked, which an external storage claims and how many deltas it takes at
      once, what the record hook decides, and how the events that never go in a
      run are applied. */
  datatype Pipeline = Pipeline(
    schemaCollection: int,
    tracked: int -> bool,
    external: int -> Option<Option<nat>>,
    hook: RecordEvent -> Hooked,
    claimed: (RecordEvent, Option<int>) -> (Option<int>, Outcome, bool),
    apart: (Db, Event) -> Applied)

  datatype BatchOutcome = BatchOutcome(outcomes: seq<Outcome>, changed: seq<bool>)

  /** One record of a run: its slot in the outcomes and what is to be stored. */
  datatype RunEntry = RunEntry(slot: nat, ev: RecordEvent, rec: Prepared)

  function Prepare(ev: RecordEvent, body: int): Prepared {
    Prepared(ev.key, if ev.cid.Some? then ev.cid.value else 0, body, ev.rev)
  }

  /** A create or update this instance stores itself. */
  predicate InRun(p: Pipeline, e: Event) {
    && e.Record? && (e.ev.action.Create? || e.ev.action.Update?)
    && e.ev.key.collection != p.schemaCollection
    && p.external(e.ev.key.collection).None?
    && e.ev.body.Some?
    && p.tracked(e.ev.key.collection)
  }

  /** An event whose record hook runs, in a run or applied apart: a delete, or a
      create or update that has a body. */
  predicate IsHooked(p: Pipeline, e: Event) {
    && e.Record? && e.ev.key.collection != p.schemaCollection && p.tracked(e.ev.key.collection)
    && (e.ev.action.Delete? || e.ev.body.Some?)
  }

  predicate IsStored(p: Pipeline, e: Event) {
    InRun(p, e) && p.hook(e.ev).Store?
  }

  function RecOf(p: Pipeline, e: Event): Prepared
    requires IsStored(p, e)
  {
    Prepare(e.ev, p.hook(e.ev).body)
  }

  predicate IsClaimed(p: Pipeline, e: Event) {
    e.Record? && e.ev.key.collection != p.schemaCollection && p.external(e.ev.key.collection).Some?
  }

  /** One event on its own, its writes succeeding. */
  function ApplyOne(p: Pipeline, db: Db, e: Event): Applied {
    if IsStored(p, e) then Applied(WriteOne(db, RecOf(p, e)), Matched, false)
    else if InRun(p, e) then Applied(db, Skipped, false)
    else if IsClaimed(p, e) then
      var key := e.ev.key;
      var (delta, outcome, changed) := p.claimed(e.ev, if key in db.deltas then Some(db.deltas[key]) else None);
      Applied(db.(deltas := if delta.Some? then db.deltas[key := delta.value] else db.deltas - {key}), outcome, changed)
    else p.apart(db, e)
  }

  /** The first `n` events one by one. */
  function OneByOne(p: Pipeline, db: Db, events: seq<Event>, n: nat): Db
    requires n <= |events|
  {
    if n == 0 then db else ApplyOne(p, OneByOne(p, db, events, n - 1), events[n - 1]).db
  }

  /** Events `i` and `j` are of one run: nothing after `i` up to `j` ends it. */
  ghost predicate SameRun(p: Pipeline, events: seq<Event>, i: nat, j: nat)
    requires i < j < |events| && IsStored(p, events[i])
  {
    forall k :: i < k <= j ==>
      InRun(p, events[k]) && (IsStored(p, events[k]) ==> events[k].ev.origin == events[i].ev.origin)
  }

  /** A later copy of event `i`'s record, among the first `n` events, is written
      in the same run. */
  ghost predicate Replaced(p: Pipeline, events: seq<Event>, n: nat, i: nat)
    requires i < n <= |events|
  {
    IsStored(p, events[i]) &&
    exists j :: i < j < n && IsStored(p, events[j]) && events[j].ev.key == events[i].ev.key && SameRun(p, events, i, j)
  }

  /** The first `m` events one by one, leaving out those that a later copy among
      the first `n` replaces. */
  ghost function Kept(p: Pipeline, db: Db, events: seq<Event>, n: nat, m: nat): Db
    requires m <= n <= |events|
  {
    if m == 0 then db
    else
      var before := Kept(p, db, events, n, m - 1);
      if Replaced(p, events, n, m - 1) then before else ApplyOne(p, before, events[m - 1]).db
  }

  /** Without two copies of a record in one run, nothing is left out. */
  lemma {:induction false} NothingReplaced(p: Pipeline, db: Db, events: seq<Event>, n: nat, m: nat)
    requires m <= n <= |events| && forall i :: 0 <= i < n ==> !Replaced(p, events, n, i)
    ensures Kept(p, db, events, n, m) == OneByOne(p, db, events, m)
  {
    if m > 0 { NothingReplaced(p, db, events, n, m - 1); }
  }

  /** No run reaches across `cut`. */
  ghost predicate Cut(p: Pipeline, events: seq<Event>, cut: nat) {
    forall i, j :: 0 <= i < cut <= j < |events| && IsStored(p, events[i]) && IsStored(p, events[j]) ==>
      !SameRun(p, events, i, j)
  }

  /** The stored events from `r` up to `i`, as run entries. */
  function RunOf(p: Pipeline, events: seq<Event>, r: nat, i: nat): seq<RunEntry>
    requires r <= i <= |events|
  {
    if r == i then []
    else
      RunOf(p, events, r, i - 1) +
      if IsStored(p, events[i - 1]) then [RunEntry(i - 1, events[i - 1].ev, RecOf(p, events[i - 1]))] else []
  }

  function Recs(run: seq<RunEntry>): (recs: seq<Prepared>)
    ensures |recs| == |run|
  {
    seq(|run|, q requires 0 <= q < |run| => run[q].rec)
  }

  /** Events from `r` up to `i` are of one run. */
  ghost predicate OneRun(p: Pipeline, events: seq<Event>, r: nat, i: nat)
    requires r <= i <= |events|
  {
    && (forall k :: r <= k < i ==> InRun(p, events[k]))
    && (forall k, l :: r <= k < l < i && IsStored(p, events[k]) && IsStored(p, events[l]) ==>
          events[k].ev.origin == events[l].ev.origin)
  }

  /** An entry is a stored event from `r` up to `i`. */
  predicate IsEntry(p: Pipeline, events: seq<Event>, r: nat, i: nat, entry: RunEntry)
    requires i <= |events|
  {
    && r <= entry.slot < i && IsStored(p, events[entry.slot])
    && entry.ev == events[entry.slot].ev && entry.rec == RecOf(p, events[entry.slot])
  }

  predicate Ordered(run: seq<RunEntry>) {
    forall q, s :: 0 <= q < s < |run| ==> run[q].slot < run[s].slot
  }

  lemma {:induction false} RunEntries(p: Pipeline, events: seq<Event>, r: nat, i: nat)
    requires r <= i <= |events|
    ensures forall e :: e in RunOf(p, events, r, i) ==> IsEntry(p, events, r, i, e)
    ensures Ordered(RunOf(p, events, r, i))
  {
    if r < i {
      var before := RunOf(p, events, r, i - 1);
      RunEntries(p, events, r, i - 1);
      forall e | e in before
        ensures IsEntry(p, events, r, i, e)
      {
        assert IsEntry(p, events, r, i - 1, e);
      }
      if IsStored(p, events[i - 1]) {
        OrderedPush(before, RunEntry(i - 1, events[i - 1].ev, RecOf(p, events[i - 1])));
      } else {
        assert RunOf(p, events, r, i) == before;
      }
    }
  }

  lemma OrderedPush(run: seq<RunEntry>, entry: RunEntry)
    requires Ordered(run) && forall e :: e in run ==> e.slot < entry.slot
    ensures Ordered(run + [entry])
  {
  }

  lemma {:induction false} RunGrows(p: Pipeline, events: seq<Event>, r: nat, m: nat, i: nat)
    requires r <= m <= i <= |events|
    ensures RunOf(p, events, r, m) <= RunOf(p, events, r, i)
  {
    if m < i { RunGrows(p, events, r, m, i - 1); }
  }

  /** Across a cut, what later events replace does not change. */
  lemma {:induction false} KeptAcross(p: Pipeline, db: Db, events: seq<Event>, r: nat, i: nat, m: nat)
    requires m <= r <= i <= |events| && Cut(p, events, r)
    ensures Kept(p, db, events, i, m) == Kept(p, db, events, r, m)
  {
    if m > 0 {
      KeptAcross(p, db, events, r, i, m - 1);
      assert Replaced(p, events, i, m - 1) <==> Replaced(p, events, r, m - 1);
    }
  }

  lemma {:induction false} EntryAt(p: Pipeline, events: seq<Event>, r: nat, m: nat, i: nat)
    requires r <= m < i <= |events| && IsStored(p, events[m])
    ensures var run, c := RunOf(p, events, r, i), |RunOf(p, events, r, m)|;
            c < |run| && run[c] == RunEntry(m, events[m].ev, RecOf(p, events[m]))
  {
    RunGrows(p, events, r, m + 1, i);
    assert RunOf(p, events, r, m + 1)[|RunOf(p, events, r, m)|].slot == m;
  }

  /** In one run, an event is replaced exactly when its record is not the last
      copy of its key. */
  lemma {:induction false} ReplacedInRun(p: Pipeline, events: seq<Event>, r: nat, m: nat, i: nat)
    requires r <= m < i <= |events| && IsStored(p, events[m]) && OneRun(p, events, r, i)
    ensures var recs, c := Recs(RunOf(p, events, r, i)), |RunOf(p, events, r, m)|;
            c < |recs| && recs[c] == RecOf(p, events[m]) && (Replaced(p, events, i, m) <==> !IsLast(recs, c))
  {
    var run, c := RunOf(p, events, r, i), |RunOf(p, events, r, m)|;
    var recs := Recs(run);
    EntryAt(p, events, r, m, i);
    RunEntries(p, events, r, i);
    if Replaced(p, events, i, m) {
      var j :| m < j < i && IsStored(p, events[j]) && events[j].ev.key == events[m].ev.key && SameRun(p, events, m, j);
      var q := |RunOf(p, events, r, j)|;
      EntryAt(p, events, r, j, i);
      assert q > c && recs[q].key == recs[c].key;
    } else {
      forall q | c < q < |recs|
        ensures recs[q].key != recs[c].key
      {
        var j := run[q].slot;
        assert run[q] in run;
        assert m < j < i && SameRun(p, events, m, j);
      }
    }
  }

  lemma {:induction false} RunIsKept(p: Pipeline, db: Db, events: seq<Event>, r: nat, m: nat, i: nat)
    requires r <= m <= i <= |events| && OneRun(p, events, r, i)
    ensures |RunOf(p, events, r, m)| <= |RunOf(p, events, r, i)|
    ensures Kept(p, db, events, i, m) ==
            WriteEach(Kept(p, db, events, i, r), LastCopies(Recs(RunOf(p, events, r, i)), |RunOf(p, events, r, m)|))
  {
    hide IsLast, WriteOne, SameRun;
    RunGrows(p, events, r, m, i);
    if m > r {
      RunIsKept(p, db, events, r, m - 1, i);
      var recs, c := Recs(RunOf(p, events, r, i)), |RunOf(p, events, r, m - 1)|;
      if IsStored(p, events[m - 1]) {
        ReplacedInRun(p, events, r, m - 1, i);
        var copies := LastCopies(recs, c);
        assert (copies + [recs[c]])[..|copies|] == copies;
        assert copies + [] == copies;
      }
    }
  }

  /** Writing the run from `r` to `i` brings the database from the events before
      it to the events up to `i`. */
  lemma {:induction false} FlushAdvances(p: Pipeline, db: Db, events: seq<Event>, r: nat, i: nat)
    requires r <= i <= |events| && OneRun(p, events, r, i) && Cut(p, events, r)
    ensures WriteBatch(Kept(p, db, events, r, r), Recs(RunOf(p, events, r, i))) == Kept(p, db, events, i, i)
  {
    RunIsKept(p, db, events, r, i, i);
    KeptAcross(p, db, events, r, i, r);
  }

  lemma {:induction false} CutAfterBreak(p: Pipeline, events: seq<Event>, i: nat)
    requires i < |events| && !InRun(p, events[i])
    ensures Cut(p, events, i + 1)
  {
  }

  lemma {:induction false} CutAfterSkip(p: Pipeline, events: seq<Event>, i: nat)
    requires i < |events| && Cut(p, events, i) && !IsStored(p, events[i])
    ensures Cut(p, events, i + 1)
  {
  }

  lemma {:induction false} CutAtOrigin(p: Pipeline, events: seq<Event>, r: nat, l: nat, i: nat)
    requires r <= l < i < |events| && Cut(p, events, r) && OneRun(p, events, r, i)
    requires IsStored(p, events[l]) && IsStored(p, events[i]) && events[l].ev.origin != events[i].ev.origin
    ensures Cut(p, events, i)
  {
    forall a, b | 0 <= a < i <= b < |events| && IsStored(p, events[a]) && IsStored(p, events[b])
      ensures !SameRun(p, events, a, b)
    {
      if r <= a {
        assert events[a].ev.origin == events[l].ev.origin;
      }
    }
  }
}
