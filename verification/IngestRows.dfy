/** What a batch leaves in a record's row, by the event itself: its fields, the
    hook's answer, and what the row and the tombstones held before it. */
module IngestRows {
  import opened Wrappers
  import opened RecordWrites
  import opened IngestBatch
  import opened IngestApply

  /** A create or update that has a body, of a tracked collection that is not that
      of the lexicon schemas and no external storage claims. */
  predicate Local(p: Pipeline, e: Event) {
    && e.Record? && e.ev.action != Delete && e.ev.body.Some?
    && p.tracked(e.ev.key.collection) && e.ev.key.collection != p.schemaCollection
    && p.external(e.ev.key.collection) == None
  }

  /** An event of a collection that an external storage claims. */
  predicate External(p: Pipeline, e: Event) {
    e.Record? && e.ev.key.collection != p.schemaCollection && p.external(e.ev.key.collection) != None
  }

  /** The hook stores `body` for the event. */
  predicate StoresBody(p: Pipeline, e: Event, body: int) {
    Local(p, e) && p.hook(e.ev) == Store(body)
  }

  /** The event cannot touch the row of `key`. */
  predicate Spares(p: Pipeline, e: Event, key: RecordKey) {
    External(p, e) || (Local(p, e) && (e.ev.key != key || p.hook(e.ev) == Skip || p.hook(e.ev) == CidMismatch))
  }

  /** A tombstone of the record or of its repository is as new as the event. */
  predicate Buried(db: Db, ev: RecordEvent) {
    || (ev.key in db.recordTombs && (ev.rev == None || db.recordTombs[ev.key] >= ev.rev.value))
    || (ev.key.did in db.didTombs && (ev.rev == None || db.didTombs[ev.key.did] >= ev.rev.value))
  }

  /** The row is of a newer revision than the event. */
  predicate Newer(row: Row, ev: RecordEvent) {
    row.rev != None && ev.rev != None && ev.rev.value < row.rev.value
  }

  /** What an event that stores `body` leaves in its row. */
  ghost predicate Leaves(db: Db, ev: RecordEvent, body: int, after: Option<Row>) {
    var cid := if ev.cid == None then 0 else ev.cid.value;
    if Buried(db, ev) then after == RowOf(db, ev.key)
    else
      match RowOf(db, ev.key)
      case None => after == Some(Row(cid, body, ev.rev, true))
      case Some(row) =>
        if Newer(row, ev) || row == Row(cid, body, row.rev, true) then after == Some(row)
        else after == Some(Row(cid, body, if ev.rev == None then row.rev else ev.rev, true))
  }

  lemma {:induction false} WriteLeaves(p: Pipeline, db: Db, e: Event, body: int)
    requires StoresBody(p, e, body)
    ensures Leaves(db, e.ev, body, RowOf(ApplyOne(p, db, e).db, e.ev.key))
  {
  }

  lemma {:induction false} SparesRow(p: Pipeline, db: Db, e: Event, key: RecordKey)
    requires Spares(p, e, key)
    ensures RowOf(ApplyOne(p, db, e).db, key) == RowOf(db, key)
  {
  }

  lemma {:induction false} SparedUpTo(p: Pipeline, db: Db, events: seq<Event>, k: nat, n: nat, key: RecordKey)
    requires k <= n <= |events| && forall j :: k <= j < n ==> Spares(p, events[j], key)
    ensures RowOf(Before(p, db, events, n), key) == RowOf(Before(p, db, events, k), key)
  {
    hide Replaced, ApplyOne;
    if k < n {
      SparedUpTo(p, db, events, k, n - 1, key);
      SparesRow(p, Before(p, db, events, n - 1), events[n - 1], key);
    }
  }

  lemma NotReplaced(p: Pipeline, events: seq<Event>, k: nat, cut: nat)
    requires k < cut <= |events| && Local(p, events[k]) && Cut(p, events, cut)
    requires forall j :: k < j < cut ==> Spares(p, events[j], events[k].ev.key)
    ensures !Replaced(p, events, |events|, k)
  {
    ReplacedAcross(p, events, cut, k);
  }

  /** After a batch, whole or up to the run whose write failed: the last event that
      can touch a record's row leaves there what it stores, by its own fields and
      the hook's answer. */
  lemma {:induction false} RowIsLastStored(p: Pipeline, db0: Db, events: seq<Event>, db: Db, out: BatchOutcome,
                                           failure: Option<Outcome>, cut: nat, k: nat, body: int)
    requires BatchDone(p, db0, events, db, out, failure, cut) && k < cut
    requires StoresBody(p, events[k], body)
    requires forall j :: k < j < cut ==> Spares(p, events[j], events[k].ev.key)
    ensures var ev := events[k].ev; Leaves(Before(p, db0, events, k), ev, body, RowOf(db, ev.key))
    ensures out.outcomes[k] == Matched
  {
    hide Replaced, ApplyOne, Leaves, StoresBody, Spares;
    StoredIsLocal(p, events[k], body);
    var key, before := events[k].ev.key, Before(p, db0, events, k);
    NotReplaced(p, events, k, cut);
    WriteLeaves(p, before, events[k], body);
    SparedUpTo(p, db0, events, k + 1, cut, key);
    StoredOutcome(p, before, events[k], body);
  }

  lemma StoredIsLocal(p: Pipeline, e: Event, body: int)
    requires StoresBody(p, e, body)
    ensures Local(p, e)
  {
  }

  lemma StoredOutcome(p: Pipeline, db: Db, e: Event, body: int)
    requires StoresBody(p, e, body)
    ensures ApplyOne(p, db, e).outcome == Matched
  {
  }

  /** A record that no event of the batch can touch keeps its row; so the events
      the hook skips, or whose body does not hash to its cid, leave it alone. */
  lemma {:induction false} RowIsSpared(p: Pipeline, db0: Db, events: seq<Event>, db: Db, out: BatchOutcome,
                                       failure: Option<Outcome>, cut: nat, key: RecordKey)
    requires BatchDone(p, db0, events, db, out, failure, cut)
    requires forall j :: 0 <= j < cut ==> Spares(p, events[j], key)
    ensures RowOf(db, key) == RowOf(db0, key)
  {
    hide Replaced, ApplyOne, Spares;
    SparedUpTo(p, db0, events, 0, cut, key);
  }

  /** Events that are neither go to the rest of the system as they are, and claimed
      ones to their storage; what a skipped one is reported as. */
  lemma {:induction false} OtherEvents(p: Pipeline, db0: Db, events: seq<Event>, k: nat)
    requires k < |events|
    ensures var e, before, after := events[k], Before(p, db0, events, k), Before(p, db0, events, k + 1);
            && (!Local(p, e) && !External(p, e) ==>
                  && after == p.apart(before, e).db
                  && OutcomeOf(p, db0, events, k) == p.apart(before, e).outcome
                  && ChangedOf(p, db0, events, k) == p.apart(before, e).changed)
            && (External(p, e) ==>
                  var key := e.ev.key;
                  var (delta, outcome, changed) :=
                    p.claimed(e.ev, if key in before.deltas then Some(before.deltas[key]) else None);
                  && after == before.(deltas := if delta == None then before.deltas - {key}
                                                else before.deltas[key := delta.value])
                  && OutcomeOf(p, db0, events, k) == outcome && ChangedOf(p, db0, events, k) == changed)
            && (Local(p, e) && !p.hook(e.ev).Store? ==>
                  after == before && OutcomeOf(p, db0, events, k) == Skipped && !ChangedOf(p, db0, events, k))
  {
  }

  /** A stored event is flagged exactly when its write changed its row. */
  lemma {:induction false} FlagIsChange(p: Pipeline, db0: Db, events: seq<Event>, k: nat, body: int)
    requires k < |events| && StoresBody(p, events[k], body)
    ensures var key := events[k].ev.key;
            ChangedOf(p, db0, events, k) <==>
            RowOf(Before(p, db0, events, k + 1), key) != RowOf(Before(p, db0, events, k), key)
  {
    hide Replaced;
  }
}
