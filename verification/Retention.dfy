/** Retention of the event log: batched deletes, protected events held while a
    grant they belong to is stored, and passes over and over while the instance
    goes on. */
module Retention {
  import opened Wrappers
  import opened BatchedDelete
  import opened SqlText
  import opened EventFilter

  const SWEEP_BATCH_SIZE: nat := 5000
  const DEFAULT_RETENTION_DAYS: nat := 30
  const DEFAULT_PROTECTED_RETENTION_DAYS: nat := 365

  datatype Grant = Grant(revokedAt: Option<string>, expiresAt: string)

  /** The event log, the access grants, and which events belong to a grant or are
      reads made under one. */
  datatype Tables = Tables(
    events: map<int, Event>,
    grants: map<int, Grant>,
    grantEvents: set<(int, int)>,
    readEvents: set<(int, int)>)

  /** What the instance does meanwhile. An event is never changed once written. A
      purge job deletes some of the events its filter selects, with the protected
      ones left out whatever its input says. */
  datatype Change =
    | AddEvent(id: int, event: Event)
    | PutGrant(id: int, grant: Grant)
    | LinkEvent(grantId: int, eventId: int)
    | LinkRead(grantId: int, eventId: int)
    | Purge(fold: bool, filter: Filter, ids: set<int>)

  /** What happens around a pass. `steps[t]` lands just before its `t`-th
      statement, and `faults` are the statements that fail. */
  datatype Env = Env(steps: seq<seq<Change>>, faults: set<nat>)

  /** An instance setting: missing, not a number, or days. */
  datatype Setting = Unset | NotANumber | Days(days: nat)

  /** A sweep of events: the days it keeps, its cutoff, and whether it is the one
      for protected events. */
  datatype Sweep = Sweep(days: nat, cutoff: string, protected: bool)

  /** What happened to the tables: the instance's changes, a batch of events a sweep
      removed, a batch of ended grants. */
  datatype Entry =
    | Landed(changes: seq<Change>)
    | Swept(sweep: Sweep, ids: set<int>)
    | SweptGrants(days: nat, cutoff: string, ids: set<int>)

  function Apply(t: Tables, change: Change): Tables {
    match change
    case AddEvent(id, event) => if id in t.events then t else t.(events := t.events[id := event])
    case PutGrant(id, grant) => t.(grants := t.grants[id := grant])
    case LinkEvent(g, e) => t.(grantEvents := t.grantEvents + {(g, e)})
    case LinkRead(g, e) => t.(readEvents := t.readEvents + {(g, e)})
    case Purge(_, _, ids) => Without(t, set id | id in ids && id in t.events && Purges(change, t.events[id]))
  }

  /** Whether the purge job's filter selects the event. */
  predicate Purges(change: Change, event: Event) {
    change.Purge? && Selects(change.fold, change.filter.(protected := Exclude), event)
  }

  lemma PurgeSparesProtected(change: Change, event: Event)
    requires Purges(change, event)
    ensures !IsProtected(event.eventType)
  {
  }

  function ApplyAll(t: Tables, changes: seq<Change>): Tables {
    if changes == [] then t
    else Apply(ApplyAll(t, changes[..|changes| - 1]), changes[|changes| - 1])
  }

  /** Whether the event belongs to a grant that is still stored. */
  predicate Held(t: Tables, id: int) {
    exists g :: g in t.grants && ((g, id) in t.grantEvents || (g, id) in t.readEvents)
  }

  predicate Ended(grant: Grant, cutoff: string) {
    (grant.revokedAt.Some? && Less(grant.revokedAt.value, cutoff)) || Less(grant.expiresAt, cutoff)
  }

  /** Settings resolved to days; 0 keeps everything. */
  function GeneralDays(setting: Setting): nat {
    if setting.Days? then setting.days else DEFAULT_RETENTION_DAYS
  }

  function EffectiveProtectedRetention(general: nat, setting: Setting): nat {
    if setting.Days? then setting.days
    else if general == 0 then 0
    else DEFAULT_PROTECTED_RETENTION_DAYS
  }

  predicate Sweeps(t: Tables, sweep: Sweep, id: int)
    requires id in t.events
  {
    && Less(t.events[id].createdAt, sweep.cutoff)
    && IsProtected(t.events[id].eventType) == sweep.protected
    && (sweep.protected ==> !Held(t, id))
  }

  function SweptBy(t: Tables, sweep: Sweep): set<int> {
    set id | id in t.events && Sweeps(t, sweep, id)
  }

  function Without(t: Tables, ids: set<int>): Tables {
    t.(events := map id | id in t.events && id !in ids :: t.events[id])
  }

  function WithoutGrants(t: Tables, ids: set<int>): Tables {
    t.(grants := map id | id in t.grants && id !in ids :: t.grants[id])
  }

  function EndedBy(t: Tables, cutoff: string): set<int> {
    set id | id in t.grants && Ended(t.grants[id], cutoff)
  }

  // ---- The history of the tables ----

  function Step(t: Tables, entry: Entry): Tables {
    match entry
    case Landed(changes) => ApplyAll(t, changes)
    case Swept(_, ids) => Without(t, ids)
    case SweptGrants(_, _, ids) => WithoutGrants(t, ids)
  }

  function Replay(t: Tables, log: seq<Entry>): Tables {
    if log == [] then t else Step(Replay(t, log[..|log| - 1]), log[|log| - 1])
  }

  /** A batch takes only events older than its sweep's cutoff, of its kind and, when
      protected, held by no stored grant; or only grants that ended before it. */
  predicate Lawful(t: Tables, entry: Entry) {
    match entry
    case Landed(_) => true
    case Swept(sweep, ids) => sweep.days > 0 && ids <= SweptBy(t, sweep)
    case SweptGrants(days, cutoff, ids) => days > 0 && ids <= EndedBy(t, cutoff)
  }

  predicate AllLawful(t: Tables, log: seq<Entry>) {
    log == [] ||
    (AllLawful(t, log[..|log| - 1]) && Lawful(Replay(t, log[..|log| - 1]), log[|log| - 1]))
  }

  /** How many rows the sweeps in the history removed. */
  function Removed(log: seq<Entry>): nat {
    if log == [] then 0
    else
      Removed(log[..|log| - 1]) +
      match log[|log| - 1]
      case Landed(_) => 0
      case Swept(_, ids) => |ids|
      case SweptGrants(_, _, ids) => |ids|
  }

  lemma {:induction false} RemovedNext(log: seq<Entry>, entry: Entry)
    ensures Removed(log + [entry]) ==
            Removed(log) + if entry.Landed? then 0 else |entry.ids|
  {
    assert (log + [entry])[..|log|] == log;
  }

  lemma {:induction false} LogNext(t: Tables, log: seq<Entry>, entry: Entry)
    requires AllLawful(t, log) && Lawful(Replay(t, log), entry)
    ensures AllLawful(t, log + [entry]) && Replay(t, log + [entry]) == Step(Replay(t, log), entry)
  {
    assert (log + [entry])[..|log|] == log;
  }

  /** One of the changes is a purge that took event `id`. */
  ghost predicate PurgedIn(changes: seq<Change>, id: int, event: Event) {
    exists change :: change in changes && change.Purge? && id in change.ids && Purges(change, event)
  }

  lemma {:induction false} ChangesKeepEvents(t: Tables, changes: seq<Change>)
    ensures var u := ApplyAll(t, changes);
            forall id :: id in t.events ==>
              (id in u.events && u.events[id] == t.events[id]) || PurgedIn(changes, id, t.events[id])
    ensures forall id :: id in t.grants ==> id in ApplyAll(t, changes).grants
  {
    hide Purges;
    if changes != [] {
      var n := |changes| - 1;
      var before := changes[..n];
      ChangesKeepEvents(t, before);
      forall id | id in t.events && PurgedIn(before, id, t.events[id])
        ensures PurgedIn(changes, id, t.events[id])
      {
        var change :| change in before && change.Purge? && id in change.ids && Purges(change, t.events[id]);
        assert change in changes;
      }
      assert changes[n] in changes;
    }
  }

  /** At entry `j` a sweep took event `id`: older than its cutoff and, if protected,
      held by no grant stored then. */
  ghost predicate WentAt(t: Tables, log: seq<Entry>, j: nat, id: int, event: Event) {
    && j < |log| && log[j].Swept? && id in log[j].ids
    && var was, sweep := Replay(t, log[..j]), log[j].sweep;
       && id in was.events && was.events[id] == event && sweep.days > 0
       && Less(event.createdAt, sweep.cutoff) && IsProtected(event.eventType) == sweep.protected
       && (sweep.protected ==>
             forall g :: g in was.grants ==> (g, id) !in was.grantEvents && (g, id) !in was.readEvents)
  }

  /** At entry `j` a purge job took event `id`, which is not protected. */
  ghost predicate PurgedAt(t: Tables, log: seq<Entry>, j: nat, id: int, event: Event) {
    && j < |log| && log[j].Landed? && PurgedIn(log[j].changes, id, event)
    && var was := Replay(t, log[..j]); id in was.events && was.events[id] == event && !IsProtected(event.eventType)
  }

  /** A sweep or a purge job took event `id`, at entry `j`. */
  ghost predicate GoneAt(t: Tables, log: seq<Entry>, j: nat, id: int, event: Event) {
    WentAt(t, log, j, id, event) || PurgedAt(t, log, j, id, event)
  }

  ghost predicate GrantWentAt(t: Tables, log: seq<Entry>, j: nat, id: int) {
    && j < |log| && log[j].SweptGrants? && id in log[j].ids
    && var was := Replay(t, log[..j]);
       id in was.grants && log[j].days > 0 && Over(was.grants[id], log[j].cutoff)
  }

  lemma WentEarlier(t: Tables, log: seq<Entry>, n: nat, j: nat)
    requires j < n <= |log|
    ensures forall id, event :: GoneAt(t, log[..n], j, id, event) ==> GoneAt(t, log, j, id, event)
    ensures forall id :: GrantWentAt(t, log[..n], j, id) ==> GrantWentAt(t, log, j, id)
  {
    assert log[..n][..j] == log[..j] && log[..n][j] == log[j];
  }

  /** From any point of the history on, an event that was there is there still and
      unchanged, or a sweep or a purge job took it. */
  lemma {:induction false} EventFate(t: Tables, log: seq<Entry>, i: nat, id: int)
    requires AllLawful(t, log) && i <= |log| && id in Replay(t, log[..i]).events
    ensures var event, now := Replay(t, log[..i]).events[id], Replay(t, log).events;
            (id in now && now[id] == event) || exists j: nat :: i <= j && GoneAt(t, log, j, id, event)
  {
    hide Less, IsProtected, Held, ApplyAll;
    var n := |log|;
    if i == n {
      assert log[..i] == log;
    } else {
      var before, event := log[..n - 1], Replay(t, log[..i]).events[id];
      assert before[..i] == log[..i];
      EventFate(t, before, i, id);
      if j: nat :| i <= j && GoneAt(t, before, j, id, event) {
        WentEarlier(t, log, n - 1, j);
        assert GoneAt(t, log, j, id, event);
      } else {
        StepFate(t, log, id, event);
      }
    }
  }

  lemma NotHeld(t: Tables, id: int)
    requires !Held(t, id)
    ensures forall g :: g in t.grants ==> (g, id) !in t.grantEvents && (g, id) !in t.readEvents
  {
  }

  lemma IsHeld(t: Tables, id: int)
    requires forall g :: g in t.grants ==> (g, id) !in t.grantEvents && (g, id) !in t.readEvents
    ensures !Held(t, id)
  {
  }

  lemma {:induction false} StepFate(t: Tables, log: seq<Entry>, id: int, event: Event)
    requires log != [] && AllLawful(t, log)
    requires var was := Replay(t, log[..|log| - 1]).events; id in was && was[id] == event
    ensures var now := Replay(t, log).events;
            (id in now && now[id] == event) || GoneAt(t, log, |log| - 1, id, event)
  {
    hide Less, IsProtected, Held, ApplyAll, Purges;
    var was, entry := Replay(t, log[..|log| - 1]), log[|log| - 1];
    match entry
    case Landed(changes) =>
      ChangesKeepEvents(was, changes);
      if change :| change in changes && change.Purge? && id in change.ids && Purges(change, event) {
        PurgeSparesProtected(change, event);
        assert PurgedIn(changes, id, event);
      }
    case Swept(sweep, ids) =>
      if id in ids {
        assert id in SweptBy(was, sweep);
        if sweep.protected { NotHeld(was, id); }
      }
    case SweptGrants(_, _, _) =>
  }

  /** Ended before the cutoff, as the grant's own record says. */
  predicate Over(grant: Grant, cutoff: string) {
    Less(grant.expiresAt, cutoff) || (grant.revokedAt.Some? && Less(grant.revokedAt.value, cutoff))
  }

  lemma EndedIsOver(grant: Grant, cutoff: string)
    ensures Ended(grant, cutoff) <==> Over(grant, cutoff)
  {
  }

  /** A grant that was stored is stored still, or a sweep took it after it ended. */
  lemma {:induction false} GrantFate(t: Tables, log: seq<Entry>, i: nat, id: int)
    requires AllLawful(t, log) && i <= |log| && id in Replay(t, log[..i]).grants
    ensures id in Replay(t, log).grants || exists j: nat :: i <= j && GrantWentAt(t, log, j, id)
  {
    hide Ended, ApplyAll;
    var n := |log|;
    if i == n {
      assert log[..i] == log;
    } else {
      var before := log[..n - 1];
      assert before[..i] == log[..i];
      GrantFate(t, before, i, id);
      if j: nat :| i <= j && GrantWentAt(t, before, j, id) {
        WentEarlier(t, log, n - 1, j);
        assert GrantWentAt(t, log, j, id);
      } else {
        var was, entry := Replay(t, before), log[n - 1];
        match entry
        case Landed(changes) => ChangesKeepEvents(was, changes);
        case Swept(_, _) =>
        case SweptGrants(_, cutoff, ids) =>
          if id in ids {
            assert id in EndedBy(was, cutoff);
            EndedIsOver(was.grants[id], cutoff);
            assert GrantWentAt(t, log, n - 1, id);
          }
      }
    }
  }

  /** Over the whole history: a protected event that is no longer there was older
      than a protected cutoff and tied to no stored grant when it last went. */
  lemma {:induction false} ProtectedGoesOnlyWhenFree(t: Tables, log: seq<Entry>, i: nat, id: int)
    requires AllLawful(t, log) && i <= |log| && id in Replay(t, log[..i]).events
    requires IsProtected(Replay(t, log[..i]).events[id].eventType) && id !in Replay(t, log).events
    ensures exists j: nat :: i <= j < |log| && log[j].Swept? && id in log[j].ids && log[j].sweep.protected
                             && Less(Replay(t, log[..i]).events[id].createdAt, log[j].sweep.cutoff)
                             && !Held(Replay(t, log[..j]), id)
  {
    hide Less, IsProtected, Held, Replay, AllLawful;
    EventFate(t, log, i, id);
    var j: nat :| i <= j && GoneAt(t, log, j, id, Replay(t, log[..i]).events[id]);
    assert i <= j < |log| && log[j].Swept?;
    IsHeld(Replay(t, log[..j]), id);
  }

  /** From entry `from` on, nothing is removed but by `sweep`. */
  ghost predicate OnlySweep(log: seq<Entry>, from: nat, sweep: Sweep) {
    forall i :: from <= i < |log| ==> log[i].Landed? || (log[i].Swept? && log[i].sweep == sweep)
  }

  ghost predicate OnlyGrants(log: seq<Entry>, from: nat, days: nat, cutoff: string) {
    forall i :: from <= i < |log| ==>
      log[i].Landed? || (log[i].SweptGrants? && log[i].days == days && log[i].cutoff == cutoff)
  }

  lemma {:induction false} SweepStays(t: Tables, batch: set<int>, sweep: Sweep)
    ensures SweptBy(Without(t, batch), sweep) == SweptBy(t, sweep) - batch
  {
    var u := Without(t, batch);
    assert forall id :: Held(u, id) <==> Held(t, id);
  }

  /** Every event of the sweep's kind that is older than its cutoff is protected and
      belongs to a stored grant. */
  ghost predicate Drained(t: Tables, sweep: Sweep) {
    forall id :: id in t.events && IsProtected(t.events[id].eventType) == sweep.protected
                 && Less(t.events[id].createdAt, sweep.cutoff) ==>
      sweep.protected && exists g :: g in t.grants && ((g, id) in t.grantEvents || (g, id) in t.readEvents)
  }

  lemma {:induction false} DrainedExactly(t: Tables, sweep: Sweep)
    ensures Drained(t, sweep) <==> SweptBy(t, sweep) == {}
  {
    hide Less, IsProtected;
    if SweptBy(t, sweep) == {} {
      assert forall id :: id in t.events ==> id !in SweptBy(t, sweep);
    }
  }

  /** No stored grant ended before the cutoff. */
  ghost predicate GrantsDrained(t: Tables, cutoff: string) {
    forall id :: id in t.grants ==> !Over(t.grants[id], cutoff)
  }

  lemma {:induction false} GrantsDrainedExactly(t: Tables, cutoff: string)
    ensures GrantsDrained(t, cutoff) <==> EndedBy(t, cutoff) == {}
  {
    hide Ended, Over;
    forall id | id in t.grants
      ensures id in EndedBy(t, cutoff) <==> Over(t.grants[id], cutoff)
    {
      EndedIsOver(t.grants[id], cutoff);
    }
    if GrantsDrained(t, cutoff) {
      assert forall id :: id !in EndedBy(t, cutoff);
    }
  }

  lemma QuietSteps(env: Env, start: nat)
    ensures Quiet(env, start) ==> |env.steps| <= start && forall t :: t !in env.faults
  {
  }

  class EventLogs {
    /** The timestamp so many days before the n-th time the clock is read. */
    const ago: (nat, nat) -> string
    /** Whether LIKE folds case. */
    const fold: bool
    var tables: Tables
    var samples: nat
    /** What the tables held at first, and all that has happened to them since. */
    ghost var start: Tables
    ghost var log: seq<Entry>

    /** The tables are what their history makes them, and no removal in it was out
        of turn. */
    ghost predicate Valid()
      reads `tables, `start, `log
    {
      tables == Replay(start, log) && AllLawful(start, log)
    }

    method Await(env: Env, clock: nat) returns (failed: bool)
      requires Valid()
      modifies `tables, `log
      ensures Valid()
      ensures if clock < |env.steps| then log == old(log) + [Landed(env.steps[clock])]
              else log == old(log) && tables == old(tables)
      ensures failed == (clock in env.faults) && Removed(log) == Removed(old(log))
    {
      hide AllLawful, Replay, ApplyAll, Removed;
      if clock < |env.steps| {
        RemovedNext(log, Landed(env.steps[clock]));
        LogNext(start, log, Landed(env.steps[clock]));
        tables := ApplyAll(tables, env.steps[clock]);
        log := log + [Landed(env.steps[clock])];
      }
      failed := clock in env.faults;
    }

    /** One batch of `delete_before`: up to so many of the rows the compiled filter
        selects, less those held. */
    method DeleteBatch(sweep: Sweep, frag: Fragment) returns (affected: nat, ghost batch: set<int>)
      requires Valid() && sweep.days > 0 && Compiles(fold, frag, FilterOf(sweep))
      modifies `tables, `log
      ensures Valid() && log == old(log) + [Swept(sweep, batch)]
      ensures batch <= SweptBy(old(tables), sweep) && affected == |batch| <= SWEEP_BATCH_SIZE
      ensures affected < SWEEP_BATCH_SIZE ==> batch == SweptBy(old(tables), sweep)
      ensures tables == Without(old(tables), batch) && Removed(log) == Removed(old(log)) + affected
    {
      hide Less, IsProtected, Held, Where, Without, AllLawful, Replay, Removed;
      var selected := set id | id in tables.events
                               && Where(fold, frag.sql, frag.binds, tables.events[id]) == Some(true)
                               && (sweep.protected ==> !Held(tables, id));
      assert selected == SweptBy(tables, sweep);
      affected := if |selected| < SWEEP_BATCH_SIZE then |selected| else SWEEP_BATCH_SIZE;
      ghost var some := SomeOf(selected, affected);
      var taken :| taken <= selected && |taken| == affected;
      if affected < SWEEP_BATCH_SIZE { AllOfThem(taken, selected); }
      batch := taken;
      LogNext(start, log, Swept(sweep, taken));
      RemovedNext(log, Swept(sweep, taken));
      tables := Without(tables, taken);
      log := log + [Swept(sweep, taken)];
    }

    /** One turn of `delete_before`: the instance goes on, then a batch is deleted,
        or fails. */
    method SweepOnce(sweep: Sweep, frag: Fragment, env: Env, clock: nat)
      returns (affected: nat, failed: bool, ghost batch: set<int>)
      requires Valid() && sweep.days > 0 && Compiles(fold, frag, FilterOf(sweep))
      modifies `tables, `log
      ensures Valid() && old(log) <= log && OnlySweep(log, |old(log)|, sweep)
      ensures failed == (clock in env.faults) && affected == |batch| <= SWEEP_BATCH_SIZE
      ensures Removed(log) == Removed(old(log)) + affected
      ensures !failed && affected < SWEEP_BATCH_SIZE ==> SweptBy(tables, sweep) == {}
      ensures clock >= |env.steps| ==>
                && batch <= SweptBy(old(tables), sweep) && tables == Without(old(tables), batch)
                && (!failed && affected < SWEEP_BATCH_SIZE ==> batch == SweptBy(old(tables), sweep))
                && (if batch == {} then tables == old(tables) else |tables.events| < |old(tables).events|)
    {
      hide SweptBy, Without, ApplyAll, Compiles, Valid, Removed;
      affected, batch := 0, {};
      WithoutNone(tables);
      failed := Await(env, clock);
      if failed {
        return;
      }
      ghost var was := tables;
      affected, batch := DeleteBatch(sweep, frag);
      if batch != {} { BatchShrinks(was, batch, sweep); }
      SweepStays(was, batch, sweep);
    }

    /** `delete_before`: batches until one comes up short, or fails. */
    method DeleteBefore(sweep: Sweep, env: Env, from: nat) returns (deleted: nat, clock: nat)
      requires Valid() && sweep.days > 0
      modifies `tables, `log
      ensures Valid() && old(log) <= log && OnlySweep(log, |old(log)|, sweep)
      // Unless its last statement failed, nothing it sweeps is left, whatever landed
      // meanwhile; it counts what it removed.
      ensures from < clock && (clock - 1 !in env.faults ==> SweptBy(tables, sweep) == {} && Drained(tables, sweep))
      ensures deleted == Removed(log) - Removed(old(log))
      ensures Quiet(env, from) ==>
                tables == Without(old(tables), SweptBy(old(tables), sweep)) && deleted == |SweptBy(old(tables), sweep)|
    {
      hide SweptBy, Without, Compiles, Quiet, Valid, Removed, Drained;
      var frag := Build(FilterOf(sweep));
      BuildCompiles(fold, frag, FilterOf(sweep));
      deleted, clock := 0, from;
      ghost var first, taken, quiet := SweptBy(tables, sweep), {}, Quiet(env, from);
      QuietSteps(env, from);
      WithoutNone(tables);
      var affected := SWEEP_BATCH_SIZE;
      while affected == SWEEP_BATCH_SIZE
        invariant from <= clock && affected <= SWEEP_BATCH_SIZE
        invariant Valid() && old(log) <= log && OnlySweep(log, |old(log)|, sweep)
        invariant deleted == Removed(log) - Removed(old(log))
        invariant affected < SWEEP_BATCH_SIZE ==> from < clock && SweptBy(tables, sweep) == {}
        invariant quiet ==> tables == Without(old(tables), taken) && taken <= first && deleted == |taken|
        invariant quiet && affected < SWEEP_BATCH_SIZE ==> taken == first
        decreases if clock < |env.steps| then |env.steps| - clock else 0, |tables.events|, affected
      {
        ghost var batch;
        var failed;
        affected, failed, batch := SweepOnce(sweep, frag, env, clock);
        deleted, clock := deleted + affected, clock + 1;
        if quiet {
          SweepStays(old(tables), taken, sweep);
          WithoutBoth(old(tables), taken, batch);
          taken := taken + batch;
        }
        if failed {
          break;
        }
      }
      DrainedExactly(tables, sweep);
    }

    /** `delete_expired_events`: each kind of event by its own days; 0 skips it. */
    method DeleteExpiredEvents(days: nat, protectedDays: nat, env: Env, from: nat)
      returns (deleted: nat, clock: nat, ghost general: Sweep, ghost guarded: Sweep)
      requires Valid()
      modifies `tables, `log, `samples
      ensures Valid() && old(log) <= log && from <= clock && deleted == Removed(log) - Removed(old(log))
      ensures IsSweep(general, days, false) && IsSweep(guarded, protectedDays, true)
      ensures forall i :: |old(log)| <= i < |log| ==>
                log[i].Landed? || (log[i].Swept? && log[i].sweep in {general, guarded})
      ensures Quiet(env, from) ==>
                && tables == SweptTables(SweptTables(old(tables), general), guarded)
                && deleted == SweptCount(old(tables), general) + SweptCount(SweptTables(old(tables), general), guarded)
    {
      hide SweptBy, Without, Valid, Removed;
      deleted, clock := 0, from;
      general, guarded := Sweep(days, ago(samples, days), false), Sweep(protectedDays, "", true);
      if days > 0 {
        var cutoff := ago(samples, days);
        samples := samples + 1;
        deleted, clock := DeleteBefore(Sweep(days, cutoff, false), env, clock);
      }
      guarded := guarded.(cutoff := ago(samples, protectedDays));
      if protectedDays > 0 {
        var cutoff := ago(samples, protectedDays);
        samples := samples + 1;
        var more;
        more, clock := DeleteBefore(Sweep(protectedDays, cutoff, true), env, clock);
        deleted := deleted + more;
      }
    }

    ghost predicate IsSweep(sweep: Sweep, days: nat, protected: bool) {
      sweep.days == days && sweep.protected == protected && exists n: nat :: sweep.cutoff == ago(n, days)
    }

    /** One batch of ended grants. */
    method DeleteGrantBatch(days: nat, cutoff: string) returns (affected: nat, ghost batch: set<int>)
      requires Valid() && days > 0
      modifies `tables, `log
      ensures Valid() && log == old(log) + [SweptGrants(days, cutoff, batch)]
      ensures batch <= EndedBy(old(tables), cutoff) && affected == |batch| <= SWEEP_BATCH_SIZE
      ensures affected < SWEEP_BATCH_SIZE ==> batch == EndedBy(old(tables), cutoff)
      ensures tables == WithoutGrants(old(tables), batch) && Removed(log) == Removed(old(log)) + affected
    {
      hide Ended, WithoutGrants, AllLawful, Replay, Removed;
      var selected := set id | id in tables.grants && Ended(tables.grants[id], cutoff);
      affected := if |selected| < SWEEP_BATCH_SIZE then |selected| else SWEEP_BATCH_SIZE;
      ghost var some := SomeOf(selected, affected);
      var taken :| taken <= selected && |taken| == affected;
      if affected < SWEEP_BATCH_SIZE { AllOfThem(taken, selected); }
      batch := taken;
      LogNext(start, log, SweptGrants(days, cutoff, taken));
      RemovedNext(log, SweptGrants(days, cutoff, taken));
      tables := WithoutGrants(tables, taken);
      log := log + [SweptGrants(days, cutoff, taken)];
    }

    /** One turn of the sweep of grants: the instance goes on, then a batch is
        deleted, or fails. */
    method SweepGrantsOnce(days: nat, cutoff: string, env: Env, clock: nat)
      returns (affected: nat, failed: bool, ghost batch: set<int>)
      requires Valid() && days > 0
      modifies `tables, `log
      ensures Valid() && old(log) <= log && OnlyGrants(log, |old(log)|, days, cutoff)
      ensures failed == (clock in env.faults) && affected == |batch| <= SWEEP_BATCH_SIZE
      ensures Removed(log) == Removed(old(log)) + affected
      ensures !failed && affected < SWEEP_BATCH_SIZE ==> EndedBy(tables, cutoff) == {}
      ensures clock >= |env.steps| ==>
                && batch <= EndedBy(old(tables), cutoff) && tables == WithoutGrants(old(tables), batch)
                && (!failed && affected < SWEEP_BATCH_SIZE ==> batch == EndedBy(old(tables), cutoff))
                && (if batch == {} then tables == old(tables) else |tables.grants| < |old(tables).grants|)
    {
      hide EndedBy, WithoutGrants, ApplyAll, Valid, Removed;
      affected, batch := 0, {};
      WithoutNoGrants(tables);
      failed := Await(env, clock);
      if failed {
        return;
      }
      ghost var was := tables;
      affected, batch := DeleteGrantBatch(days, cutoff);
      if batch != {} { GrantBatchShrinks(was, batch, cutoff); } else { WithoutNoGrants(was); }
      EndedStays(was, batch, {}, cutoff);
    }

    /** `sweep_ended_access_grants`; 0 keeps them. An error ends it early. */
    method SweepEndedGrants(days: nat, env: Env, from: nat)
      returns (deleted: Option<nat>, clock: nat, ghost cutoff: string)
      requires Valid()
      modifies `tables, `log, `samples
      ensures Valid() && old(log) <= log && from <= clock
      ensures exists n: nat :: cutoff == ago(n, days)
      ensures OnlyGrants(log, |old(log)|, days, cutoff)
      // Without an error no ended grant is left, whatever landed meanwhile.
      ensures deleted.Some? ==>
                && deleted.value == Removed(log) - Removed(old(log))
                && (days > 0 ==> EndedBy(tables, cutoff) == {} && GrantsDrained(tables, cutoff))
      ensures deleted.None? ==> from < clock && clock - 1 in env.faults
      ensures Quiet(env, from) ==>
                && tables == GrantsSwept(old(tables), days, cutoff)
                && deleted == Some(if days == 0 then 0 else |EndedBy(old(tables), cutoff)|)
    {
      hide EndedBy, WithoutGrants, Valid, Quiet, Removed, GrantsDrained;
      deleted, clock, cutoff := Some(0), from, ago(samples, days);
      if days == 0 {
        return;
      }
      var count: nat := 0;
      var limit := ago(samples, days);
      samples := samples + 1;
      ghost var first, taken, quiet := EndedBy(tables, limit), {}, Quiet(env, from);
      QuietSteps(env, from);
      WithoutNoGrants(tables);
      var affected := SWEEP_BATCH_SIZE;
      while affected == SWEEP_BATCH_SIZE
        invariant from <= clock && affected <= SWEEP_BATCH_SIZE
        invariant Valid() && old(log) <= log && OnlyGrants(log, |old(log)|, days, limit)
        invariant count == Removed(log) - Removed(old(log))
        invariant affected < SWEEP_BATCH_SIZE ==> EndedBy(tables, limit) == {}
        invariant quiet ==> tables == WithoutGrants(old(tables), taken) && taken <= first && count == |taken|
        invariant quiet && affected < SWEEP_BATCH_SIZE ==> taken == first
        decreases if clock < |env.steps| then |env.steps| - clock else 0, |tables.grants|, affected
      {
        ghost var batch;
        var failed;
        affected, failed, batch := SweepGrantsOnce(days, limit, env, clock);
        count, clock := count + affected, clock + 1;
        if failed {
          return None, clock, cutoff;
        }
        if quiet {
          EndedStays(old(tables), taken, batch, limit);
          taken := taken + batch;
        }
      }
      deleted := Some(count);
      GrantsDrainedExactly(tables, limit);
    }

    /** `retention_pass`, as far as events and grants go: ended grants first, so that
        the events they held can go in the same pass. */
    method RetentionPass(settings: Settings, env: Env)
      returns (ghost grantCutoff: string, ghost general: Sweep, ghost guarded: Sweep)
      requires Valid()
      modifies `tables, `log, `samples
      ensures Valid() && old(log) <= log
      ensures IsSweep(general, GeneralDaysOf(settings), false) && IsSweep(guarded, ProtectedDaysOf(settings), true)
      ensures exists n: nat :: grantCutoff == ago(n, ProtectedDaysOf(settings))
      ensures PassOnly(log, |old(log)|, grantCutoff, general, guarded)
      // By the settings: unprotected events for the days set, or 30, under the host's
      // ceiling; protected ones and grants for the days set for them, which no
      // ceiling lowers, or 365, or for good where everything is kept.
      ensures general.days == settings.cap(if settings.general.Days? then settings.general.days else 30)
      ensures settings.protected.Days? ==> guarded.days == settings.protected.days
      ensures !settings.protected.Days? && settings.general == Days(0) ==> guarded.days == 0
      ensures !settings.protected.Days? && settings.general != Days(0) ==> guarded.days == 365
      ensures guarded.days == 0 ==> NoneProtectedTaken(log, |old(log)|) && KeepsProtected(old(tables), tables)
      ensures general.days == 0 ==>
                forall i :: |old(log)| <= i < |log| && log[i].Swept? && log[i].ids != {} ==> log[i].sweep.protected
      ensures Quiet(env, 0) ==> tables == PassTables(old(tables), grantCutoff, general, guarded)
    {
      hide SweptTables, GrantsSwept, Valid, KeepsProtected, NoneProtectedTaken, PassOnly, OnlyGrants, Replay, AllLawful,
           Drained, GrantsDrained, EndedBy, Removed;
      ValidMeans();
      var configured := GeneralDays(settings.general);
      var protectedDays := EffectiveProtectedRetention(configured, settings.protected);
      var days := settings.cap(configured);
      var clock, grants, events;
      grants, clock, grantCutoff := SweepEndedGrants(protectedDays, env, 0);
      ghost var middle := log;
      events, clock, general, guarded := DeleteExpiredEvents(days, protectedDays, env, clock);
      ghost var from := |old(log)|;
      PassJoins(middle, log, from, grantCutoff, general, guarded);
      ValidMeans();
      OldLog(log, old(log));
      if general.days == 0 { NoGeneral(start, log, from, grantCutoff, general, guarded); }
      if guarded.days == 0 { NoGuarded(start, log, from, grantCutoff, general, guarded); }
    }

    /** Passes one after another, each with its own settings, changes and faults. An
        event that was there is there still, or a sweep since took it lawfully, or a
        purge job did and it is not protected. A grant that was there is there, or a
        sweep took it once it had ended. */
    method Passes(settings: seq<Settings>, envs: seq<Env>)
      requires Valid() && |settings| == |envs|
      modifies `tables, `log, `samples
      ensures Valid() && old(log) <= log
      ensures forall id :: id in old(tables).events ==>
                || (id in tables.events && tables.events[id] == old(tables).events[id])
                || exists j: nat :: |old(log)| <= j && GoneAt(start, log, j, id, old(tables).events[id])
      ensures forall id :: id in old(tables).grants ==>
                id in tables.grants || exists j: nat :: |old(log)| <= j && GrantWentAt(start, log, j, id)
    {
      hide Valid, GoneAt, GrantWentAt, Replay, AllLawful;
      ValidMeans();
      ghost var n := |log|;
      for i := 0 to |envs|
        invariant Valid() && old(log) <= log
      {
        ghost var c, g, p := RetentionPass(settings[i], envs[i]);
      }
      ValidMeans();
      assert log[..n] == old(log);
      forall id | id in old(tables).events
        ensures || (id in tables.events && tables.events[id] == old(tables).events[id])
                || exists j: nat :: n <= j && GoneAt(start, log, j, id, old(tables).events[id])
      {
        EventFate(start, log, n, id);
      }
      forall id | id in old(tables).grants
        ensures id in tables.grants || exists j: nat :: n <= j && GrantWentAt(start, log, j, id)
      {
        GrantFate(start, log, n, id);
      }
    }

    lemma ValidMeans()
      requires Valid()
      ensures tables == Replay(start, log) && AllLawful(start, log)
    {
    }
  }

  /** What a pass runs under: the settings, and the host's ceiling on days. */
  datatype Settings = Settings(general: Setting, protected: Setting, cap: nat -> nat)

  function GeneralDaysOf(s: Settings): nat { s.cap(GeneralDays(s.general)) }

  function ProtectedDaysOf(s: Settings): nat {
    EffectiveProtectedRetention(GeneralDays(s.general), s.protected)
  }

  /** From entry `from` on, only a pass's own sweeps remove anything. */
  ghost predicate PassOnly(log: seq<Entry>, from: nat, grantCutoff: string, general: Sweep, guarded: Sweep) {
    forall i :: from <= i < |log| ==>
      match log[i]
      case Landed(_) => true
      case Swept(sweep, _) => sweep == general || sweep == guarded
      case SweptGrants(days, cutoff, _) => days == guarded.days && cutoff == grantCutoff
  }

  /** From entry `from` on no grant and no protected event is taken. */
  ghost predicate NoneProtectedTaken(log: seq<Entry>, from: nat) {
    forall i :: from <= i < |log| ==> !log[i].SweptGrants? && (log[i].Swept? ==> !log[i].sweep.protected)
  }

  /** Every protected event that was there is there unchanged, and every grant. */
  ghost predicate KeepsProtected(was: Tables, now: Tables) {
    && (forall id :: id in was.events && IsProtected(was.events[id].eventType) ==>
          id in now.events && now.events[id] == was.events[id])
    && (forall id :: id in was.grants ==> id in now.grants)
  }

  lemma PassJoins(middle: seq<Entry>, log: seq<Entry>, from: nat, grantCutoff: string, general: Sweep, guarded: Sweep)
    requires middle <= log && OnlyGrants(middle, from, guarded.days, grantCutoff)
    requires forall i :: |middle| <= i < |log| ==>
               log[i].Landed? || (log[i].Swept? && log[i].sweep in {general, guarded})
    ensures PassOnly(log, from, grantCutoff, general, guarded)
  {
    assert forall i :: 0 <= i < |middle| ==> log[i] == middle[i];
  }

  lemma OldLog(log: seq<Entry>, before: seq<Entry>)
    requires before <= log
    ensures log[..|before|] == before
  {
  }

  lemma {:induction false} LawfulAt(t: Tables, log: seq<Entry>, i: nat)
    requires AllLawful(t, log) && i < |log|
    ensures Lawful(Replay(t, log[..i]), log[i])
  {
    hide Lawful;
    var n := |log| - 1;
    if i < n {
      LawfulAt(t, log[..n], i);
      assert log[..n][..i] == log[..i] && log[..n][i] == log[i];
    }
  }

  lemma {:induction false} NoGeneral(t: Tables, log: seq<Entry>, from: nat, grantCutoff: string, general: Sweep,
                                     guarded: Sweep)
    requires AllLawful(t, log) && PassOnly(log, from, grantCutoff, general, guarded)
    requires general.days == 0 && guarded.protected
    ensures forall i :: from <= i < |log| && log[i].Swept? && log[i].ids != {} ==> log[i].sweep.protected
  {
    hide Replay, AllLawful, SweptBy;
    forall i | from <= i < |log| && log[i].Swept?
      ensures log[i].sweep.protected
    {
      LawfulAt(t, log, i);
    }
  }

  lemma {:induction false} NoGuarded(t: Tables, log: seq<Entry>, from: nat, grantCutoff: string, general: Sweep,
                                     guarded: Sweep)
    requires AllLawful(t, log) && from <= |log| && PassOnly(log, from, grantCutoff, general, guarded)
    requires guarded.days == 0 && !general.protected
    ensures NoneProtectedTaken(log, from) && KeepsProtected(Replay(t, log[..from]), Replay(t, log))
  {
    hide Replay, AllLawful, SweptBy, EndedBy, IsProtected, Less, PurgedIn;
    forall i | from <= i < |log|
      ensures !log[i].SweptGrants? && (log[i].Swept? ==> !log[i].sweep.protected)
    {
      LawfulAt(t, log, i);
    }
    var was := Replay(t, log[..from]);
    forall id | id in was.events && IsProtected(was.events[id].eventType)
      ensures id in Replay(t, log).events && Replay(t, log).events[id] == was.events[id]
    {
      EventFate(t, log, from, id);
    }
    forall id | id in was.grants
      ensures id in Replay(t, log).grants
    {
      GrantFate(t, log, from, id);
    }
  }

  /** What a pass leaves when nothing comes between. */
  function PassTables(t: Tables, grantCutoff: string, general: Sweep, guarded: Sweep): Tables {
    SweptTables(SweptTables(GrantsSwept(t, guarded.days, grantCutoff), general), guarded)
  }

  /** In a pass nothing comes between, a protected event stays just when it is not
      older than its cutoff, or a grant that has not ended holds it; another just
      when it is not older than its own; and a grant just when it has not ended. Of
      a kind kept for 0 days everything stays. */
  lemma {:induction false} QuietPassIsExact(t: Tables, grantCutoff: string, general: Sweep, guarded: Sweep, id: int)
    requires !general.protected && guarded.protected
    ensures var after := PassTables(t, grantCutoff, general, guarded);
            && (id in t.events && IsProtected(t.events[id].eventType) ==>
                  (id in after.events <==>
                   || guarded.days == 0 || !Less(t.events[id].createdAt, guarded.cutoff)
                   || exists g :: g in t.grants && !Over(t.grants[g], grantCutoff)
                                  && ((g, id) in t.grantEvents || (g, id) in t.readEvents)))
            && (id in t.events && !IsProtected(t.events[id].eventType) ==>
                  (id in after.events <==> general.days == 0 || !Less(t.events[id].createdAt, general.cutoff)))
            && (id in t.grants ==> (id in after.grants <==> guarded.days == 0 || !Over(t.grants[id], grantCutoff)))
  {
    hide Less, IsProtected, Ended, Over;
    forall g | g in t.grants
      ensures Ended(t.grants[g], grantCutoff) <==> Over(t.grants[g], grantCutoff)
    {
      EndedIsOver(t.grants[g], grantCutoff);
    }
    var granted := GrantsSwept(t, guarded.days, grantCutoff);
    var swept := SweptTables(granted, general);
    assert swept.grants == granted.grants && granted.events == t.events;
    if id in t.events && IsProtected(t.events[id].eventType) {
      assert id in swept.events && swept.events[id] == t.events[id];
      if guarded.days > 0 {
        assert Held(swept, id) <==> exists g :: g in t.grants && !Over(t.grants[g], grantCutoff)
                                                && ((g, id) in t.grantEvents || (g, id) in t.readEvents);
      }
    }
  }

  /** Nothing else happens from step `start` on, and nothing fails. */
  predicate Quiet(env: Env, start: nat) {
    |env.steps| <= start && env.faults == {}
  }

  /** The tables after a sweep that is not interrupted. */
  function SweptTables(t: Tables, sweep: Sweep): Tables {
    if sweep.days == 0 then t else Without(t, SweptBy(t, sweep))
  }

  function SweptCount(t: Tables, sweep: Sweep): nat {
    if sweep.days == 0 then 0 else |SweptBy(t, sweep)|
  }

  function GrantsSwept(t: Tables, days: nat, cutoff: string): Tables {
    if days == 0 then t else WithoutGrants(t, EndedBy(t, cutoff))
  }

  function FilterOf(sweep: Sweep): Filter {
    Filter(None, None, None, None, None, Some(sweep.cutoff), if sweep.protected then Only else Exclude)
  }

  ghost predicate Compiles(fold: bool, frag: Fragment, f: Filter) {
    forall row :: Where(fold, frag.sql, frag.binds, row) == Some(Selects(fold, f, row))
  }

  lemma BuildCompiles(fold: bool, frag: Fragment, f: Filter)
    requires forall fold, row :: Where(fold, frag.sql, frag.binds, row) == Some(Selects(fold, f, row))
    ensures Compiles(fold, frag, f)
  {
  }

  lemma WithoutNone(t: Tables)
    ensures Without(t, {}) == t
  {
    assert Without(t, {}).events == t.events;
  }

  lemma WithoutBoth(t: Tables, a: set<int>, b: set<int>)
    ensures Without(Without(t, a), b) == Without(t, a + b)
  {
    assert Without(Without(t, a), b).events == Without(t, a + b).events;
  }

  lemma {:induction false} BatchShrinks(t: Tables, batch: set<int>, sweep: Sweep)
    requires batch <= SweptBy(t, sweep) && batch != {}
    ensures |Without(t, batch).events| < |t.events|
  {
    var u := Without(t, batch);
    assert u.events.Keys == t.events.Keys - batch && batch <= t.events.Keys;
    assert |u.events.Keys| == |t.events.Keys| - |batch|;
  }

  lemma WithoutNoGrants(t: Tables)
    ensures WithoutGrants(t, {}) == t
  {
    assert WithoutGrants(t, {}).grants == t.grants;
  }

  lemma {:induction false} GrantBatchShrinks(t: Tables, batch: set<int>, cutoff: string)
    requires batch <= EndedBy(t, cutoff) && batch != {}
    ensures |WithoutGrants(t, batch).grants| < |t.grants|
  {
    var u := WithoutGrants(t, batch);
    assert u.grants.Keys == t.grants.Keys - batch && batch <= t.grants.Keys;
    assert |u.grants.Keys| == |t.grants.Keys| - |batch|;
  }

  lemma {:induction false} EndedStays(t: Tables, taken: set<int>, batch: set<int>, cutoff: string)
    ensures EndedBy(WithoutGrants(t, taken), cutoff) == EndedBy(t, cutoff) - taken
    ensures WithoutGrants(WithoutGrants(t, taken), batch) == WithoutGrants(t, taken + batch)
  {
    assert WithoutGrants(WithoutGrants(t, taken), batch).grants == WithoutGrants(t, taken + batch).grants;
  }
}
