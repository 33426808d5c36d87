/** The cache of active labeler subscriptions: any number of loads, table
    changes and invalidations interleaved step by step. */
module SubscriptionCache {
  import opened Wrappers

  /** The DIDs of the active subscriptions. */
  type Dids = seq<int>

  /** A load that found the slot empty. `Storing` holds the slot's write lock. */
  datatype Load =
    | Missed
    | Stamped(generation: nat)
    | Fetched(generation: nat, dids: Dids)
    | Storing(dids: Dids)

  /** A change of the table whose invalidation is not over. */
  datatype Change = Changed | Bumped

  datatype State = State(
    table: Dids,
    generation: nat,
    slot: Option<Dids>,
    writer: Option<nat>,
    loads: map<nat, Load>,
    pending: map<nat, Change>)

  /** One step of load or change `id`. */
  datatype Step =
    | Miss(id: nat)
    | Stamp(id: nat)
    | Fetch(id: nat)
    | FetchFails(id: nat)
    | Check(id: nat)
    | Store(id: nat)
    | ChangeTable(id: nat, table: Dids)
    | Bump(id: nat)
    | Clear(id: nat)

  predicate Enabled(s: State, step: Step) {
    match step
    case Miss(l) => l !in s.loads && s.writer.None? && s.slot.None?
    case Stamp(l) => l in s.loads && s.loads[l].Missed?
    case Fetch(l) => l in s.loads && s.loads[l].Stamped?
    case FetchFails(l) => l in s.loads && s.loads[l].Stamped?
    case Check(l) => l in s.loads && s.loads[l].Fetched? && s.writer.None?
    case Store(l) => l in s.loads && s.loads[l].Storing?
    case ChangeTable(c, _) => c !in s.pending
    case Bump(c) => c in s.pending && s.pending[c].Changed?
    case Clear(c) => c in s.pending && s.pending[c].Bumped? && s.writer.None?
  }

  function Next(s: State, step: Step): State
    requires Enabled(s, step)
  {
    match step
    case Miss(l) => s.(loads := s.loads[l := Missed])
    case Stamp(l) => s.(loads := s.loads[l := Stamped(s.generation)])
    case Fetch(l) => s.(loads := s.loads[l := Fetched(s.loads[l].generation, s.table)])
    case FetchFails(l) => s.(loads := s.loads - {l})
    case Check(l) =>
      // The lock is let go at once when the generation has moved on.
      if s.generation == s.loads[l].generation
      then s.(writer := Some(l), loads := s.loads[l := Storing(s.loads[l].dids)])
      else s.(loads := s.loads - {l})
    case Store(l) => s.(slot := Some(s.loads[l].dids), writer := None, loads := s.loads - {l})
    case ChangeTable(c, t) => s.(table := t, pending := s.pending[c := Changed])
    case Bump(c) => s.(generation := s.generation + 1, pending := s.pending[c := Bumped])
    case Clear(c) => s.(slot := None, pending := s.pending - {c})
  }

  predicate Init(s: State) {
    s.generation == 0 && s.slot.None? && s.writer.None? && s.loads == map[] && s.pending == map[]
  }

  /** Where the steps lead from `s`, when they can be taken in turn. */
  function Run(s: State, steps: seq<Step>): Option<State> {
    if steps == [] then Some(s)
    else
      var before := Run(s, steps[..|steps| - 1]);
      var step := steps[|steps| - 1];
      if before.Some? && Enabled(before.value, step) then Some(Next(before.value, step)) else None
  }

  predicate SomeChanged(s: State) {
    exists c :: c in s.pending && s.pending[c].Changed?
  }

  predicate LoadOk(s: State, id: nat, load: Load) {
    match load
    case Missed => true
    case Stamped(g) => g <= s.generation
    case Fetched(g, dids) => g <= s.generation && (g == s.generation ==> dids == s.table || SomeChanged(s))
    case Storing(dids) => s.writer == Some(id) && (dids == s.table || s.pending != map[])
  }

  predicate Inv(s: State) {
    && (forall l :: l in s.loads ==> LoadOk(s, l, s.loads[l]))
    && (s.writer.Some? ==> s.writer.value in s.loads && s.loads[s.writer.value].Storing?)
    && (s.slot.Some? ==> s.slot.value == s.table || s.pending != map[])
  }

  /** A change stays pending until it is cleared, and unbumped until it is
      bumped. */
  lemma PendingStays(s: State, step: Step)
    requires Enabled(s, step)
    ensures s.pending != map[] && !step.Clear? ==> Next(s, step).pending != map[]
    ensures step.ChangeTable? || (SomeChanged(s) && !step.Bump?) ==>
              SomeChanged(Next(s, step)) && Next(s, step).pending != map[]
  {
    var t := Next(s, step);
    if step.ChangeTable? || step.Bump? { assert step.id in t.pending; }
    if step.ChangeTable? { assert t.pending[step.id].Changed?; }
    if SomeChanged(s) && !step.Bump? {
      var c :| c in s.pending && s.pending[c].Changed?;
      assert c in t.pending && t.pending[c].Changed?;
    }
  }

  lemma LoadStaysOk(s: State, step: Step, l: nat)
    requires Inv(s) && Enabled(s, step) && l in Next(s, step).loads
    ensures LoadOk(Next(s, step), l, Next(s, step).loads[l])
  {
    hide SomeChanged;
    PendingStays(s, step);
    ChangedIsPending(s);
    if l in s.loads { assert LoadOk(s, l, s.loads[l]); }
  }

  lemma ChangedIsPending(s: State)
    ensures SomeChanged(s) ==> s.pending != map[]
  {
  }

  lemma SlotStaysOk(s: State, step: Step)
    requires Inv(s) && Enabled(s, step)
    ensures var t := Next(s, step); t.slot.Some? ==> t.slot.value == t.table || t.pending != map[]
  {
    hide SomeChanged;
    PendingStays(s, step);
    if step.Store? { assert LoadOk(s, step.id, s.loads[step.id]); }
  }

  lemma {:induction false} StepKeepsInv(s: State, step: Step)
    requires Inv(s) && Enabled(s, step)
    ensures Inv(Next(s, step))
  {
    hide LoadOk;
    var t := Next(s, step);
    forall l | l in t.loads
      ensures LoadOk(t, l, t.loads[l])
    {
      LoadStaysOk(s, step, l);
    }
    SlotStaysOk(s, step);
    WriterStays(s, step);
  }

  lemma WriterStays(s: State, step: Step)
    requires Inv(s) && Enabled(s, step)
    ensures var t := Next(s, step);
            t.writer.Some? ==> t.writer.value in t.loads && t.loads[t.writer.value].Storing?
  {
    hide SomeChanged;
  }

  lemma {:induction false} RunKeepsInv(s: State, steps: seq<Step>)
    requires Inv(s)
    ensures var t := Run(s, steps); t.Some? ==> Inv(t.value)
  {
    if steps != [] && Run(s, steps).Some? {
      var before := steps[..|steps| - 1];
      RunKeepsInv(s, before);
      StepKeepsInv(Run(s, before).value, steps[|steps| - 1]);
    }
  }

  /** Over every interleaving: the slot differs from the table only while an
      invalidation is pending. */
  lemma {:induction false} CachedIsCurrent(s: State, steps: seq<Step>)
    requires Init(s)
    ensures var t := Run(s, steps);
            t.Some? && t.value.pending == map[] ==> t.value.slot.None? || t.value.slot.value == t.value.table
  {
    RunKeepsInv(s, steps);
  }

  /** A load that nothing overtakes leaves the table's list in the slot, whatever
      other loads there are. */
  lemma {:induction false} LoadStores(s: State, l: nat)
    requires s.slot.None? && s.writer.None? && l !in s.loads
    ensures var t := Run(s, [] + [Miss(l)] + [Stamp(l)] + [Fetch(l)] + [Check(l)] + [Store(l)]);
            t.Some? && t.value.slot == Some(s.table) && t.value.writer.None?
  {
    hide Run;
    RunNone(s);
    var s1 := Next(s, Miss(l));
    var s2 := Next(s1, Stamp(l));
    var s3 := Next(s2, Fetch(l));
    var s4 := Next(s3, Check(l));
    RunOn(s, [], s, Miss(l));
    RunOn(s, [] + [Miss(l)], s1, Stamp(l));
    RunOn(s, [] + [Miss(l)] + [Stamp(l)], s2, Fetch(l));
    RunOn(s, [] + [Miss(l)] + [Stamp(l)] + [Fetch(l)], s3, Check(l));
    RunOn(s, [] + [Miss(l)] + [Stamp(l)] + [Fetch(l)] + [Check(l)], s4, Store(l));
  }

  /** A load that stores what it fetched whatever the generation. */
  function StoreUnchecked(s: State, l: nat): State
    requires l in s.loads && s.loads[l].Fetched? && s.writer.None?
  {
    Next(s.(writer := Some(l), loads := s.loads[l := Storing(s.loads[l].dids)]), Store(l))
  }

  /** Load `l` fetches, and a change then overtakes it. */
  function Overtaken(l: nat, table: Dids): seq<Step> {
    [] + [Miss(l)] + [Stamp(l)] + [Fetch(l)] + [ChangeTable(0, table)] + [Bump(0)] + [Clear(0)]
  }

  /** Without the generation a load that a change overtook would leave a list
      that no invalidation is going to clear. */
  lemma {:induction false} GenerationIsNeeded(s: State, l: nat, table: Dids)
    requires Init(s) && table != s.table
    ensures var run := Run(s, Overtaken(l, table));
            && run.Some?
            && var t := run.value;
               && l in t.loads && t.loads[l].Fetched? && t.writer.None? && t.pending == map[]
               && StoreUnchecked(t, l).slot == Some(s.table) && StoreUnchecked(t, l).table == table
               && Next(t, Check(l)).slot == None
  {
    hide Run;
    var t := State(table, 1, None, None, map[l := Fetched(0, s.table)], map[]);
    OvertakenRun(s, l, table);
    assert Enabled(t, Check(l));
  }

  lemma {:induction false} FetchRun(s: State, l: nat)
    requires Init(s)
    ensures Run(s, [] + [Miss(l)] + [Stamp(l)] + [Fetch(l)]) ==
            Some(s.(loads := map[l := Fetched(0, s.table)]))
  {
    hide Run;
    RunNone(s);
    assert map[][l := Missed] == map[l := Missed];
    assert map[l := Missed][l := Stamped(0)] == map[l := Stamped(0)];
    assert map[l := Stamped(0)][l := Fetched(0, s.table)] == map[l := Fetched(0, s.table)];
    RunOn(s, [], s, Miss(l));
    RunOn(s, [] + [Miss(l)], s.(loads := map[l := Missed]), Stamp(l));
    RunOn(s, [] + [Miss(l)] + [Stamp(l)], s.(loads := map[l := Stamped(0)]), Fetch(l));
  }

  lemma {:induction false} OvertakenRun(s: State, l: nat, table: Dids)
    requires Init(s)
    ensures Run(s, Overtaken(l, table)) == Some(State(table, 1, None, None, map[l := Fetched(0, s.table)], map[]))
  {
    hide Run;
    FetchRun(s, l);
    var steps, loads := [] + [Miss(l)] + [Stamp(l)] + [Fetch(l)], map[l := Fetched(0, s.table)];
    assert map[][0 := Changed] == map[0 := Changed];
    assert map[0 := Changed][0 := Bumped] == map[0 := Bumped];
    assert map[0 := Bumped] - {0} == map[];
    RunOn(s, steps, s.(loads := loads), ChangeTable(0, table));
    RunOn(s, steps + [ChangeTable(0, table)], State(table, 0, None, None, loads, map[0 := Changed]), Bump(0));
    RunOn(s, steps + [ChangeTable(0, table)] + [Bump(0)], State(table, 1, None, None, loads, map[0 := Bumped]),
          Clear(0));
  }

  lemma RunNone(s: State)
    ensures Run(s, []) == Some(s)
  {
  }

  lemma {:induction false} RunOn(s: State, steps: seq<Step>, t: State, step: Step)
    requires Run(s, steps) == Some(t) && Enabled(t, step)
    ensures Run(s, steps + [step]) == Some(Next(t, step))
  {
    assert (steps + [step])[..|steps|] == steps;
  }
}
