/** The one-time rebuild of record refs: pages committed with their cursor, a
    start marker and a done marker, over boots that stop anywhere while ingest
    goes on. */
module RefsRebuild {
  import opened Wrappers
  import opened Paging

  const REBUILD_PAGE_SIZE: nat := 1000

  type Refs = set<int>

  /** What ingest does to one record: it keeps the refs of what it writes. */
  datatype Op = Write(id: int, body: int) | Delete(id: int)

  /** What happens around a boot. `steps[t]` lands just before its `t`-th database
      call, and `stops` are the calls it does not live to make. */
  datatype Env = Env(steps: seq<seq<Op>>, stops: set<nat>)

  /** The saved cursor: the empty one, one that is not an id, or an id. The first
      two start at the beginning. */
  datatype Cursor = Empty | NotAnId | Id(id: int)

  datatype Outcome = AlreadyDone | NotNeeded | Rebuilt(records: nat)

  datatype Tables = Tables(records: map<int, int>, refs: map<int, Refs>)

  function Position(cursor: Cursor): int {
    if cursor.Id? then cursor.id else 0
  }

  function RefsAt(t: Tables, id: int): Refs {
    if id in t.refs then t.refs[id] else {}
  }

  function Apply(refsOf: int -> Refs, t: Tables, op: Op): Tables {
    match op
    case Write(id, body) => Tables(t.records[id := body], t.refs[id := refsOf(body)])
    case Delete(id) => Tables(t.records - {id}, t.refs - {id})
  }

  function ApplyAll(refsOf: int -> Refs, t: Tables, ops: seq<Op>): Tables {
    if ops == [] then t
    else Apply(refsOf, ApplyAll(refsOf, t, ops[..|ops| - 1]), ops[|ops| - 1])
  }

  /** Record ids are positive. */
  predicate OpsOk(ops: seq<Op>) {
    forall i :: 0 <= i < |ops| && ops[i].Write? ==> ops[i].id > 0
  }

  predicate EnvOk(env: Env) {
    forall i :: 0 <= i < |env.steps| ==> OpsOk(env.steps[i])
  }

  ghost predicate IdsOk(t: Tables) {
    forall id :: id in t.records ==> id > 0
  }

  ghost predicate HasItsRefs(refsOf: int -> Refs, t: Tables, id: int)
    requires id in t.records
  {
    RefsAt(t, id) == refsOf(t.records[id])
  }

  /** Every record up to `upTo` has its refs. */
  ghost predicate Covered(refsOf: int -> Refs, t: Tables, upTo: int) {
    forall id :: id in t.records && id <= upTo ==> HasItsRefs(refsOf, t, id)
  }

  ghost predicate AllCovered(refsOf: int -> Refs, t: Tables) {
    forall id :: id in t.records ==> HasItsRefs(refsOf, t, id)
  }

  lemma CoveredMeans(refsOf: int -> Refs, t: Tables)
    requires AllCovered(refsOf, t)
    ensures forall id :: id in t.records ==> (if id in t.refs then t.refs[id] else {}) == refsOf(t.records[id])
  {
    forall id | id in t.records
      ensures (if id in t.refs then t.refs[id] else {}) == refsOf(t.records[id])
    {
      assert HasItsRefs(refsOf, t, id);
    }
  }

  lemma {:induction false} IngestKeeps(refsOf: int -> Refs, t: Tables, ops: seq<Op>)
    requires OpsOk(ops)
    ensures var u := ApplyAll(refsOf, t, ops);
            && (IdsOk(t) ==> IdsOk(u))
            && (forall upTo: int :: Covered(refsOf, t, upTo) ==> Covered(refsOf, u, upTo))
            && (AllCovered(refsOf, t) ==> AllCovered(refsOf, u))
  {
    if ops != [] {
      var n := |ops| - 1;
      assert ops[n].Write? ==> ops[n].id > 0;
      IngestKeeps(refsOf, t, ops[..n]);
    }
  }

  /** Some record holds a ref. */
  predicate HasRefs(t: Tables) {
    exists id :: id in t.refs && t.refs[id] != {}
  }

  /** Records that reference nothing do not count, stored as such or not at all. */
  lemma HasRefsExactly(t: Tables)
    ensures HasRefs(t) <==> exists id :: RefsAt(t, id) != {}
  {
    if HasRefs(t) {
      var id :| id in t.refs && t.refs[id] != {};
      assert RefsAt(t, id) != {};
    }
  }

  /** The tables once ingest's step `t` has landed. */
  function After(refsOf: int -> Refs, t: Tables, env: Env, clock: nat): Tables {
    if clock < |env.steps| then ApplyAll(refsOf, t, env.steps[clock]) else t
  }

  /** The tables once the first `n` steps have. */
  function Meanwhile(refsOf: int -> Refs, t: Tables, env: Env, n: nat): Tables {
    if n == 0 then t else After(refsOf, Meanwhile(refsOf, t, env, n - 1), env, n - 1)
  }

  lemma MeanwhileSteps(refsOf: int -> Refs, t: Tables, env: Env)
    ensures Meanwhile(refsOf, t, env, 1) == After(refsOf, t, env, 0)
    ensures Meanwhile(refsOf, t, env, 2) == After(refsOf, Meanwhile(refsOf, t, env, 1), env, 1)
    ensures Meanwhile(refsOf, t, env, 3) == After(refsOf, Meanwhile(refsOf, t, env, 2), env, 2)
    ensures Meanwhile(refsOf, t, env, 4) == After(refsOf, Meanwhile(refsOf, t, env, 3), env, 3)
  {
    assert Meanwhile(refsOf, t, env, 0) == t;
  }

  /** The refs of the page's records that are still there, written over. */
  function Synced(refsOf: int -> Refs, t: Tables, page: seq<int>): Tables {
    t.(refs := t.refs + map id | id in page && id in t.records :: refsOf(t.records[id]))
  }

  function Later(t: Tables, after: int): set<int> {
    set id | id in t.records && id > after
  }

  /** A page after `after`, read from `before`, covers up to its last record. */
  lemma {:induction false} PageCovers(refsOf: int -> Refs, before: Tables, t: Tables, after: int, page: seq<int>,
                                      limit: nat)
    requires page != [] && IsPage(page, Later(before, after), limit)
    requires Covered(refsOf, t, after)
    requires forall id :: id in t.records && id !in before.records ==> HasItsRefs(refsOf, t, id)
    ensures Covered(refsOf, Synced(refsOf, t, page), page[|page| - 1])
    ensures Ascending(page) && after < page[0] <= page[|page| - 1]
  {
    var s := Later(before, after);
    var u := Synced(refsOf, t, page);
    assert page[0] in s;
    forall id | id in u.records && id <= page[|page| - 1]
      ensures HasItsRefs(refsOf, u, id)
    {
      assert id in s <==> id in before.records && id > after;
    }
  }

  /** A record ingest put in while the page was read has its refs. */
  lemma {:induction false} NewHaveRefs(refsOf: int -> Refs, t: Tables, ops: seq<Op>)
    ensures var u := ApplyAll(refsOf, t, ops);
            forall id :: id in u.records && id !in t.records ==> HasItsRefs(refsOf, u, id)
  {
    if ops != [] { NewHaveRefs(refsOf, t, ops[..|ops| - 1]); }
  }

  ghost predicate AllUpTo(ids: seq<int>, upTo: int) {
    forall i :: 0 <= i < |ids| ==> ids[i] <= upTo
  }

  /** Pages come after one another, so no record is walked twice. */
  lemma {:induction false} WalkedOn(walked: seq<int>, after: int, page: seq<int>)
    requires Ascending(walked) && AllUpTo(walked, after) && Ascending(page) && page != [] && after < page[0]
    ensures Ascending(walked + page) && AllUpTo(walked + page, page[|page| - 1])
  {
    var last := page[|page| - 1];
    assert forall i :: 0 <= i < |page| ==> page[0] <= page[i] <= last;
  }

  class Instance {
    /** The refs a body holds. */
    const refsOf: int -> Refs
    var tables: Tables
    var done: bool
    var cursor: Option<Cursor>
    /** Records walked by committed pages, in order, and whether a rebuild got to
        the end. */
    ghost var walked: seq<int>
    ghost var rebuilt: bool

    constructor (refsOf: int -> Refs, tables: Tables)
      requires IdsOk(tables)
      ensures Valid() && this.refsOf == refsOf && this.tables == tables
      ensures !done && cursor.None? && walked == []
    {
      this.refsOf, this.tables, done, cursor, walked, rebuilt := refsOf, tables, false, None, [], false;
    }

    /** A rebuild has started, on this boot or an earlier one. */
    ghost predicate Started()
      reads this
    {
      cursor.Some? || rebuilt
    }

    ghost predicate Valid()
      reads this
    {
      && IdsOk(tables) && Ascending(walked)
      && (cursor.Some? ==>
            !done && !rebuilt && Covered(refsOf, tables, Position(cursor.value))
            && AllUpTo(walked, Position(cursor.value)))
      && (rebuilt ==> done && AllCovered(refsOf, tables))
      && (walked != [] ==> Started())
    }

    /** Ingest runs; then the boot goes on, unless it stops here. */
    method Await(env: Env, clock: nat) returns (stopped: bool)
      requires Valid() && EnvOk(env)
      modifies `tables
      ensures Valid() && stopped == (clock in env.stops)
      ensures old(AllCovered(refsOf, tables)) ==> AllCovered(refsOf, tables)
      ensures tables == After(refsOf, old(tables), env, clock)
    {
      if clock < |env.steps| {
        IngestKeeps(refsOf, tables, env.steps[clock]);
        tables := ApplyAll(refsOf, tables, env.steps[clock]);
      }
      stopped := clock in env.stops;
    }

    /** One page on one transaction: nothing of it stays unless it commits, and its
        cursor commits with it. Ingest may run between reading the page's ids and
        locking its records. */
    method RebuildPage(env: Env, clock: nat) returns (stopped: bool, page: seq<int>)
      requires Valid() && EnvOk(env) && cursor.Some?
      modifies `tables, `cursor, `walked
      ensures Valid() && cursor.Some? && walked == old(walked) + page
      ensures stopped ==> page == [] && cursor == old(cursor) && env.stops != {}
      ensures !stopped && page == [] ==> cursor == old(cursor) && AllCovered(refsOf, tables)
      ensures page != [] ==> Position(cursor.value) == page[|page| - 1] > Position(old(cursor.value))
      ensures clock >= |env.steps| && page != [] ==>
                |Later(tables, Position(cursor.value))| < |Later(old(tables), Position(old(cursor.value)))|
    {
      hide Covered, IsPage, HasItsRefs, Ascending, AllUpTo, IdsOk, AllCovered, Later;
      page := [];
      stopped := Await(env, clock);
      if stopped {
        return;
      }
      var after := Position(cursor.value);
      ghost var before := tables;
      var read := SelectPage(Later(tables, after), REBUILD_PAGE_SIZE);
      if read == [] {
        NoneLater(refsOf, tables, after);
        return;
      }
      if clock + 1 < |env.steps| { NewHaveRefs(refsOf, tables, env.steps[clock + 1]); }
      stopped := Await(env, clock + 1);
      if stopped {
        return;
      }
      page := read;
      if clock >= |env.steps| { LaterShrinks(tables, after, page, REBUILD_PAGE_SIZE); }
      CommitPage(before, page);
    }

    method CommitPage(ghost before: Tables, page: seq<int>)
      requires Valid() && cursor.Some? && page != []
      requires IsPage(page, Later(before, Position(cursor.value)), REBUILD_PAGE_SIZE)
      requires forall id :: id in tables.records && id !in before.records ==> HasItsRefs(refsOf, tables, id)
      modifies `tables, `cursor, `walked
      ensures Valid() && walked == old(walked) + page && cursor == Some(Id(page[|page| - 1]))
      ensures tables.records == old(tables.records) && page[|page| - 1] > Position(old(cursor.value))
    {
      hide Covered, IsPage, HasItsRefs, Ascending, AllUpTo, IdsOk, Later;
      var after := Position(cursor.value);
      PageCovers(refsOf, before, tables, after, page, REBUILD_PAGE_SIZE);
      WalkedOn(walked, after, page);
      SyncedIds(refsOf, tables, page);
      tables := Synced(refsOf, tables, page);
      cursor := Some(Id(page[|page| - 1]));
      walked := walked + page;
    }

    /** `rebuild_once` on one boot; `None` when it stopped on the way. */
    method RebuildOnce(env: Env) returns (outcome: Option<Outcome>)
      requires Valid() && EnvOk(env)
      modifies this
      ensures Valid()
      ensures (old(Started()) ==> Started()) && (old(rebuilt) ==> rebuilt)
      ensures old(done) ==> done && walked == old(walked) && (outcome.Some? ==> outcome.value.AlreadyDone?)
      ensures outcome == Some(AlreadyDone) ==> old(done)
      ensures outcome.Some? ==> done
      // Not needed: neither done nor started, and some record had a ref by the probe.
      ensures outcome == Some(NotNeeded) <==>
                && !old(done) && old(cursor).None? && HasRefs(Meanwhile(refsOf, old(tables), env, 3))
                && forall t :: 0 <= t < 4 ==> t !in env.stops
      ensures outcome == Some(NotNeeded) ==>
                !Started() && walked == old(walked) && tables == Meanwhile(refsOf, old(tables), env, 4)
      ensures outcome.Some? && outcome.value.Rebuilt? ==>
                rebuilt && outcome.value.records == |walked| - |old(walked)|
      ensures old(walked) <= walked
      // Not stopped, it leaves every record with its refs unless, at the probe, refs
      // of some and not of others made it look maintained.
      ensures env.stops == {} ==> outcome.Some?
      ensures env.stops == {} && !old(done) ==>
                (AllCovered(refsOf, tables) <==>
                 || old(cursor).Some? || !HasRefs(Meanwhile(refsOf, old(tables), env, 3))
                 || AllCovered(refsOf, Meanwhile(refsOf, old(tables), env, 4)))
      ensures env == Env([], {}) && !old(done) ==>
                (AllCovered(refsOf, tables) <==>
                 old(cursor).Some? || !HasRefs(old(tables)) || AllCovered(refsOf, old(tables)))
    {
      hide Covered, HasItsRefs, Ascending, AllUpTo, IdsOk, AllCovered, ApplyAll, HasRefs;
      MeanwhileSteps(refsOf, tables, env);
      var stopped := Await(env, 0);
      if stopped {
        return None;
      }
      if done {
        return Some(AlreadyDone);
      }
      stopped := Await(env, 1);
      if stopped {
        return None;
      }
      if cursor.None? {
        outcome := Probe(env);
        if outcome.Some? || cursor.None? {
          return;
        }
      }
      outcome := Walk(env, 4);
    }

    /** With no cursor saved: refs that are there already mean the rebuild is not
        needed; otherwise it is marked as started. */
    method Probe(env: Env) returns (outcome: Option<Outcome>)
      requires Valid() && EnvOk(env) && !done && cursor.None?
      modifies this
      ensures Valid() && walked == old(walked)
      ensures var probed := After(refsOf, old(tables), env, 2);
              var last := After(refsOf, probed, env, 3);
              && (outcome == Some(NotNeeded) <==> HasRefs(probed) && 2 !in env.stops && 3 !in env.stops)
              && (outcome == Some(NotNeeded) ==> done && !Started() && tables == last)
              && (outcome != Some(NotNeeded) ==> outcome.None? && !done)
              && (cursor.Some? <==> !HasRefs(probed) && 2 !in env.stops && 3 !in env.stops)
    {
      hide Covered, HasItsRefs, Ascending, AllUpTo, IdsOk, AllCovered, ApplyAll;
      outcome := None;
      var stopped := Await(env, 2);
      if stopped {
        return;
      }
      var found := exists id :: id in tables.refs && tables.refs[id] != {};
      assert found == HasRefs(tables);
      stopped := Await(env, 3);
      if stopped {
        return;
      }
      if found {
        done := true;
        return Some(NotNeeded);
      }
      NothingWalked(refsOf, tables);
      cursor := Some(Empty);
    }

    /** Boots one after another, each stopped anywhere or not at all. Once a rebuild
        has got to the end every record has its refs, and later boots do nothing;
        once one has started no boot finds it not needed. `started` says after which
        boots one had. */
    method Boots(envs: seq<Env>) returns (outcomes: seq<Option<Outcome>>, ghost started: seq<bool>)
      requires Valid() && forall i :: 0 <= i < |envs| ==> EnvOk(envs[i])
      modifies this
      ensures Valid() && (rebuilt ==> AllCovered(refsOf, tables)) && Ascending(walked)
      ensures rebuilt ==> forall id :: id in tables.records ==>
                (if id in tables.refs then tables.refs[id] else {}) == refsOf(tables.records[id])
      ensures |outcomes| == |started| == |envs| && old(walked) <= walked
      ensures forall i :: 0 <= i < |outcomes| && outcomes[i].Some? && outcomes[i].value.Rebuilt? ==>
                started[i] && AllCovered(refsOf, tables)
      ensures old(Started()) ==> Some(NotNeeded) !in outcomes
      ensures forall i, j :: 0 <= i < j < |outcomes| && started[i] ==> started[j] && outcomes[j] != Some(NotNeeded)
      ensures forall i, j :: 0 <= i < j < |outcomes| && outcomes[i].Some? && outcomes[j].Some? ==>
                outcomes[j].value.AlreadyDone?
    {
      hide Valid, AllCovered;
      outcomes, started := [], [];
      for i := 0 to |envs|
        invariant Valid() && |outcomes| == |started| == i && old(walked) <= walked
        invariant old(Started()) ==> Started() && Some(NotNeeded) !in outcomes
        invariant forall k :: 0 <= k < i && started[k] ==> Started()
        invariant forall k :: 0 <= k < i && outcomes[k].Some? ==> done
        invariant forall k :: 0 <= k < i && outcomes[k].Some? && outcomes[k].value.Rebuilt? ==> started[k] && rebuilt
        invariant forall j, k :: 0 <= j < k < i && started[j] ==> started[k] && outcomes[k] != Some(NotNeeded)
        invariant forall j, k :: 0 <= j < k < i && outcomes[j].Some? && outcomes[k].Some? ==>
                    outcomes[k].value.AlreadyDone?
      {
        var outcome := RebuildOnce(envs[i]);
        outcomes, started := outcomes + [outcome], started + [Started()];
      }
      assert Valid() && Ascending(walked) && (rebuilt ==> AllCovered(refsOf, tables)) by { ValidMeans(); }
      if rebuilt { CoveredMeans(refsOf, tables); }
    }

    lemma ValidMeans()
      requires Valid()
      ensures Ascending(walked) && (rebuilt ==> AllCovered(refsOf, tables))
    {
    }

    /** The walk from the saved cursor to the end, then the done marker, in place
        of the cursor. */
    method Walk(env: Env, start: nat) returns (outcome: Option<Outcome>)
      requires Valid() && EnvOk(env) && cursor.Some?
      modifies this
      ensures Valid() && Started() && old(walked) <= walked
      ensures outcome.Some? ==> outcome.value.Rebuilt? && rebuilt && outcome.value.records == |walked| - |old(walked)|
      ensures outcome.None? ==> env.stops != {}
    {
      hide Valid, Later, Position, AllCovered;
      var clock, records := start, 0;
      while true
        invariant Valid() && cursor.Some? && old(walked) <= walked && records == |walked| - |old(walked)|
        decreases if clock < |env.steps| then |env.steps| - clock else 0, |Later(tables, Position(cursor.value))|
      {
        var stop, page := RebuildPage(env, clock);
        if stop {
          return None;
        }
        clock := clock + 2;
        if page == [] {
          break;
        }
        records := records + |page|;
      }
      var stopped := Finish(env, clock);
      outcome := if stopped then None else Some(Rebuilt(records));
    }

    method Finish(env: Env, clock: nat) returns (stopped: bool)
      requires Valid() && EnvOk(env) && cursor.Some? && AllCovered(refsOf, tables)
      modifies this
      ensures Valid() && Started() && walked == old(walked) && (!stopped ==> rebuilt) && (stopped ==> env.stops != {})
    {
      stopped := Await(env, clock);
      if !stopped {
        done, cursor, rebuilt := true, None, true;
      }
    }
  }

  /** A record from before refs were kept, and one that ingest writes as the boot
      begins: the new one's ref makes the rebuild look unneeded, and the instance is
      marked done with the old one's missing. */
  method NotNeededPassesOver(refsOf: int -> Refs, body: int) returns (instance: Instance, outcome: Option<Outcome>)
    requires refsOf(body) != {}
    ensures outcome == Some(NotNeeded) && instance.done && instance.Valid()
    ensures 1 in instance.tables.records && !HasItsRefs(instance.refsOf, instance.tables, 1)
  {
    hide Meanwhile, HasRefs, ApplyAll, Ascending, AllCovered, Covered, HasItsRefs;
    instance := new Instance(refsOf, Tables(map[1 := body], map[]));
    var env := Env([[Write(2, body)]], {});
    OneWrite(refsOf, body, env);
    outcome := instance.RebuildOnce(env);
  }

  lemma {:induction false} OneWrite(refsOf: int -> Refs, body: int, env: Env)
    requires refsOf(body) != {} && env == Env([[Write(2, body)]], {})
    ensures var t := Tables(map[1 := body], map[]);
            var u := Tables(map[1 := body][2 := body], map[2 := refsOf(body)]);
            && Meanwhile(refsOf, t, env, 3) == u && Meanwhile(refsOf, t, env, 4) == u
            && HasRefs(u) && !HasItsRefs(refsOf, u, 1)
  {
    var t := Tables(map[1 := body], map[]);
    MeanwhileSteps(refsOf, t, env);
    assert [Write(2, body)][..0] == [];
    assert ApplyAll(refsOf, t, []) == t;
    assert ApplyAll(refsOf, t, [Write(2, body)]) == Apply(refsOf, t, Write(2, body));
    assert 2 in map[2 := refsOf(body)];
  }

  lemma NothingWalked(refsOf: int -> Refs, t: Tables)
    requires IdsOk(t)
    ensures Covered(refsOf, t, Position(Empty)) && AllUpTo([], Position(Empty))
  {
  }

  lemma SyncedIds(refsOf: int -> Refs, t: Tables, page: seq<int>)
    requires IdsOk(t)
    ensures IdsOk(Synced(refsOf, t, page))
  {
  }

  lemma {:induction false} LaterShrinks(t: Tables, after: int, page: seq<int>, limit: nat)
    requires page != [] && IsPage(page, Later(t, after), limit)
    ensures forall u: Tables :: u.records == t.records ==> |Later(u, page[|page| - 1])| < |Later(t, after)|
  {
    var last := page[|page| - 1];
    assert last in Later(t, after);
    forall u: Tables | u.records == t.records
      ensures |Later(u, last)| < |Later(t, after)|
    {
      assert Later(u, last) <= Later(t, after) - {last};
      Fewer(Later(u, last), Later(t, after) - {last});
    }
  }

  lemma {:induction false} Fewer<T>(a: set<T>, b: set<T>)
    requires a <= b
    ensures |a| <= |b|
  {
    assert b == a + (b - a);
  }

  lemma NoneLater(refsOf: int -> Refs, t: Tables, after: int)
    requires Covered(refsOf, t, after) && IsPage([], Later(t, after), REBUILD_PAGE_SIZE)
    ensures AllCovered(refsOf, t)
  {
    forall id | id in t.records
      ensures HasItsRefs(refsOf, t, id)
    {
      assert id in Later(t, after) <==> id > after;
    }
  }
}
