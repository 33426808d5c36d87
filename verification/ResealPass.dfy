/** The re-seal pass over one store: keyset pages, each row written by
    compare-and-set, while other writers land between any two database calls. */
module ResealPass {
  import opened Wrappers
  import opened Paging
  import opened ResealRows

  type Rows = map<int, Row>

  const BATCH: nat := 200

  /** What another writer does: change columns of a row, put a row, delete one. */
  datatype Op =
    | Put(key: int, columns: map<nat, Option<Stored>>)
    | Insert(key: int, row: Row)
    | Delete(key: int)

  /** What happens around a pass. `steps[t]` lands just before its `t`-th
      database call or stop check; `faults` and `stops` say which calls fail and
      which checks ask it to stop. */
  datatype Env = Env(steps: seq<seq<Op>>, faults: set<nat>, stops: set<nat>, nonce: int)

  datatype StoreReseal = StoreReseal(resealed: nat, changed: nat, unreadable: nat)

  datatype StoreCount = StoreCount(previous: nat, unsealed: nat, unreadable: nat)

  datatype Outcome = Finished | Stopped | Failed

  /** The current key opens the value. */
  predicate SealedNow(keys: Keyring, encoding: Encoding, stored: Stored) {
    var ct := Ciphertext(encoding, stored);
    ct.Some? && Decrypt(keys.current, ct.value).Some?
  }

  /** Writers store only values sealed under the current key. A row with an
      `encrypted` flag has one column, so its writer writes all of it. */
  ghost predicate WriterOk(keys: Keyring, store: Store, op: Op) {
    match op
    case Put(_, columns) =>
      && (forall i :: i in columns ==>
            && i < |store.columns|
            && (columns[i].Some? ==> SealedNow(keys, store.columns[i], columns[i].value)))
      && (store.flagged ==> forall i: nat :: i < |store.columns| ==> i in columns)
    case Insert(_, row) =>
      && Fits(store, row) && row.flag != Some(0)
      && forall i: nat :: i < |row.values| && row.values[i].Some? ==>
           SealedNow(keys, store.columns[i], row.values[i].value)
    case Delete(_) => true
  }

  ghost predicate AllOk(keys: Keyring, store: Store, ops: seq<Op>) {
    forall i :: 0 <= i < |ops| ==> WriterOk(keys, store, ops[i])
  }

  ghost predicate AllFit(store: Store, rows: Rows) {
    forall k :: k in rows ==> Fits(store, rows[k])
  }

  function Written(store: Store, row: Row, columns: map<nat, Option<Stored>>): (r: Row)
    requires Fits(store, row)
    ensures Fits(store, r)
  {
    Row(seq(|row.values|, i requires 0 <= i < |row.values| => if i in columns then columns[i] else row.values[i]),
        if store.flagged then Some(1) else row.flag)
  }

  function Apply(store: Store, rows: Rows, op: Op): Rows {
    match op
    case Put(key, columns) =>
      if key in rows && Fits(store, rows[key]) then rows[key := Written(store, rows[key], columns)] else rows
    case Insert(key, row) => rows[key := row]
    case Delete(key) => rows - {key}
  }

  function ApplyAll(store: Store, rows: Rows, ops: seq<Op>): Rows {
    if ops == [] then rows
    else Apply(store, ApplyAll(store, rows, ops[..|ops| - 1]), ops[|ops| - 1])
  }

  /** The same rows, and every column opens to the same value. */
  ghost predicate SameReads(keys: Keyring, store: Store, a: Rows, b: Rows) {
    && a.Keys == b.Keys && AllFit(store, a) && AllFit(store, b)
    && forall k, i: nat :: k in a && i < |a[k].values| ==>
         ReadColumn(keys, store, a[k], i) == ReadColumn(keys, store, b[k], i)
  }

  /** The rows that still need the previous key, or are still plaintext. */
  function Needing(keys: Keyring, store: Store, rows: Rows): (r: set<int>)
    ensures r <= rows.Keys
  {
    set k | k in rows && Fits(store, rows[k]) && NeedsSeal(keys, store, rows[k])
  }

  function Unreadables(keys: Keyring, store: Store, rows: Rows): set<int> {
    set k | k in rows && Fits(store, rows[k]) && HasUnreadable(keys, store, rows[k])
  }

  lemma WrittenNeeds(keys: Keyring, store: Store, row: Row, columns: map<nat, Option<Stored>>)
    requires Fits(store, row) && WriterOk(keys, store, Put(0, columns))
    ensures NeedsSeal(keys, store, Written(store, row, columns)) ==> NeedsSeal(keys, store, row)
  {
    var after := Written(store, row, columns);
    forall i: nat | i < |row.values| && ColumnNeed(keys, store, after, i).Seal?
      ensures ColumnNeed(keys, store, row, i).Seal?
    {
      if i !in columns { assert after.values[i] == row.values[i]; }
    }
  }

  /** No writer makes a row need sealing. */
  lemma WritersShrink(keys: Keyring, store: Store, rows: Rows, op: Op)
    requires AllFit(store, rows) && WriterOk(keys, store, op)
    ensures AllFit(store, Apply(store, rows, op))
    ensures Needing(keys, store, Apply(store, rows, op)) <= Needing(keys, store, rows)
  {
    if op.Put? && op.key in rows {
      assert WriterOk(keys, store, Put(0, op.columns));
      WrittenNeeds(keys, store, rows[op.key], op.columns);
    }
  }

  lemma WrittenReads(keys: Keyring, store: Store, a: Row, b: Row, columns: map<nat, Option<Stored>>, i: nat)
    requires Fits(store, a) && Fits(store, b) && WriterOk(keys, store, Put(0, columns)) && i < |a.values|
    requires ReadColumn(keys, store, a, i) == ReadColumn(keys, store, b, i)
    ensures ReadColumn(keys, store, Written(store, a, columns), i)
            == ReadColumn(keys, store, Written(store, b, columns), i)
  {
    if i !in columns {
      assert Written(store, a, columns).values[i] == a.values[i];
      assert Written(store, b, columns).values[i] == b.values[i];
    }
  }

  /** A writer's change reads the same over rows that read the same. */
  lemma WritersAgree(keys: Keyring, store: Store, a: Rows, b: Rows, op: Op)
    requires WriterOk(keys, store, op) && SameReads(keys, store, a, b)
    ensures SameReads(keys, store, Apply(store, a, op), Apply(store, b, op))
  {
    if op.Put? && op.key in a {
      assert WriterOk(keys, store, Put(0, op.columns));
      forall i: nat | i < |a[op.key].values|
        ensures ReadColumn(keys, store, Written(store, a[op.key], op.columns), i)
             == ReadColumn(keys, store, Written(store, b[op.key], op.columns), i)
      {
        WrittenReads(keys, store, a[op.key], b[op.key], op.columns, i);
      }
    }
  }

  ghost predicate EnvOk(keys: Keyring, store: Store, env: Env) {
    forall t :: 0 <= t < |env.steps| ==> AllOk(keys, store, env.steps[t])
  }

  /** Nothing else runs, fails or stops the pass from `clock` on. */
  ghost predicate Quiet(env: Env, clock: nat) {
    && (forall t :: clock <= t < |env.steps| ==> env.steps[t] == [])
    && (forall t :: clock <= t ==> t !in env.faults && t !in env.stops)
  }

  function After(keys: set<int>, after: Option<int>): set<int> {
    set k | k in keys && Beyond(k, after)
  }

  function Done(keys: set<int>, after: Option<int>): set<int> {
    set k | k in keys && !Beyond(k, after)
  }

  /** Which rows a pass has counted, and as what. */
  datatype Tally = Tally(resealed: set<int>, changed: set<int>, unreadable: set<int>)

  ghost function Counted(t: Tally): StoreReseal {
    StoreReseal(|t.resealed|, |t.changed|, |t.unreadable|)
  }

  ghost function Keys(page: seq<int>): set<int> { set k | k in page }

  /** A pass that has handled the rows `done` has counted only rows of them, and
      any other row that may still need sealing is in `todo`. */
  ghost predicate Tracks(open: set<int>, t: Tally, done: set<int>, todo: set<int>) {
    && open <= t.changed + todo
    && t.resealed <= done && t.changed <= done && t.unreadable <= done
  }

  /** The same between pages: what may still need sealing is after the cursor. */
  ghost predicate TracksAfter(open: set<int>, t: Tally, done: set<int>, after: Option<int>) {
    && (forall k :: k in open ==> k in t.changed || Beyond(k, after))
    && (forall k :: k in done ==> !Beyond(k, after))
    && t.resealed <= done && t.changed <= done && t.unreadable <= done
  }

  lemma {:induction false} EnterPage(open: set<int>, t: Tally, done: set<int>, after: Option<int>, page: seq<int>,
                                     all: set<int>)
    requires TracksAfter(open, t, done, after) && open <= all && IsPage(page, After(all, after), BATCH)
    ensures Tracks(open, t, done, Keys(page) + (After(all, after) - Keys(page)))
    ensures Keys(page) !! done && Keys(page) <= all
  {
  }

  lemma {:induction false} LeavePage(open: set<int>, t: Tally, done: set<int>, after: Option<int>, page: seq<int>,
                                     all: set<int>)
    requires (forall k :: k in done ==> !Beyond(k, after)) && IsPage(page, After(all, after), BATCH)
    requires Tracks(open, t, done + Keys(page), After(all, after) - Keys(page))
    ensures |page| < BATCH ==> open <= t.changed
    ensures |page| == BATCH ==> TracksAfter(open, t, done + Keys(page), Some(page[BATCH - 1]))
  {
    PageEnds(page, all, after, BATCH);
    if |page| == BATCH {
      var next := Some(page[BATCH - 1]);
      forall k | k in done + Keys(page)
        ensures !Beyond(k, next)
      {
        assert page[BATCH - 1] in After(all, after);
        if k in page {
          var i :| 0 <= i < |page| && page[i] == k;
        }
      }
    }
  }

  /** The tally with row `k` counted. */
  ghost function Tallied(t: Tally, k: int, written: bool, changed: bool, unreadable: bool): Tally {
    Tally(if written then t.resealed + {k} else t.resealed,
          if changed then t.changed + {k} else t.changed,
          if unreadable then t.unreadable + {k} else t.unreadable)
  }

  function Bit(b: bool): nat { if b then 1 else 0 }

  lemma {:induction false} TracksNext(open: set<int>, now: set<int>, t: Tally, done: set<int>, k: int, todo: set<int>,
                                      written: bool, changed: bool, unreadable: bool)
    requires Tracks(open, t, done, {k} + todo) && now <= open && k !in done
    requires k in now ==> changed
    ensures var next := Tallied(t, k, written, changed, unreadable);
            && Tracks(now, next, done + {k}, todo)
            && Counted(next) == StoreReseal(|t.resealed| + Bit(written), |t.changed| + Bit(changed),
                                            |t.unreadable| + Bit(unreadable))
  {
    AddOne(t.resealed, k);
    AddOne(t.changed, k);
    AddOne(t.unreadable, k);
  }

  lemma {:induction false} AddOne(s: set<int>, k: int)
    ensures k !in s ==> |s + {k}| == |s| + 1
  {
  }

  /** An undisturbed pass from `was` to `now` that has handled `done`. */
  ghost predicate Exact(keys: Keyring, store: Store, was: Rows, now: Rows, t: Tally, done: set<int>) {
    && now.Keys == was.Keys
    && (forall k :: k in was && (k !in done || k !in Needing(keys, store, was)) ==> now[k] == was[k])
    && Unreadables(keys, store, now) == Unreadables(keys, store, was)
    && t.changed == {}
    && t.resealed == Needing(keys, store, was) * done
    && t.unreadable == Unreadables(keys, store, was) * done
  }

  /** The rows a page makes handled, of those after `after`. */
  lemma PageEnds(page: seq<int>, all: set<int>, after: Option<int>, limit: nat)
    requires IsPage(page, After(all, after), limit) && limit > 0
    ensures |page| < limit ==> Done(all, after) + Keys(page) == all
    ensures |page| == limit ==>
              var next := Some(page[limit - 1]);
              && After(all, after) - Keys(page) == After(all, next)
              && Done(all, after) + Keys(page) == Done(all, next)
  {
    if |page| == limit {
      var next := page[limit - 1];
      assert next in After(all, after);
      forall k | k in all
        ensures (k in After(all, after) && k !in page) <==> next < k
        ensures (k in Done(all, after) || k in page) <==> k <= next
      {
        if k in page {
          var i :| 0 <= i < |page| && page[i] == k;
        }
      }
    }
  }

  lemma {:induction false} PageStep(page: seq<int>, j: nat, handled: set<int>, later: set<int>)
    requires j < |page| && Ascending(page) && Keys(page) !! handled
    ensures page[j] in Keys(page) && page[j] !in handled + Keys(page[..j])
    ensures handled + Keys(page[..j + 1]) == handled + Keys(page[..j]) + {page[j]}
    ensures Keys(page[j..]) + later == {page[j]} + (Keys(page[j + 1..]) + later)
  {
    assert page[..j + 1] == page[..j] + [page[j]];
    assert page[j..] == [page[j]] + page[j + 1..];
  }

  lemma {:induction false} Untouched(keys: Keyring, store: Store, was: Rows, now: Rows, t: Tally, done: set<int>,
                                     k: int)
    requires Exact(keys, store, was, now, t, done)
    requires k !in done && (k in was || k in now)
    ensures k in was && k in now && now[k] == was[k]
  {
  }

  lemma {:induction false} ExactNext(keys: Keyring, store: Store, was: Rows, before: Rows, now: Rows,
                                     t: Tally, handled: set<int>, k: int, nonce: int)
    requires AllFit(store, was)
    requires Exact(keys, store, was, before, t, handled)
    requires k in before && k !in handled && before[k] == was[k]
    requires now == if NeedsSeal(keys, store, was[k])
                    then before[k := Updated(store, was[k], SealedValues(keys, store, was[k], nonce))] else before
    ensures Exact(keys, store, was, now,
                  Tallied(t, k, NeedsSeal(keys, store, was[k]), false, HasUnreadable(keys, store, was[k])),
                  handled + {k})
  {
    if NeedsSeal(keys, store, was[k]) {
      ResealedRow(keys, store, was[k], nonce, now[k]);
    }
    assert Unreadables(keys, store, now) == Unreadables(keys, store, before) by {
      hide NeedsSeal, HasUnreadable, SealedValues, Updated;
    }
    hide NeedsSeal, HasUnreadable, SealedValues, Updated;
  }

  lemma {:induction false} PassStarts(keys: Keyring, store: Store, rows: Rows)
    ensures TracksAfter(Needing(keys, store, rows), Tally({}, {}, {}), {}, None)
    ensures Exact(keys, store, rows, rows, Tally({}, {}, {}), {})
  {
  }

  lemma {:induction false} TracksShrinks(open: set<int>, now: set<int>, t: Tally, done: set<int>, after: Option<int>)
    requires TracksAfter(open, t, done, after) && now <= open
    ensures TracksAfter(now, t, done, after)
  {
  }

  lemma {:induction false} ExactKeys(keys: Keyring, store: Store, was: Rows, now: Rows, t: Tally, done: set<int>)
    requires Exact(keys, store, was, now, t, done)
    ensures now.Keys == was.Keys
  {
  }

  lemma {:induction false} PassEnds(keys: Keyring, store: Store, was: Rows, now: Rows, t: Tally, done: set<int>)
    requires Exact(keys, store, was, now, t, done) && done == was.Keys
    ensures t == Tally(Needing(keys, store, was), {}, Unreadables(keys, store, was))
    ensures now.Keys == was.Keys && Unreadables(keys, store, now) == Unreadables(keys, store, was)
    ensures forall k :: k in now && k !in Needing(keys, store, was) ==> now[k] == was[k]
  {
  }

  /** A full page leaves fewer rows after the cursor. */
  lemma {:induction false} CursorMoves(page: seq<int>, all: set<int>, after: Option<int>)
    requires IsPage(page, After(all, after), BATCH) && |page| == BATCH
    ensures |After(all, Some(page[BATCH - 1]))| < |After(all, after)|
  {
    PageEnds(page, all, after, BATCH);
    assert page[BATCH - 1] in After(all, after) && page[BATCH - 1] in Keys(page);
    assert After(all, Some(page[BATCH - 1])) < After(all, after);
    SubsetSmaller(After(all, Some(page[BATCH - 1])), After(all, after));
  }

  lemma {:induction false} SubsetSmaller<T>(a: set<T>, b: set<T>)
    requires a < b
    ensures |a| < |b|
  {
    assert b == a + (b - a);
    assert |b| == |a| + |b - a|;
  }

  /** Every row but those of `but` can do without the previous key. */
  ghost predicate CanDrop(keys: Keyring, store: Store, rows: Rows, but: set<int>) {
    forall k :: k in rows && k !in but ==> Fits(store, rows[k]) && OutlivesPrevious(keys, store, rows[k])
  }

  lemma {:induction false} CanDropExactly(keys: Keyring, store: Store, rows: Rows, but: set<int>)
    requires AllFit(store, rows)
    ensures CanDrop(keys, store, rows, but) <==> Needing(keys, store, rows) <= but
  {
    hide NeedsSeal, OutlivesPrevious;
    forall k | k in rows
      ensures NeedsSeal(keys, store, rows[k]) <==> !OutlivesPrevious(keys, store, rows[k])
    {
      NeedExactly(keys, store, rows[k]);
    }
    if CanDrop(keys, store, rows, but) {
      assert forall k :: k in Needing(keys, store, rows) ==> k in but;
    }
  }

  /** What `status` is to count: the rows not in plaintext that read otherwise
      without the previous key, those in plaintext with a value, and those with a
      value that no key opens. */
  ghost function OnPrevious(keys: Keyring, store: Store, rows: Rows): set<int> {
    set k | k in rows && Fits(store, rows[k]) && rows[k].flag != Some(0)
            && exists i :: 0 <= i < |rows[k].values| &&
                 ReadColumn(Dropped(keys), store, rows[k], i) != ReadColumn(keys, store, rows[k], i)
  }

  ghost function InPlaintext(store: Store, rows: Rows): set<int> {
    set k | k in rows && Fits(store, rows[k]) && rows[k].flag == Some(0)
            && exists i :: 0 <= i < |rows[k].values| && rows[k].values[i].Some?
  }

  ghost function OpenedByNone(keys: Keyring, store: Store, rows: Rows): set<int> {
    set k | k in rows && Fits(store, rows[k])
            && exists i :: 0 <= i < |rows[k].values| && rows[k].values[i].Some?
                           && ReadColumn(keys, store, rows[k], i).None?
  }

  lemma {:induction false} CountExactly(keys: Keyring, store: Store, rows: Rows)
    ensures CountOf(keys, store, rows, rows.Keys) ==
            StoreCount(|OnPrevious(keys, store, rows)|, |InPlaintext(store, rows)|, |OpenedByNone(keys, store, rows)|)
  {
    hide NeedsSeal, HasUnreadable, OutlivesPrevious;
    var open, plain := Needing(keys, store, rows), Plaintext(rows);
    forall k | k in rows && Fits(store, rows[k])
      ensures k in open - plain <==> k in OnPrevious(keys, store, rows)
      ensures k in open * plain <==> k in InPlaintext(store, rows)
      ensures k in Unreadables(keys, store, rows) <==> k in OpenedByNone(keys, store, rows)
    {
      NeedExactly(keys, store, rows[k]);
      PlainReads(keys, store, rows[k]);
    }
    assert (open - plain) * rows.Keys == OnPrevious(keys, store, rows);
    assert (open * plain) * rows.Keys == InPlaintext(store, rows);
    assert Unreadables(keys, store, rows) * rows.Keys == OpenedByNone(keys, store, rows);
  }

  lemma PlainReads(keys: Keyring, store: Store, row: Row)
    requires Fits(store, row)
    ensures row.flag == Some(0) ==>
              (OutlivesPrevious(keys, store, row) <==> forall i :: 0 <= i < |row.values| ==> row.values[i].None?)
    ensures row.flag != Some(0) ==>
              (OutlivesPrevious(keys, store, row) <==>
               forall i :: 0 <= i < |row.values| ==>
                 ReadColumn(Dropped(keys), store, row, i) == ReadColumn(keys, store, row, i))
  {
  }

  ghost function Plaintext(rows: Rows): set<int> {
    set k | k in rows && !IsSealed(rows[k])
  }

  /** The status of the rows of `among`: how many only the previous key opens,
      how many are plaintext, and how many no key opens. */
  ghost function CountOf(keys: Keyring, store: Store, rows: Rows, among: set<int>): StoreCount {
    var open := Needing(keys, store, rows);
    StoreCount(|(open - Plaintext(rows)) * among|, |(open * Plaintext(rows)) * among|,
               |Unreadables(keys, store, rows) * among|)
  }

  lemma CountNone(keys: Keyring, store: Store, rows: Rows)
    ensures CountOf(keys, store, rows, Done(rows.Keys, None)) == StoreCount(0, 0, 0)
  {
    assert Done(rows.Keys, None) == {};
  }

  lemma {:induction false} Grow(s: set<int>, among: set<int>, k: int)
    requires k !in among
    ensures |s * (among + {k})| == |s * among| + Bit(k in s)
  {
    assert s * (among + {k}) == if k in s then s * among + {k} else s * among;
  }

  lemma {:induction false} CountNext(keys: Keyring, store: Store, rows: Rows, among: set<int>, k: int)
    requires AllFit(store, rows) && k in rows && k !in among
    ensures var seal, count := NeedsSeal(keys, store, rows[k]), CountOf(keys, store, rows, among);
            CountOf(keys, store, rows, among + {k}) ==
            StoreCount(count.previous + Bit(seal && IsSealed(rows[k])),
                       count.unsealed + Bit(seal && !IsSealed(rows[k])),
                       count.unreadable + Bit(HasUnreadable(keys, store, rows[k])))
  {
    var open, plain := Needing(keys, store, rows), Plaintext(rows);
    Grow(open - plain, among, k);
    Grow(open * plain, among, k);
    Grow(Unreadables(keys, store, rows), among, k);
  }

  lemma {:induction false} PreviousAndUnsealed(keys: Keyring, store: Store, rows: Rows)
    ensures var c := CountOf(keys, store, rows, rows.Keys);
            c.previous + c.unsealed == |Needing(keys, store, rows)| && c.unreadable == |Unreadables(keys, store, rows)|
  {
    assert Unreadables(keys, store, rows) * rows.Keys == Unreadables(keys, store, rows);
    var open, plain := Needing(keys, store, rows), Plaintext(rows);
    assert (open - plain) * rows.Keys == open - plain && (open * plain) * rows.Keys == open * plain;
    assert open == (open - plain) + (open * plain);
  }

  lemma StepOk(keys: Keyring, store: Store, env: Env, t: nat)
    requires EnvOk(keys, store, env) && t < |env.steps|
    ensures AllOk(keys, store, env.steps[t])
  {
  }

  lemma NoOps(keys: Keyring, store: Store)
    ensures AllOk(keys, store, [])
  {
  }

  lemma OpOk(keys: Keyring, store: Store, log: seq<Op>, ops: seq<Op>, i: nat)
    requires AllOk(keys, store, log) && AllOk(keys, store, ops) && i < |ops|
    ensures WriterOk(keys, store, ops[i]) && AllOk(keys, store, log + [ops[i]])
  {
  }

  lemma ApplyOn(store: Store, rows: Rows, log: seq<Op>, op: Op)
    ensures ApplyAll(store, rows, log + [op]) == Apply(store, ApplyAll(store, rows, log), op)
  {
    assert (log + [op])[..|log|] == log;
  }

  lemma QuietLater(env: Env, clock: nat)
    requires Quiet(env, clock)
    ensures forall later: nat :: clock <= later ==> Quiet(env, later)
  {
  }

  /** One table while passes and writers run on it. `start` and `log` are what
      it held at first and what the writers have done since. */
  class StoreTable {
    const keys: Keyring
    const store: Store
    var rows: Rows
    var clock: nat
    ghost var start: Rows
    ghost var log: seq<Op>

    constructor (keys: Keyring, store: Store, rows: Rows)
      requires AllFit(store, rows)
      ensures Valid() && this.keys == keys && this.store == store && this.rows == rows
      ensures start == rows && log == [] && clock == 0
    {
      this.keys, this.store, this.rows, clock, start, log := keys, store, rows, 0, rows, [];
    }

    /** Every column opens to what it would if only the writers had run: the
        passes have changed nothing a reader sees. */
    ghost predicate Valid()
      reads this
    {
      AllFit(store, rows) && AllOk(keys, store, log) && SameReads(keys, store, rows, ApplyAll(store, start, log))
    }

    ghost function Open(): set<int>
      reads this
    {
      Needing(keys, store, rows)
    }

    /** Other writers run before a database call. */
    method Await(env: Env)
      requires Valid() && EnvOk(keys, store, env)
      modifies this
      ensures Valid() && clock == old(clock) + 1 && start == old(start)
      ensures log == old(log) + if old(clock) < |env.steps| then env.steps[old(clock)] else []
      ensures Open() <= old(Open())
      ensures (old(clock) < |env.steps| ==> env.steps[old(clock)] == []) ==> rows == old(rows)
    {
      hide AllOk, AllFit, WriterOk, Apply, ApplyAll, SameReads, Needing;
      var ops := if clock < |env.steps| then env.steps[clock] else [];
      if clock < |env.steps| { StepOk(keys, store, env, clock); } else { NoOps(keys, store); }
      var i := 0;
      while i < |ops|
        invariant 0 <= i <= |ops|
        invariant Valid() && clock == old(clock) && start == old(start)
        invariant log == old(log) + ops[..i]
        invariant Open() <= old(Open())
        invariant ops == [] ==> rows == old(rows)
      {
        OpOk(keys, store, log, ops, i);
        WritersShrink(keys, store, rows, ops[i]);
        WritersAgree(keys, store, rows, ApplyAll(store, start, log), ops[i]);
        ApplyOn(store, start, log, ops[i]);
        rows := Apply(store, rows, ops[i]);
        log := log + [ops[i]];
        i := i + 1;
      }
      clock := clock + 1;
    }

    /** Put `sealed` in row `k`, unless someone has changed the row since `row` was fetched. */
    method CompareAndSet(k: int, row: Row, sealed: seq<Option<Stored>>) returns (ok: bool)
      requires Fits(store, row) && |sealed| == |store.columns|
      modifies this`rows
      ensures ok <==> k in old(rows) && old(rows)[k] == row
      ensures rows == if ok then old(rows)[k := Updated(store, row, sealed)] else old(rows)
    {
      ok := k in rows && rows[k] == row;
      if ok { rows := rows[k := Updated(store, row, sealed)]; }
    }

    /** One fetched row: skipped, written, left to the writer that changed it,
        or failed. */
    method ResealRow(env: Env, k: int, row: Row) returns (written: bool, changed: bool, failed: bool)
      requires Valid() && EnvOk(keys, store, env) && Fits(store, row)
      requires k in rows && !NeedsSeal(keys, store, row) ==> k !in Open()
      modifies this
      ensures Valid() && start == old(start) && old(log) <= log && clock >= old(clock)
      ensures old(clock) >= |env.steps| ==> rows.Keys == old(rows).Keys
      ensures Open() <= old(Open())
      ensures !changed && !failed ==> k !in Open()
      ensures !(written && changed) && !(written && failed) && !(changed && failed)
      ensures !NeedsSeal(keys, store, row) ==>
                !written && !changed && !failed && rows == old(rows) && clock == old(clock)
      ensures Quiet(env, old(clock)) && k in old(rows) && old(rows)[k] == row && NeedsSeal(keys, store, row) ==>
                written && !changed && !failed && rows == old(rows)[
                  k := Updated(store, row, SealedValues(keys, store, row, env.nonce + old(clock)))]
    {
      if !NeedsSeal(keys, store, row) { return false, false, false; }
      var sealed := SealedValues(keys, store, row, env.nonce + clock);
      failed := clock in env.faults;
      Await(env);
      if failed { return false, false, true; }
      ghost var before := rows;
      ResealedRow(keys, store, row, env.nonce + old(clock), Updated(store, row, sealed));
      written := CompareAndSet(k, row, sealed);
      changed := !written;
    }

    method ResealOne(env: Env, k: int, row: Row, done0: StoreReseal,
                     ghost t0: Tally, ghost handled: set<int>, ghost todo: set<int>, ghost was: Rows, ghost quiet: bool)
      returns (done: StoreReseal, failed: bool, ghost t: Tally)
      requires Valid() && EnvOk(keys, store, env) && Fits(store, row) && AllFit(store, was)
      requires k !in handled && (!NeedsSeal(keys, store, row) ==> k !in Open())
      requires done0 == Counted(t0) && Tracks(Open(), t0, handled, {k} + todo)
      requires quiet ==>
                 Quiet(env, clock) && Exact(keys, store, was, rows, t0, handled) && k in rows && rows[k] == row
                 && was[k] == row
      modifies this
      ensures Valid() && start == old(start) && old(log) <= log && clock >= old(clock)
      ensures old(clock) >= |env.steps| ==> rows.Keys == old(rows).Keys
      ensures Open() <= old(Open())
      ensures !failed ==> done == Counted(t) && Tracks(Open(), t, handled + {k}, todo)
      ensures quiet ==> !failed && Exact(keys, store, was, rows, t, handled + {k})
    {
      hide SameReads, Tracks, Exact, Needing, Unreadables, Updated, SealedValues, Tallied;
      var unreadable := HasUnreadable(keys, store, row);
      var written, changed;
      written, changed, failed := ResealRow(env, k, row);
      done := StoreReseal(done0.resealed + Bit(written), done0.changed + Bit(changed),
                          done0.unreadable + Bit(unreadable));
      t := Tallied(t0, k, written, changed, unreadable);
      if !failed {
        TracksNext(old(Open()), Open(), t0, handled, k, todo, written, changed, unreadable);
      }
      if quiet {
        ExactNext(keys, store, was, old(rows), rows, t0, handled, k, env.nonce + old(clock));
      }
    }

    /** The rows of one page, as fetched in `snap`. */
    method ResealPage(env: Env, page: seq<int>, snap: Rows, done0: StoreReseal,
                      ghost t0: Tally, ghost handled: set<int>, ghost later: set<int>, ghost was: Rows,
                      ghost quiet: bool)
      returns (done: StoreReseal, failed: bool, ghost t: Tally)
      requires Valid() && EnvOk(keys, store, env) && AllFit(store, snap) && AllFit(store, was)
      requires rows == snap && Ascending(page) && Keys(page) <= snap.Keys && Keys(page) !! handled
      requires done0 == Counted(t0) && Tracks(Open(), t0, handled, Keys(page) + later)
      requires quiet ==> Quiet(env, clock) && Exact(keys, store, was, rows, t0, handled)
      modifies this
      ensures Valid() && start == old(start) && old(log) <= log && clock >= old(clock)
      ensures old(clock) >= |env.steps| ==> rows.Keys == old(rows).Keys
      ensures Open() <= old(Open())
      ensures !failed ==> done == Counted(t) && Tracks(Open(), t, handled + Keys(page), later)
      ensures quiet ==> !failed && Exact(keys, store, was, rows, t, handled + Keys(page))
    {
      hide Exact, Tracks, SameReads;
      done, t, failed := done0, t0, false;
      assert page[..0] == [] && page[0..] == page;
      assert handled + Keys(page[..0]) == handled;
      var j := 0;
      while j < |page|
        invariant 0 <= j <= |page| && !failed
        invariant Valid() && start == old(start) && old(log) <= log && clock >= old(clock)
        invariant Open() <= old(Open()) && done == Counted(t)
        invariant old(clock) >= |env.steps| ==> rows.Keys == old(rows).Keys
        invariant Tracks(Open(), t, handled + Keys(page[..j]), Keys(page[j..]) + later)
        invariant quiet ==> Exact(keys, store, was, rows, t, handled + Keys(page[..j]))
      {
        PageStep(page, j, handled, later);
        if quiet {
          Untouched(keys, store, was, snap, t0, handled, page[j]);
          Untouched(keys, store, was, rows, t, handled + Keys(page[..j]), page[j]);
        }
        done, failed, t := ResealOne(env, page[j], snap[page[j]], done, t, handled + Keys(page[..j]),
                                     Keys(page[j + 1..]) + later, was, quiet);
        if failed {
          return;
        }
        j := j + 1;
      }
      assert page[..j] == page && page[j..] == [];
      assert Keys(page[j..]) + later == later;
    }

    /** One batch: a stop check, a page, and its rows. `outcome` is set when the
        pass ends with it, and `next` is the cursor otherwise. */
    method ResealBatch(env: Env, after: Option<int>, done0: StoreReseal,
                       ghost t0: Tally, ghost handled0: set<int>, ghost was: Rows, ghost quiet: bool)
      returns (done: StoreReseal, outcome: Option<Outcome>, next: Option<int>, ghost t: Tally, ghost handled: set<int>)
      requires Valid() && EnvOk(keys, store, env) && AllFit(store, was)
      requires done0 == Counted(t0) && TracksAfter(Open(), t0, handled0, after)
      requires quiet ==> Quiet(env, clock) && handled0 == Done(was.Keys, after)
                         && Exact(keys, store, was, rows, t0, handled0)
      modifies this
      ensures Valid() && start == old(start) && old(log) <= log && clock > old(clock)
      ensures Open() <= old(Open())
      ensures outcome != Some(Failed) ==> done == Counted(t)
      ensures outcome == Some(Finished) ==> Open() <= t.changed
      ensures outcome.None? ==> TracksAfter(Open(), t, handled, next)
      ensures outcome.None? && old(clock) >= |env.steps| ==>
                |After(rows.Keys, next)| < |After(old(rows).Keys, after)|
      ensures quiet ==>
                && (outcome.None? || outcome == Some(Finished))
                && handled == (if outcome.None? then Done(was.Keys, next) else was.Keys)
                && Exact(keys, store, was, rows, t, handled)
    {
      hide SameReads, ApplyAll, Tracks, TracksAfter, Exact, IsPage, Needing, AllOk;
      done, t, handled, next := done0, t0, handled0, after;
      var stop := clock in env.stops;
      Await(env);
      if stop { return done, Some(Stopped), next, t, handled; }
      var fault := clock in env.faults;
      Await(env);
      if fault { return done, Some(Failed), next, t, handled; }
      TracksShrinks(old(Open()), Open(), t, handled, after);
      var page := SelectPage(After(rows.Keys, after), BATCH);
      ghost var all := rows.Keys;
      if quiet { ExactKeys(keys, store, was, rows, t, handled); }
      EnterPage(Open(), t, handled, after, page, all);
      var failed;
      done, failed, t := ResealPage(env, page, rows, done, t, handled, After(all, after) - Keys(page), was, quiet);
      if failed { return done, Some(Failed), next, t, handled; }
      LeavePage(Open(), t, handled, after, page, all);
      PageEnds(page, all, after, BATCH);
      handled := handled + Keys(page);
      if |page| < BATCH { return done, Some(Finished), next, t, handled; }
      CursorMoves(page, all, after);
      outcome, next := None, Some(page[BATCH - 1]);
    }

    /** One pass over the store, from the start. */
    method ResealStore(env: Env) returns (done: StoreReseal, outcome: Outcome, ghost t: Tally)
      requires Valid() && EnvOk(keys, store, env)
      modifies this
      ensures Valid() && start == old(start) && old(log) <= log && clock >= old(clock)
      // No row comes to need sealing, however the pass ends.
      ensures Open() <= old(Open())
      // After a whole pass, a row that still needs sealing was counted as changed.
      ensures !outcome.Failed? ==> done == Counted(t)
      ensures outcome.Finished? ==> Open() <= t.changed
      // So the previous key can be dropped for every other row.
      ensures outcome.Finished? ==> CanDrop(keys, store, rows, t.changed)
      // Undisturbed, it seals every row there was to seal, once, and no other.
      ensures Quiet(env, old(clock)) ==>
                && outcome.Finished? && Open() == {} && CanDrop(keys, store, rows, {})
                && done == StoreReseal(|old(Open())|, 0, |Unreadables(keys, store, old(rows))|)
                && rows.Keys == old(rows).Keys
                && Unreadables(keys, store, rows) == Unreadables(keys, store, old(rows))
                && (forall k :: k in rows && k !in old(Open()) ==> rows[k] == old(rows)[k])
    {
      hide SameReads, ApplyAll, Tracks, TracksAfter, Exact, IsPage, Needing, AllOk, CanDrop;
      ghost var was, quiet, handled := rows, Quiet(env, clock), {};
      done, t := StoreReseal(0, 0, 0), Tally({}, {}, {});
      var after: Option<int> := None;
      PassStarts(keys, store, rows);
      while true
        invariant Valid() && start == old(start) && old(log) <= log && clock >= old(clock)
        invariant Open() <= old(Open()) && done == Counted(t)
        invariant TracksAfter(Open(), t, handled, after)
        invariant quiet ==> handled == Done(was.Keys, after) && Exact(keys, store, was, rows, t, handled)
        decreases if clock < |env.steps| then |env.steps| - clock else 0, |After(rows.Keys, after)|
      {
        var end;
        done, end, after, t, handled := ResealBatch(env, after, done, t, handled, was, quiet);
        if end.Some? {
          if quiet { PassEnds(keys, store, was, rows, t, handled); }
          CanDropExactly(keys, store, rows, t.changed);
          CanDropExactly(keys, store, rows, {});
          return done, end.value, t;
        }
      }
    }

    /** Passes one after another, each from the start, however each one ends. */
    method ResealAgain(envs: seq<Env>) returns (outcome: Outcome, ghost t: Tally)
      requires Valid() && forall i :: 0 <= i < |envs| ==> EnvOk(keys, store, envs[i])
      modifies this
      ensures Valid() && start == old(start) && old(log) <= log
      ensures Open() <= old(Open())
      ensures outcome.Finished? ==> Open() <= t.changed && CanDrop(keys, store, rows, t.changed)
    {
      hide SameReads, ApplyAll, Needing, AllOk, EnvOk, CanDrop;
      outcome, t := Stopped, Tally({}, {}, {});
      var i := 0;
      while i < |envs|
        invariant 0 <= i <= |envs|
        invariant Valid() && start == old(start) && old(log) <= log
        invariant Open() <= old(Open())
        invariant outcome.Finished? ==> Open() <= t.changed && CanDrop(keys, store, rows, t.changed)
      {
        var done;
        done, outcome, t := ResealStore(envs[i]);
        i := i + 1;
      }
    }

    /** Count what a rotation still has to deal with, page by page. */
    method Status() returns (count: StoreCount)
      requires AllFit(store, rows)
      ensures count == CountOf(keys, store, rows, rows.Keys)
      ensures count.previous + count.unsealed == |Open()|
      ensures count.unreadable == |Unreadables(keys, store, rows)|
      // By what opens without the previous key; with none counted it can go.
      ensures count == StoreCount(|OnPrevious(keys, store, rows)|, |InPlaintext(store, rows)|,
                                  |OpenedByNone(keys, store, rows)|)
      ensures count.previous + count.unsealed == 0 <==> CanDrop(keys, store, rows, {})
    {
      hide IsPage, CountOf, Needing, Unreadables, CanDrop, OnPrevious, InPlaintext, OpenedByNone;
      var after: Option<int> := None;
      count := StoreCount(0, 0, 0);
      CountNone(keys, store, rows);
      while true
        invariant count == CountOf(keys, store, rows, Done(rows.Keys, after))
        decreases |After(rows.Keys, after)|
      {
        var page := SelectPage(After(rows.Keys, after), BATCH);
        count := CountPage(page, Done(rows.Keys, after), count);
        PageEnds(page, rows.Keys, after, BATCH);
        if |page| < BATCH {
          PreviousAndUnsealed(keys, store, rows);
          CountExactly(keys, store, rows);
          CanDropExactly(keys, store, rows, {});
          return;
        }
        CursorMoves(page, rows.Keys, after);
        after := Some(page[BATCH - 1]);
      }
    }

    /** With nobody else about: `status`, a pass, `status` again and another pass. */
    method RotateUndisturbed(env: Env)
      returns (before: StoreCount, first: StoreReseal, after: StoreCount, second: StoreReseal)
      requires Valid() && EnvOk(keys, store, env) && Quiet(env, clock)
      modifies this
      ensures Valid()
      // The pass seals what `status` counted, and `status` then counts none of it.
      ensures first == StoreReseal(before.previous + before.unsealed, 0, before.unreadable)
      ensures after == StoreCount(0, 0, before.unreadable) && CanDrop(keys, store, rows, {})
      // A second pass writes nothing.
      ensures second == StoreReseal(0, 0, before.unreadable)
      ensures forall k :: k in rows && k !in old(Open()) ==> k in old(rows) && rows[k] == old(rows)[k]
    {
      hide SameReads, ApplyAll, AllOk, EnvOk, CountOf, Unreadables, Needing, CanDrop, OnPrevious, InPlaintext,
           OpenedByNone;
      before := Status();
      ghost var t, u;
      var outcome;
      QuietLater(env, clock);
      first, outcome, t := ResealStore(env);
      after := Status();
      second, outcome, u := ResealStore(env);
    }

    method CountPage(page: seq<int>, ghost seen: set<int>, count0: StoreCount) returns (count: StoreCount)
      requires AllFit(store, rows) && Ascending(page) && Keys(page) !! seen && Keys(page) <= rows.Keys
      requires count0 == CountOf(keys, store, rows, seen)
      ensures count == CountOf(keys, store, rows, seen + Keys(page))
    {
      hide CountOf, NeedsSeal, HasUnreadable;
      count := count0;
      assert seen + Keys(page[..0]) == seen;
      var j := 0;
      while j < |page|
        invariant 0 <= j <= |page|
        invariant count == CountOf(keys, store, rows, seen + Keys(page[..j]))
      {
        PageStep(page, j, seen, {});
        var k := page[j];
        CountNext(keys, store, rows, seen + Keys(page[..j]), k);
        if HasUnreadable(keys, store, rows[k]) {
          count := count.(unreadable := count.unreadable + 1);
        }
        if NeedsSeal(keys, store, rows[k]) {
          if rows[k].flag == Some(0) {
            count := count.(unsealed := count.unsealed + 1);
          } else {
            count := count.(previous := count.previous + 1);
          }
        }
        j := j + 1;
      }
      assert page[..j] == page;
    }
  }
}
