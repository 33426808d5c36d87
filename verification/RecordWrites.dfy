/** Writing network records: the guarded upsert of one record, the batch write
    that keeps the last copy of each, and exactly when the two agree. */
module RecordWrites {
  import opened Wrappers

  datatype RecordKey = RecordKey(did: int, collection: int, rkey: int)

  /** A stored row; `stamped` is whether `indexed_at` is set. */
  datatype Row = Row(cid: int, body: int, rev: Option<int>, stamped: bool)

  datatype Prepared = Prepared(key: RecordKey, cid: int, body: int, rev: Option<int>)

  /** The record table, its tombstones, the deltas kept for records an external
      storage holds, and the rest of the database. */
  datatype Db = Db(
    rows: map<RecordKey, Row>,
    recordTombs: map<RecordKey, int>,
    didTombs: map<int, int>,
    deltas: map<RecordKey, int>,
    rest: int)

  /** Whether a tombstone supersedes a write at `rev`. */
  predicate Superseded(tomb: int, rev: Option<int>) {
    rev.None? || tomb >= rev.value
  }

  predicate Blocked(db: Db, rec: Prepared) {
    || (rec.key in db.recordTombs && Superseded(db.recordTombs[rec.key], rec.rev))
    || (rec.key.did in db.didTombs && Superseded(db.didTombs[rec.key.did], rec.rev))
  }

  /** The conflict clause: the row changed, and the incoming rev is not older. */
  predicate Replaces(row: Row, rec: Prepared) {
    && (row.cid != rec.cid || row.body != rec.body || !row.stamped)
    && (row.rev.None? || rec.rev.None? || rec.rev.value >= row.rev.value)
  }

  function Upsert(row: Option<Row>, rec: Prepared): Row {
    match row
    case None => Row(rec.cid, rec.body, rec.rev, true)
    case Some(r) =>
      if Replaces(r, rec) then Row(rec.cid, rec.body, if rec.rev.Some? then rec.rev else r.rev, true) else r
  }

  function RowOf(db: Db, key: RecordKey): Option<Row> {
    if key in db.rows then Some(db.rows[key]) else None
  }

  /** Whether a write of `rec` inserts or changes its row. */
  predicate Changes(db: Db, rec: Prepared) {
    !Blocked(db, rec) && (rec.key !in db.rows || Replaces(db.rows[rec.key], rec))
  }

  function WriteOne(db: Db, rec: Prepared): Db {
    if Blocked(db, rec) then db else db.(rows := db.rows[rec.key := Upsert(RowOf(db, rec.key), rec)])
  }

  /** The records of a run written one after another. */
  function WriteEach(db: Db, recs: seq<Prepared>): Db {
    if recs == [] then db else WriteOne(WriteEach(db, recs[..|recs| - 1]), recs[|recs| - 1])
  }

  predicate HasKey(recs: seq<Prepared>, key: RecordKey) {
    exists i :: 0 <= i < |recs| && recs[i].key == key
  }

  /** Whether no later record has the key of record `i`. */
  predicate IsLast(recs: seq<Prepared>, i: nat)
    requires i < |recs|
  {
    forall j :: i < j < |recs| ==> recs[j].key != recs[i].key
  }

  /** The records among the first `n` that are the last copy of their key. */
  function LastCopies(recs: seq<Prepared>, n: nat): seq<Prepared>
    requires n <= |recs|
  {
    if n == 0 then []
    else LastCopies(recs, n - 1) + if IsLast(recs, n - 1) then [recs[n - 1]] else []
  }

  /** `write_network`: the last copies, in one transaction. */
  function WriteBatch(db: Db, recs: seq<Prepared>): Db {
    WriteEach(db, LastCopies(recs, |recs|))
  }

  /** Where the last copy of `key` is. */
  function LastAt(recs: seq<Prepared>, key: RecordKey): (i: nat)
    requires HasKey(recs, key)
    ensures i < |recs| && recs[i].key == key && IsLast(recs, i)
  {
    var n := |recs| - 1;
    if recs[n].key == key then n
    else
      assert HasKey(recs[..n], key) by {
        var i :| 0 <= i < |recs| && recs[i].key == key;
        assert recs[..n][i] == recs[i];
      }
      LastAt(recs[..n], key)
  }

  /** What readers see of the records. */
  ghost predicate SameContent(a: Db, b: Db) {
    && a.rows.Keys == b.rows.Keys
    && forall k :: k in a.rows ==> a.rows[k].cid == b.rows[k].cid && a.rows[k].body == b.rows[k].body
  }

  /** Revs in the order a later copy may come: both missing, or not older. */
  predicate InOrder(earlier: Option<int>, later: Option<int>) {
    (earlier.None? && later.None?) || (earlier.Some? && later.Some? && earlier.value <= later.value)
  }

  /** No copy of a record is newer than its last copy, or has a rev when that
      has none, or none when that has one. */
  ghost predicate RevsInOrder(recs: seq<Prepared>) {
    forall i, j :: 0 <= i < j < |recs| && recs[i].key == recs[j].key && IsLast(recs, j) ==>
      InOrder(recs[i].rev, recs[j].rev)
  }

  // ---- One record at a time ----

  /** What `n` writes do to the row of one record, past the tombstones `tombs`. */
  function FoldRow(db: Db, recs: seq<Prepared>, key: RecordKey): Option<Row> {
    if recs == [] then RowOf(db, key)
    else
      var n := |recs| - 1;
      var row := FoldRow(db, recs[..n], key);
      if recs[n].key != key || Blocked(db, recs[n]) then row else Some(Upsert(row, recs[n]))
  }

  lemma {:induction false} EachIsFold(db: Db, recs: seq<Prepared>, key: RecordKey)
    ensures RowOf(WriteEach(db, recs), key) == FoldRow(db, recs, key)
    ensures WriteEach(db, recs).recordTombs == db.recordTombs && WriteEach(db, recs).didTombs == db.didTombs
  {
    if recs != [] {
      var n := |recs| - 1;
      EachIsFold(db, recs[..n], key);
    }
  }

  lemma {:induction false} FoldWithout(db: Db, recs: seq<Prepared>, key: RecordKey)
    requires !HasKey(recs, key)
    ensures FoldRow(db, recs, key) == RowOf(db, key)
  {
    if recs != [] {
      var n := |recs| - 1;
      assert forall i :: 0 <= i < n ==> recs[..n][i] == recs[i];
      FoldWithout(db, recs[..n], key);
    }
  }

  /** The row of `rec` after it is written. */
  function WriteRow(db: Db, rec: Prepared): Option<Row> {
    if Blocked(db, rec) then RowOf(db, rec.key) else Some(Upsert(RowOf(db, rec.key), rec))
  }

  /** A batch write leaves in each row what writing its last copy leaves. */
  lemma {:induction false} BatchIsLastCopy(db: Db, recs: seq<Prepared>, n: nat, key: RecordKey)
    requires n <= |recs|
    ensures FoldRow(db, LastCopies(recs, n), key) ==
            if HasKey(recs, key) && LastAt(recs, key) < n then WriteRow(db, recs[LastAt(recs, key)]) else RowOf(db, key)
  {
    hide LastAt, Upsert, Blocked, IsLast, HasKey;
    if n > 0 {
      BatchIsLastCopy(db, recs, n - 1, key);
      var rest, rec := LastCopies(recs, n - 1), recs[n - 1];
      if IsLast(recs, n - 1) {
        assert (rest + [rec])[..|rest|] == rest;
        if rec.key == key { LastAtIs(recs, n - 1); }
      } else {
        assert rest + [] == rest;
      }
    }
  }

  lemma LastAtIs(recs: seq<Prepared>, i: nat)
    requires i < |recs| && IsLast(recs, i)
    ensures HasKey(recs, recs[i].key) && LastAt(recs, recs[i].key) == i
  {
  }

  /** The row holds no rev, or one no newer than `rev`. */
  predicate NotNewer(row: Option<Row>, rev: int) {
    row.Some? && row.value.rev.Some? ==> row.value.rev.value <= rev
  }

  /** Copies no newer than `last` leave a row that `last` can replace, or none
      of them applies. */
  lemma {:induction false} EarlierCopies(db: Db, recs: seq<Prepared>, n: nat, last: Prepared)
    requires n <= |recs|
    requires forall i :: 0 <= i < n && recs[i].key == last.key ==> InOrder(recs[i].rev, last.rev)
    ensures var row := FoldRow(db, recs[..n], last.key);
            && (Blocked(db, last) ==> row == RowOf(db, last.key))
            && (last.rev.Some? && !NotNewer(RowOf(db, last.key), last.rev.value) ==> row == RowOf(db, last.key))
            && (last.rev.Some? && NotNewer(RowOf(db, last.key), last.rev.value) ==> NotNewer(row, last.rev.value))
  {
    if n > 0 {
      EarlierCopies(db, recs, n - 1, last);
      assert recs[..n][..n - 1] == recs[..n - 1];
    }
  }

  lemma {:induction false} LaterRecords(db: Db, recs: seq<Prepared>, i: nat, n: nat)
    requires i < n <= |recs| && IsLast(recs, i)
    ensures FoldRow(db, recs[..n], recs[i].key) == FoldRow(db, recs[..i + 1], recs[i].key)
  {
    if n > i + 1 {
      assert recs[..n][..n - 1] == recs[..n - 1];
      LaterRecords(db, recs, i, n - 1);
    }
  }

  predicate SameRow(a: Option<Row>, b: Option<Row>) {
    (a.None? && b.None?) || (a.Some? && b.Some? && a.value.cid == b.value.cid && a.value.body == b.value.body)
  }

  lemma {:induction false} SameRowsAreSameContent(a: Db, b: Db)
    requires forall key: RecordKey :: SameRow(RowOf(a, key), RowOf(b, key))
    ensures SameContent(a, b)
  {
    forall key: RecordKey
      ensures key in a.rows <==> key in b.rows
    {
      assert SameRow(RowOf(a, key), RowOf(b, key));
    }
    forall key | key in a.rows
      ensures a.rows[key].cid == b.rows[key].cid && a.rows[key].body == b.rows[key].body
    {
      assert SameRow(RowOf(a, key), RowOf(b, key));
    }
  }

  lemma {:induction false} OrderedRowAgrees(db: Db, recs: seq<Prepared>, key: RecordKey)
    requires RevsInOrder(recs) && HasKey(recs, key)
    ensures SameRow(FoldRow(db, recs, key), WriteRow(db, recs[LastAt(recs, key)]))
  {
    var i := LastAt(recs, key);
    EarlierCopies(db, recs, i, recs[i]);
    LaterRecords(db, recs, i, |recs|);
    assert recs[..|recs|] == recs && recs[..i + 1][..i] == recs[..i];
  }

  // ---- Revs out of order ----

  function FreshBody(recs: seq<Prepared>): (f: int)
    ensures forall i :: 0 <= i < |recs| ==> recs[i].body < f
  {
    if recs == [] then 0
    else
      var n := |recs| - 1;
      var f := FreshBody(recs[..n]);
      assert forall i :: 0 <= i < n ==> recs[..n][i] == recs[i];
      if recs[n].body < f then f else recs[n].body + 1
  }

  /** A row whose body no copy has is left for good once a copy applies to it. */
  lemma {:induction false} FreshRowIsReplaced(db: Db, recs: seq<Prepared>, n: nat, i: nat)
    requires i < |recs| && n <= |recs|
    requires var key := recs[i].key;
             && key in db.rows && db.rows[key].body == FreshBody(recs)
             && !Blocked(db, recs[i]) && Replaces(db.rows[key], recs[i])
    ensures var key := recs[i].key; var row := FoldRow(db, recs[..n], key);
            && row.Some?
            && (row == RowOf(db, key) || row.value.body != FreshBody(recs))
            && (i < n ==> row.value.body != FreshBody(recs))
  {
    if n > 0 {
      FreshRowIsReplaced(db, recs, n - 1, i);
      assert recs[..n][..n - 1] == recs[..n - 1];
    }
  }

  /** A database in which copy `i` applies and the last copy of its record does
      not, when their revs are not in order. */
  function Witness(recs: seq<Prepared>, i: nat, last: Option<int>): Db
    requires i < |recs|
  {
    var key, rev := recs[i].key, recs[i].rev;
    var stored := match last
                  case None => None
                  case Some(b) => Some(if rev.Some? then rev.value else b + 1);
    var tombs := if last.None? && rev.Some? then map[key := rev.value - 1] else map[];
    Db(map[key := Row(0, FreshBody(recs), stored, true)], tombs, map[], map[], 0)
  }

  lemma {:induction false} OutOfOrderDiffers(recs: seq<Prepared>, i: nat, j: nat)
    requires i < j < |recs| && recs[i].key == recs[j].key && IsLast(recs, j)
    requires !InOrder(recs[i].rev, recs[j].rev)
    ensures var db := Witness(recs, i, recs[j].rev);
            !SameContent(WriteBatch(db, recs), WriteEach(db, recs))
  {
    var db, key := Witness(recs, i, recs[j].rev), recs[i].key;
    FreshRowIsReplaced(db, recs, |recs|, i);
    assert recs[..|recs|] == recs;
    EachIsFold(db, recs, key);
    LastAtIs(recs, j);
    BatchIsLastCopy(db, recs, |recs|, key);
    EachIsFold(db, LastCopies(recs, |recs|), key);
  }

  /** Writing a run in one transaction stores what writing its records one by
      one stores, whatever the database holds, exactly when no copy of a record
      is newer than the last one. */
  lemma {:induction false} BatchAgreesExactlyInOrder(recs: seq<Prepared>)
    ensures (forall db: Db :: SameContent(WriteBatch(db, recs), WriteEach(db, recs))) <==> RevsInOrder(recs)
  {
    if RevsInOrder(recs) {
      forall db: Db
        ensures SameContent(WriteBatch(db, recs), WriteEach(db, recs))
      {
        forall key: RecordKey
          ensures SameRow(RowOf(WriteBatch(db, recs), key), RowOf(WriteEach(db, recs), key))
        {
          EachIsFold(db, recs, key);
          EachIsFold(db, LastCopies(recs, |recs|), key);
          BatchIsLastCopy(db, recs, |recs|, key);
          if HasKey(recs, key) { OrderedRowAgrees(db, recs, key); } else { FoldWithout(db, recs, key); }
        }
        SameRowsAreSameContent(WriteBatch(db, recs), WriteEach(db, recs));
      }
    } else {
      var i, j :| 0 <= i < j < |recs| && recs[i].key == recs[j].key && IsLast(recs, j)
                  && !InOrder(recs[i].rev, recs[j].rev);
      OutOfOrderDiffers(recs, i, j);
    }
  }

  // ---- When the whole database agrees ----

  predicate IsFirst(recs: seq<Prepared>, i: nat)
    requires i < |recs|
  {
    forall k :: 0 <= k < i ==> recs[k].key != recs[i].key
  }

  /** A copy after which `last` leaves what it leaves alone: neither has a rev; or
      both do, `copy` has the same content and is not newer, and is the very same
      when it is the record's first. */
  predicate Repeats(copy: Prepared, last: Prepared, first: bool) {
    if last.rev.None? then copy.rev.None?
    else
      && copy.rev.Some? && copy.rev.value <= last.rev.value && (first ==> copy.rev == last.rev)
      && copy.cid == last.cid && copy.body == last.body
  }

  /** Every copy in the run only repeats its record's last copy. */
  ghost predicate OnlyRepeats(recs: seq<Prepared>) {
    forall i, j :: 0 <= i < j < |recs| && recs[i].key == recs[j].key && IsLast(recs, j) ==>
      Repeats(recs[i], recs[j], IsFirst(recs, i))
  }

  lemma {:induction false} SameRowsAreSameDb(db: Db, a: seq<Prepared>, b: seq<Prepared>)
    requires forall key: RecordKey :: RowOf(WriteEach(db, a), key) == RowOf(WriteEach(db, b), key)
    ensures WriteEach(db, a) == WriteEach(db, b)
  {
    OnlyRows(db, a);
    OnlyRows(db, b);
    var x, y := WriteEach(db, a).rows, WriteEach(db, b).rows;
    assert forall key: RecordKey :: RowOf(WriteEach(db, a), key).Some? <==> key in x;
    assert forall key: RecordKey :: RowOf(WriteEach(db, b), key).Some? <==> key in y;
    assert forall key: RecordKey :: key in x ==> RowOf(WriteEach(db, a), key).value == x[key] == y[key];
    assert x == y;
  }

  lemma {:induction false} OnlyRows(db: Db, recs: seq<Prepared>)
    ensures WriteEach(db, recs) == db.(rows := WriteEach(db, recs).rows)
  {
    if recs != [] { OnlyRows(db, recs[..|recs| - 1]); }
  }

  /** Copies without a rev leave the row's rev alone, so the last one settles it. */
  lemma {:induction false} CopiesWithoutRev(db: Db, recs: seq<Prepared>, n: nat, last: Prepared)
    requires n <= |recs| && last.rev.None?
    requires forall i :: 0 <= i < n && recs[i].key == last.key ==> recs[i].rev.None?
    ensures var row, was := FoldRow(db, recs[..n], last.key), RowOf(db, last.key);
            && (Blocked(db, last) ==> row == was)
            && (row.Some? ==> row.value.rev == if was.Some? then was.value.rev else None)
            && (was.Some? ==> row.Some?)
  {
    if n > 0 {
      CopiesWithoutRev(db, recs, n - 1, last);
      assert recs[..n][..n - 1] == recs[..n - 1];
    }
  }

  lemma LastWithoutRev(row: Option<Row>, was: Option<Row>, last: Prepared)
    requires last.rev.None? && (was.Some? ==> row.Some?)
    requires row.Some? ==> row.value.rev == if was.Some? then was.value.rev else None
    ensures Upsert(row, last) == Upsert(was, last)
  {
  }

  /** After the last copy itself, a repeat of it changes nothing. */
  lemma {:induction false} RepeatIsNothing(db: Db, last: Prepared, copy: Prepared)
    requires copy.key == last.key && last.rev.Some? && Repeats(copy, last, false)
    ensures var row := WriteRow(db, last);
            Blocked(db, copy) || row == Some(Upsert(row, copy))
  {
  }

  /** When the first copy is the last one over again, the repeats between change
      nothing. */
  lemma {:induction false} CopiesOfTheLast(db: Db, recs: seq<Prepared>, first: nat, n: nat, last: Prepared)
    requires first < n <= |recs| && recs[first] == last && last.rev.Some? && IsFirst(recs, first)
    requires forall i :: 0 <= i < n && recs[i].key == last.key ==> Repeats(recs[i], last, false)
    ensures FoldRow(db, recs[..n], last.key) == WriteRow(db, last)
  {
    assert recs[..n][..n - 1] == recs[..n - 1];
    if n == first + 1 {
      FoldWithout(db, recs[..first], last.key);
    } else {
      CopiesOfTheLast(db, recs, first, n - 1, last);
      if recs[n - 1].key == last.key { RepeatIsNothing(db, last, recs[n - 1]); }
    }
  }

  function FirstAt(recs: seq<Prepared>, key: RecordKey): (i: nat)
    requires HasKey(recs, key)
    ensures i < |recs| && recs[i].key == key && IsFirst(recs, i)
  {
    if recs[0].key == key then 0
    else
      assert HasKey(recs[1..], key) by {
        var i :| 0 <= i < |recs| && recs[i].key == key;
        assert recs[1..][i - 1] == recs[i];
      }
      var i := FirstAt(recs[1..], key);
      assert forall k :: 0 < k <= i ==> recs[k] == recs[1..][k - 1];
      i + 1
  }

  lemma {:induction false} RepeatedRowAgrees(db: Db, recs: seq<Prepared>, key: RecordKey)
    requires OnlyRepeats(recs) && HasKey(recs, key)
    ensures FoldRow(db, recs, key) == WriteRow(db, recs[LastAt(recs, key)])
  {
    hide Upsert, Blocked, LastAt, FirstAt;
    var j, f := LastAt(recs, key), FirstAt(recs, key);
    LaterRecords(db, recs, j, |recs|);
    assert recs[..|recs|] == recs && recs[..j + 1][..j] == recs[..j];
    if recs[j].rev.None? {
      CopiesWithoutRev(db, recs, j, recs[j]);
      LastWithoutRev(FoldRow(db, recs[..j], key), RowOf(db, key), recs[j]);
    } else if f < j {
      assert Repeats(recs[f], recs[j], true);
      CopiesOfTheLast(db, recs, f, j + 1, recs[j]);
    } else {
      FoldWithout(db, recs[..j], key);
    }
  }

  /** A row with the last copy's content and no rev. */
  function SettledRow(last: Prepared): Db {
    Db(map[last.key := Row(last.cid, last.body, None, true)], map[], map[], map[], 0)
  }

  lemma {:induction false} OtherContentStamps(recs: seq<Prepared>, n: nat, i: nat, last: Prepared)
    requires n <= |recs| && i < |recs| && recs[i].key == last.key
    requires recs[i].cid != last.cid || recs[i].body != last.body
    requires forall k :: 0 <= k < |recs| && recs[k].key == last.key ==> recs[k].rev.Some?
    ensures var db := SettledRow(last); var row := FoldRow(db, recs[..n], last.key);
            && row.Some? && (row.value.rev.None? ==> row == RowOf(db, last.key))
            && (i < n ==> row.value.rev.Some?)
  {
    if n > 0 {
      OtherContentStamps(recs, n - 1, i, last);
      assert recs[..n][..n - 1] == recs[..n - 1];
    }
  }

  const EMPTY := Db(map[], map[], map[], map[], 0)

  lemma {:induction false} FirstCopyStays(recs: seq<Prepared>, f: nat, n: nat)
    requires f < n <= |recs| && IsFirst(recs, f)
    requires forall k :: 0 <= k < n && recs[k].key == recs[f].key ==>
               recs[k].cid == recs[f].cid && recs[k].body == recs[f].body
    ensures FoldRow(EMPTY, recs[..n], recs[f].key) == Some(Row(recs[f].cid, recs[f].body, recs[f].rev, true))
  {
    assert recs[..n][..n - 1] == recs[..n - 1];
    if n == f + 1 {
      FoldWithout(EMPTY, recs[..f], recs[f].key);
    } else {
      FirstCopyStays(recs, f, n - 1);
    }
  }

  /** The row a batch write leaves for a record, and the one its copies leave in
      turn. */
  lemma {:induction false} RowsOf(db: Db, recs: seq<Prepared>, j: nat)
    requires j < |recs| && IsLast(recs, j)
    ensures RowOf(WriteBatch(db, recs), recs[j].key) == WriteRow(db, recs[j])
    ensures RowOf(WriteEach(db, recs), recs[j].key) == FoldRow(db, recs[..|recs|], recs[j].key)
  {
    LastAtIs(recs, j);
    BatchIsLastCopy(db, recs, |recs|, recs[j].key);
    EachIsFold(db, LastCopies(recs, |recs|), recs[j].key);
    EachIsFold(db, recs, recs[j].key);
    assert recs[..|recs|] == recs;
  }

  /** A database in which a run that does more than repeat its last copies shows. */
  lemma {:induction false} NotRepeatedDiffers(recs: seq<Prepared>, i: nat, j: nat)
    requires RevsInOrder(recs) && i < j < |recs| && recs[i].key == recs[j].key && IsLast(recs, j)
    requires !Repeats(recs[i], recs[j], IsFirst(recs, i))
    ensures exists db :: WriteBatch(db, recs) != WriteEach(db, recs)
  {
    var last := recs[j];
    assert forall k :: 0 <= k < |recs| && recs[k].key == last.key ==>
        k <= j && (k < j ==> InOrder(recs[k].rev, last.rev));
    if k :| 0 <= k < |recs| && recs[k].key == last.key && (recs[k].cid != last.cid || recs[k].body != last.body) {
      OtherContentStamps(recs, |recs|, k, last);
      RowsOf(SettledRow(last), recs, j);
      assert WriteBatch(SettledRow(last), recs) != WriteEach(SettledRow(last), recs);
    } else {
      FirstCopyStays(recs, i, |recs|);
      RowsOf(EMPTY, recs, j);
      assert WriteBatch(EMPTY, recs) != WriteEach(EMPTY, recs);
    }
  }

  /** Writing a run in one transaction leaves the very database that writing its
      records one by one leaves, whatever that was, exactly when every copy of a
      record only repeats its last one. */
  lemma {:induction false} BatchIsEachExactly(recs: seq<Prepared>)
    ensures (forall db: Db :: WriteBatch(db, recs) == WriteEach(db, recs)) <==> OnlyRepeats(recs)
  {
    if OnlyRepeats(recs) {
      forall db: Db
        ensures WriteBatch(db, recs) == WriteEach(db, recs)
      {
        RepeatsAgree(db, recs);
      }
    } else if RevsInOrder(recs) {
      var i, j :| 0 <= i < j < |recs| && recs[i].key == recs[j].key && IsLast(recs, j)
                  && !Repeats(recs[i], recs[j], IsFirst(recs, i));
      NotRepeatedDiffers(recs, i, j);
    } else {
      var i, j :| 0 <= i < j < |recs| && recs[i].key == recs[j].key && IsLast(recs, j)
                  && !InOrder(recs[i].rev, recs[j].rev);
      OutOfOrderDiffers(recs, i, j);
    }
  }

  lemma {:induction false} RepeatsAgree(db: Db, recs: seq<Prepared>)
    requires OnlyRepeats(recs)
    ensures WriteBatch(db, recs) == WriteEach(db, recs)
  {
    forall key: RecordKey
      ensures RowOf(WriteBatch(db, recs), key) == RowOf(WriteEach(db, recs), key)
    {
      EachIsFold(db, recs, key);
      EachIsFold(db, LastCopies(recs, |recs|), key);
      BatchIsLastCopy(db, recs, |recs|, key);
      if HasKey(recs, key) { RepeatedRowAgrees(db, recs, key); } else { FoldWithout(db, recs, key); }
    }
    SameRowsAreSameDb(db, LastCopies(recs, |recs|), recs);
  }
}
