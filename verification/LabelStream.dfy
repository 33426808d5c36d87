/** A labeler's event stream: messages applied as they come, the cursor saved
    now and then, and the stream taken up again from the saved cursor after any
    crash, abort, read error or close. */
module LabelStream {
  import opened Wrappers

  const SAVE_EVERY := 100

  datatype Key = Key(src: int, uri: int, val: int)

  datatype Label = Label(key: Key, neg: bool, cts: int, exp: Option<int>)

  datatype Stored = Stored(cts: int, exp: Option<int>)

  type Table = map<Key, Stored>

  /** A message of the labeler's log. One whose frame does not parse, or is of
      another kind, is not readable. */
  datatype Message = Message(seqno: int, labels: seq<Label>, readable: bool)

  /** What the labeler and the script decide: its log, the script's answer for a
      label, and the stored form of an expiry, if it parses. */
  datatype Source = Source(log: seq<Message>, hook: Label -> Option<Label>, normal: int -> Option<int>)

  /** One write to the label table. */
  datatype Write = Put(key: Key, stored: Stored) | Remove(key: Key)

  /** A frame of a connection: the next message of the log, or one that is not a
      message (a ping, an info frame). */
  datatype Frame = Deliver | Other

  /** How a connection ends. An abort may come in the middle of the next message,
      after some of its labels. */
  datatype End = ReadError | Closed | Aborted(labels: nat)

  datatype Session = Session(frames: seq<Frame>, end: End)

  function Look(table: Table, key: Key): Option<Stored> {
    if key in table then Some(table[key]) else None
  }

  function Apply(table: Table, write: Write): Table {
    match write
    case Put(key, stored) => table[key := stored]
    case Remove(key) => table - {key}
  }

  /** The writes a label asks for: none when the script skips it. */
  function WritesOf(src: Source, l0: Label): seq<Write> {
    match src.hook(l0)
    case None => []
    case Some(l) =>
      if l.neg then [Remove(l.key)]
      else [Put(l.key, Stored(l.cts, if l.exp.Some? then src.normal(l.exp.value) else None))]
  }

  function LabelWrites(src: Source, labels: seq<Label>): seq<Write> {
    if labels == [] then []
    else LabelWrites(src, labels[..|labels| - 1]) + WritesOf(src, labels[|labels| - 1])
  }

  /** The writes of the first `n` messages. */
  function Writes(src: Source, n: nat): seq<Write>
    requires n <= |src.log|
  {
    if n == 0 then []
    else Writes(src, n - 1) + if src.log[n - 1].readable then LabelWrites(src, src.log[n - 1].labels) else []
  }

  function AllWrites(src: Source): seq<Write> { Writes(src, |src.log|) }

  /** How many writes come before message `n`. */
  function At(src: Source, n: nat): nat
    requires n <= |src.log|
  {
    |Writes(src, n)|
  }

  function Fold(writes: seq<Write>, n: nat): Table
    requires n <= |writes|
  {
    if n == 0 then map[] else Apply(Fold(writes, n - 1), writes[n - 1])
  }

  /** The log is in order, and after cursor 0. */
  predicate Ordered(src: Source) {
    && (forall i :: 0 <= i < |src.log| ==> src.log[i].seqno > 0)
    && (forall i, j :: 0 <= i < j < |src.log| ==> src.log[i].seqno < src.log[j].seqno)
  }

  /** The first message past `cursor`, among the first `n`. */
  function FirstAfter(src: Source, cursor: int, n: nat): (m: nat)
    requires n <= |src.log|
    ensures m <= n
  {
    if n == 0 || src.log[n - 1].seqno <= cursor then n else FirstAfter(src, cursor, n - 1)
  }

  function Resume(src: Source, cursor: int): (m: nat)
    ensures m <= |src.log|
  {
    FirstAfter(src, cursor, |src.log|)
  }

  lemma {:induction false} FirstAfterIs(src: Source, cursor: int, n: nat, m: nat)
    requires Ordered(src) && m <= n <= |src.log|
    requires m > 0 ==> src.log[m - 1].seqno <= cursor
    requires m < n ==> src.log[m].seqno > cursor
    ensures FirstAfter(src, cursor, n) == m
  {
    if m < n { FirstAfterIs(src, cursor, n - 1, m); }
  }

  lemma {:induction false} WritesGrow(src: Source, m: nat, n: nat)
    requires m <= n <= |src.log|
    ensures Writes(src, m) <= Writes(src, n)
  {
    if m < n { WritesGrow(src, m, n - 1); }
  }

  // ---- Which key a stretch of writes leaves how ----

  ghost predicate Written(writes: seq<Write>, a: nat, b: nat, key: Key) {
    exists i :: a <= i < b && i < |writes| && writes[i].key == key
  }

  lemma {:induction false} NotWritten(writes: seq<Write>, a: nat, b: nat, key: Key)
    requires a <= b <= |writes| && !Written(writes, a, b, key)
    ensures Look(Fold(writes, a), key) == Look(Fold(writes, b), key)
  {
    if a < b {
      NotWritten(writes, a, b - 1, key);
      assert writes[b - 1].key != key;
    }
  }

  /** An attempt at one of the log's writes, and whether it succeeded. */
  datatype Attempt = Attempt(write: nat, ok: bool)

  /** The keys whose latest attempted write failed. */
  ghost function Failing(writes: seq<Write>, attempts: seq<Attempt>): set<Key> {
    if attempts == [] then {}
    else
      var n := |attempts| - 1;
      var before := Failing(writes, attempts[..n]);
      if attempts[n].write >= |writes| then before
      else if attempts[n].ok then before - {writes[attempts[n].write].key}
      else before + {writes[attempts[n].write].key}
  }

  ghost predicate AttemptsOn(writes: seq<Write>, attempt: Attempt, key: Key) {
    attempt.write < |writes| && writes[attempt.write].key == key
  }

  /** Attempt `n` at a write of `key` failed, and none came after it. */
  ghost predicate LastFailed(writes: seq<Write>, attempts: seq<Attempt>, key: Key, n: nat) {
    && n < |attempts| && AttemptsOn(writes, attempts[n], key) && !attempts[n].ok
    && forall k :: n < k < |attempts| ==> !AttemptsOn(writes, attempts[k], key)
  }

  lemma {:induction false} FailingIs(writes: seq<Write>, attempts: seq<Attempt>, key: Key)
    ensures key in Failing(writes, attempts) <==> exists n: nat :: LastFailed(writes, attempts, key, n)
  {
    if attempts != [] {
      var m := |attempts| - 1;
      var before := attempts[..m];
      FailingIs(writes, before, key);
      if AttemptsOn(writes, attempts[m], key) {
        assert !attempts[m].ok ==> LastFailed(writes, attempts, key, m);
      } else {
        forall n: nat
          ensures LastFailed(writes, attempts, key, n) <==> LastFailed(writes, before, key, n)
        {
          assert n < m ==> before[n] == attempts[n];
          assert forall k :: n < k < m ==> before[k] == attempts[k];
        }
      }
    }
  }

  lemma {:induction false} FailingNext(writes: seq<Write>, attempts: seq<Attempt>, x: nat, ok: bool)
    requires x < |writes|
    ensures var before, after := Failing(writes, attempts), Failing(writes, attempts + [Attempt(x, ok)]);
            after == if ok then before - {writes[x].key} else before + {writes[x].key}
  {
    assert (attempts + [Attempt(x, ok)])[..|attempts|] == attempts;
  }

  /** The table that the attempts that succeeded leave. */
  ghost function Made(writes: seq<Write>, attempts: seq<Attempt>): Table {
    if attempts == [] then map[]
    else
      var n := |attempts| - 1;
      var before := Made(writes, attempts[..n]);
      if attempts[n].write < |writes| && attempts[n].ok then Apply(before, writes[attempts[n].write]) else before
  }

  lemma {:induction false} MadeNext(writes: seq<Write>, attempts: seq<Attempt>, x: nat, ok: bool)
    requires x < |writes|
    ensures var before := Made(writes, attempts);
            Made(writes, attempts + [Attempt(x, ok)]) == if ok then Apply(before, writes[x]) else before
  {
    assert (attempts + [Attempt(x, ok)])[..|attempts|] == attempts;
  }

  /** What a write leaves in its key. */
  function Leaves(write: Write): Option<Stored> {
    match write
    case Put(_, stored) => Some(stored)
    case Remove(_) => None
  }

  ghost predicate MadeOn(writes: seq<Write>, attempt: Attempt, key: Key) {
    attempt.ok && AttemptsOn(writes, attempt, key)
  }

  /** Attempt `n` is the latest at a write of `key` that succeeded. */
  ghost predicate LatestMade(writes: seq<Write>, attempts: seq<Attempt>, key: Key, n: nat) {
    && n < |attempts| && MadeOn(writes, attempts[n], key)
    && forall k :: n < k < |attempts| ==> !MadeOn(writes, attempts[k], key)
  }

  ghost predicate NoneMade(writes: seq<Write>, attempts: seq<Attempt>, key: Key) {
    forall n :: 0 <= n < |attempts| ==> !MadeOn(writes, attempts[n], key)
  }

  /** A key holds what the latest attempt that succeeded on it left. */
  lemma {:induction false} MadeHolds(writes: seq<Write>, attempts: seq<Attempt>, key: Key)
    ensures forall n: nat :: LatestMade(writes, attempts, key, n) ==>
              Look(Made(writes, attempts), key) == Leaves(writes[attempts[n].write])
    ensures NoneMade(writes, attempts, key) ==> Look(Made(writes, attempts), key).None?
    ensures NoneMade(writes, attempts, key) || exists n: nat :: LatestMade(writes, attempts, key, n)
  {
    if attempts != [] {
      var m := |attempts| - 1;
      var before := attempts[..m];
      MadeHolds(writes, before, key);
      if MadeOn(writes, attempts[m], key) {
        assert LatestMade(writes, attempts, key, m);
      } else {
        LatestMadeNext(writes, attempts, key);
      }
    }
  }

  lemma {:induction false} LatestMadeNext(writes: seq<Write>, attempts: seq<Attempt>, key: Key)
    requires attempts != [] && !MadeOn(writes, attempts[|attempts| - 1], key)
    ensures var before := attempts[..|attempts| - 1];
            && (forall n: nat :: LatestMade(writes, attempts, key, n) <==> LatestMade(writes, before, key, n))
            && (NoneMade(writes, attempts, key) <==> NoneMade(writes, before, key))
  {
    hide MadeOn;
    var m := |attempts| - 1;
    var before := attempts[..m];
    assert forall k :: 0 <= k < m ==> before[k] == attempts[k];
    forall n: nat
      ensures LatestMade(writes, attempts, key, n) <==> LatestMade(writes, before, key, n)
    {
    }
  }

  /** Write `i` is the last of the first `n` on `key`. */
  ghost predicate LastWrite(writes: seq<Write>, n: nat, key: Key, i: nat) {
    i < n <= |writes| && writes[i].key == key && forall k :: i < k < n ==> writes[k].key != key
  }

  lemma LookApply(table: Table, write: Write, key: Key)
    ensures Look(Apply(table, write), key) == if write.key == key then Leaves(write) else Look(table, key)
  {
  }

  lemma {:induction false} LastWriteNext(writes: seq<Write>, n: nat, key: Key)
    requires 0 < n <= |writes|
    ensures writes[n - 1].key == key ==> forall i: nat :: LastWrite(writes, n, key, i) <==> i == n - 1
    ensures writes[n - 1].key != key ==>
              && (forall i: nat :: LastWrite(writes, n, key, i) <==> LastWrite(writes, n - 1, key, i))
              && (Written(writes, 0, n, key) ==> Written(writes, 0, n - 1, key))
  {
    if writes[n - 1].key != key {
      forall i: nat
        ensures LastWrite(writes, n, key, i) <==> LastWrite(writes, n - 1, key, i)
      {
      }
    }
  }

  lemma {:induction false} FoldHolds(writes: seq<Write>, n: nat, key: Key)
    requires n <= |writes|
    ensures forall i: nat :: LastWrite(writes, n, key, i) ==> Look(Fold(writes, n), key) == Leaves(writes[i])
    ensures Written(writes, 0, n, key) ==> exists i: nat :: LastWrite(writes, n, key, i)
  {
    hide LastWrite, Look, Apply, Leaves, Written;
    NoLastWrite(writes, key);
    if n > 0 {
      FoldHolds(writes, n - 1, key);
      LastWriteNext(writes, n, key);
      LookApply(Fold(writes, n - 1), writes[n - 1], key);
      LastWriteIn(writes, n, key);
      if writes[n - 1].key == key {
        assert LastWrite(writes, n, key, n - 1);
      } else if Written(writes, 0, n, key) {
        var i: nat :| LastWrite(writes, n - 1, key, i);
        assert LastWrite(writes, n, key, i);
      }
    }
  }

  lemma LastWriteIn(writes: seq<Write>, n: nat, key: Key)
    ensures forall i: nat :: LastWrite(writes, n, key, i) ==> i < n <= |writes|
  {
  }

  lemma NoLastWrite(writes: seq<Write>, key: Key)
    ensures !Written(writes, 0, 0, key) && !exists i: nat :: LastWrite(writes, 0, key, i)
  {
  }

  /** The latest attempt that succeeded on `key` left what its last write leaves;
      or none succeeded, and that write removes it. */
  ghost predicate HoldsRight(writes: seq<Write>, attempts: seq<Attempt>, key: Key) {
    exists i: nat :: LastWrite(writes, |writes|, key, i) &&
      (|| (NoneMade(writes, attempts, key) && Leaves(writes[i]).None?)
       || (exists n: nat :: LatestMade(writes, attempts, key, n)
                            && Leaves(writes[attempts[n].write]) == Leaves(writes[i])))
  }

  lemma {:induction false} HoldsRightExactly(writes: seq<Write>, attempts: seq<Attempt>, key: Key)
    requires key in Failing(writes, attempts)
    ensures HoldsRight(writes, attempts, key) <==>
            Look(Made(writes, attempts), key) == Look(Fold(writes, |writes|), key)
  {
    hide Failing, Made, Fold, MadeOn, NoneMade, LatestMade, LastWrite, Look, Leaves;
    FailingIsWritten(writes, attempts, key);
    MadeHolds(writes, attempts, key);
    FoldHolds(writes, |writes|, key);
  }

  lemma {:induction false} FailingIsWritten(writes: seq<Write>, attempts: seq<Attempt>, key: Key)
    requires key in Failing(writes, attempts)
    ensures Written(writes, 0, |writes|, key)
  {
    FailingIs(writes, attempts, key);
    var n: nat :| LastFailed(writes, attempts, key, n);
    assert writes[attempts[n].write].key == key;
  }

  /** A table that is right outside the failing keys is right altogether exactly
      when the attempts that succeeded on those left what their last writes leave. */
  lemma {:induction false} RightExactly(writes: seq<Write>, attempts: seq<Attempt>)
    requires RightBut(Made(writes, attempts), Fold(writes, |writes|), Failing(writes, attempts))
    ensures Made(writes, attempts) == Fold(writes, |writes|) <==>
            forall key :: key in Failing(writes, attempts) ==> HoldsRight(writes, attempts, key)
  {
    hide Failing, Made, Fold, HoldsRight, Look;
    forall key | key in Failing(writes, attempts)
      ensures HoldsRight(writes, attempts, key) <==>
              Look(Made(writes, attempts), key) == Look(Fold(writes, |writes|), key)
    {
      HoldsRightExactly(writes, attempts, key);
    }
  }

  /** Every one of the first `high` writes was attempted. */
  ghost predicate AllAttempted(attempts: seq<Attempt>, high: nat) {
    forall i: nat :: i < high ==> Attempted(attempts, i)
  }

  ghost predicate Attempted(attempts: seq<Attempt>, i: nat) {
    exists n :: 0 <= n < |attempts| && attempts[n].write == i
  }

  lemma {:induction false} AttemptedNext(attempts: seq<Attempt>, high: nat, x: nat, ok: bool)
    requires AllAttempted(attempts, high) && x <= high
    ensures AllAttempted(attempts + [Attempt(x, ok)], Max(high, x + 1))
  {
    var after := attempts + [Attempt(x, ok)];
    forall i: nat | i < Max(high, x + 1)
      ensures Attempted(after, i)
    {
      if i == x {
        assert after[|attempts|].write == i;
      } else {
        assert Attempted(attempts, i);
        var n :| 0 <= n < |attempts| && attempts[n].write == i;
        assert after[n].write == i;
      }
    }
  }

  /** With `high` writes made so far, of which those from `a` are to be made again:
      a key not among those is as the writes left it, unless it is `failing`. */
  ghost predicate Resumable(writes: seq<Write>, a: nat, high: nat, table: Table, failing: set<Key>) {
    && a <= high <= |writes|
    && forall key :: key !in failing && !Written(writes, a, high, key) ==>
         Look(table, key) == Look(Fold(writes, high), key)
  }

  /** Writes `a` to `x` made again on such a table. */
  ghost predicate Replayed(writes: seq<Write>, a: nat, x: nat, high: nat, table: Table, failing: set<Key>) {
    && a <= x <= |writes| && a <= high <= |writes|
    && (forall key :: key !in failing && Written(writes, a, x, key) ==> Look(table, key) == Look(Fold(writes, x), key))
    && (forall key :: key !in failing && !Written(writes, a, x, key) && !Written(writes, a, high, key) ==>
          Look(table, key) == Look(Fold(writes, high), key))
  }

  lemma {:induction false} ReplayStarts(writes: seq<Write>, a: nat, high: nat, table: Table, failing: set<Key>)
    requires Resumable(writes, a, high, table, failing)
    ensures Replayed(writes, a, a, high, table, failing)
  {
  }

  /** A write that succeeds puts its key right; one that fails puts it in doubt. */
  lemma {:induction false} ReplayOne(writes: seq<Write>, a: nat, x: nat, high: nat, table: Table, failing: set<Key>)
    requires Replayed(writes, a, x, high, table, failing) && x < |writes|
    ensures Replayed(writes, a, x + 1, high, Apply(table, writes[x]), failing - {writes[x].key})
    ensures Replayed(writes, a, x + 1, high, table, failing + {writes[x].key})
  {
    var after, made := Apply(table, writes[x]), Fold(writes, x + 1);
    forall key: Key
      ensures Written(writes, a, x + 1, key) <==> Written(writes, a, x, key) || writes[x].key == key
      ensures Look(after, key) == if writes[x].key == key then Look(made, key) else Look(table, key)
      ensures writes[x].key != key ==> Look(made, key) == Look(Fold(writes, x), key)
    {
      if writes[x].key == key { assert Written(writes, a, x + 1, key); }
    }
  }

  function Min(a: nat, b: nat): nat { if a < b then a else b }

  /** How many of the first `n` frames bring a message. */
  function Delivered(frames: seq<Frame>, n: nat): nat
    requires n <= |frames|
  {
    if n == 0 then 0 else Delivered(frames, n - 1) + if frames[n - 1].Deliver? then 1 else 0
  }

  /** Stopped at `x`, the stream can be taken up again from any `c` up to there. */
  lemma {:induction false} ReplayStops(writes: seq<Write>, a: nat, c: nat, x: nat, high: nat, table: Table,
                                       failing: set<Key>)
    requires Replayed(writes, a, x, high, table, failing) && a <= c <= x
    ensures Resumable(writes, c, Max(x, high), table, failing)
  {
    var top := Max(x, high);
    forall key | key !in failing && !Written(writes, c, top, key)
      ensures Look(table, key) == Look(Fold(writes, top), key)
    {
      if Written(writes, a, x, key) {
        NotWritten(writes, x, top, key);
      } else {
        assert !Written(writes, a, high, key);
        NotWritten(writes, high, top, key);
      }
    }
  }

  lemma {:induction false} SameTable(a: Table, b: Table)
    requires forall key :: Look(a, key) == Look(b, key)
    ensures a == b
  {
    assert forall key: Key :: key in a <==> Look(a, key).Some?;
    assert forall key: Key :: key in b <==> Look(b, key).Some?;
    assert forall key: Key :: key in a ==> Look(a, key).value == a[key] == b[key];
  }

  /** Replaying past every write made before leaves what a run without a crash
      leaves in every key but the failing ones; so the whole table is right just
      when those happen to be. */
  lemma {:induction false} ReplayCatchesUp(writes: seq<Write>, a: nat, x: nat, high: nat, table: Table,
                                           failing: set<Key>)
    requires Replayed(writes, a, x, high, table, failing) && high <= x
    ensures RightBut(table, Fold(writes, x), failing)
  {
    forall key | key !in failing
      ensures Look(table, key) == Look(Fold(writes, x), key)
    {
      if !Written(writes, a, x, key) {
        assert !Written(writes, a, high, key) && !Written(writes, high, x, key);
        NotWritten(writes, high, x, key);
      }
    }
    if forall key :: key in failing ==> Look(table, key) == Look(Fold(writes, x), key) {
      SameTable(table, Fold(writes, x));
    }
  }

  /** The table is `right` in every key outside `failing`, and altogether exactly
      when it is right in those too. */
  ghost predicate RightBut(table: Table, right: Table, failing: set<Key>) {
    && (forall key :: key !in failing ==> Look(table, key) == Look(right, key))
    && (table == right <==> forall key :: key in failing ==> Look(table, key) == Look(right, key))
  }

  lemma {:induction false} PastCursor(src: Source, cursor: int, n: nat, i: nat)
    requires n <= |src.log| && FirstAfter(src, cursor, n) <= i < n
    ensures src.log[i].seqno > cursor
  {
    if i < n - 1 { PastCursor(src, cursor, n - 1, i); }
  }

  lemma {:induction false} LabelWritesGrow(src: Source, labels: seq<Label>, k: nat)
    requires k <= |labels|
    ensures LabelWrites(src, labels[..k]) <= LabelWrites(src, labels)
  {
    if k < |labels| {
      LabelWritesGrow(src, labels[..|labels| - 1], k);
      assert labels[..|labels| - 1][..k] == labels[..k];
    } else {
      assert labels[..k] == labels;
    }
  }

  /** The writes of label `j` of message `m`, and where they are in the log's. */
  lemma {:induction false} WritesAt(src: Source, m: nat, j: nat)
    requires m < |src.log| && src.log[m].readable && j < |src.log[m].labels|
    ensures var labels, w := src.log[m].labels, AllWrites(src);
            var x, ws := At(src, m) + |LabelWrites(src, labels[..j])|, WritesOf(src, labels[j]);
            && |LabelWrites(src, labels[..j + 1])| == |LabelWrites(src, labels[..j])| + |ws|
            && x + |ws| <= At(src, m + 1) <= |w|
            && (ws != [] ==> w[x] == ws[0])
  {
    var labels := src.log[m].labels;
    assert labels[..j + 1][..j] == labels[..j];
    LabelWritesGrow(src, labels, j + 1);
    WritesGrow(src, m + 1, |src.log|);
    var ws := WritesOf(src, labels[j]);
    if ws != [] {
      assert LabelWrites(src, labels[..j + 1])[|LabelWrites(src, labels[..j])|] == ws[0];
    }
  }

  lemma AtMostOne(src: Source, l: Label)
    ensures |WritesOf(src, l)| <= 1
  {
  }

  lemma NoWrites(src: Source, labels: seq<Label>)
    ensures LabelWrites(src, labels[..0]) == []
  {
  }

  // ---- What the log says of a key ----

  /** The last of the first `n` labels that the script lets through on `key`. */
  function LastIn(src: Source, labels: seq<Label>, n: nat, key: Key): Option<Label>
    requires n <= |labels|
  {
    if n == 0 then None
    else
      match src.hook(labels[n - 1])
      case Some(l) => if l.key == key then Some(l) else LastIn(src, labels, n - 1, key)
      case None => LastIn(src, labels, n - 1, key)
  }

  /** The last of the readable labels of the first `n` messages. */
  function LastSaid(src: Source, n: nat, key: Key): Option<Label>
    requires n <= |src.log|
  {
    if n == 0 then None
    else
      var message := src.log[n - 1];
      if message.readable && LastIn(src, message.labels, |message.labels|, key).Some?
      then LastIn(src, message.labels, |message.labels|, key)
      else LastSaid(src, n - 1, key)
  }

  /** What the table is to hold when `said` is the last label on a key: nothing
      without one or after a negation, and otherwise the label's time and its
      expiry, if there is one that parses. */
  predicate Shows(src: Source, said: Option<Label>, table: Table, key: Key) {
    match said
    case None => key !in table
    case Some(l) =>
      if l.neg then key !in table
      else
        && key in table && table[key].cts == l.cts
        && table[key].exp == (if l.exp.None? then None else src.normal(l.exp.value))
  }

  lemma {:induction false} FoldPrefix(a: seq<Write>, b: seq<Write>, n: nat)
    requires n <= |a|
    ensures Fold(a + b, n) == Fold(a, n)
  {
    if n > 0 { FoldPrefix(a, b, n - 1); }
  }

  lemma {:induction false} LabelShows(src: Source, w: seq<Write>, l0: Label, said: Option<Label>, key: Key)
    requires Shows(src, said, Fold(w, |w|), key)
    ensures var all, l := w + WritesOf(src, l0), src.hook(l0);
            Shows(src, if l.Some? && l.value.key == key then l else said, Fold(all, |all|), key)
  {
    var ws := WritesOf(src, l0);
    var all := w + ws;
    FoldPrefix(w, ws, |w|);
    if ws == [] {
      assert all == w;
    } else {
      assert all[|w|] == ws[0];
      assert Fold(all, |all|) == Apply(Fold(w, |w|), ws[0]);
    }
  }

  lemma {:induction false} LabelsShow(src: Source, w: seq<Write>, labels: seq<Label>, n: nat, said: Option<Label>,
                                      key: Key)
    requires n <= |labels| && Shows(src, said, Fold(w, |w|), key)
    ensures var all, last := w + LabelWrites(src, labels[..n]), LastIn(src, labels, n, key);
            Shows(src, if last.Some? then last else said, Fold(all, |all|), key)
  {
    hide Shows, Fold, WritesOf;
    if n == 0 {
      assert labels[..0] == [] && w + [] == w;
    } else {
      LabelsShow(src, w, labels, n - 1, said, key);
      var before, last := w + LabelWrites(src, labels[..n - 1]), LastIn(src, labels, n - 1, key);
      LabelShows(src, before, labels[n - 1], if last.Some? then last else said, key);
      assert labels[..n][..n - 1] == labels[..n - 1];
      assert w + LabelWrites(src, labels[..n]) == before + WritesOf(src, labels[n - 1]);
    }
  }

  /** A run without a crash leaves just what the log's last label on each key says. */
  lemma {:induction false} CrashFreeShows(src: Source, n: nat, key: Key)
    requires n <= |src.log|
    ensures Shows(src, LastSaid(src, n, key), Fold(Writes(src, n), |Writes(src, n)|), key)
  {
    hide Shows, LabelWrites, LastIn;
    if n == 0 {
      NothingShows(src, key);
    } else {
      CrashFreeShows(src, n - 1, key);
      var message, w := src.log[n - 1], Writes(src, n - 1);
      if message.readable {
        assert message.labels[..|message.labels|] == message.labels;
        LabelsShow(src, w, message.labels, |message.labels|, LastSaid(src, n - 1, key), key);
      } else {
        assert w + [] == w;
      }
    }
  }

  lemma NothingShows(src: Source, key: Key)
    ensures Shows(src, None, Fold([], 0), key)
  {
  }

  lemma ShowsAlike(src: Source, said: Option<Label>, a: Table, b: Table, key: Key)
    requires Shows(src, said, a, key) && Look(a, key) == Look(b, key)
    ensures Shows(src, said, b, key)
  {
  }

  /** The readable messages from `a` up to `m`. */
  function Readable(src: Source, a: nat, m: nat): nat
    requires m <= |src.log|
  {
    if m <= a then 0 else Readable(src, a, m - 1) + if src.log[m - 1].readable then 1 else 0
  }

  /** At message `m`, no more than `since` readable messages would be taken again. */
  ghost predicate Behind(src: Source, cursor: int, m: nat, since: nat) {
    Resume(src, cursor) <= m <= |src.log| && Readable(src, Resume(src, cursor), m) <= since
  }

  class Subscription {
    const src: Source
    /** Whether the n-th label write, and the n-th cursor write, succeeds. */
    const writeOk: nat -> bool
    const saveOk: nat -> bool
    var table: Table
    /** The saved cursor; a missing one is 0. */
    var cursor: int
    var writes: nat
    var saves: nat
    /** How many of the log's writes were attempted at least once, and every attempt
        in turn. */
    ghost var high: nat
    ghost var attempts: seq<Attempt>

    constructor (src: Source, writeOk: nat -> bool, saveOk: nat -> bool)
      requires Ordered(src)
      ensures Valid() && table == map[] && cursor == 0 && attempts == []
      ensures this.src == src && this.writeOk == writeOk && this.saveOk == saveOk
    {
      this.src, this.writeOk, this.saveOk := src, writeOk, saveOk;
      table, cursor, writes, saves, high, attempts := map[], 0, 0, 0, 0, [];
      new;
      FirstAfterIs(src, 0, |src.log|, 0);
    }

    ghost predicate WritesSucceed() { forall n: nat :: writeOk(n) }

    ghost predicate SavesSucceed() { forall n: nat :: saveOk(n) }

    ghost predicate WritesFail() { forall n: nat :: !writeOk(n) }

    /** The attempts are those the faults say, cover the first `high` writes, and
        left the table. */
    ghost predicate Recorded()
      reads `table, `writes, `high, `attempts
    {
      && table == Made(AllWrites(src), attempts)
      && |attempts| == writes && (forall n :: 0 <= n < writes ==> attempts[n].ok == writeOk(n))
      && AllAttempted(attempts, high)
    }

    /** The keys whose latest attempted write failed. */
    ghost function InDoubt(): set<Key>
      reads `attempts
    {
      Failing(AllWrites(src), attempts)
    }

    /** The latest write that succeeded on `key` left what the log's last one leaves. */
    ghost predicate RightInDoubt(key: Key)
      reads `attempts
    {
      HoldsRight(AllWrites(src), attempts, key)
    }

    /** The table is that of a run without a crash in every key that is not in doubt,
        and altogether exactly when each key in doubt is right too. */
    ghost predicate Caught()
      reads `table, `attempts
    {
      && RightBut(table, CrashFree(src), InDoubt())
      && (table == CrashFree(src) <==> forall key :: key in InDoubt() ==> RightInDoubt(key))
    }

    /** Every write of a message up to the saved cursor was attempted, and making
        those after it again repairs every key that is not in doubt. */
    ghost predicate Valid()
      reads this
    {
      && Ordered(src) && Recorded()
      && At(src, Resume(src, cursor)) <= high <= |AllWrites(src)|
      && Resumable(AllWrites(src), At(src, Resume(src, cursor)), high, table, InDoubt())
    }

    /** Connected at write `a` with `start` writes made before; now at write `x`. */
    ghost predicate Replaying(a: nat, x: nat, start: nat)
      reads `table, `high, `writes, `attempts
    {
      && a <= x <= |AllWrites(src)| && a <= start <= |AllWrites(src)|
      && high == Max(x, start) && Recorded()
      && Replayed(AllWrites(src), a, x, start, table, InDoubt())
    }

    /** Between messages: `m` is the next one, `last` the last seq seen. */
    ghost predicate Connected(a: nat, m: nat, start: nat, last: int)
      reads this
    {
      && Ordered(src) && m <= |src.log|
      && Replaying(a, At(src, m), start)
      && a <= At(src, Resume(src, cursor)) <= At(src, m)
      && Resume(src, last) <= m && At(src, Resume(src, last)) == At(src, m)
      && cursor <= last
    }

    /** `apply_label_event`: the script's answer, then the write it asks for. */
    method ApplyLabel(m: nat, j: nat, ghost a: nat, ghost x: nat, ghost start: nat)
      requires m < |src.log| && src.log[m].readable && j < |src.log[m].labels|
      requires x == At(src, m) + |LabelWrites(src, src.log[m].labels[..j])| && Replaying(a, x, start)
      modifies `table, `writes, `high, `attempts
      ensures Replaying(a, x + |WritesOf(src, src.log[m].labels[j])|, start)
      ensures high >= old(high) && old(attempts) <= attempts
      ensures WritesSucceed() ==> InDoubt() <= old(InDoubt())
      ensures WritesFail() ==> table == old(table)
    {
      hide Replayed, LabelWrites, Writes, AllWrites, WritesOf, At, Failing, AllAttempted, Made;
      WritesAt(src, m, j);
      AtMostOne(src, src.log[m].labels[j]);
      var asked := WritesOf(src, src.log[m].labels[j]);
      if asked != [] {
        ReplayOne(AllWrites(src), a, x, start, table, InDoubt());
        FailingNext(AllWrites(src), attempts, x, writeOk(writes));
        AttemptedNext(attempts, high, x, writeOk(writes));
        MadeNext(AllWrites(src), attempts, x, writeOk(writes));
        attempts := attempts + [Attempt(x, writeOk(writes))];
        if writeOk(writes) {
          table := Apply(table, asked[0]);
        }
        writes := writes + 1;
        high := Max(high, x + 1);
      }
    }

    /** The first `k` labels of message `m`. */
    method ApplyLabels(m: nat, k: nat, ghost a: nat, ghost start: nat)
      requires m < |src.log| && src.log[m].readable && k <= |src.log[m].labels| && Replaying(a, At(src, m), start)
      modifies `table, `writes, `high, `attempts
      ensures Replaying(a, At(src, m) + |LabelWrites(src, src.log[m].labels[..k])|, start)
      ensures high >= old(high) && old(attempts) <= attempts
      ensures WritesSucceed() ==> InDoubt() <= old(InDoubt())
      ensures WritesFail() ==> table == old(table)
    {
      hide Replayed, LabelWrites, Writes, AllWrites, WritesOf, At;
      var labels := src.log[m].labels;
      NoWrites(src, labels);
      for j := 0 to k
        invariant Replaying(a, At(src, m) + |LabelWrites(src, labels[..j])|, start)
        invariant high >= old(high) && old(attempts) <= attempts
        invariant WritesSucceed() ==> InDoubt() <= old(InDoubt())
        invariant WritesFail() ==> table == old(table)
      {
        WritesAt(src, m, j);
        ApplyLabel(m, j, a, At(src, m) + |LabelWrites(src, labels[..j])|, start);
      }
    }

    /** `persist_cursor`: a failed write leaves the old cursor. */
    method SaveCursor(last: int)
      modifies `cursor, `saves
      ensures saves == old(saves) + 1
      ensures cursor == if saveOk(old(saves)) then last else old(cursor)
    {
      if saveOk(saves) {
        cursor := last;
      }
      saves := saves + 1;
    }

    /** One message of the stream: `since` counts the messages since the cursor was
        last saved. */
    method Receive(m: nat, last: int, since: nat, ghost a: nat, ghost start: nat)
      returns (lastAfter: int, sinceAfter: nat)
      requires m < |src.log| && Connected(a, m, start, last)
      modifies this
      ensures Connected(a, m + 1, start, lastAfter)
      ensures since < 100 ==> sinceAfter < 100
      ensures SavesSucceed() && Behind(src, old(cursor), m, since) ==> Behind(src, cursor, m + 1, sinceAfter)
      ensures cursor >= old(cursor) && high >= old(high) && old(attempts) <= attempts && saves >= old(saves)
      ensures WritesSucceed() ==> InDoubt() <= old(InDoubt())
      ensures WritesFail() ==> table == old(table)
    {
      hide Replayed, LabelWrites, Writes, AllWrites, WritesOf, At, FirstAfter, Resume, Replaying;
      lastAfter, sinceAfter := last, since;
      NextMessage(src, m, last);
      if !src.log[m].readable {
        return;
      }
      lastAfter := src.log[m].seqno;
      ApplyLabels(m, |src.log[m].labels|, a, start);
      assert src.log[m].labels[..|src.log[m].labels|] == src.log[m].labels;
      sinceAfter := since + 1;
      if sinceAfter >= SAVE_EVERY {
        SaveCursor(lastAfter);
        sinceAfter := 0;
      }
    }

    /** One connection, from the saved cursor to its end. `next` is the message it
        would have taken next. */
    method RunSession(session: Session) returns (next: nat)
      requires Valid()
      modifies this
      ensures Valid()
      ensures next == Min(Resume(src, old(cursor)) + Delivered(session.frames, |session.frames|), |src.log|)
      ensures cursor >= old(cursor) && high >= old(high) && old(attempts) <= attempts
      ensures WritesSucceed() ==> InDoubt() <= old(InDoubt())
      ensures WritesFail() ==> table == old(table)
      ensures next == |src.log| ==> Caught()
      ensures !session.end.Aborted? ==>
                saves > 0 && (saveOk(saves - 1) ==> At(src, Resume(src, cursor)) == At(src, next))
      // Cut short, fewer than a hundred messages are taken again.
      ensures session.end.Aborted? && SavesSucceed() ==> Behind(src, cursor, next, 99)
    {
      hide Replayed, Resumable, LabelWrites, Writes, WritesOf, FirstAfter, Resume, Ordered, Caught, Recorded, Failing;
      var last, since := cursor, 0;
      next := Resume(src, cursor);
      ghost var a, start := At(src, next), high;
      ReplayStarts(AllWrites(src), a, start, table, InDoubt());
      assert Readable(src, next, next) == 0;
      for i := 0 to |session.frames|
        invariant Connected(a, next, start, last)
        invariant since < 100 && (SavesSucceed() ==> Behind(src, cursor, next, since))
        invariant next == Min(Resume(src, old(cursor)) + Delivered(session.frames, i), |src.log|)
        invariant cursor >= old(cursor) && high >= old(high) && old(attempts) <= attempts
        invariant WritesSucceed() ==> InDoubt() <= old(InDoubt())
        invariant WritesFail() ==> table == old(table)
      {
        if session.frames[i].Deliver? && next < |src.log| {
          last, since := Receive(next, last, since, a, start);
          next := next + 1;
        }
      }
      EndSession(session.end, next, last, a, start);
    }

    /** The connection is over: the cursor is saved, unless it was cut short in the
        middle of message `m`. */
    method EndSession(end: End, m: nat, last: int, ghost a: nat, ghost start: nat)
      requires Connected(a, m, start, last)
      modifies this
      ensures Valid() && cursor >= old(cursor) && high >= old(high) && old(attempts) <= attempts
      ensures WritesSucceed() ==> InDoubt() <= old(InDoubt())
      ensures WritesFail() ==> table == old(table)
      ensures m == |src.log| ==> Caught()
      ensures end.Aborted? ==> cursor == old(cursor)
      ensures !end.Aborted? ==>
                saves > 0 && (saveOk(saves - 1) ==> At(src, Resume(src, cursor)) == At(src, m))
    {
      hide Replayed, Resumable, LabelWrites, Writes, WritesOf, FirstAfter, Resume, Ordered, Failing, Made, HoldsRight,
           RightBut, AllAttempted;
      ghost var x := At(src, m);
      match end {
        case Aborted(labels) =>
          if m < |src.log| && src.log[m].readable {
            var k := if labels < |src.log[m].labels| then labels else |src.log[m].labels|;
            ApplyLabels(m, k, a, start);
            x := x + |LabelWrites(src, src.log[m].labels[..k])|;
          }
        case _ => SaveCursor(last);
      }
      ReplayStops(AllWrites(src), a, At(src, Resume(src, cursor)), x, start, table, InDoubt());
      if m == |src.log| {
        ReplayCatchesUp(AllWrites(src), a, x, start, table, InDoubt());
        RightExactly(AllWrites(src), attempts);
      }
    }

    /** Any number of connections, each ending as it may. When the last of them has
        seen the whole log, the table is that of a run without a crash in every key
        whose latest write did not fail; and altogether exactly when, in the others,
        the latest write that succeeded left what the last one of the log leaves. */
    method Run(sessions: seq<Session>) returns (consumed: bool)
      requires Valid()
      modifies this
      ensures Valid() && cursor >= old(cursor) && high >= old(high) && old(attempts) <= attempts
      ensures WritesSucceed() ==> InDoubt() <= old(InDoubt())
      ensures WritesFail() ==> table == old(table)
      ensures consumed ==> Caught()
      // Over the log itself: a key not in doubt shows its last label, and every key
      // does when no write fails.
      ensures consumed ==> forall key :: key !in InDoubt() ==> Shows(src, LastSaid(src, |src.log|, key), table, key)
      ensures consumed && WritesSucceed() && old(attempts) == [] ==>
                forall key :: Shows(src, LastSaid(src, |src.log|, key), table, key)
      ensures consumed && WritesSucceed() && old(attempts) == [] ==> table == CrashFree(src)
    {
      hide Valid, CrashFree;
      consumed := false;
      for i := 0 to |sessions|
        invariant Valid() && cursor >= old(cursor) && high >= old(high) && old(attempts) <= attempts
        invariant WritesSucceed() ==> InDoubt() <= old(InDoubt())
        invariant WritesFail() ==> table == old(table)
        invariant consumed ==> Caught()
      {
        var next := RunSession(sessions[i]);
        consumed := next == |src.log|;
      }
      if consumed { ShowsLog(); }
    }

    lemma ShowsLog()
      requires Caught()
      ensures forall key :: key !in InDoubt() ==> Shows(src, LastSaid(src, |src.log|, key), table, key)
    {
      hide Shows, LastSaid, Fold, Writes, Look, Failing;
      forall key | key !in InDoubt()
        ensures Shows(src, LastSaid(src, |src.log|, key), table, key)
      {
        CrashFreeShows(src, |src.log|, key);
        ShowsAlike(src, LastSaid(src, |src.log|, key), CrashFree(src), table, key);
      }
    }

    /** The saved cursor never passes a message with a write still to be attempted:
        each of its writes was, and its key is in doubt, or is to be written again,
        or is as the writes so far left it. */
    lemma CursorSafe(m: nat, i: nat)
      requires Valid() && m < |src.log| && src.log[m].seqno <= cursor && At(src, m) <= i < At(src, m + 1)
      ensures i < high && Attempted(attempts, i)
      ensures var w := AllWrites(src);
              && i < |w|
              && (|| w[i].key in InDoubt()
                  || Written(w, At(src, Resume(src, cursor)), high, w[i].key)
                  || Look(table, w[i].key) == Look(Fold(w, high), w[i].key))
    {
      hide FirstAfter, Writes, Written, Attempted, Failing, Fold, Look, Ordered;
      UpToCursor(src, cursor, |src.log|, m);
      WritesGrow(src, m + 1, Resume(src, cursor));
    }
  }

  lemma {:induction false} UpToCursor(src: Source, cursor: int, n: nat, m: nat)
    requires Ordered(src) && m < n <= |src.log| && src.log[m].seqno <= cursor
    ensures m < FirstAfter(src, cursor, n)
  {
    if src.log[n - 1].seqno > cursor { UpToCursor(src, cursor, n - 1, m); }
  }

  /** Writes `a` to `x` made on `table`. */
  function FoldFrom(table: Table, writes: seq<Write>, a: nat, x: nat): Table
    requires a <= x <= |writes|
  {
    if a == x then table else Apply(FoldFrom(table, writes, a, x - 1), writes[x - 1])
  }

  lemma NothingReplayed(writes: seq<Write>, a: nat, n: nat)
    requires a <= n <= |writes|
    ensures Replayed(writes, a, a, n, Fold(writes, n), {})
  {
  }

  lemma {:induction false} FoldFromReplays(writes: seq<Write>, a: nat, x: nat, n: nat)
    requires a <= x <= |writes| && a <= n <= |writes|
    ensures Replayed(writes, a, x, n, FoldFrom(Fold(writes, n), writes, a, x), {})
  {
    hide Replayed, Fold, Apply;
    if a == x {
      NothingReplayed(writes, a, n);
    } else {
      FoldFromReplays(writes, a, x - 1, n);
      var none: set<Key> := {};
      assert none - {writes[x - 1].key} == none;
      ReplayOne(writes, a, x - 1, n, FoldFrom(Fold(writes, n), writes, a, x - 1), none);
    }
  }

  /** Making any last stretch of the writes again changes nothing. */
  lemma {:induction false} ReplayChangesNothing(writes: seq<Write>, a: nat, n: nat)
    requires a <= n <= |writes|
    ensures FoldFrom(Fold(writes, n), writes, a, n) == Fold(writes, n)
  {
    FoldFromReplays(writes, a, n, n);
    ReplayCatchesUp(writes, a, n, n, FoldFrom(Fold(writes, n), writes, a, n), {});
  }

  /** A label whose write fails is passed over: the cursor moves past its message,
      and the label that a run without faults stores is not there. */
  method FailedWriteIsPassedOver(l: Label) returns (s: Subscription)
    requires !l.neg
    ensures fresh(s) && s.Valid() && s.src.log == [Message(1, [l], true)]
    ensures s.cursor >= 1 && l.key !in s.table && l.key in CrashFree(s.src)
  {
    hide CrashFree, Writes, AllWrites, Resume, FirstAfter, RightBut, At, Resumable, AllAttempted, Failing;
    var src := Source([Message(1, [l], true)], x => Some(x), t => Some(t));
    s := new Subscription(src, _ => false, _ => true);
    OneMessage(src, l);
    var next := s.RunSession(Session([Deliver], Closed));
    PastOne(src, s.cursor);
  }

  lemma {:induction false} OneMessage(src: Source, l: Label)
    requires !l.neg && src.log == [Message(1, [l], true)] && src.hook(l) == Some(l)
    ensures At(src, 0) == 0 && At(src, 1) == 1 && Resume(src, 0) == 0 && l.key in CrashFree(src)
    ensures Delivered([Deliver], 1) == 1
  {
    assert LabelWrites(src, []) == [] && [l][..0] == [];
    assert LabelWrites(src, [l]) == WritesOf(src, l);
    assert Writes(src, 0) == [];
    assert Writes(src, 1) == WritesOf(src, l);
    assert Fold(AllWrites(src), 1) == Apply(Fold(AllWrites(src), 0), AllWrites(src)[0]);
  }

  lemma {:induction false} PastOne(src: Source, cursor: int)
    requires |src.log| == 1 && src.log[0].seqno == 1 && At(src, 0) == 0 && At(src, Resume(src, cursor)) == 1
    ensures cursor >= 1
  {
  }

  /** What a run without a crash leaves: every message's labels in order. */
  function CrashFree(src: Source): Table {
    Fold(AllWrites(src), |AllWrites(src)|)
  }

  lemma {:induction false} NextMessage(src: Source, m: nat, last: int)
    requires m < |src.log| && Ordered(src) && Resume(src, last) <= m
    ensures At(src, m + 1) == At(src, m) + if src.log[m].readable then |LabelWrites(src, src.log[m].labels)| else 0
    ensures Resume(src, src.log[m].seqno) == m + 1 && src.log[m].seqno > last
  {
    FirstAfterIs(src, src.log[m].seqno, |src.log|, m + 1);
    PastCursor(src, last, |src.log|, m);
  }
}
