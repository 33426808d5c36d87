/** `record_view_use` over a whole script: what its answer says of the
    relations the statements read, and of what their results depend on. */
module SqlClassify {
  import opened Wrappers
  import opened SqlAst
  import opened SqlReads
  import opened SqlCost
  import opened SqlNonInterference
  import opened SqlGuard

  /** Every read of `a` is one of `b`. */
  ghost predicate Among(a: seq<Read>, b: seq<Read>) {
    forall r :: r in a ==> r in b
  }

  lemma AmongBoth(a: seq<Read>, b: seq<Read>, c: seq<Read>, d: seq<Read>)
    requires Among(a, b) && Among(c, d)
    ensures Among(a + c, b + d)
  {
  }

  /** More CTE names in scope can only hide reads. */
  lemma {:induction false} QueryHides(q: Query, v: set<string>, w: set<string>)
    requires v <= w
    ensures Among(ReadsQuery(q, w), ReadsQuery(q, v))
    decreases q, 1
  {
    match q.with
    case NoWith => MainHides(q, v, w);
    case With(recursive, ctes) =>
      var vi, wi := v + CteNames(ctes), w + CteNames(ctes);
      if |ctes| <= MAX_CTES {
        if recursive {
          ScanHides(q.body, vi, wi);
          RecursiveHides(ctes, |ctes|, vi, wi);
          BodyHides(q.body, vi, wi);
          ExprHides(q.tail, vi, wi);
          AmongBoth(ReadsBody(q.body, wi), ReadsBody(q.body, vi), ReadsExpr(q.tail, wi), ReadsExpr(q.tail, vi));
          AmongBoth(ScanTables(q.body, wi), ScanTables(q.body, vi),
                    ReadsRecursive(ctes, |ctes|, wi), ReadsRecursive(ctes, |ctes|, vi));
          AmongBoth(ScanTables(q.body, wi) + ReadsRecursive(ctes, |ctes|, wi),
                    ScanTables(q.body, vi) + ReadsRecursive(ctes, |ctes|, vi),
                    ReadsBody(q.body, wi) + ReadsExpr(q.tail, wi), ReadsBody(q.body, vi) + ReadsExpr(q.tail, vi));
        } else {
          EarlierHides(ctes, |ctes|, v, w);
          MainHides(q, vi, wi);
          AmongBoth(ReadsEarlier(ctes, |ctes|, w), ReadsEarlier(ctes, |ctes|, v), ReadsMain(q, wi), ReadsMain(q, vi));
        }
      }
  }

  lemma {:induction false} MainHides(q: Query, v: set<string>, w: set<string>)
    requires v <= w
    ensures Among(ReadsMain(q, w), ReadsMain(q, v))
    decreases q, 0
  {
    ScanHides(q.body, v, w);
    BodyHides(q.body, v, w);
    ExprHides(q.tail, v, w);
    AmongBoth(ReadsBody(q.body, w), ReadsBody(q.body, v), ReadsExpr(q.tail, w), ReadsExpr(q.tail, v));
    AmongBoth(ScanTables(q.body, w), ScanTables(q.body, v),
              ReadsBody(q.body, w) + ReadsExpr(q.tail, w), ReadsBody(q.body, v) + ReadsExpr(q.tail, v));
  }

  lemma {:induction false} EarlierHides(ctes: seq<Cte>, n: nat, v: set<string>, w: set<string>)
    requires v <= w && n <= |ctes|
    ensures Among(ReadsEarlier(ctes, n, w), ReadsEarlier(ctes, n, v))
    decreases ctes, n
  {
    if n > 0 {
      var names := CteNames(ctes[..n - 1]);
      assert ctes[n - 1].query < ctes[n - 1];
      EarlierHides(ctes, n - 1, v, w);
      QueryHides(ctes[n - 1].query, v + names, w + names);
      AmongBoth(ReadsEarlier(ctes, n - 1, w), ReadsEarlier(ctes, n - 1, v),
                ReadsQuery(ctes[n - 1].query, w + names), ReadsQuery(ctes[n - 1].query, v + names));
    }
  }

  lemma {:induction false} RecursiveHides(ctes: seq<Cte>, n: nat, v: set<string>, w: set<string>)
    requires v <= w && n <= |ctes|
    ensures Among(ReadsRecursive(ctes, n, w), ReadsRecursive(ctes, n, v))
    decreases ctes, n
  {
    if n > 0 {
      assert ctes[n - 1].query < ctes[n - 1];
      RecursiveHides(ctes, n - 1, v, w);
      QueryHides(ctes[n - 1].query, v, w);
      AmongBoth(ReadsRecursive(ctes, n - 1, w), ReadsRecursive(ctes, n - 1, v),
                ReadsQuery(ctes[n - 1].query, w), ReadsQuery(ctes[n - 1].query, v));
    }
  }

  lemma {:induction false} ScanHides(body: SetExpr, v: set<string>, w: set<string>)
    requires v <= w
    ensures Among(ScanTables(body, w), ScanTables(body, v))
  {
    match body
    case SetOp(_, left, right) =>
      ScanHides(left, v, w);
      ScanHides(right, v, w);
      AmongBoth(ScanTables(left, w), ScanTables(left, v), ScanTables(right, w), ScanTables(right, v));
    case _ =>
  }

  lemma {:induction false} BodyHides(body: SetExpr, v: set<string>, w: set<string>)
    requires v <= w
    ensures Among(ReadsBody(body, w), ReadsBody(body, v))
    decreases body, 0
  {
    match body
    case Select(items, from, filter) =>
      ExprHides(items, v, w);
      FactorHides(from, v, w);
      ExprHides(filter, v, w);
      AmongBoth(ReadsFactor(from, w), ReadsFactor(from, v), ReadsExpr(filter, w), ReadsExpr(filter, v));
      AmongBoth(ReadsExpr(items, w), ReadsExpr(items, v),
                ReadsFactor(from, w) + ReadsExpr(filter, w), ReadsFactor(from, v) + ReadsExpr(filter, v));
    case Values(rows) => ExprHides(rows, v, w);
    case Table(_, _) =>
    case Nested(query) => QueryHides(query, v, w);
    case SetOp(_, left, right) =>
      BodyHides(left, v, w);
      BodyHides(right, v, w);
      AmongBoth(ReadsBody(left, w), ReadsBody(left, v), ReadsBody(right, w), ReadsBody(right, v));
  }

  lemma {:induction false} FactorHides(f: Factor, v: set<string>, w: set<string>)
    requires v <= w
    ensures Among(ReadsFactor(f, w), ReadsFactor(f, v))
    decreases f, 0
  {
    match f
    case NoFrom =>
    case Relation(_, _) =>
    case Function(_, args) => ExprHides(args, v, w);
    case Derived(query) => QueryHides(query, v, w);
    case Joined(left, right, on) =>
      FactorHides(left, v, w);
      FactorHides(right, v, w);
      ExprHides(on, v, w);
      AmongBoth(ReadsFactor(right, w), ReadsFactor(right, v), ReadsExpr(on, w), ReadsExpr(on, v));
      AmongBoth(ReadsFactor(left, w), ReadsFactor(left, v),
                ReadsFactor(right, w) + ReadsExpr(on, w), ReadsFactor(right, v) + ReadsExpr(on, v));
  }

  lemma {:induction false} ExprHides(e: Expr, v: set<string>, w: set<string>)
    requires v <= w
    ensures Among(ReadsExpr(e, w), ReadsExpr(e, v))
    decreases e, 0
  {
    match e
    case Leaf(_) =>
    case Apply(_, left, right) =>
      ExprHides(left, v, w);
      ExprHides(right, v, w);
      AmongBoth(ReadsExpr(left, w), ReadsExpr(left, v), ReadsExpr(right, w), ReadsExpr(right, v));
    case Sub(_, arg, query) =>
      ExprHides(arg, v, w);
      QueryHides(query, v, w);
      AmongBoth(ReadsExpr(arg, w), ReadsExpr(arg, v), ReadsQuery(query, w), ReadsQuery(query, v));
  }

  datatype RecordViews = NoViews | Only | Mixed(name: string)

  /** What each statement reads, on its own. */
  function Reads(q: Query): seq<Read> { ReadsQuery(q, {}) }

  /** Some statement has a read that stops the classifier. */
  ghost predicate AnyBad(qs: seq<Query>) {
    exists i :: 0 <= i < |qs| && Stops(Reads(qs[i]))
  }

  ghost predicate AnyView(qs: seq<Query>) {
    exists i :: 0 <= i < |qs| && SawView(Reads(qs[i]))
  }

  ghost predicate AnyReads(qs: seq<Query>, r: Read) {
    exists i :: 0 <= i < |qs| && r in Reads(qs[i])
  }

  ghost predicate ReadsView(qs: seq<Query>) {
    exists r :: IsView(r) && AnyReads(qs, Rel(r))
  }

  /** The names in scope once the first `n` statements have been walked: those
      where each walk that stopped did stop. */
  function Left(qs: seq<Query>, n: nat): set<string>
    requires n <= |qs|
  {
    if n == 0 then {}
    else
      var v := Left(qs, n - 1);
      if Stops(ReadsQuery(qs[n - 1], v)) then LeftQuery(qs[n - 1], v) else v
  }

  /** The read that stops the walk of statement `i`, with the names left by the
      statements before it in scope. */
  function Met(qs: seq<Query>, i: nat): Option<Read>
    requires i < |qs|
  {
    FirstBad(ReadsQuery(qs[i], Left(qs, i)))
  }

  /** Whether one of the first `n` walks stops at a WITH over the limit. */
  function Refuses(qs: seq<Query>, n: nat): bool
    requires n <= |qs|
  {
    n > 0 && (Refuses(qs, n - 1) || Met(qs, n - 1) == Some(TooMany))
  }

  /** The last relation that one of the first `n` walks stops at. */
  function Kept(qs: seq<Query>, n: nat): Option<string>
    requires n <= |qs|
  {
    if n == 0 then None
    else
      match Met(qs, n - 1)
      case Some(Rel(r)) => Some(Text(r))
      case _ => Kept(qs, n - 1)
  }

  /** Whether one of the first `n` walks comes to a view. */
  function Sees(qs: seq<Query>, n: nat): bool
    requires n <= |qs|
  {
    n > 0 && (Sees(qs, n - 1) || SawView(ReadsQuery(qs[n - 1], Left(qs, n - 1))))
  }

  /** Each statement's query nodes, times one more than how deep its CTE bodies
      nest. */
  ghost function VisitBound(qs: seq<Query>, n: nat): nat
    requires n <= |qs|
  {
    if n == 0 then 0
    else
      var c := QueryCost(qs[n - 1]);
      VisitBound(qs, n - 1) + (c.depth + 1) * c.nodes
  }

  /** The visitor after the first `n` statements. A statement that broke leaves
      its scopes behind, so the ones after it are walked with names in scope that
      they do not have. */
  ghost predicate After(s: Snapshot, qs: seq<Query>, n: nat)
    requires n <= |qs|
  {
    && s.skipping == 0
    && (forall c :: c in s.checked ==> |c| > 0 && c[0] < n)
    && s.visits <= VisitBound(qs, n)
    && Visible(s.scopes) == Left(qs, n)
    && s.tooManyCtes == Refuses(qs, n)
    && s.other == Kept(qs, n)
    && s.sawView == Sees(qs, n)
  }

  lemma {:induction false} CheckedNext(a: set<Path>, b: set<Path>, n: nat)
    requires forall c :: c in a ==> |c| > 0 && c[0] < n
    requires Grown(a, b, [n])
    ensures forall c :: c in b ==> |c| > 0 && c[0] < n + 1
  {
    forall c | c in b
      ensures |c| > 0 && c[0] < n + 1
    {
      if [n] <= c { assert c[0] == [n][0]; }
    }
  }

  lemma {:induction false} AfterNext(a: Snapshot, b: Snapshot, qs: seq<Query>, n: nat, brk: bool)
    requires n < |qs| && After(a, qs, n)
    requires Walked(a, b, ReadsQuery(qs[n], Visible(a.scopes)), [n], QueryCost(qs[n]).visits, brk)
    requires brk ==> Visible(b.scopes) == LeftQuery(qs[n], Visible(a.scopes))
    ensures After(b, qs, n + 1)
  {
    hide ReadsQuery, LeftQuery, QueryCost, FirstBad, SawView, Visible, Grown;
    CheckedNext(a.checked, b.checked, n);
    CostBound(qs[n]);
  }

  /** What `record_view_use` answers once it has parsed the statements. */
  function Answer(qs: seq<Query>): Result<RecordViews, ()> {
    var n := |qs|;
    if Refuses(qs, n) then Err(())
    else if Kept(qs, n).Some? then Ok(Mixed(Kept(qs, n).value))
    else Ok(if Sees(qs, n) then Only else NoViews)
  }

  /** Walk `i` stops at a relation with this name. */
  ghost predicate Meets(qs: seq<Query>, i: nat, name: string)
    requires i < |qs|
  {
    var met := Met(qs, i);
    met.Some? && met.value.Rel? && Text(met.value.rel) == name
  }

  ghost predicate MeetsOther(qs: seq<Query>, i: nat, name: string)
    requires i < |qs|
  {
    var met := Met(qs, i);
    met.Some? && met.value.Rel? && Text(met.value.rel) != name
  }

  lemma {:induction false} RefusesExactly(qs: seq<Query>, n: nat)
    requires n <= |qs|
    ensures Refuses(qs, n) <==> exists i :: 0 <= i < n && Met(qs, i) == Some(TooMany)
  {
    hide Met;
    if n > 0 { RefusesExactly(qs, n - 1); }
  }

  /** One of the walks from `j + 1` up to `n` stops at this name. */
  ghost predicate MetAgain(qs: seq<Query>, j: nat, n: nat, name: string)
    requires n <= |qs|
  {
    exists i :: j < i < n && Meets(qs, i, name)
  }

  /** Every walk from `k` up to `n` that stops at a relation of another name is
      followed by one that stops at this one. */
  ghost predicate NoneAfter(qs: seq<Query>, k: nat, n: nat, name: string)
    requires n <= |qs|
  {
    forall j :: k <= j < n && MeetsOther(qs, j, name) ==> MetAgain(qs, j, n, name)
  }

  ghost predicate SomeMeets(qs: seq<Query>, n: nat, name: string)
    requires n <= |qs|
  {
    exists i :: 0 <= i < n && Meets(qs, i, name)
  }

  lemma {:induction false} KeptExactly(qs: seq<Query>, n: nat, name: string)
    requires n <= |qs|
    ensures Kept(qs, n) == Some(name) <==> SomeMeets(qs, n, name) && NoneAfter(qs, 0, n, name)
  {
    hide Met;
    if n > 0 {
      KeptExactly(qs, n - 1, name);
      AgainNext(qs, n - 1, name);
      if MeetsOther(qs, n - 1, name) { assert !MetAgain(qs, n - 1, n, name); }
    }
  }

  lemma {:induction false} AgainNext(qs: seq<Query>, n: nat, name: string)
    requires n < |qs|
    ensures SomeMeets(qs, n + 1, name) <==> SomeMeets(qs, n, name) || Meets(qs, n, name)
    ensures forall j: nat :: MetAgain(qs, j, n + 1, name) <==> MetAgain(qs, j, n, name) || (j < n && Meets(qs, n, name))
  {
    hide Meets;
  }

  /** What a walk meets is read by its statement: names left in scope only hide. */
  lemma {:induction false} MetIsRead(qs: seq<Query>, i: nat)
    requires i < |qs| && Met(qs, i).Some?
    ensures Met(qs, i).value in Reads(qs[i]) && Bad(Met(qs, i).value) && Stops(Reads(qs[i]))
  {
    hide ReadsQuery, Left;
    QueryHides(qs[i], {}, Left(qs, i));
  }

  /** Up to the first statement to blame, nothing has been left in scope. */
  lemma {:induction false} NothingLeft(qs: seq<Query>, n: nat)
    requires n <= |qs| && forall i :: 0 <= i < n ==> !Stops(Reads(qs[i]))
    ensures Left(qs, n) == {} && Kept(qs, n).None? && !Refuses(qs, n)
    ensures Sees(qs, n) <==> exists i :: 0 <= i < n && SawView(Reads(qs[i]))
  {
    hide ReadsQuery;
    if n > 0 { NothingLeft(qs, n - 1); }
  }

  lemma {:induction false} FirstToBlame(qs: seq<Query>) returns (k: nat)
    requires AnyBad(qs)
    ensures k < |qs| && FirstBlamed(qs, k) && Left(qs, k) == {} && Met(qs, k) == FirstBad(Reads(qs[k]))
  {
    hide ReadsQuery, FirstBad;
    k := 0;
    while !Stops(Reads(qs[k]))
      invariant k < |qs| && forall i :: 0 <= i < k ==> !Stops(Reads(qs[i]))
      decreases |qs| - k
    {
      k := k + 1;
    }
    NothingLeft(qs, k);
  }

  /** Statement `k` is the first with a read that stops the classifier. */
  ghost predicate FirstBlamed(qs: seq<Query>, k: nat) {
    k < |qs| && Stops(Reads(qs[k])) && forall i :: 0 <= i < k ==> !Stops(Reads(qs[i]))
  }

  /** What an answer says of the statements, each read on its own. */
  ghost predicate Right(qs: seq<Query>, answer: Result<RecordViews, ()>) {
    && (answer == Ok(Only) <==> !AnyBad(qs) && AnyView(qs))
    && (answer == Ok(NoViews) <==> !AnyBad(qs) && !AnyView(qs))
    && (answer.Err? || answer.value.Mixed? <==> AnyBad(qs))
    && (answer.Ok? && answer.value.Mixed? ==>
          exists r :: AnyReads(qs, Rel(r)) && !IsView(r) && answer.value.name == Text(r))
    && (answer.Err? ==> AnyReads(qs, TooMany))
  }

  /** Which answer it is, by where the walks stop: the error as soon as one stops at
      a WITH over the limit, otherwise the last relation that one stops at. */
  ghost predicate Decided(qs: seq<Query>, answer: Result<RecordViews, ()>) {
    && (answer.Err? <==> exists i :: 0 <= i < |qs| && Met(qs, i) == Some(TooMany))
    && (forall name :: answer == Ok(Mixed(name)) <==>
          && (forall i :: 0 <= i < |qs| ==> Met(qs, i) != Some(TooMany))
          && SomeMeets(qs, |qs|, name) && NoneAfter(qs, 0, |qs|, name))
  }

  lemma {:induction false} AnswerIsDecided(qs: seq<Query>)
    ensures Decided(qs, Answer(qs))
  {
    hide Met, SomeMeets, NoneAfter, Kept, Refuses;
    RefusesExactly(qs, |qs|);
    forall name
      ensures Kept(qs, |qs|) == Some(name) <==> SomeMeets(qs, |qs|, name) && NoneAfter(qs, 0, |qs|, name)
    {
      KeptExactly(qs, |qs|, name);
    }
  }

  lemma {:induction false} AnswerIsRight(qs: seq<Query>)
    ensures Right(qs, Answer(qs))
  {
    hide ReadsQuery, FirstBad, Met, Left, Kept, Refuses, Sees;
    RefusesExactly(qs, |qs|);
    if AnyBad(qs) {
      var k := FirstToBlame(qs);
      SomethingMet(qs, k);
      if Refuses(qs, |qs|) {
        var i :| 0 <= i < |qs| && Met(qs, i) == Some(TooMany);
        MetIsRead(qs, i);
      } else {
        KeptIsRead(qs, |qs|);
      }
    } else {
      NothingLeft(qs, |qs|);
    }
  }

  lemma {:induction false} SomethingMet(qs: seq<Query>, k: nat)
    requires k < |qs| && Met(qs, k).Some?
    ensures Refuses(qs, |qs|) || Kept(qs, |qs|).Some?
  {
    RefusesExactly(qs, |qs|);
    if Met(qs, k) != Some(TooMany) { KeptOnce(qs, k, |qs|); }
  }

  lemma {:induction false} KeptOnce(qs: seq<Query>, k: nat, n: nat)
    requires k < n <= |qs| && Met(qs, k).Some? && Met(qs, k) != Some(TooMany)
    ensures Kept(qs, n).Some?
  {
    hide Met;
    if k < n - 1 { KeptOnce(qs, k, n - 1); }
  }

  lemma {:induction false} KeptIsRead(qs: seq<Query>, n: nat)
    requires n <= |qs|
    ensures Kept(qs, n).Some? ==> exists r :: AnyReads(qs, Rel(r)) && !IsView(r) && Kept(qs, n).value == Text(r)
  {
    hide Met, Reads, AnyReads;
    if n > 0 {
      var met := Met(qs, n - 1);
      if met.Some? && met.value.Rel? {
        MetIsRead(qs, n - 1);
        ReadBySome(qs, n - 1, met.value);
      } else {
        KeptIsRead(qs, n - 1);
      }
    }
  }

  lemma ReadBySome(qs: seq<Query>, i: nat, r: Read)
    requires i < |qs| && r in Reads(qs[i])
    ensures AnyReads(qs, r)
  {
  }

  /** The name kept is the first to-blame statement's first relation exactly when
      no walk stops at a WITH over the limit, and every later one that stops at
      another relation is followed by one that stops at the first again. */
  lemma {:induction false} NameIsFirstExactly(qs: seq<Query>, k: nat, first: RelName)
    requires FirstBlamed(qs, k) && FirstBad(Reads(qs[k])) == Some(Rel(first))
    ensures Answer(qs) == Ok(Mixed(Text(first))) <==>
            && (forall i :: k < i < |qs| ==> Met(qs, i) != Some(TooMany))
            && NoneAfter(qs, k, |qs|, Text(first))
  {
    hide ReadsQuery, FirstBad, Left, Kept, Refuses, Sees, Answer;
    AnswerIsDecided(qs);
    NothingLeft(qs, k);
    assert Meets(qs, k, Text(first));
    forall i | 0 <= i < k
      ensures Met(qs, i).None?
    {
      if Met(qs, i).Some? { MetIsRead(qs, i); }
    }
  }

  /** And the first to-blame statement alone decides when no other is to blame. */
  lemma {:induction false} OneToBlame(qs: seq<Query>, k: nat)
    requires FirstBlamed(qs, k) && forall i :: k < i < |qs| ==> !Stops(Reads(qs[i]))
    ensures Answer(qs) == match FirstBad(Reads(qs[k]))
                          case Some(Rel(r)) => Ok(Mixed(Text(r)))
                          case _ => Err(())
  {
    hide ReadsQuery, Left, Kept, Refuses, Sees;
    AnswerIsDecided(qs);
    NothingLeft(qs, k);
    forall i | k < i < |qs|
      ensures Met(qs, i).None?
    {
      if Met(qs, i).Some? { MetIsRead(qs, i); }
    }
    assert Met(qs, k) == FirstBad(Reads(qs[k]));
    if FirstBad(Reads(qs[k])).value.Rel? {
      NameIsFirstExactly(qs, k, FirstBad(Reads(qs[k])).value.rel);
    }
  }

  /** Every statement walked in turn by one visitor. */
  method WalkAll(qs: seq<Query>) returns (relations: Relations)
    ensures fresh(relations)
    ensures After(relations.Snap(), qs, |qs|)
  {
    hide ReadsQuery, LeftQuery, QueryCost, VisitBound, FirstBad, SawView;
    relations := new Relations([]);
    assert Visible([]) == {};
    var i := 0;
    while i < |qs|
      invariant 0 <= i <= |qs|
      invariant After(relations.Snap(), qs, i)
    {
      ghost var s := relations.Snap();
      assert Untouched(relations.checked, [i]) by {
        forall c | c in relations.checked
          ensures !([i] <= c)
        {
          assert c[0] < [i][0];
        }
      }
      var brk := relations.VisitQuery(qs[i], [i]);
      AfterNext(s, relations.Snap(), qs, i, brk);
      i := i + 1;
    }
  }

  /** `namesView` is the token pre-check: SQL without a word that is a view's
      name is answered at once. It is at least true of SQL that reads a view. */
  method RecordViewUse(qs: seq<Query>, namesView: bool) returns (answer: Result<RecordViews, ()>, ghost visits: nat)
    requires ReadsView(qs) ==> namesView
    // The answers, by what the statements read and where the walks stop.
    ensures answer == Ok(Only) <==> !AnyBad(qs) && AnyView(qs)
    ensures !namesView ==> answer == Ok(NoViews)
    ensures namesView ==> answer == Answer(qs) && Right(qs, answer) && Decided(qs, answer)
    ensures answer.Err? || answer.value.Mixed? <==> namesView && AnyBad(qs)
    // Such an answer means that a view is read, unless the pre-check let through a
    // script that reads none and something else.
    ensures (answer.Err? || answer.value.Mixed? ==> ReadsView(qs)) <==>
            (namesView && AnyBad(qs) ==> ReadsView(qs))
    // A script answered `Only` depends on nothing but the record views.
    ensures answer == Ok(Only) ==> forall i :: 0 <= i < |qs| ==> DependsOnlyOnViews(qs[i])
    ensures visits <= VisitBound(qs, |qs|)
  {
    hide VisitBound, DependsOnlyOnViews, AnyBad, AnyView, AnyReads, Decided, Kept, Refuses, Sees, Left, Visible;
    visits := 0;
    if !namesView {
      NoViewRead(qs);
      return Ok(NoViews), 0;
    }
    var relations := WalkAll(qs);
    visits := relations.visits;
    AnswerIsRight(qs);
    AnswerIsDecided(qs);
    if relations.tooManyCtes {
      answer := Err(());
    } else if relations.other.Some? {
      answer := Ok(Mixed(relations.other.value));
    } else {
      answer := Ok(if relations.sawView then Only else NoViews);
    }
    if answer == Ok(Only) { CleanDependsOnViews(qs); }
  }

  /** `SELECT .. FROM` one relation. */
  function From(parts: seq<NamePart>, text: string): Query {
    Query(NoWith, Select(Leaf(0), Relation(parts, text), Leaf(0)), Leaf(0), 0)
  }

  lemma FromReads(parts: seq<NamePart>, text: string, scope: set<string>)
    ensures ReadsQuery(From(parts, text), scope) == Resolve(Named(parts, text), scope)
    ensures LeftQuery(From(parts, text), scope) == scope
  {
    hide Named, Resolve;
    var q, own := From(parts, text), Resolve(Named(parts, text), scope);
    assert ScanTables(q.body, scope) == [] && ReadsExpr(Leaf(0), scope) == [];
    assert ReadsBody(q.body, scope) == [] + (own + []);
    assert ReadsQuery(q, scope) == [] + (ReadsBody(q.body, scope) + []);
    assert LeftExpr(Leaf(0), scope) == LeftFactor(q.body.from, scope) == scope;
    assert LeftBody(q.body, scope) == scope;
  }

  lemma FromMeets(qs: seq<Query>, n: nat, parts: seq<NamePart>, text: string)
    requires n < |qs| && qs[n] == From(parts, text) && !IsView(Named(parts, text)) && Left(qs, n) == {}
    ensures Met(qs, n) == Some(Rel(Named(parts, text))) && Left(qs, n + 1) == {}
    ensures Reads(qs[n]) == [Rel(Named(parts, text))]
  {
    hide ReadsQuery, LeftQuery, Named, IsView;
    FromReads(parts, text, {});
  }

  /** With two statements to blame the name kept is not the first: the later
      statement's takes its place. */
  method LaterNameReplaces(parts: seq<NamePart>, text: string, laterParts: seq<NamePart>, laterText: string)
      returns (answer: Result<RecordViews, ()>)
    requires !IsView(Named(parts, text)) && !IsView(Named(laterParts, laterText))
    ensures FirstBad(Reads(From(parts, text))) == Some(Rel(Named(parts, text)))
    ensures answer == Ok(Mixed(Text(Named(laterParts, laterText))))
  {
    hide ReadsQuery, LeftQuery, Named, IsView, Reads, From;
    var qs := [From(parts, text), From(laterParts, laterText)];
    FromMeets(qs, 0, parts, text);
    FromMeets(qs, 1, laterParts, laterText);
    ghost var visits;
    answer, visits := RecordViewUse(qs, true);
    assert Refuses(qs, 0) == false && !Refuses(qs, 1);
  }

  /** A relation that is not a view, in SQL that only mentions one: the answer
      says a view is read together with it, and none is. */
  method MixedWithoutView(parts: seq<NamePart>, text: string) returns (answer: Result<RecordViews, ()>)
    requires !IsView(Named(parts, text))
    ensures answer == Ok(Mixed(Text(Named(parts, text)))) && !ReadsView([From(parts, text)])
  {
    hide ReadsQuery, LeftQuery, Named, IsView, Reads, From;
    var qs := [From(parts, text)];
    FromMeets(qs, 0, parts, text);
    ghost var visits;
    answer, visits := RecordViewUse(qs, true);
    assert Kept(qs, 1) == Some(Text(Named(parts, text))) && !Refuses(qs, 0);
  }

  lemma NoViewRead(qs: seq<Query>)
    requires !ReadsView(qs)
    ensures !AnyView(qs)
  {
    forall i | 0 <= i < |qs|
      ensures !SawView(Reads(qs[i]))
    {
      forall r | r in Reads(qs[i])
        ensures Bad(r)
      {
        if r.Rel? { assert AnyReads(qs, Rel(r.rel)); }
      }
    }
  }

  lemma CleanDependsOnViews(qs: seq<Query>)
    requires !AnyBad(qs)
    ensures forall i :: 0 <= i < |qs| ==> DependsOnlyOnViews(qs[i])
  {
    forall i | 0 <= i < |qs|
      ensures DependsOnlyOnViews(qs[i])
    {
      assert FirstBad(Reads(qs[i])).None?;
      NonInterference(qs[i]);
    }
  }
}
