/** A query whose free relations are all record views cannot tell apart two
    databases that agree on the views. */
module SqlNonInterference {
  import opened SqlAst
  import opened SqlReads
  import opened SqlEval

  ghost predicate AgreeOnViews(a: Machine, b: Machine) {
    && a.ops == b.ops
    && a.rounds == b.rounds
    && forall r: RelName :: IsView(r) ==> a.db(r) == b.db(r)
  }

  /** The query's result depends on nothing but the record views. */
  ghost predicate DependsOnlyOnViews(q: Query) {
    forall a: Machine, b: Machine, outer: Row | AgreeOnViews(a, b) ::
      EvalQuery(q, a, map[], outer) == EvalQuery(q, b, map[], outer)
  }

  lemma LookupAgrees(r: RelName, env: Env, a: Machine, b: Machine)
    requires AgreeOnViews(a, b) && AllViews(Resolve(r, env.Keys))
    ensures Lookup(r, env, a) == Lookup(r, env, b)
  {
    if !(r.schema.None? && r.name in env) {
      assert Rel(r) in Resolve(r, env.Keys);
    }
  }

  lemma {:induction false} QueryAgrees(q: Query, a: Machine, b: Machine, env: Env, outer: Row)
    requires AgreeOnViews(a, b) && AllViews(ReadsQuery(q, env.Keys))
    ensures EvalQuery(q, a, env, outer) == EvalQuery(q, b, env, outer)
    decreases q, 1, 0, 0
  {
    match q.with
    case NoWith => MainAgrees(q, a, b, env, outer);
    case With(recursive, ctes) =>
      var inner := env.Keys + CteNames(ctes);
      assert |ctes| > MAX_CTES ==> TooMany in ReadsQuery(q, env.Keys);
      if recursive {
        var rest := ReadsBody(q.body, inner) + ReadsExpr(q.tail, inner);
        AllViewsSplits(ScanTables(q.body, inner) + ReadsRecursive(ctes, |ctes|, inner), rest);
        AllViewsSplits(ScanTables(q.body, inner), ReadsRecursive(ctes, |ctes|, inner));
        AllViewsSplits(ScanTables(q.body, inner), rest);
        RecursiveAgrees(ctes, a.rounds, a, b, env, outer);
        MainAgrees(q, a, b, Bind(env, ctes, EvalRecursive(ctes, a.rounds, a, env, outer)), outer);
      } else {
        AllViewsSplits(ReadsEarlier(ctes, |ctes|, env.Keys), ReadsMain(q, inner));
        EarlierAgrees(ctes, |ctes|, a, b, env, outer);
        assert ctes[..|ctes|] == ctes;
        MainAgrees(q, a, b, EvalEarlier(ctes, |ctes|, a, env, outer), outer);
      }
  }

  lemma {:induction false} MainAgrees(q: Query, a: Machine, b: Machine, env: Env, outer: Row)
    requires AgreeOnViews(a, b) && AllViews(ReadsMain(q, env.Keys))
    ensures EvalMain(q, a, env, outer) == EvalMain(q, b, env, outer)
    decreases q, 0, 0, 0
  {
    AllViewsSplits(ScanTables(q.body, env.Keys), ReadsBody(q.body, env.Keys) + ReadsExpr(q.tail, env.Keys));
    AllViewsSplits(ReadsBody(q.body, env.Keys), ReadsExpr(q.tail, env.Keys));
    BodyAgrees(q.body, a, b, env, outer);
    WithValuesAgrees(q.tail, EvalBody(q.body, a, env, outer), a, b, env, outer);
  }

  lemma {:induction false} EarlierAgrees(ctes: seq<Cte>, n: nat, a: Machine, b: Machine, env: Env, outer: Row)
    requires n <= |ctes| && AgreeOnViews(a, b) && AllViews(ReadsEarlier(ctes, n, env.Keys))
    ensures EvalEarlier(ctes, n, a, env, outer) == EvalEarlier(ctes, n, b, env, outer)
    decreases ctes, 0, n, 0
  {
    if n > 0 {
      AllViewsSplits(ReadsEarlier(ctes, n - 1, env.Keys),
                     ReadsQuery(ctes[n - 1].query, env.Keys + CteNames(ctes[..n - 1])));
      EarlierAgrees(ctes, n - 1, a, b, env, outer);
      assert ctes[n - 1].query < ctes[n - 1];
      QueryAgrees(ctes[n - 1].query, a, b, EvalEarlier(ctes, n - 1, a, env, outer), outer);
    }
  }

  lemma {:induction false} RecursiveAgrees(ctes: seq<Cte>, k: nat, a: Machine, b: Machine, env: Env, outer: Row)
    requires AgreeOnViews(a, b) && AllViews(ReadsRecursive(ctes, |ctes|, env.Keys + CteNames(ctes)))
    ensures EvalRecursive(ctes, k, a, env, outer) == EvalRecursive(ctes, k, b, env, outer)
    decreases ctes, 1, k, 0
  {
    hide EvalQuery, EvalRound, ReadsRecursive, Bind, CteNames;
    if k > 0 {
      RecursiveAgrees(ctes, k - 1, a, b, env, outer);
      var last := Bind(env, ctes, EvalRecursive(ctes, k - 1, a, env, outer));
      RoundAgrees(ctes, |ctes|, a, b, last, outer);
      assert EvalRecursive(ctes, k, a, env, outer) == EvalRound(ctes, |ctes|, a, last, outer);
      assert EvalRecursive(ctes, k, b, env, outer) == EvalRound(ctes, |ctes|, b, last, outer);
    }
  }

  lemma {:induction false} RoundAgrees(ctes: seq<Cte>, n: nat, a: Machine, b: Machine, last: Env, outer: Row)
    requires n <= |ctes| && AgreeOnViews(a, b) && AllViews(ReadsRecursive(ctes, n, last.Keys))
    ensures EvalRound(ctes, n, a, last, outer) == EvalRound(ctes, n, b, last, outer)
    decreases ctes, 0, n, 0
  {
    if n > 0 {
      AllViewsSplits(ReadsRecursive(ctes, n - 1, last.Keys), ReadsQuery(ctes[n - 1].query, last.Keys));
      RoundAgrees(ctes, n - 1, a, b, last, outer);
      assert ctes[n - 1].query < ctes[n - 1];
      QueryAgrees(ctes[n - 1].query, a, b, last, outer);
    }
  }

  lemma {:induction false} BodyAgrees(body: SetExpr, a: Machine, b: Machine, env: Env, outer: Row)
    requires AgreeOnViews(a, b)
    requires AllViews(ScanTables(body, env.Keys)) && AllViews(ReadsBody(body, env.Keys))
    ensures EvalBody(body, a, env, outer) == EvalBody(body, b, env, outer)
    decreases body, 1, 0, 0
  {
    match body
    case Select(items, from, filter) =>
      AllViewsSplits(ReadsExpr(items, env.Keys), ReadsFactor(from, env.Keys) + ReadsExpr(filter, env.Keys));
      AllViewsSplits(ReadsFactor(from, env.Keys), ReadsExpr(filter, env.Keys));
      FactorAgrees(from, a, b, env, outer);
      SelectRowsAgrees(body, EvalFactor(from, a, env, outer), a, b, env, outer);
    case Values(rows) => ExprAgrees(rows, a, b, env, outer);
    case Table(schema, name) => LookupAgrees(TableName(schema, name), env, a, b);
    case Nested(query) => QueryAgrees(query, a, b, env, outer);
    case SetOp(_, left, right) =>
      AllViewsSplits(ScanTables(left, env.Keys), ScanTables(right, env.Keys));
      AllViewsSplits(ReadsBody(left, env.Keys), ReadsBody(right, env.Keys));
      BodyAgrees(left, a, b, env, outer);
      BodyAgrees(right, a, b, env, outer);
  }

  lemma {:induction false} SelectRowsAgrees(body: SetExpr, rows: Table, a: Machine, b: Machine, env: Env, outer: Row)
    requires body.Select? && AgreeOnViews(a, b)
    requires AllViews(ReadsExpr(body.items, env.Keys)) && AllViews(ReadsExpr(body.filter, env.Keys))
    ensures SelectRows(body, rows, a, env, outer) == SelectRows(body, rows, b, env, outer)
    decreases body, 0, |rows|, 0
  {
    if rows != [] {
      SelectRowsAgrees(body, rows[1..], a, b, env, outer);
      ExprAgrees(body.filter, a, b, env, outer + rows[0]);
      ExprAgrees(body.items, a, b, env, outer + rows[0]);
    }
  }

  lemma {:induction false} FactorAgrees(f: Factor, a: Machine, b: Machine, env: Env, outer: Row)
    requires AgreeOnViews(a, b) && AllViews(ReadsFactor(f, env.Keys))
    ensures EvalFactor(f, a, env, outer) == EvalFactor(f, b, env, outer)
    decreases f, 2, 0, 0
  {
    match f
    case NoFrom =>
    case Relation(parts, text) => LookupAgrees(Named(parts, text), env, a, b);
    case Function(_, args) => ExprAgrees(args, a, b, env, outer);
    case Derived(query) => QueryAgrees(query, a, b, env, outer);
    case Joined(left, right, on) =>
      AllViewsSplits(ReadsFactor(left, env.Keys), ReadsFactor(right, env.Keys) + ReadsExpr(on, env.Keys));
      AllViewsSplits(ReadsFactor(right, env.Keys), ReadsExpr(on, env.Keys));
      FactorAgrees(left, a, b, env, outer);
      JoinRowsAgrees(f, EvalFactor(left, a, env, outer), a, b, env, outer);
  }

  lemma {:induction false} JoinRowsAgrees(f: Factor, lefts: Table, a: Machine, b: Machine, env: Env, outer: Row)
    requires f.Joined? && AgreeOnViews(a, b)
    requires AllViews(ReadsFactor(f.right, env.Keys)) && AllViews(ReadsExpr(f.on, env.Keys))
    ensures JoinRows(f, lefts, a, env, outer) == JoinRows(f, lefts, b, env, outer)
    decreases f, 1, |lefts|, 0
  {
    if lefts != [] {
      FactorAgrees(f.right, a, b, env, outer + lefts[0]);
      PairRowsAgrees(f, lefts[0], EvalFactor(f.right, a, env, outer + lefts[0]), a, b, env, outer);
      JoinRowsAgrees(f, lefts[1..], a, b, env, outer);
    }
  }

  lemma {:induction false} PairRowsAgrees(f: Factor, left: Row, rights: Table, a: Machine, b: Machine, env: Env,
                                          outer: Row)
    requires f.Joined? && AgreeOnViews(a, b) && AllViews(ReadsExpr(f.on, env.Keys))
    ensures PairRows(f, left, rights, a, env, outer) == PairRows(f, left, rights, b, env, outer)
    decreases f, 0, |rights|, 0
  {
    if rights != [] {
      PairRowsAgrees(f, left, rights[1..], a, b, env, outer);
      ExprAgrees(f.on, a, b, env, outer + left + rights[0]);
    }
  }

  lemma {:induction false} WithValuesAgrees(e: Expr, rows: Table, a: Machine, b: Machine, env: Env, outer: Row)
    requires AgreeOnViews(a, b) && AllViews(ReadsExpr(e, env.Keys))
    ensures WithValues(e, rows, a, env, outer) == WithValues(e, rows, b, env, outer)
    decreases e, 1, |rows|, 0
  {
    if rows != [] {
      WithValuesAgrees(e, rows[1..], a, b, env, outer);
      ExprAgrees(e, a, b, env, outer + rows[0]);
    }
  }

  lemma {:induction false} ExprAgrees(e: Expr, a: Machine, b: Machine, env: Env, row: Row)
    requires AgreeOnViews(a, b) && AllViews(ReadsExpr(e, env.Keys))
    ensures EvalExpr(e, a, env, row) == EvalExpr(e, b, env, row)
    decreases e, 0, 0, 0
  {
    match e
    case Leaf(_) =>
    case Apply(_, left, right) =>
      AllViewsSplits(ReadsExpr(left, env.Keys), ReadsExpr(right, env.Keys));
      ExprAgrees(left, a, b, env, row);
      ExprAgrees(right, a, b, env, row);
    case Sub(_, arg, query) =>
      AllViewsSplits(ReadsExpr(arg, env.Keys), ReadsQuery(query, env.Keys));
      ExprAgrees(arg, a, b, env, row);
      QueryAgrees(query, a, b, env, row);
  }

  /** Non-interference: free relations that are all views are the only ones a
      query's result can depend on. */
  lemma NonInterference(q: Query)
    requires AllViews(ReadsQuery(q, {}))
    ensures DependsOnlyOnViews(q)
  {
    forall a: Machine, b: Machine, outer: Row | AgreeOnViews(a, b)
      ensures EvalQuery(q, a, map[], outer) == EvalQuery(q, b, map[], outer)
    {
      var env: Env := map[];
      assert env.Keys == {};
      QueryAgrees(q, a, b, env, outer);
    }
  }

  /** The evaluator does see other relations: a query that selects from one that
      is not a view can tell such databases apart. */
  lemma OtherRelationShows(parts: seq<NamePart>, text: string)
    requires !IsView(Named(parts, text))
    ensures !DependsOnlyOnViews(Query(NoWith, Select(Leaf(0), Relation(parts, text), Leaf(0)), Leaf(0), 0))
  {
    var r := Named(parts, text);
    var q := Query(NoWith, Select(Leaf(0), Relation(parts, text), Leaf(0)), Leaf(0), 0);
    var ops := Ops((_, x, y) => x, (_, x, t) => x, (_, x) => [], x => true, (_, t, u) => t, (_, t) => t);
    var a := Machine(ops, 0, n => []);
    var b := Machine(ops, 0, n => if n == r then [[]] else []);
    var env: Env := map[];
    assert AgreeOnViews(a, b);
    assert EvalFactor(q.body.from, a, env, []) == [] && EvalFactor(q.body.from, b, env, []) == [[]];
    assert EvalBody(q.body, a, env, []) == [];
    assert SelectRows(q.body, [[]], b, env, []) == [[0]] + SelectRows(q.body, [], b, env, []);
    assert EvalBody(q.body, b, env, []) == [[0]];
    assert EvalMain(q, a, env, []) == [];
    assert [[0]][1..] == [];
    assert |EvalMain(q, b, env, [])| == 1;
    assert EvalQuery(q, a, map[], []) != EvalQuery(q, b, map[], []);
  }
}
