/** What a query means: an evaluator over a database, with SQL's WITH scoping,
    correlated subqueries and lateral joins. Operators, table functions and the
    clauses after a body are arbitrary functions of their inputs. */
module SqlEval {
  import opened SqlAst

  type Value = int
  type Row = seq<Value>
  type Table = seq<Row>
  type Database = RelName -> Table
  type Env = map<string, Table>

  datatype Ops = Ops(
    apply: (nat, Value, Value) -> Value,
    sub: (nat, Value, Table) -> Value,
    tableFunction: (string, Value) -> Table,
    keep: Value -> bool,
    setOp: (nat, Table, Table) -> Table,
    finish: (nat, Table) -> Table)

  /** What a query runs on. `rounds` bounds how often a recursive WITH is
      unrolled: its result is the limit, so what holds for every bound holds of
      it too. */
  datatype Machine = Machine(ops: Ops, rounds: nat, db: Database)

  /** A name is a CTE in scope when it is unqualified and bound there, and
      otherwise a relation of the database. */
  function Lookup(r: RelName, env: Env, m: Machine): Table {
    if r.schema.None? && r.name in env then env[r.name] else m.db(r)
  }

  function EvalQuery(q: Query, m: Machine, env: Env, outer: Row): Table
    decreases q, 1, 0, 0
  {
    match q.with
    case NoWith => EvalMain(q, m, env, outer)
    case With(recursive, ctes) =>
      var inner := if recursive
        then Bind(env, ctes, EvalRecursive(ctes, m.rounds, m, env, outer))
        else EvalEarlier(ctes, |ctes|, m, env, outer);
      EvalMain(q, m, inner, outer)
  }

  function EvalMain(q: Query, m: Machine, env: Env, outer: Row): Table
    decreases q, 0, 0, 0
  {
    var rows := EvalBody(q.body, m, env, outer);
    m.ops.finish(q.shape, WithValues(q.tail, rows, m, env, outer))
  }

  /** The first `n` CTEs bound in turn, each body seeing those before it. */
  function EvalEarlier(ctes: seq<Cte>, n: nat, m: Machine, env: Env, outer: Row): (r: Env)
    requires n <= |ctes|
    ensures r.Keys == env.Keys + CteNames(ctes[..n])
    decreases ctes, 0, n, 0
  {
    if n == 0 then env
    else
      var before := EvalEarlier(ctes, n - 1, m, env, outer);
      assert ctes[n - 1].query < ctes[n - 1];
      assert ctes[..n][..n - 1] == ctes[..n - 1];
      before[Fold(ctes[n - 1].alias) := EvalQuery(ctes[n - 1].query, m, before, outer)]
  }

  function Empties(n: nat): (r: seq<Table>)
    ensures |r| == n
  {
    if n == 0 then [] else Empties(n - 1) + [[]]
  }

  function Bind(env: Env, ctes: seq<Cte>, tables: seq<Table>): (r: Env)
    requires |tables| == |ctes|
    ensures r.Keys == env.Keys + CteNames(ctes)
  {
    if ctes == [] then env
    else
      var n := |ctes| - 1;
      Bind(env, ctes[..n], tables[..n])[Fold(ctes[n].alias) := tables[n]]
  }

  /** Every CTE of a recursive WITH after `k` rounds, all starting empty; in a
      round each body sees the last round's tables. */
  function EvalRecursive(ctes: seq<Cte>, k: nat, m: Machine, env: Env, outer: Row): (r: seq<Table>)
    ensures |r| == |ctes|
    decreases ctes, 1, k, 0
  {
    if k == 0 then Empties(|ctes|)
    else EvalRound(ctes, |ctes|, m, Bind(env, ctes, EvalRecursive(ctes, k - 1, m, env, outer)), outer)
  }

  function EvalRound(ctes: seq<Cte>, n: nat, m: Machine, last: Env, outer: Row): (r: seq<Table>)
    requires n <= |ctes|
    ensures |r| == n
    decreases ctes, 0, n, 0
  {
    if n == 0 then []
    else
      assert ctes[n - 1].query < ctes[n - 1];
      EvalRound(ctes, n - 1, m, last, outer) + [EvalQuery(ctes[n - 1].query, m, last, outer)]
  }

  function EvalBody(body: SetExpr, m: Machine, env: Env, outer: Row): Table
    decreases body, 1, 0, 0
  {
    match body
    case Select(_, from, _) =>
      SelectRows(body, EvalFactor(from, m, env, outer), m, env, outer)
    case Values(rows) => [[EvalExpr(rows, m, env, outer)]]
    case Table(schema, name) => Lookup(TableName(schema, name), env, m)
    case Nested(query) => EvalQuery(query, m, env, outer)
    case SetOp(op, left, right) =>
      m.ops.setOp(op, EvalBody(left, m, env, outer), EvalBody(right, m, env, outer))
  }

  function SelectRows(body: SetExpr, rows: Table, m: Machine, env: Env, outer: Row): Table
    requires body.Select?
    decreases body, 0, |rows|, 0
  {
    if rows == [] then []
    else
      var row := outer + rows[0];
      var rest := SelectRows(body, rows[1..], m, env, outer);
      if m.ops.keep(EvalExpr(body.filter, m, env, row))
      then [[EvalExpr(body.items, m, env, row)]] + rest
      else rest
  }

  function EvalFactor(f: Factor, m: Machine, env: Env, outer: Row): Table
    decreases f, 2, 0, 0
  {
    match f
    case NoFrom => [[]]
    case Relation(parts, text) => Lookup(Named(parts, text), env, m)
    case Function(text, args) => m.ops.tableFunction(text, EvalExpr(args, m, env, outer))
    case Derived(query) => EvalQuery(query, m, env, outer)
    case Joined(left, _, _) =>
      JoinRows(f, EvalFactor(left, m, env, outer), m, env, outer)
  }

  /** A lateral join: the right side is evaluated for each left row. */
  function JoinRows(f: Factor, lefts: Table, m: Machine, env: Env, outer: Row): Table
    requires f.Joined?
    decreases f, 1, |lefts|, 0
  {
    if lefts == [] then []
    else
      var rights := EvalFactor(f.right, m, env, outer + lefts[0]);
      PairRows(f, lefts[0], rights, m, env, outer)
        + JoinRows(f, lefts[1..], m, env, outer)
  }

  function PairRows(f: Factor, left: Row, rights: Table, m: Machine, env: Env, outer: Row): Table
    requires f.Joined?
    decreases f, 0, |rights|, 0
  {
    if rights == [] then []
    else
      var rest := PairRows(f, left, rights[1..], m, env, outer);
      if m.ops.keep(EvalExpr(f.on, m, env, outer + left + rights[0]))
      then [left + rights[0]] + rest
      else rest
  }

  /** Each row with the value of `e` for it, as ORDER BY and LIMIT use it. */
  function WithValues(e: Expr, rows: Table, m: Machine, env: Env, outer: Row): Table
    decreases e, 1, |rows|, 0
  {
    if rows == [] then []
    else [rows[0] + [EvalExpr(e, m, env, outer + rows[0])]]
           + WithValues(e, rows[1..], m, env, outer)
  }

  function EvalExpr(e: Expr, m: Machine, env: Env, row: Row): Value
    decreases e, 0, 0, 0
  {
    match e
    case Leaf(column) => if column < |row| then row[column] else 0
    case Apply(op, left, right) =>
      m.ops.apply(op, EvalExpr(left, m, env, row), EvalExpr(right, m, env, row))
    case Sub(op, arg, query) =>
      m.ops.sub(op, EvalExpr(arg, m, env, row), EvalQuery(query, m, env, row))
  }
}
