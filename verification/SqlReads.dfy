/** The plain reading of a query's relations: one scoped recursion, no visitor
    state. It lists, in the order the classifier reaches them, the relations
    that are free (not names of a CTE in scope) and the WITH clauses that are
    over the limit. */
module SqlReads {
  import opened Wrappers
  import opened SqlAst

  datatype Read = Rel(rel: RelName) | TooMany

  /** A read of `r` where the CTE names in `scope` are visible. */
  function Resolve(r: RelName, scope: set<string>): seq<Read> {
    if r.schema.None? && r.name in scope then [] else [Rel(r)]
  }

  function ReadsQuery(q: Query, scope: set<string>): seq<Read>
    decreases q, 1
  {
    match q.with
    case NoWith => ReadsMain(q, scope)
    case With(recursive, ctes) =>
      var inner := scope + CteNames(ctes);
      if |ctes| > MAX_CTES then [TooMany]
      else if recursive then
        ScanTables(q.body, inner) + ReadsRecursive(ctes, |ctes|, inner)
          + (ReadsBody(q.body, inner) + ReadsExpr(q.tail, inner))
      else ReadsEarlier(ctes, |ctes|, scope) + ReadsMain(q, inner)
  }

  function ReadsMain(q: Query, scope: set<string>): seq<Read>
    decreases q, 0
  {
    ScanTables(q.body, scope) + (ReadsBody(q.body, scope) + ReadsExpr(q.tail, scope))
  }

  /** Without RECURSIVE, a body sees only the CTEs before it. */
  function ReadsEarlier(ctes: seq<Cte>, n: nat, scope: set<string>): seq<Read>
    requires n <= |ctes|
    decreases ctes, n
  {
    if n == 0 then []
    else
      assert ctes[n - 1].query < ctes[n - 1];
      ReadsEarlier(ctes, n - 1, scope)
        + ReadsQuery(ctes[n - 1].query, scope + CteNames(ctes[..n - 1]))
  }

  function ReadsRecursive(ctes: seq<Cte>, n: nat, inner: set<string>): seq<Read>
    requires n <= |ctes|
    decreases ctes, n
  {
    if n == 0 then []
    else
      assert ctes[n - 1].query < ctes[n - 1];
      ReadsRecursive(ctes, n - 1, inner) + ReadsQuery(ctes[n - 1].query, inner)
  }

  /** The `TABLE x` arms of a body. */
  function ScanTables(body: SetExpr, scope: set<string>): seq<Read> {
    match body
    case Table(schema, name) => Resolve(TableName(schema, name), scope)
    case SetOp(_, left, right) => ScanTables(left, scope) + ScanTables(right, scope)
    case _ => []
  }

  function ReadsBody(body: SetExpr, scope: set<string>): seq<Read>
    decreases body, 0
  {
    match body
    case Select(items, from, filter) =>
      ReadsExpr(items, scope) + (ReadsFactor(from, scope) + ReadsExpr(filter, scope))
    case Values(rows) => ReadsExpr(rows, scope)
    case Table(_, _) => []
    case Nested(query) => ReadsQuery(query, scope)
    case SetOp(_, left, right) => ReadsBody(left, scope) + ReadsBody(right, scope)
  }

  function ReadsFactor(f: Factor, scope: set<string>): seq<Read>
    decreases f, 0
  {
    match f
    case NoFrom => []
    case Relation(parts, text) => Resolve(Named(parts, text), scope)
    case Function(_, args) => ReadsExpr(args, scope)
    case Derived(query) => ReadsQuery(query, scope)
    case Joined(left, right, on) =>
      ReadsFactor(left, scope) + (ReadsFactor(right, scope) + ReadsExpr(on, scope))
  }

  function ReadsExpr(e: Expr, scope: set<string>): seq<Read>
    decreases e, 0
  {
    match e
    case Leaf(_) => []
    case Apply(_, left, right) => ReadsExpr(left, scope) + ReadsExpr(right, scope)
    case Sub(_, arg, query) => ReadsExpr(arg, scope) + ReadsQuery(query, scope)
  }

  /** Whether a read stops the classifier. */
  predicate Bad(r: Read) {
    r.TooMany? || !IsView(r.rel)
  }

  ghost predicate AllViews(trace: seq<Read>) {
    forall r :: r in trace ==> !Bad(r)
  }

  function FirstBad(trace: seq<Read>): (bad: Option<Read>)
    ensures bad.None? <==> AllViews(trace)
    ensures bad.Some? ==> bad.value in trace && Bad(bad.value)
  {
    if trace == [] then None
    else if Bad(trace[0]) then Some(trace[0])
    else
      assert trace == [trace[0]] + trace[1..];
      FirstBad(trace[1..])
  }

  /** Whether a view is read before anything that stops the classifier. */
  function SawView(trace: seq<Read>): (saw: bool)
    ensures saw ==> exists r :: r in trace && !Bad(r)
    ensures AllViews(trace) && trace != [] ==> saw
  {
    trace != [] && !Bad(trace[0])
  }

  predicate Stops(trace: seq<Read>) { FirstBad(trace).Some? }

  /** The CTE names in scope where the classifier stops in a query that it walks
      with `scope` visible. A body checked on its own leaves no names behind. */
  function LeftQuery(q: Query, scope: set<string>): set<string>
    decreases q, 1
  {
    match q.with
    case NoWith => LeftMain(q, scope)
    case With(recursive, ctes) =>
      var inner := scope + CteNames(ctes);
      if |ctes| > MAX_CTES then scope
      else if !recursive then
        if Stops(ReadsEarlier(ctes, |ctes|, scope)) then scope else LeftMain(q, inner)
      else if Stops(ScanTables(q.body, inner)) then inner
      else if Stops(ReadsRecursive(ctes, |ctes|, inner)) then LeftRecursive(ctes, |ctes|, inner)
      else LeftMain(q, inner)
  }

  function LeftMain(q: Query, scope: set<string>): set<string>
    decreases q, 0
  {
    if Stops(ScanTables(q.body, scope)) then scope
    else if Stops(ReadsBody(q.body, scope)) then LeftBody(q.body, scope)
    else LeftExpr(q.tail, scope)
  }

  function LeftRecursive(ctes: seq<Cte>, n: nat, inner: set<string>): set<string>
    requires n <= |ctes|
    decreases ctes, n
  {
    if n == 0 then inner
    else if Stops(ReadsRecursive(ctes, n - 1, inner)) then LeftRecursive(ctes, n - 1, inner)
    else
      assert ctes[n - 1].query < ctes[n - 1];
      LeftQuery(ctes[n - 1].query, inner)
  }

  function LeftBody(body: SetExpr, scope: set<string>): set<string>
    decreases body, 0
  {
    match body
    case Select(items, from, filter) =>
      if Stops(ReadsExpr(items, scope)) then LeftExpr(items, scope)
      else if Stops(ReadsFactor(from, scope)) then LeftFactor(from, scope)
      else LeftExpr(filter, scope)
    case Values(rows) => LeftExpr(rows, scope)
    case Table(_, _) => scope
    case Nested(query) => LeftQuery(query, scope)
    case SetOp(_, left, right) =>
      if Stops(ReadsBody(left, scope)) then LeftBody(left, scope) else LeftBody(right, scope)
  }

  function LeftFactor(f: Factor, scope: set<string>): set<string>
    decreases f, 0
  {
    match f
    case NoFrom => scope
    case Relation(_, _) => scope
    case Function(_, args) => LeftExpr(args, scope)
    case Derived(query) => LeftQuery(query, scope)
    case Joined(left, right, on) =>
      if Stops(ReadsFactor(left, scope)) then LeftFactor(left, scope)
      else if Stops(ReadsFactor(right, scope)) then LeftFactor(right, scope)
      else LeftExpr(on, scope)
  }

  function LeftExpr(e: Expr, scope: set<string>): set<string>
    decreases e, 0
  {
    match e
    case Leaf(_) => scope
    case Apply(_, left, right) =>
      if Stops(ReadsExpr(left, scope)) then LeftExpr(left, scope) else LeftExpr(right, scope)
    case Sub(_, arg, query) =>
      if Stops(ReadsExpr(arg, scope)) then LeftExpr(arg, scope) else LeftQuery(query, scope)
  }

  lemma {:induction false} LeftStays(ctes: seq<Cte>, i: nat, n: nat, inner: set<string>)
    requires i <= n <= |ctes| && Stops(ReadsRecursive(ctes, i, inner))
    ensures Stops(ReadsRecursive(ctes, n, inner)) && LeftRecursive(ctes, n, inner) == LeftRecursive(ctes, i, inner)
  {
    hide ReadsQuery, LeftQuery, FirstBad, SawView;
    if i < n {
      LeftStays(ctes, i, n - 1, inner);
      ScanSplits(ReadsRecursive(ctes, n - 1, inner), ReadsQuery(ctes[n - 1].query, inner));
    }
  }

  lemma {:induction false} ScanSplits(a: seq<Read>, b: seq<Read>)
    ensures FirstBad(a + b) == if FirstBad(a).Some? then FirstBad(a) else FirstBad(b)
    ensures SawView(a + b) == (SawView(a) || (FirstBad(a).None? && SawView(b)))
  {
    if a == [] {
      assert a + b == b;
    } else {
      assert (a + b)[1..] == a[1..] + b;
      ScanSplits(a[1..], b);
    }
  }

  lemma AllViewsSplits(a: seq<Read>, b: seq<Read>)
    ensures AllViews(a + b) <==> AllViews(a) && AllViews(b)
  {
    ScanSplits(a, b);
  }
}
