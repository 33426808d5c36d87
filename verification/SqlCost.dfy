/** How many query nodes the classifier visits, and that it stays within the
    nodes of the tree times how deeply its CTE bodies nest. */
module SqlCost {
  import opened Wrappers
  import opened SqlAst

  /** Counts over a tree: its query nodes; the visits of a completed walk; how
      deeply bodies of non-recursive WITHs nest; and the visits of a walk that
      did not skip the bodies it has already checked. */
  datatype Counts = Counts(nodes: nat, visits: nat, depth: nat, unskipped: nat)

  /** The walk visits each node at most once per enclosing CTE body. */
  predicate Bounded(c: Counts) {
    c.visits <= Times(c.depth + 1, c.nodes)
  }

  function Nothing(): Counts { Counts(0, 0, 0, 0) }

  /** Two parts of one tree. */
  function Both(a: Counts, b: Counts): Counts {
    Counts(a.nodes + b.nodes, a.visits + b.visits, Max(a.depth, b.depth), a.unskipped + b.unskipped)
  }

  /** A query node above its parts. */
  function Node(parts: Counts): Counts {
    Counts(parts.nodes + 1, parts.visits + 1, parts.depth, parts.unskipped + 1)
  }

  /** A body walked on its own and then passed over, node by node, by the main
      walk; a walk that did not skip would go through it again. */
  function CheckedBody(body: Counts): Counts {
    Counts(body.nodes, body.visits + body.nodes, body.depth + 1, 2 * body.unskipped)
  }

  function QueryCost(q: Query): Counts
    decreases q, 0
  {
    var rest := Both(BodyCost(q.body), ExprCost(q.tail));
    Node(if q.with.With? then Both(CtesCost(q.with, |q.with.ctes|), rest) else rest)
  }

  function CtesCost(w: With, n: nat): Counts
    requires w.With? && n <= |w.ctes|
    decreases w, n
  {
    if n == 0 then Nothing()
    else
      var body := QueryCost(w.ctes[n - 1].query);
      Both(CtesCost(w, n - 1), if w.recursive then body else CheckedBody(body))
  }

  function BodyCost(body: SetExpr): Counts
    decreases body, 0
  {
    match body
    case Select(items, from, filter) => Both(ExprCost(items), Both(FactorCost(from), ExprCost(filter)))
    case Values(rows) => ExprCost(rows)
    case Table(_, _) => Nothing()
    case Nested(query) => QueryCost(query)
    case SetOp(_, left, right) => Both(BodyCost(left), BodyCost(right))
  }

  function FactorCost(f: Factor): Counts
    decreases f, 0
  {
    match f
    case NoFrom => Nothing()
    case Relation(_, _) => Nothing()
    case Function(_, args) => ExprCost(args)
    case Derived(query) => QueryCost(query)
    case Joined(left, right, on) => Both(FactorCost(left), Both(FactorCost(right), ExprCost(on)))
  }

  function ExprCost(e: Expr): Counts
    decreases e, 0
  {
    match e
    case Leaf(_) => Nothing()
    case Apply(_, left, right) => Both(ExprCost(left), ExprCost(right))
    case Sub(_, arg, query) => Both(ExprCost(arg), QueryCost(query))
  }

  /** `k * n` by repeated addition. */
  function Times(k: nat, n: nat): nat {
    if n == 0 then 0 else k + Times(k, n - 1)
  }

  lemma {:induction false} BoundsAdd(d: nat, e: nat, m: nat, n: nat)
    requires d <= e
    ensures Times(d + 1, m) + Times(e + 1, n) <= Times(e + 1, m + n)
  {
    if m > 0 {
      BoundsAdd(d, e, m - 1, n);
    }
  }

  lemma {:induction false} BoundsDeepen(k: nat, n: nat)
    ensures Times(k + 1, n) == Times(k, n) + n
  {
    if n > 0 { BoundsDeepen(k, n - 1); }
  }

  lemma {:induction false} TimesIsProduct(k: nat, n: nat)
    ensures Times(k, n) == k * n
  {
    if n > 0 { TimesIsProduct(k, n - 1); }
  }

  lemma BothBounded(a: Counts, b: Counts)
    requires Bounded(a) && Bounded(b)
    ensures Bounded(Both(a, b))
  {
    if a.depth <= b.depth {
      BoundsAdd(a.depth, b.depth, a.nodes, b.nodes);
    } else {
      BoundsAdd(b.depth, a.depth, b.nodes, a.nodes);
    }
  }

  lemma NodeBounded(parts: Counts)
    requires Bounded(parts)
    ensures Bounded(Node(parts))
  {
  }

  lemma CheckedBounded(body: Counts)
    requires Bounded(body)
    ensures Bounded(CheckedBody(body))
  {
    BoundsDeepen(body.depth + 1, body.nodes);
  }

  lemma {:induction false} QueryBounded(q: Query)
    ensures Bounded(QueryCost(q))
    decreases q, 0
  {
    var rest := Both(BodyCost(q.body), ExprCost(q.tail));
    BodyBounded(q.body);
    ExprBounded(q.tail);
    BothBounded(BodyCost(q.body), ExprCost(q.tail));
    if q.with.With? {
      CtesBounded(q.with, |q.with.ctes|);
      BothBounded(CtesCost(q.with, |q.with.ctes|), rest);
    }
    NodeBounded(if q.with.With? then Both(CtesCost(q.with, |q.with.ctes|), rest) else rest);
  }

  lemma {:induction false} CtesBounded(w: With, n: nat)
    requires w.With? && n <= |w.ctes|
    ensures Bounded(CtesCost(w, n))
    decreases w, n
  {
    if n > 0 {
      var body := QueryCost(w.ctes[n - 1].query);
      CtesBounded(w, n - 1);
      QueryBounded(w.ctes[n - 1].query);
      CheckedBounded(body);
      BothBounded(CtesCost(w, n - 1), if w.recursive then body else CheckedBody(body));
    }
  }

  lemma {:induction false} BodyBounded(body: SetExpr)
    ensures Bounded(BodyCost(body))
    decreases body, 0
  {
    match body
    case Select(items, from, filter) =>
      ExprBounded(items);
      FactorBounded(from);
      ExprBounded(filter);
      BothBounded(FactorCost(from), ExprCost(filter));
      BothBounded(ExprCost(items), Both(FactorCost(from), ExprCost(filter)));
    case Values(rows) => ExprBounded(rows);
    case Table(_, _) =>
    case Nested(query) => QueryBounded(query);
    case SetOp(_, left, right) =>
      BodyBounded(left);
      BodyBounded(right);
      BothBounded(BodyCost(left), BodyCost(right));
  }

  lemma {:induction false} FactorBounded(f: Factor)
    ensures Bounded(FactorCost(f))
    decreases f, 0
  {
    match f
    case NoFrom =>
    case Relation(_, _) =>
    case Function(_, args) => ExprBounded(args);
    case Derived(query) => QueryBounded(query);
    case Joined(left, right, on) =>
      FactorBounded(left);
      FactorBounded(right);
      ExprBounded(on);
      BothBounded(FactorCost(right), ExprCost(on));
      BothBounded(FactorCost(left), Both(FactorCost(right), ExprCost(on)));
  }

  lemma {:induction false} ExprBounded(e: Expr)
    ensures Bounded(ExprCost(e))
    decreases e, 0
  {
    match e
    case Leaf(_) =>
    case Apply(_, left, right) =>
      ExprBounded(left);
      ExprBounded(right);
      BothBounded(ExprCost(left), ExprCost(right));
    case Sub(_, arg, query) =>
      ExprBounded(arg);
      QueryBounded(query);
      BothBounded(ExprCost(arg), QueryCost(query));
  }

  /** The classifier's walk is within the query nodes of the tree times one
      more than the depth to which CTE bodies nest. */
  lemma CostBound(q: Query)
    ensures QueryCost(q).visits <= (QueryCost(q).depth + 1) * QueryCost(q).nodes
  {
    QueryBounded(q);
    TimesIsProduct(QueryCost(q).depth + 1, QueryCost(q).nodes);
  }

  /** `WITH c AS (q) VALUES (e) ORDER BY e`: one more level around `q`. */
  function Wrap(q: Query, e: Expr): Query {
    Query(With(false, [Cte(Ident("c", false), q)]), Values(e), e, 0)
  }

  function Wraps(levels: nat, q: Query, e: Expr): Query {
    if levels == 0 then q else Wraps(levels - 1, Wrap(q, e), e)
  }

  /** The counts of a level around a body that counts `c`, where the rest of
      the query counts `r`. */
  function Level(c: Counts, r: Counts): Counts {
    Counts(c.nodes + r.nodes + 1, c.visits + c.nodes + r.visits + 1, Max(c.depth + 1, r.depth),
           2 * c.unskipped + r.unskipped + 1)
  }

  function Levels(n: nat, c: Counts, r: Counts): Counts {
    if n == 0 then c else Levels(n - 1, Level(c, r), r)
  }

  lemma {:induction false} LevelAdds(c: Counts, r: Counts)
    ensures Node(Both(Both(Nothing(), CheckedBody(c)), r)) == Level(c, r)
  {
  }

  lemma WrapParts(q: Query, e: Expr)
    ensures QueryCost(Wrap(q, e)) ==
            Node(Both(Both(Nothing(), CheckedBody(QueryCost(q))), Both(ExprCost(e), ExprCost(e))))
  {
    var w := Wrap(q, e);
    assert w.with.ctes[0].query == q;
    assert CtesCost(w.with, 1) == Both(CtesCost(w.with, 0), CheckedBody(QueryCost(w.with.ctes[0].query)));
  }

  lemma WrapCost(q: Query, e: Expr)
    ensures QueryCost(Wrap(q, e)) == Level(QueryCost(q), Both(ExprCost(e), ExprCost(e)))
  {
    WrapParts(q, e);
    LevelAdds(QueryCost(q), Both(ExprCost(e), ExprCost(e)));
  }

  lemma {:induction false} WrapsCost(levels: nat, q: Query, e: Expr)
    ensures QueryCost(Wraps(levels, q, e)) == Levels(levels, QueryCost(q), Both(ExprCost(e), ExprCost(e)))
  {
    if levels > 0 {
      WrapCost(q, e);
      WrapsCost(levels - 1, Wrap(q, e), e);
    }
  }

  function Doubled(u: nat, times: nat): nat
    decreases times
  {
    if times == 0 then u else Doubled(2 * u, times - 1)
  }

  lemma {:induction false} LevelsDouble(levels: nat, c: Counts, r: Counts, u: nat)
    requires u <= c.unskipped
    ensures Doubled(u, levels) <= Levels(levels, c, r).unskipped
  {
    if levels > 0 {
      LevelsDouble(levels - 1, Level(c, r), r, 2 * u);
    }
  }

  /** A walk that did not skip the bodies it checked would double with every
      level of nesting, around any query. */
  lemma UnskippedWalkDoubles(levels: nat, q: Query, e: Expr)
    ensures Doubled(QueryCost(q).unskipped, levels) <= QueryCost(Wraps(levels, q, e)).unskipped
  {
    WrapsCost(levels, q, e);
    LevelsDouble(levels, QueryCost(q), Both(ExprCost(e), ExprCost(e)), QueryCost(q).unskipped);
  }
}
