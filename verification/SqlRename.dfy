/** Giving a CTE another name: the aliases of the WITHs picked, and every
    unqualified use in their scope, in the text of a query. It changes no answer
    of `record_view_use`. */
module SqlRename {
  import opened Wrappers
  import opened SqlAst
  import opened SqlReads
  import opened SqlMentions
  import opened SqlClassify

  /** Where a WITH is in its query. */
  type Place = seq<nat>

  /** CTEs called `from` are called `to` in the WITHs picked. */
  datatype Renaming = Renaming(from: string, to: string, pick: Place -> bool)

  /** What `from` is called in the scope of a WITH that gives it. */
  function Called(c: Renaming, at: Place): string {
    if c.pick(at) then c.to else c.from
  }

  /** What `from` is called inside a WITH, where it is called `name` outside. */
  function Inside(c: Renaming, at: Place, names: set<string>, name: string): string {
    if c.from in names then Called(c, at) else name
  }

  /** The CTEs that body `i` of a WITH sees: without RECURSIVE, those before it. */
  function Seen(w: With, i: nat): set<string>
    requires w.With? && i <= |w.ctes|
  {
    if w.recursive then CteNames(w.ctes) else CteNames(w.ctes[..i])
  }

  function RenameAlias(c: Renaming, alias: Ident, name: string): Ident {
    if Fold(alias) == c.from && name != c.from then Ident(name, true) else alias
  }

  /** The query renamed, where `from` is called `name`. */
  function RenameQuery(c: Renaming, q: Query, at: Place, name: string): Query
    decreases q, 1
  {
    var inner := if q.with.With? then Inside(c, at, CteNames(q.with.ctes), name) else name;
    Query(RenameWith(c, q.with, at, name), RenameBody(c, q.body, at + [1], inner),
          RenameExpr(c, q.tail, at + [2], inner), q.shape)
  }

  function RenameWith(c: Renaming, w: With, at: Place, name: string): (r: With)
    ensures w.With? <==> r.With?
    ensures w.With? ==> r.recursive == w.recursive && |r.ctes| == |w.ctes|
    ensures w.With? ==> forall i :: 0 <= i < |w.ctes| ==>
              r.ctes[i] == Cte(RenameAlias(c, w.ctes[i].alias, Called(c, at)),
                               RenameQuery(c, w.ctes[i].query, at + [0] + [i], Inside(c, at, Seen(w, i), name)))
    decreases w, 0
  {
    match w
    case NoWith => NoWith
    case With(recursive, ctes) =>
      With(recursive, seq(|ctes|, i requires 0 <= i < |ctes| =>
        Cte(RenameAlias(c, ctes[i].alias, Called(c, at)),
            RenameQuery(c, ctes[i].query, at + [0] + [i], Inside(c, at, Seen(w, i), name)))))
  }

  function RenameBody(c: Renaming, body: SetExpr, at: Place, name: string): SetExpr
    decreases body, 0
  {
    match body
    case Select(items, from, filter) =>
      Select(RenameExpr(c, items, at + [0], name), RenameFactor(c, from, at + [1], name),
             RenameExpr(c, filter, at + [2], name))
    case Values(rows) => Values(RenameExpr(c, rows, at + [0], name))
    case Table(schema, table) =>
      if TableName(schema, table) == RelName(None, c.from) && name != c.from then Table(None, Some(name)) else body
    case Nested(query) => Nested(RenameQuery(c, query, at + [0], name))
    case SetOp(op, left, right) =>
      SetOp(op, RenameBody(c, left, at + [0], name), RenameBody(c, right, at + [1], name))
  }

  function RenameFactor(c: Renaming, f: Factor, at: Place, name: string): Factor
    decreases f, 0
  {
    match f
    case NoFrom => NoFrom
    case Relation(parts, text) =>
      if Named(parts, text) == RelName(None, c.from) && name != c.from then Relation([Name(Ident(name, true))], name)
      else f
    case Function(text, args) => Function(text, RenameExpr(c, args, at + [0], name))
    case Derived(query) => Derived(RenameQuery(c, query, at + [0], name))
    case Joined(left, right, on) =>
      Joined(RenameFactor(c, left, at + [0], name), RenameFactor(c, right, at + [1], name),
             RenameExpr(c, on, at + [2], name))
  }

  function RenameExpr(c: Renaming, e: Expr, at: Place, name: string): Expr
    decreases e, 0
  {
    match e
    case Leaf(_) => e
    case Apply(op, left, right) =>
      Apply(op, RenameExpr(c, left, at + [0], name), RenameExpr(c, right, at + [1], name))
    case Sub(op, arg, query) => Sub(op, RenameExpr(c, arg, at + [0], name), RenameQuery(c, query, at + [1], name))
  }

  /** The new name is plain, and another one. */
  predicate Plain(c: Renaming) {
    c.to != c.from && Lowered(c.to) == c.to
  }

  /** The text neither uses nor gives the new name. */
  ghost predicate Fresh(c: Renaming, q: Query) {
    !OccursQuery(q, Use(RelName(None, c.to))) && !OccursQuery(q, Alias(c.to))
  }

  ghost predicate FreshWith(c: Renaming, w: With) {
    w.With? ==> !OccursCtes(w, Use(RelName(None, c.to))) && !OccursCtes(w, Alias(c.to))
  }

  ghost predicate FreshBody(c: Renaming, body: SetExpr) {
    !OccursBody(body, Use(RelName(None, c.to))) && !OccursBody(body, Alias(c.to))
  }

  ghost predicate FreshFactor(c: Renaming, f: Factor) {
    !OccursFactor(f, Use(RelName(None, c.to))) && !OccursFactor(f, Alias(c.to))
  }

  ghost predicate FreshExpr(c: Renaming, e: Expr) {
    !OccursExpr(e, Use(RelName(None, c.to))) && !OccursExpr(e, Alias(c.to))
  }

  /** The names in scope before and after, where `from` is called `name`. */
  ghost predicate Scoped(c: Renaming, v: set<string>, w: set<string>, name: string) {
    && (forall x :: x != c.from && x != c.to ==> (x in v <==> x in w))
    && (c.from in v <==> name in w)
    && (name == c.from || (name == c.to && c.from in v))
  }

  lemma AliasRenamed(c: Renaming, alias: Ident, name: string)
    ensures Fold(RenameAlias(c, alias, name)) == if Fold(alias) == c.from then name else Fold(alias)
  {
  }

  lemma NamesNext(ctes: seq<Cte>, n: nat)
    requires n < |ctes|
    ensures CteNames(ctes[..n + 1]) == CteNames(ctes[..n]) + {Fold(ctes[n].alias)}
  {
    assert ctes[..n + 1][..n] == ctes[..n];
  }

  lemma NoAlias(c: Renaming, w: With, i: nat)
    requires w.With? && FreshWith(c, w) && i < |w.ctes|
    ensures Fold(w.ctes[i].alias) != c.to
  {
  }

  lemma {:induction false} NamesRenamed(c: Renaming, w: With, at: Place, name: string, n: nat)
    requires Plain(c) && w.With? && FreshWith(c, w) && n <= |w.ctes|
    ensures var r := RenameWith(c, w, at, name);
            var before, after := CteNames(w.ctes[..n]), CteNames(r.ctes[..n]);
            && (forall x :: x != c.from && x != c.to ==> (x in before <==> x in after))
            && (c.from in after <==> c.from in before && !c.pick(at))
            && (c.to in after <==> c.from in before && c.pick(at))
  {
    hide RenameQuery, RenameWith, RenameAlias, OccursCtes, Lowered, CteNames, Fold;
    var r := RenameWith(c, w, at, name);
    if n == 0 {
      NoNames(w.ctes);
      NoNames(r.ctes);
    } else {
      NamesRenamed(c, w, at, name, n - 1);
      NamesNext(w.ctes, n - 1);
      NamesNext(r.ctes, n - 1);
      NoAlias(c, w, n - 1);
      AliasRenamed(c, w.ctes[n - 1].alias, Called(c, at));
    }
  }

  lemma NoNames(ctes: seq<Cte>)
    ensures CteNames(ctes[..0]) == {}
  {
  }

  /** Inside a WITH, names in scope still correspond. */
  lemma {:induction false} ScopedInside(c: Renaming, w: With, at: Place, name: string, n: nat,
                                        v: set<string>, u: set<string>)
    requires Plain(c) && w.With? && FreshWith(c, w) && n <= |w.ctes| && Scoped(c, v, u, name)
    ensures var r, before := RenameWith(c, w, at, name), CteNames(w.ctes[..n]);
            Scoped(c, v + before, u + CteNames(r.ctes[..n]), Inside(c, at, before, name))
  {
    hide RenameWith, CteNames, OccursCtes;
    NamesRenamed(c, w, at, name, n);
  }

  lemma UseReads(c: Renaming, r: RelName, s: RelName, v: set<string>, u: set<string>, name: string)
    requires Plain(c) && Scoped(c, v, u, name) && r != RelName(None, c.to)
    requires s == if r == RelName(None, c.from) && name != c.from then RelName(None, name) else r
    ensures Resolve(s, u) == Resolve(r, v)
  {
  }

  lemma PlainName(name: string)
    ensures Named([Name(Ident(name, true))], name) == RelName(None, name)
    ensures Lowered(name) == name ==> TableName(None, Some(name)) == RelName(None, name)
  {
    var parts := [Name(Ident(name, true))];
    assert parts[1..] == [] && Idents(parts) == Some([name] + []);
  }

  lemma {:induction false} QueryRenamed(c: Renaming, q: Query, at: Place, name: string, v: set<string>, u: set<string>)
    requires Plain(c) && Fresh(c, q) && Scoped(c, v, u, name)
    ensures ReadsQuery(RenameQuery(c, q, at, name), u) == ReadsQuery(q, v)
    decreases q, 2
  {
    hide RenameWith, RenameBody, RenameExpr, CteNames, Inside, Scoped, ScanTables, ReadsBody, ReadsExpr, OccursCtes,
         OccursBody, OccursExpr, Plain, ReadsEarlier, ReadsRecursive;
    match q.with
    case NoWith => MainRenamed(c, q, at, name, v, u);
    case With(recursive, ctes) =>
      var n, r := |ctes|, RenameWith(c, q.with, at, name);
      assert ctes[..n] == ctes && r.ctes[..n] == r.ctes;
      ScopedInside(c, q.with, at, name, n, v, u);
      MainRenamed(c, q, at, Inside(c, at, CteNames(ctes), name), v + CteNames(ctes), u + CteNames(r.ctes));
      if recursive {
        RecursiveRenamed(c, q.with, at, name, n, v + CteNames(ctes), u + CteNames(r.ctes));
      } else {
        EarlierRenamed(c, q.with, at, name, n, v, u);
      }
  }

  lemma {:induction false} MainRenamed(c: Renaming, q: Query, at: Place, name: string, v: set<string>, u: set<string>)
    requires Plain(c) && Fresh(c, q) && Scoped(c, v, u, name)
    ensures var body, tail := RenameBody(c, q.body, at + [1], name), RenameExpr(c, q.tail, at + [2], name);
            && ScanTables(body, u) == ScanTables(q.body, v)
            && ReadsBody(body, u) == ReadsBody(q.body, v)
            && ReadsExpr(tail, u) == ReadsExpr(q.tail, v)
    decreases q, 1
  {
    ScanRenamed(c, q.body, at + [1], name, v, u);
    BodyRenamed(c, q.body, at + [1], name, v, u);
    ExprRenamed(c, q.tail, at + [2], name, v, u);
  }

  lemma {:induction false} CteRenamed(c: Renaming, w: With, at: Place, name: string, i: nat,
                                      v: set<string>, u: set<string>)
    requires Plain(c) && w.With? && FreshWith(c, w) && i < |w.ctes|
    requires Scoped(c, v, u, Inside(c, at, Seen(w, i), name))
    ensures ReadsQuery(RenameWith(c, w, at, name).ctes[i].query, u) == ReadsQuery(w.ctes[i].query, v)
    decreases w, 0
  {
    assert w.ctes[i].query < w.ctes[i];
    QueryRenamed(c, w.ctes[i].query, at + [0] + [i], Inside(c, at, Seen(w, i), name), v, u);
  }

  lemma EarlierNext(ctes: seq<Cte>, n: nat, v: set<string>)
    requires n <= |ctes|
    ensures ReadsEarlier(ctes, n, v) ==
            if n == 0 then []
            else ReadsEarlier(ctes, n - 1, v) + ReadsQuery(ctes[n - 1].query, v + CteNames(ctes[..n - 1]))
  {
  }

  lemma RecursiveNext(ctes: seq<Cte>, n: nat, v: set<string>)
    requires n <= |ctes|
    ensures ReadsRecursive(ctes, n, v) ==
            if n == 0 then [] else ReadsRecursive(ctes, n - 1, v) + ReadsQuery(ctes[n - 1].query, v)
  {
  }

  lemma {:induction false} EarlierRenamed(c: Renaming, w: With, at: Place, name: string, n: nat,
                                          v: set<string>, u: set<string>)
    requires Plain(c) && w.With? && !w.recursive && FreshWith(c, w) && n <= |w.ctes| && Scoped(c, v, u, name)
    ensures ReadsEarlier(RenameWith(c, w, at, name).ctes, n, u) == ReadsEarlier(w.ctes, n, v)
    decreases w, 1, n
  {
    hide RenameWith, RenameQuery, CteNames, Inside, Scoped, OccursCtes, Plain, ReadsQuery, ReadsEarlier;
    EarlierNext(w.ctes, n, v);
    EarlierNext(RenameWith(c, w, at, name).ctes, n, u);
    if n > 0 {
      EarlierRenamed(c, w, at, name, n - 1, v, u);
      ScopedInside(c, w, at, name, n - 1, v, u);
      CteRenamed(c, w, at, name, n - 1, v + CteNames(w.ctes[..n - 1]),
                 u + CteNames(RenameWith(c, w, at, name).ctes[..n - 1]));
    }
  }

  lemma {:induction false} RecursiveRenamed(c: Renaming, w: With, at: Place, name: string, n: nat,
                                            v: set<string>, u: set<string>)
    requires Plain(c) && w.With? && w.recursive && FreshWith(c, w) && n <= |w.ctes|
    requires Scoped(c, v, u, Inside(c, at, CteNames(w.ctes), name))
    ensures ReadsRecursive(RenameWith(c, w, at, name).ctes, n, u) == ReadsRecursive(w.ctes, n, v)
    decreases w, 1, n
  {
    hide RenameWith, RenameQuery, CteNames, Inside, Scoped, OccursCtes, Plain, ReadsQuery, ReadsRecursive;
    RecursiveNext(w.ctes, n, v);
    RecursiveNext(RenameWith(c, w, at, name).ctes, n, u);
    if n > 0 {
      RecursiveRenamed(c, w, at, name, n - 1, v, u);
      CteRenamed(c, w, at, name, n - 1, v, u);
    }
  }

  lemma {:induction false} ScanRenamed(c: Renaming, body: SetExpr, at: Place, name: string,
                                       v: set<string>, u: set<string>)
    requires Plain(c) && FreshBody(c, body) && Scoped(c, v, u, name)
    ensures ScanTables(RenameBody(c, body, at, name), u) == ScanTables(body, v)
    decreases body
  {
    match body
    case Table(schema, table) =>
      PlainName(c.to);
      var renamed := RenameBody(c, body, at, name);
      UseReads(c, TableName(schema, table), TableName(renamed.schema, renamed.name), v, u, name);
    case SetOp(_, left, right) =>
      ScanRenamed(c, left, at + [0], name, v, u);
      ScanRenamed(c, right, at + [1], name, v, u);
    case _ =>
  }

  lemma {:induction false} BodyRenamed(c: Renaming, body: SetExpr, at: Place, name: string,
                                       v: set<string>, u: set<string>)
    requires Plain(c) && FreshBody(c, body) && Scoped(c, v, u, name)
    ensures ReadsBody(RenameBody(c, body, at, name), u) == ReadsBody(body, v)
    decreases body, 0
  {
    hide Plain, Scoped;
    match body
    case Select(items, from, filter) =>
      ExprRenamed(c, items, at + [0], name, v, u);
      FactorRenamed(c, from, at + [1], name, v, u);
      ExprRenamed(c, filter, at + [2], name, v, u);
    case Values(rows) => ExprRenamed(c, rows, at + [0], name, v, u);
    case Table(_, _) =>
    case Nested(query) => QueryRenamed(c, query, at + [0], name, v, u);
    case SetOp(_, left, right) =>
      BodyRenamed(c, left, at + [0], name, v, u);
      BodyRenamed(c, right, at + [1], name, v, u);
  }

  lemma {:induction false} FactorRenamed(c: Renaming, f: Factor, at: Place, name: string,
                                         v: set<string>, u: set<string>)
    requires Plain(c) && FreshFactor(c, f) && Scoped(c, v, u, name)
    ensures ReadsFactor(RenameFactor(c, f, at, name), u) == ReadsFactor(f, v)
    decreases f, 0
  {
    match f
    case NoFrom =>
    case Relation(parts, text) =>
      PlainName(c.to);
      var renamed := RenameFactor(c, f, at, name);
      UseReads(c, Named(parts, text), Named(renamed.parts, renamed.text), v, u, name);
    case Function(_, args) => ExprRenamed(c, args, at + [0], name, v, u);
    case Derived(query) => QueryRenamed(c, query, at + [0], name, v, u);
    case Joined(left, right, on) =>
      FactorRenamed(c, left, at + [0], name, v, u);
      FactorRenamed(c, right, at + [1], name, v, u);
      ExprRenamed(c, on, at + [2], name, v, u);
  }

  lemma {:induction false} ExprRenamed(c: Renaming, e: Expr, at: Place, name: string, v: set<string>, u: set<string>)
    requires Plain(c) && FreshExpr(c, e) && Scoped(c, v, u, name)
    ensures ReadsExpr(RenameExpr(c, e, at, name), u) == ReadsExpr(e, v)
    decreases e, 0
  {
    hide Plain, Scoped;
    match e
    case Leaf(_) =>
    case Apply(_, left, right) =>
      ExprRenamed(c, left, at + [0], name, v, u);
      ExprRenamed(c, right, at + [1], name, v, u);
    case Sub(_, arg, query) =>
      ExprRenamed(c, arg, at + [0], name, v, u);
      QueryRenamed(c, query, at + [1], name, v, u);
  }

  // ---- What it does to an answer ----

  /** Statement `k` may be put otherwise, as long as it reads the same. When it
      stops, only the last one may: the names it leaves in scope are its own. */
  lemma {:induction false} SameAnswer(qs: seq<Query>, k: nat, r: Query)
    requires k < |qs| && (forall v :: ReadsQuery(r, v) == ReadsQuery(qs[k], v))
    requires Met(qs, k).None? || k == |qs| - 1
    ensures Answer(qs[k := r]) == Answer(qs)
  {
    hide ReadsQuery, LeftQuery;
    SameUpTo(qs, k, r, |qs|);
  }

  lemma {:induction false} SameUpTo(qs: seq<Query>, k: nat, r: Query, n: nat)
    requires k < |qs| && (forall v :: ReadsQuery(r, v) == ReadsQuery(qs[k], v)) && n <= |qs|
    requires Met(qs, k).None? || k == |qs| - 1
    ensures n < |qs| || Met(qs, k).None? ==> Left(qs[k := r], n) == Left(qs, n)
    ensures Refuses(qs[k := r], n) == Refuses(qs, n) && Kept(qs[k := r], n) == Kept(qs, n)
    ensures Sees(qs[k := r], n) == Sees(qs, n)
  {
    hide ReadsQuery, LeftQuery, FirstBad, SawView;
    if n > 0 {
      SameUpTo(qs, k, r, n - 1);
      var v := Left(qs, n - 1);
      assert ReadsQuery(qs[k := r][n - 1], v) == ReadsQuery(qs[n - 1], v);
    }
  }

  /** A renamed CTE changes no answer. */
  lemma {:induction false} RenamingKeepsAnswer(c: Renaming, qs: seq<Query>, k: nat)
    requires Plain(c) && k < |qs| && Fresh(c, qs[k])
    requires Met(qs, k).None? || k == |qs| - 1
    ensures Answer(qs[k := RenameQuery(c, qs[k], [], c.from)]) == Answer(qs)
  {
    hide ReadsQuery, RenameQuery, Answer, Met, Fresh, Plain;
    forall v
      ensures ReadsQuery(RenameQuery(c, qs[k], [], c.from), v) == ReadsQuery(qs[k], v)
    {
      QueryRenamed(c, qs[k], [], c.from, v, v);
    }
    SameAnswer(qs, k, RenameQuery(c, qs[k], [], c.from));
  }

  /** `WITH alias AS (q) SELECT .. FROM alias`. */
  function Through(q: Query, alias: Ident): Query {
    Query(With(false, [Cte(alias, q)]), Select(Leaf(0), Relation([Name(alias)], alias.value), Leaf(0)), Leaf(0), 0)
  }

  lemma {:induction false} ThroughReads(q: Query, alias: Ident, v: set<string>)
    ensures ReadsQuery(Through(q, alias), v) == ReadsQuery(q, v)
  {
    var t := Through(q, alias);
    var ctes, inner := t.with.ctes, v + CteNames(t.with.ctes);
    assert ctes[..0] == [] && CteNames(ctes[..0]) == {} && v + {} == v;
    assert ReadsEarlier(ctes, 1, v) == [] + ReadsQuery(q, v);
    assert Fold(alias) in CteNames(ctes);
    AliasNamed(alias);
    assert ReadsFactor(t.body.from, inner) == [] && ReadsExpr(Leaf(0), inner) == [];
    assert ScanTables(t.body, inner) == [] && ReadsBody(t.body, inner) == [];
    assert ReadsMain(t, inner) == [];
  }

  lemma AliasNamed(alias: Ident)
    ensures Named([Name(alias)], alias.value) == RelName(None, Fold(alias))
  {
    var parts := [Name(alias)];
    assert parts[1..] == [] && Idents(parts) == Some([Fold(alias)] + []);
  }

  /** Reading a query through a CTE, under any name, gives the query's answer. */
  lemma {:induction false} ThroughKeepsAnswer(qs: seq<Query>, k: nat, alias: Ident)
    requires k < |qs| && (Met(qs, k).None? || k == |qs| - 1)
    ensures Answer(qs[k := Through(qs[k], alias)]) == Answer(qs)
  {
    hide ReadsQuery, Through, Answer, Met;
    forall v
      ensures ReadsQuery(Through(qs[k], alias), v) == ReadsQuery(qs[k], v)
    {
      ThroughReads(qs[k], alias, v);
    }
    SameAnswer(qs, k, Through(qs[k], alias));
  }

  // ---- What the names left in scope can do ----

  /** `WITH RECURSIVE name AS (SELECT .. FROM a) VALUES ..`, which stops at `a` with
      its own CTE in scope. */
  function Stopping(name: string): Query {
    Query(With(true, [Cte(Ident(name, true), From([Name(Ident("a", true))], "a"))]), Values(Leaf(0)), Leaf(0), 0)
  }

  lemma {:induction false} StoppingReads(name: string)
    requires name != "a"
    ensures FirstBad(ReadsQuery(Stopping(name), {})) == Some(Rel(RelName(None, "a")))
    ensures LeftQuery(Stopping(name), {}) == {name}
  {
    var q, a := Stopping(name), [Name(Ident("a", true))];
    var ctes := q.with.ctes;
    assert ctes[..0] == [] && CteNames(ctes[..0]) == {};
    assert {} + CteNames(ctes) == {name};
    PlainName("a");
    FromReads(a, "a", {name});
    assert ReadsRecursive(ctes, 1, {name}) == [] + [Rel(RelName(None, "a"))];
    assert ReadsRecursive(ctes, 0, {name}) == [];
    assert ScanTables(q.body, {name}) == [];
    var main := ReadsBody(q.body, {name}) + ReadsExpr(q.tail, {name});
    assert ReadsQuery(q, {}) == [] + ([] + [Rel(RelName(None, "a"))]) + main;
    assert LeftRecursive(ctes, 1, {name}) == LeftQuery(ctes[0].query, {name});
  }

  /** Where an earlier statement stops, its CTE names stay in scope, and a later
      statement can tell them apart: `SELECT .. FROM b` after a walk that stopped
      inside a CTE called `b` is not refused, and after one called `c` it is. */
  lemma {:induction false} LeftNameHides()
    ensures var b := From([Name(Ident("b", true))], "b");
            && RenameQuery(Renaming("b", "c", _ => true), Stopping("b"), [], "b") == Stopping("c")
            && Answer([Stopping("b"), b]) == Ok(Mixed("a"))
            && Answer([Stopping("c"), b]) == Ok(Mixed("b"))
  {
    BecomesStopping(Renaming("b", "c", _ => true));
    var b := From([Name(Ident("b", true))], "b");
    AfterStopping("b", b);
    AfterStopping("c", b);
  }

  lemma {:induction false} BecomesStopping(c: Renaming)
    requires c.from == "b" && c.to == "c" && c.pick([])
    ensures RenameQuery(c, Stopping("b"), [], "b") == Stopping("c")
  {
    var q, a := Stopping("b"), [Name(Ident("a", true))];
    PlainName("a");
    var w := RenameWith(c, q.with, [], "b");
    assert CteNames(q.with.ctes[..0]) == {} && c.from in CteNames(q.with.ctes);
    assert RenameFactor(c, Relation(a, "a"), [0] + [0] + [1] + [1], "c") == Relation(a, "a");
    assert w.ctes[0].alias == Ident("c", true) && w.ctes[0].query == From(a, "a");
    assert w.ctes == Stopping("c").with.ctes;
  }

  lemma {:induction false} AfterStopping(name: string, b: Query)
    requires name != "a" && b == From([Name(Ident("b", true))], "b")
    ensures Answer([Stopping(name), b]) == Ok(Mixed(if name == "b" then "a" else "b"))
  {
    hide ReadsQuery, LeftQuery, Named;
    var qs := [Stopping(name), b];
    StoppingReads(name);
    PlainName("b");
    FromReads([Name(Ident("b", true))], "b", {name});
    assert Left(qs, 0) == {} && Left(qs, 1) == {name};
    assert !Refuses(qs, 0) && !Refuses(qs, 1) && !Refuses(qs, 2);
    assert Kept(qs, 1) == Some("a");
    if name == "b" { assert Met(qs, 1) == None; } else { assert Met(qs, 1) == Some(Rel(RelName(None, "b"))); }
  }
}
