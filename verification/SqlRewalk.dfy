/** The classifier without its skip: bodies of a non-recursive WITH are checked
    on their own and then gone through again by the main walk. It stops on the
    same queries as the classifier, and a walk it completes makes the
    `unskipped` visits of SqlCost. */
module SqlRewalk {
  import opened SqlAst
  import opened SqlReads
  import opened SqlCost
  import opened SqlGuard
  import opened SqlClassify

  /** The visitor's fields at one moment. */
  datatype Moment = Moment(scopes: seq<set<string>>, visits: nat)

  /** A walk that reads `trace`: it stops on a bad read, and otherwise leaves
      the scopes as they were and has made `visits` visits. */
  ghost predicate Went(a: Moment, b: Moment, trace: seq<Read>, visits: nat, brk: bool) {
    && brk == !AllViews(trace)
    && (!brk ==> b.scopes == a.scopes && b.visits == a.visits + visits)
  }

  /** The unskipped visits of the first `n` bodies, each walked once. */
  ghost function Bodies(ctes: seq<Cte>, n: nat): nat
    requires n <= |ctes|
  {
    if n == 0 then 0 else Bodies(ctes, n - 1) + QueryCost(ctes[n - 1].query).unskipped
  }

  lemma {:induction false} BodiesTwice(w: With, n: nat)
    requires w.With? && n <= |w.ctes|
    ensures CtesCost(w, n).unskipped == if w.recursive then Bodies(w.ctes, n) else 2 * Bodies(w.ctes, n)
  {
    if n > 0 { BodiesTwice(w, n - 1); }
  }

  lemma NoReads()
    ensures AllViews([])
  {
  }

  lemma {:induction false} StopsEarlier(ctes: seq<Cte>, i: nat, v: set<string>)
    requires i <= |ctes| && !AllViews(ReadsEarlier(ctes, i, v))
    ensures !AllViews(ReadsEarlier(ctes, |ctes|, v))
    decreases |ctes| - i
  {
    hide ReadsQuery, AllViews;
    if i < |ctes| {
      AllViewsSplits(ReadsEarlier(ctes, i, v), ReadsQuery(ctes[i].query, v + CteNames(ctes[..i])));
      StopsEarlier(ctes, i + 1, v);
    }
  }

  lemma {:induction false} StopsAgain(ctes: seq<Cte>, i: nat, v: set<string>)
    requires i <= |ctes| && !AllViews(ReadsRecursive(ctes, i, v))
    ensures !AllViews(ReadsRecursive(ctes, |ctes|, v))
    decreases |ctes| - i
  {
    hide ReadsQuery, AllViews;
    if i < |ctes| {
      AllViewsSplits(ReadsRecursive(ctes, i, v), ReadsQuery(ctes[i].query, v));
      StopsAgain(ctes, i + 1, v);
    }
  }

  /** The visits of checking a WITH before the main walk. */
  ghost function Checked(w: With): nat {
    if w.With? && !w.recursive then Bodies(w.ctes, |w.ctes|) else 0
  }

  lemma {:induction false} QueryVisits(q: Query)
    ensures QueryCost(q).unskipped ==
              1 + Checked(q.with) + (if q.with.With? then Bodies(q.with.ctes, |q.with.ctes|) else 0)
              + BodyCost(q.body).unskipped + ExprCost(q.tail).unskipped
  {
    hide BodyCost, ExprCost, CtesCost, Bodies;
    if q.with.With? { BodiesTwice(q.with, |q.with.ctes|); }
  }

  /** A query is clean when its pre-visit, the main walk over all its bodies and
      its own body and tail are. */
  lemma {:induction false} QueryReads(q: Query, v: set<string>)
    ensures AllViews(ReadsQuery(q, v)) <==>
              var inner := v + Names(q.with);
              && AllViews(PreReads(q, v))
              && (q.with.With? ==> AllViews(ReadsRecursive(q.with.ctes, |q.with.ctes|, inner)))
              && AllViews(ReadsBody(q.body, inner)) && AllViews(ReadsExpr(q.tail, inner))
  {
    hide ScanTables, ReadsQuery, ReadsBody, ReadsExpr, ReadsEarlier, ReadsRecursive, CteNames, AllViews;
    var inner := v + Names(q.with);
    var main := ReadsBody(q.body, inner) + ReadsExpr(q.tail, inner);
    if OverLimit(q.with) {
      Refused(q, v);
    } else {
      PartsAreReads(q, v);
      AllViewsSplits(PreReads(q, v), RestReads(q, inner));
      AllViewsSplits(ReadsBody(q.body, inner), ReadsExpr(q.tail, inner));
      if q.with.With? {
        AllViewsSplits(CtesReads(q.with, |q.with.ctes|, inner), main);
        if !q.with.recursive && AllViews(PreReads(q, v)) {
          AllViewsSplits(WithReads(q.with, v), ScanTables(q.body, inner));
          CleanAgain(q.with.ctes, |q.with.ctes|, v, inner);
        }
        NoReads();
      }
    }
  }

  lemma {:induction false} Refused(q: Query, v: set<string>)
    requires OverLimit(q.with)
    ensures !AllViews(ReadsQuery(q, v)) && !AllViews(PreReads(q, v))
  {
    assert TooMany in ReadsQuery(q, v) && Bad(TooMany);
    assert TooMany in PreReads(q, v);
  }

  /** A body that is clean with the names before it in scope is clean with all
      of them. */
  lemma {:induction false} CleanAgain(ctes: seq<Cte>, n: nat, v: set<string>, inner: set<string>)
    requires n <= |ctes| && v + CteNames(ctes) <= inner && AllViews(ReadsEarlier(ctes, n, v))
    ensures AllViews(ReadsRecursive(ctes, n, inner))
  {
    hide ReadsQuery;
    if n > 0 {
      var q, before := ctes[n - 1].query, v + CteNames(ctes[..n - 1]);
      AllViewsSplits(ReadsEarlier(ctes, n - 1, v), ReadsQuery(q, before));
      CleanAgain(ctes, n - 1, v, inner);
      NamesGrow(ctes, n - 1);
      QueryHides(q, before, inner);
      AllViewsSplits(ReadsRecursive(ctes, n - 1, inner), ReadsQuery(q, inner));
    }
  }

  lemma {:induction false} NamesGrow(ctes: seq<Cte>, n: nat)
    requires n <= |ctes|
    ensures CteNames(ctes[..n]) <= CteNames(ctes)
    decreases |ctes| - n
  {
    if n == |ctes| {
      assert ctes[..n] == ctes;
    } else {
      assert ctes[..n + 1][..n] == ctes[..n];
      NamesGrow(ctes, n + 1);
    }
  }

  class Rewalker {
    var scopes: seq<set<string>>
    ghost var visits: nat

    ghost function Now(): Moment
      reads this
    {
      Moment(scopes, visits)
    }

    constructor (scopes: seq<set<string>>)
      ensures Now() == Moment(scopes, 0)
    {
      this.scopes := scopes;
      visits := 0;
    }

    method Record(r: RelName) returns (brk: bool)
      ensures Went(Now(), Now(), Resolve(r, Visible(scopes)), 0, brk)
    {
      if r.schema.None? && exists i :: 0 <= i < |scopes| && r.name in scopes[i] {
        return false;
      }
      assert Resolve(r, Visible(scopes)) == [Rel(r)];
      assert Rel(r) in [Rel(r)];
      brk := !IsView(r);
    }

    method ScanBody(body: SetExpr) returns (brk: bool)
      ensures Went(Now(), Now(), ScanTables(body, Visible(scopes)), 0, brk)
    {
      match body
      case Table(schema, name) => brk := Record(TableName(schema, name));
      case SetOp(_, left, right) =>
        ghost var v := Visible(scopes);
        AllViewsSplits(ScanTables(left, v), ScanTables(right, v));
        brk := ScanBody(left);
        if !brk { brk := ScanBody(right); }
      case _ => brk := false;
    }

    method VisitExpr(e: Expr) returns (brk: bool)
      modifies this
      ensures Went(old(Now()), Now(), ReadsExpr(e, Visible(old(scopes))), ExprCost(e).unskipped, brk)
      decreases e, 0
    {
      hide ReadsQuery, QueryCost, AllViews, Visible;
      ghost var v := Visible(scopes);
      match e
      case Leaf(_) =>
        brk := false;
        NoReads();
      case Apply(_, left, right) =>
        AllViewsSplits(ReadsExpr(left, v), ReadsExpr(right, v));
        brk := VisitExpr(left);
        if !brk { brk := VisitExpr(right); }
      case Sub(_, arg, query) =>
        AllViewsSplits(ReadsExpr(arg, v), ReadsQuery(query, v));
        brk := VisitExpr(arg);
        if !brk { brk := VisitQuery(query); }
    }

    method VisitFactor(f: Factor) returns (brk: bool)
      modifies this
      ensures Went(old(Now()), Now(), ReadsFactor(f, Visible(old(scopes))), FactorCost(f).unskipped, brk)
      decreases f, 0
    {
      hide ReadsQuery, ReadsExpr, QueryCost, ExprCost, AllViews, Visible;
      ghost var v := Visible(scopes);
      match f
      case NoFrom =>
        brk := false;
        NoReads();
      case Relation(parts, text) => brk := Record(Named(parts, text));
      case Function(_, args) => brk := VisitExpr(args);
      case Derived(query) => brk := VisitQuery(query);
      case Joined(left, right, on) =>
        AllViewsSplits(ReadsFactor(left, v), ReadsFactor(right, v) + ReadsExpr(on, v));
        AllViewsSplits(ReadsFactor(right, v), ReadsExpr(on, v));
        brk := VisitFactor(left);
        if !brk { brk := VisitFactor(right); }
        if !brk { brk := VisitExpr(on); }
    }

    method VisitBody(body: SetExpr) returns (brk: bool)
      modifies this
      ensures Went(old(Now()), Now(), ReadsBody(body, Visible(old(scopes))), BodyCost(body).unskipped, brk)
      decreases body, 0
    {
      hide ReadsQuery, ReadsExpr, ReadsFactor, QueryCost, ExprCost, FactorCost, AllViews, Visible;
      ghost var v := Visible(scopes);
      match body
      case Select(items, from, filter) =>
        AllViewsSplits(ReadsExpr(items, v), ReadsFactor(from, v) + ReadsExpr(filter, v));
        AllViewsSplits(ReadsFactor(from, v), ReadsExpr(filter, v));
        brk := VisitExpr(items);
        if !brk { brk := VisitFactor(from); }
        if !brk { brk := VisitExpr(filter); }
      case Values(rows) => brk := VisitExpr(rows);
      case Table(_, _) =>
        brk := false;
        NoReads();
      case Nested(query) => brk := VisitQuery(query);
      case SetOp(_, left, right) =>
        AllViewsSplits(ReadsBody(left, v), ReadsBody(right, v));
        brk := VisitBody(left);
        if !brk { brk := VisitBody(right); }
    }

    /** Each body of a non-recursive WITH on its own, in the scope of the CTEs
        before it. */
    method CheckBodies(ctes: seq<Cte>) returns (brk: bool)
      modifies this
      ensures Went(old(Now()), Now(), ReadsEarlier(ctes, |ctes|, Visible(old(scopes))), Bodies(ctes, |ctes|), brk)
      decreases ctes, 0
    {
      hide ReadsQuery, QueryCost, AllViews, Visible;
      ghost var s, v := Now(), Visible(scopes);
      NoReads();
      var i := 0;
      while i < |ctes|
        invariant 0 <= i <= |ctes|
        invariant Went(s, Now(), ReadsEarlier(ctes, i, v), Bodies(ctes, i), false)
      {
        VisiblePush(scopes, CteNames(ctes[..i]));
        AllViewsSplits(ReadsEarlier(ctes, i, v), ReadsQuery(ctes[i].query, v + CteNames(ctes[..i])));
        assert ctes[i].query < ctes[i];
        var body := new Rewalker(scopes + [CteNames(ctes[..i])]);
        brk := body.VisitQuery(ctes[i].query);
        visits := visits + body.visits;
        i := i + 1;
        if brk {
          StopsEarlier(ctes, i, v);
          return;
        }
      }
      brk := false;
    }

    /** The main walk over the bodies of a WITH. */
    method VisitCtes(ctes: seq<Cte>) returns (brk: bool)
      modifies this
      ensures Went(old(Now()), Now(), ReadsRecursive(ctes, |ctes|, Visible(old(scopes))), Bodies(ctes, |ctes|), brk)
      decreases ctes, 0
    {
      hide ReadsQuery, QueryCost, AllViews, Visible;
      ghost var s, v := Now(), Visible(scopes);
      NoReads();
      var i := 0;
      while i < |ctes|
        invariant 0 <= i <= |ctes|
        invariant Went(s, Now(), ReadsRecursive(ctes, i, v), Bodies(ctes, i), false)
      {
        AllViewsSplits(ReadsRecursive(ctes, i, v), ReadsQuery(ctes[i].query, v));
        assert ctes[i].query < ctes[i];
        brk := VisitQuery(ctes[i].query);
        i := i + 1;
        if brk {
          StopsAgain(ctes, i, v);
          return;
        }
      }
      brk := false;
    }

    /** Checks the WITH of a query, opens its scope and scans its `TABLE x` arms. */
    method Enter(q: Query) returns (brk: bool)
      modifies this
      ensures brk == !AllViews(PreReads(q, Visible(old(scopes))))
      ensures !brk ==> scopes == old(scopes) + [Names(q.with)] && visits == old(visits) + 1 + Checked(q.with)
      decreases q.with, 1
    {
      hide ReadsEarlier, ScanTables, CteNames, AllViews, Visible;
      ghost var v := Visible(scopes);
      AllViewsSplits(WithReads(q.with, v), ScanTables(q.body, v + Names(q.with)));
      NoReads();
      visits := visits + 1;
      if q.with.With? {
        if |q.with.ctes| > MAX_CTES {
          Refused(q, v);
          return true;
        }
        if !q.with.recursive {
          brk := CheckBodies(q.with.ctes);
          if brk { return; }
        }
      }
      var scope := if q.with.With? then CteNames(q.with.ctes) else {};
      VisiblePush(scopes, scope);
      scopes := scopes + [scope];
      brk := ScanBody(q.body);
    }

    /** Stops exactly on the queries the classifier stops on; otherwise every
        body of a non-recursive WITH has been walked twice. */
    method VisitQuery(q: Query) returns (brk: bool)
      modifies this
      ensures Went(old(Now()), Now(), ReadsQuery(q, Visible(old(scopes))), QueryCost(q).unskipped, brk)
      decreases q, 1
    {
      hide ReadsQuery, ReadsBody, ReadsExpr, ReadsRecursive, QueryCost, BodyCost, ExprCost, PreReads, AllViews, Visible;
      ghost var v := Visible(scopes);
      QueryReads(q, v);
      QueryVisits(q);
      VisiblePush(scopes, Names(q.with));
      brk := Enter(q);
      if !brk && q.with.With? { brk := VisitCtes(q.with.ctes); }
      if !brk { brk := VisitBody(q.body); }
      if !brk { brk := VisitExpr(q.tail); }
      if !brk { scopes := scopes[..|scopes| - 1]; }
    }
  }

  /** Both walks over `q` inside `levels` nested WITHs. They stop on the same
      queries; when they do not, the classifier stays within its bound and the
      walk without the skip has doubled with every level. */
  method WalkBoth(levels: nat, q: Query, e: Expr)
      returns (stopped: bool, stoppedToo: bool, ghost visits: nat, ghost unskipped: nat)
    ensures stopped == stoppedToo == !AllViews(Reads(Wraps(levels, q, e)))
    ensures !stopped ==>
              var c := QueryCost(Wraps(levels, q, e));
              && visits == c.visits <= (c.depth + 1) * c.nodes
              && Doubled(QueryCost(q).unskipped, levels) <= c.unskipped == unskipped
  {
    hide ReadsQuery, QueryCost, Wraps, AllViews;
    var all := Wraps(levels, q, e);
    assert Visible([]) == {};
    var skipping := new Relations([]);
    stopped := skipping.VisitQuery(all, [0]);
    var rewalker := new Rewalker([]);
    stoppedToo := rewalker.VisitQuery(all);
    visits, unskipped := skipping.visits, rewalker.visits;
    CostBound(all);
    UnskippedWalkDoubles(levels, q, e);
  }
}
