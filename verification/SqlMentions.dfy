/** What stands in the text of a query, wherever it stands: relations used, CTE
    names given, and WITHs over the limit. The reading lists nothing else. */
module SqlMentions {
  import opened SqlAst
  import opened SqlReads

  datatype Mention = Use(rel: RelName) | Alias(name: string) | BigWith

  ghost predicate OccursQuery(q: Query, m: Mention)
    decreases q
  {
    || (q.with.With? && (OccursCtes(q.with, m) || (m.BigWith? && |q.with.ctes| > 1000)))
    || OccursBody(q.body, m) || OccursExpr(q.tail, m)
  }

  ghost predicate OccursCtes(w: With, m: Mention)
    requires w.With?
    decreases w
  {
    exists i :: 0 <= i < |w.ctes| && (m == Alias(Fold(w.ctes[i].alias)) || OccursQuery(w.ctes[i].query, m))
  }

  ghost predicate OccursBody(body: SetExpr, m: Mention)
    decreases body
  {
    match body
    case Select(items, from, filter) => OccursExpr(items, m) || OccursFactor(from, m) || OccursExpr(filter, m)
    case Values(rows) => OccursExpr(rows, m)
    case Table(schema, name) => m == Use(TableName(schema, name))
    case Nested(query) => OccursQuery(query, m)
    case SetOp(_, left, right) => OccursBody(left, m) || OccursBody(right, m)
  }

  ghost predicate OccursFactor(f: Factor, m: Mention)
    decreases f
  {
    match f
    case NoFrom => false
    case Relation(parts, text) => m == Use(Named(parts, text))
    case Function(_, args) => OccursExpr(args, m)
    case Derived(query) => OccursQuery(query, m)
    case Joined(left, right, on) => OccursFactor(left, m) || OccursFactor(right, m) || OccursExpr(on, m)
  }

  ghost predicate OccursExpr(e: Expr, m: Mention)
    decreases e
  {
    match e
    case Leaf(_) => false
    case Apply(_, left, right) => OccursExpr(left, m) || OccursExpr(right, m)
    case Sub(_, arg, query) => OccursExpr(arg, m) || OccursQuery(query, m)
  }

  function MentionOf(r: Read): Mention {
    match r
    case Rel(rel) => Use(rel)
    case TooMany => BigWith
  }

  /** Every read is of a relation that the text uses without arguments, or of a
      WITH of more than a thousand CTEs. */
  lemma {:induction false} ReadsOccur(q: Query, v: set<string>, r: Read)
    requires r in ReadsQuery(q, v)
    ensures OccursQuery(q, MentionOf(r))
    decreases q, 1
  {
    match q.with
    case NoWith => MainOccurs(q, v, r);
    case With(recursive, ctes) =>
      var inner := v + CteNames(ctes);
      if |ctes| <= MAX_CTES {
        if recursive {
          if r in ReadsRecursive(ctes, |ctes|, inner) {
            RecursiveOccurs(q.with, |ctes|, inner, r);
          } else {
            assert r in ReadsMain(q, inner);
            MainOccurs(q, inner, r);
          }
        } else if r in ReadsEarlier(ctes, |ctes|, v) {
          EarlierOccurs(q.with, |ctes|, v, r);
        } else {
          MainOccurs(q, inner, r);
        }
      }
  }

  lemma {:induction false} MainOccurs(q: Query, v: set<string>, r: Read)
    requires r in ReadsMain(q, v)
    ensures OccursBody(q.body, MentionOf(r)) || OccursExpr(q.tail, MentionOf(r))
    decreases q, 0
  {
    if r in ScanTables(q.body, v) {
      ScanOccurs(q.body, v, r);
    } else if r in ReadsBody(q.body, v) {
      BodyOccurs(q.body, v, r);
    } else {
      ExprOccurs(q.tail, v, r);
    }
  }

  lemma {:induction false} EarlierOccurs(w: With, n: nat, v: set<string>, r: Read)
    requires w.With? && n <= |w.ctes| && r in ReadsEarlier(w.ctes, n, v)
    ensures OccursCtes(w, MentionOf(r))
    decreases w, n
  {
    var q := w.ctes[n - 1].query;
    if r in ReadsEarlier(w.ctes, n - 1, v) {
      EarlierOccurs(w, n - 1, v, r);
    } else {
      ReadsOccur(q, v + CteNames(w.ctes[..n - 1]), r);
    }
  }

  lemma {:induction false} RecursiveOccurs(w: With, n: nat, inner: set<string>, r: Read)
    requires w.With? && n <= |w.ctes| && r in ReadsRecursive(w.ctes, n, inner)
    ensures OccursCtes(w, MentionOf(r))
    decreases w, n
  {
    var q := w.ctes[n - 1].query;
    if r in ReadsRecursive(w.ctes, n - 1, inner) {
      RecursiveOccurs(w, n - 1, inner, r);
    } else {
      ReadsOccur(q, inner, r);
    }
  }

  lemma {:induction false} ScanOccurs(body: SetExpr, v: set<string>, r: Read)
    requires r in ScanTables(body, v)
    ensures OccursBody(body, MentionOf(r))
  {
    if body.SetOp? {
      if r in ScanTables(body.left, v) { ScanOccurs(body.left, v, r); } else { ScanOccurs(body.right, v, r); }
    }
  }

  lemma {:induction false} BodyOccurs(body: SetExpr, v: set<string>, r: Read)
    requires r in ReadsBody(body, v)
    ensures OccursBody(body, MentionOf(r))
    decreases body, 0
  {
    match body
    case Select(items, from, filter) =>
      if r in ReadsExpr(items, v) {
        ExprOccurs(items, v, r);
      } else if r in ReadsFactor(from, v) {
        FactorOccurs(from, v, r);
      } else {
        ExprOccurs(filter, v, r);
      }
    case Values(rows) => ExprOccurs(rows, v, r);
    case Nested(query) => ReadsOccur(query, v, r);
    case SetOp(_, left, right) =>
      if r in ReadsBody(left, v) { BodyOccurs(left, v, r); } else { BodyOccurs(right, v, r); }
  }

  lemma {:induction false} FactorOccurs(f: Factor, v: set<string>, r: Read)
    requires r in ReadsFactor(f, v)
    ensures OccursFactor(f, MentionOf(r))
    decreases f, 0
  {
    match f
    case Relation(_, _) =>
    case Function(_, args) => ExprOccurs(args, v, r);
    case Derived(query) => ReadsOccur(query, v, r);
    case Joined(left, right, on) =>
      if r in ReadsFactor(left, v) {
        FactorOccurs(left, v, r);
      } else if r in ReadsFactor(right, v) {
        FactorOccurs(right, v, r);
      } else {
        ExprOccurs(on, v, r);
      }
  }

  lemma {:induction false} ExprOccurs(e: Expr, v: set<string>, r: Read)
    requires r in ReadsExpr(e, v)
    ensures OccursExpr(e, MentionOf(r))
    decreases e, 0
  {
    match e
    case Apply(_, left, right) =>
      if r in ReadsExpr(left, v) { ExprOccurs(left, v, r); } else { ExprOccurs(right, v, r); }
    case Sub(_, arg, query) =>
      if r in ReadsExpr(arg, v) { ExprOccurs(arg, v, r); } else { ReadsOccur(query, v, r); }
  }
}
