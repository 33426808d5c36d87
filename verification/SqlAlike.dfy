/** Names left in scope that differ only by views' names come to the same refusals,
    and exactly those do: when one statement can be put for another in every script. */
module SqlAlike {
  import opened Wrappers
  import opened SqlAst
  import opened SqlReads
  import opened SqlClassify
  import opened SqlRename

  /** The same names, but for those of views: hiding a view stops nothing. */
  ghost predicate Alike(v: set<string>, u: set<string>) {
    forall x :: x !in RECORD_VIEWS ==> (x in v <==> x in u)
  }

  lemma AlikeWith(v: set<string>, u: set<string>, names: set<string>)
    requires Alike(v, u)
    ensures Alike(v + names, u + names)
  {
  }

  lemma {:induction false} UseAlike(r: RelName, v: set<string>, u: set<string>)
    requires Alike(v, u)
    ensures FirstBad(Resolve(r, v)) == FirstBad(Resolve(r, u))
  {
    assert [Rel(r)][1..] == [];
  }

  lemma {:induction false} ScanAlike(body: SetExpr, v: set<string>, u: set<string>)
    requires Alike(v, u)
    ensures FirstBad(ScanTables(body, v)) == FirstBad(ScanTables(body, u))
  {
    hide Alike, FirstBad;
    match body
    case Table(schema, name) => UseAlike(TableName(schema, name), v, u);
    case SetOp(_, left, right) =>
      ScanAlike(left, v, u);
      ScanAlike(right, v, u);
      ScanSplits(ScanTables(left, v), ScanTables(right, v));
      ScanSplits(ScanTables(left, u), ScanTables(right, u));
    case _ =>
  }

  /** Both parts of a trace. */
  lemma {:induction false} BothAlike(a: seq<Read>, b: seq<Read>, c: seq<Read>, d: seq<Read>)
    requires FirstBad(a) == FirstBad(c) && FirstBad(b) == FirstBad(d)
    ensures FirstBad(a + b) == FirstBad(c + d)
  {
    ScanSplits(a, b);
    ScanSplits(c, d);
  }

  lemma {:induction false} QueryAlike(q: Query, v: set<string>, u: set<string>)
    requires Alike(v, u)
    ensures FirstBad(ReadsQuery(q, v)) == FirstBad(ReadsQuery(q, u)) && Alike(LeftQuery(q, v), LeftQuery(q, u))
    decreases q, 2
  {
    hide Alike, FirstBad, CteNames, ReadsMain, LeftMain, ReadsEarlier, ReadsRecursive, LeftRecursive, ScanTables,
         ReadsBody, ReadsExpr;
    match q.with
    case NoWith => MainAlike(q, v, u);
    case With(recursive, ctes) =>
      var n, vi, ui := |ctes|, v + CteNames(ctes), u + CteNames(ctes);
      AlikeWith(v, u, CteNames(ctes));
      if n <= MAX_CTES {
        MainAlike(q, vi, ui);
        if recursive {
          RecursiveAlike(q.with, n, vi, ui);
          ScanAlike(q.body, vi, ui);
          PartsAlike(q, vi, ui);
          var scanV, scanU := ScanTables(q.body, vi), ScanTables(q.body, ui);
          var recV, recU := ReadsRecursive(ctes, n, vi), ReadsRecursive(ctes, n, ui);
          BothAlike(scanV, recV, scanU, recU);
          BothAlike(scanV + recV, ReadsBody(q.body, vi) + ReadsExpr(q.tail, vi),
                    scanU + recU, ReadsBody(q.body, ui) + ReadsExpr(q.tail, ui));
        } else {
          EarlierAlike(q.with, n, v, u);
          BothAlike(ReadsEarlier(ctes, n, v), ReadsMain(q, vi), ReadsEarlier(ctes, n, u), ReadsMain(q, ui));
        }
      }
  }

  lemma {:induction false} PartsAlike(q: Query, v: set<string>, u: set<string>)
    requires Alike(v, u)
    ensures FirstBad(ReadsBody(q.body, v) + ReadsExpr(q.tail, v)) ==
            FirstBad(ReadsBody(q.body, u) + ReadsExpr(q.tail, u))
    decreases q, 0
  {
    BodyAlike(q.body, v, u);
    ExprAlike(q.tail, v, u);
    BothAlike(ReadsBody(q.body, v), ReadsExpr(q.tail, v), ReadsBody(q.body, u), ReadsExpr(q.tail, u));
  }

  lemma {:induction false} MainAlike(q: Query, v: set<string>, u: set<string>)
    requires Alike(v, u)
    ensures FirstBad(ReadsMain(q, v)) == FirstBad(ReadsMain(q, u)) && Alike(LeftMain(q, v), LeftMain(q, u))
    decreases q, 1
  {
    hide Alike, FirstBad, ScanTables, ReadsBody, ReadsExpr, LeftBody, LeftExpr;
    ScanAlike(q.body, v, u);
    BodyAlike(q.body, v, u);
    ExprAlike(q.tail, v, u);
    PartsAlike(q, v, u);
    BothAlike(ScanTables(q.body, v), ReadsBody(q.body, v) + ReadsExpr(q.tail, v),
              ScanTables(q.body, u), ReadsBody(q.body, u) + ReadsExpr(q.tail, u));
  }

  lemma {:induction false} EarlierAlike(w: With, n: nat, v: set<string>, u: set<string>)
    requires w.With? && n <= |w.ctes| && Alike(v, u)
    ensures FirstBad(ReadsEarlier(w.ctes, n, v)) == FirstBad(ReadsEarlier(w.ctes, n, u))
    decreases w, n
  {
    hide Alike, FirstBad, CteNames, ReadsQuery, LeftQuery, ReadsEarlier;
    EarlierNext(w.ctes, n, v);
    EarlierNext(w.ctes, n, u);
    if n > 0 {
      var q, names := w.ctes[n - 1].query, CteNames(w.ctes[..n - 1]);
      assert q < w.ctes[n - 1];
      EarlierAlike(w, n - 1, v, u);
      AlikeWith(v, u, names);
      QueryAlike(q, v + names, u + names);
      BothAlike(ReadsEarlier(w.ctes, n - 1, v), ReadsQuery(q, v + names),
                ReadsEarlier(w.ctes, n - 1, u), ReadsQuery(q, u + names));
    }
  }

  lemma {:induction false} RecursiveAlike(w: With, n: nat, v: set<string>, u: set<string>)
    requires w.With? && n <= |w.ctes| && Alike(v, u)
    ensures FirstBad(ReadsRecursive(w.ctes, n, v)) == FirstBad(ReadsRecursive(w.ctes, n, u))
    ensures Alike(LeftRecursive(w.ctes, n, v), LeftRecursive(w.ctes, n, u))
    decreases w, n
  {
    hide Alike, FirstBad, ReadsQuery, LeftQuery, ReadsRecursive;
    RecursiveNext(w.ctes, n, v);
    RecursiveNext(w.ctes, n, u);
    if n > 0 {
      var q := w.ctes[n - 1].query;
      assert q < w.ctes[n - 1];
      RecursiveAlike(w, n - 1, v, u);
      QueryAlike(q, v, u);
      BothAlike(ReadsRecursive(w.ctes, n - 1, v), ReadsQuery(q, v),
                ReadsRecursive(w.ctes, n - 1, u), ReadsQuery(q, u));
    }
  }

  lemma {:induction false} BodyAlike(body: SetExpr, v: set<string>, u: set<string>)
    requires Alike(v, u)
    ensures FirstBad(ReadsBody(body, v)) == FirstBad(ReadsBody(body, u)) && Alike(LeftBody(body, v), LeftBody(body, u))
    decreases body, 0
  {
    hide Alike, FirstBad, ReadsExpr, ReadsFactor, ReadsQuery, LeftExpr, LeftFactor, LeftQuery;
    match body
    case Select(items, from, filter) =>
      ExprAlike(items, v, u);
      FactorAlike(from, v, u);
      ExprAlike(filter, v, u);
      BothAlike(ReadsFactor(from, v), ReadsExpr(filter, v), ReadsFactor(from, u), ReadsExpr(filter, u));
      BothAlike(ReadsExpr(items, v), ReadsFactor(from, v) + ReadsExpr(filter, v),
                ReadsExpr(items, u), ReadsFactor(from, u) + ReadsExpr(filter, u));
    case Values(rows) => ExprAlike(rows, v, u);
    case Table(_, _) =>
    case Nested(query) => QueryAlike(query, v, u);
    case SetOp(_, left, right) =>
      BodyAlike(left, v, u);
      BodyAlike(right, v, u);
      BothAlike(ReadsBody(left, v), ReadsBody(right, v), ReadsBody(left, u), ReadsBody(right, u));
  }

  lemma {:induction false} FactorAlike(f: Factor, v: set<string>, u: set<string>)
    requires Alike(v, u)
    ensures FirstBad(ReadsFactor(f, v)) == FirstBad(ReadsFactor(f, u)) && Alike(LeftFactor(f, v), LeftFactor(f, u))
    decreases f, 0
  {
    hide Alike, FirstBad, ReadsExpr, ReadsQuery, LeftExpr, LeftQuery;
    match f
    case NoFrom =>
    case Relation(parts, text) => UseAlike(Named(parts, text), v, u);
    case Function(_, args) => ExprAlike(args, v, u);
    case Derived(query) => QueryAlike(query, v, u);
    case Joined(left, right, on) =>
      FactorAlike(left, v, u);
      FactorAlike(right, v, u);
      ExprAlike(on, v, u);
      BothAlike(ReadsFactor(right, v), ReadsExpr(on, v), ReadsFactor(right, u), ReadsExpr(on, u));
      BothAlike(ReadsFactor(left, v), ReadsFactor(right, v) + ReadsExpr(on, v),
                ReadsFactor(left, u), ReadsFactor(right, u) + ReadsExpr(on, u));
  }

  lemma {:induction false} ExprAlike(e: Expr, v: set<string>, u: set<string>)
    requires Alike(v, u)
    ensures FirstBad(ReadsExpr(e, v)) == FirstBad(ReadsExpr(e, u)) && Alike(LeftExpr(e, v), LeftExpr(e, u))
    decreases e, 0
  {
    hide Alike, FirstBad, ReadsQuery, LeftQuery;
    match e
    case Leaf(_) =>
    case Apply(_, left, right) =>
      ExprAlike(left, v, u);
      ExprAlike(right, v, u);
      BothAlike(ReadsExpr(left, v), ReadsExpr(right, v), ReadsExpr(left, u), ReadsExpr(right, u));
    case Sub(_, arg, query) =>
      ExprAlike(arg, v, u);
      QueryAlike(query, v, u);
      BothAlike(ReadsExpr(arg, v), ReadsQuery(query, v), ReadsExpr(arg, u), ReadsQuery(query, u));
  }

  // ---- One statement put for another ----

  /** Two statements that read the same, wherever they stand. */
  ghost predicate SameReads(q: Query, r: Query) {
    forall v :: ReadsQuery(r, v) == ReadsQuery(q, v)
  }

  /** With `q` or with `r` after the statements `before`, every script goes on to the
      same answer. */
  ghost predicate SameInEveryScript(before: seq<Query>, q: Query, r: Query) {
    forall rest: seq<Query> :: Answer(before + [q] + rest) == Answer(before + [r] + rest)
  }

  lemma {:induction false} PrefixFolds(qs: seq<Query>, rest: seq<Query>, n: nat)
    requires n <= |qs|
    ensures Left(qs + rest, n) == Left(qs, n) && Refuses(qs + rest, n) == Refuses(qs, n)
    ensures Kept(qs + rest, n) == Kept(qs, n) && Sees(qs + rest, n) == Sees(qs, n)
  {
    hide ReadsQuery, LeftQuery, FirstBad, SawView;
    if n > 0 {
      PrefixFolds(qs, rest, n - 1);
      assert (qs + rest)[n - 1] == qs[n - 1];
    }
  }

  /** Up to and with the statement, the two scripts fold alike but for the names left. */
  lemma {:induction false} SwapFolds(before: seq<Query>, q: Query, r: Query)
    requires SameReads(q, r)
    ensures var n, a, b := |before| + 1, before + [q], before + [r];
            && Refuses(a, n) == Refuses(b, n) && Kept(a, n) == Kept(b, n) && Sees(a, n) == Sees(b, n)
            && (Left(a, n) == Left(b, n) || Refuses(a, n) || Kept(a, n).Some?)
  {
    hide ReadsQuery, LeftQuery, FirstBad, SawView;
    var n, a, b := |before|, before + [q], before + [r];
    PrefixFolds(before, [q], n);
    PrefixFolds(before, [r], n);
    var v := Left(before, n);
    assert a[n] == q && b[n] == r && ReadsQuery(r, v) == ReadsQuery(q, v);
    assert Met(a, n) == Met(b, n);
  }

  /** What one more statement does to the fold. */
  lemma {:induction false} FoldNext(qs: seq<Query>, m: nat, s: Query)
    requires m < |qs| && qs[m] == s
    ensures var v := Left(qs, m);
            var bad := FirstBad(ReadsQuery(s, v));
            && Left(qs, m + 1) == (if bad.Some? then LeftQuery(s, v) else v)
            && Refuses(qs, m + 1) == (Refuses(qs, m) || bad == Some(TooMany))
            && Kept(qs, m + 1) == if bad.Some? && bad.value.Rel? then Some(Text(bad.value.rel)) else Kept(qs, m)
  {
    hide ReadsQuery, LeftQuery, FirstBad;
  }

  /** Refused alike, the same name kept, and names left that are alike. */
  ghost predicate FoldedAlike(a: seq<Query>, b: seq<Query>, m: nat)
    requires m <= |a| && m <= |b|
  {
    Refuses(a, m) == Refuses(b, m) && Kept(a, m) == Kept(b, m) && Alike(Left(a, m), Left(b, m))
  }

  lemma {:induction false} AlikeNext(a: seq<Query>, b: seq<Query>, m: nat, s: Query)
    requires m < |a| && m < |b| && a[m] == s && b[m] == s && FoldedAlike(a, b, m)
    ensures FoldedAlike(a, b, m + 1)
  {
    hide Alike, ReadsQuery, LeftQuery, FirstBad, Left, Refuses, Kept;
    FoldNext(a, m, s);
    FoldNext(b, m, s);
    QueryAlike(s, Left(a, m), Left(b, m));
  }

  /** Names that are alike lead to the same, whatever follows. */
  lemma {:induction false} AlikeFolds(a: seq<Query>, b: seq<Query>, rest: seq<Query>, n: nat)
    requires |a| == |b| && n <= |rest| && FoldedAlike(a, b, |a|)
    ensures FoldedAlike(a + rest, b + rest, |a| + n)
  {
    hide Alike, Left, Refuses, Kept;
    if n == 0 {
      PrefixFolds(a, rest, |a|);
      PrefixFolds(b, rest, |b|);
    } else {
      AlikeFolds(a, b, rest, n - 1);
      AlikeNext(a + rest, b + rest, |a| + n - 1, rest[n - 1]);
    }
  }

  lemma {:induction false} RefusedStays(qs: seq<Query>, rest: seq<Query>, n: nat)
    requires Refuses(qs, |qs|) && n <= |rest|
    ensures Refuses(qs + rest, |qs| + n)
  {
    hide Met;
    if n == 0 { PrefixFolds(qs, rest, |qs|); } else { RefusedStays(qs, rest, n - 1); }
  }

  lemma {:induction false} KeptStays(qs: seq<Query>, rest: seq<Query>, n: nat)
    requires Kept(qs, |qs|).Some? && n <= |rest|
    ensures Kept(qs + rest, |qs| + n).Some?
  {
    hide Met;
    if n == 0 { PrefixFolds(qs, rest, |qs|); } else { KeptStays(qs, rest, n - 1); }
  }

  /** The same names left: everything after goes the same way, views seen included. */
  lemma {:induction false} EqualFolds(a: seq<Query>, b: seq<Query>, rest: seq<Query>, n: nat)
    requires |a| == |b| && n <= |rest| && Left(a, |a|) == Left(b, |b|) && Sees(a, |a|) == Sees(b, |b|)
    ensures Left(a + rest, |a| + n) == Left(b + rest, |a| + n) && Sees(a + rest, |a| + n) == Sees(b + rest, |a| + n)
  {
    hide ReadsQuery, LeftQuery, FirstBad, SawView;
    PrefixFolds(a, rest, |a|);
    PrefixFolds(b, rest, |b|);
    if n > 0 {
      EqualFolds(a, b, rest, n - 1);
      assert (a + rest)[|a| + n - 1] == rest[n - 1] && (b + rest)[|a| + n - 1] == rest[n - 1];
    }
  }

  lemma {:induction false} AlikeAnswers(before: seq<Query>, q: Query, r: Query, rest: seq<Query>)
    requires SameReads(q, r)
    requires var n, a, b := |before| + 1, before + [q], before + [r];
             Refuses(a, n) || Alike(Left(a, n), Left(b, n))
    ensures Answer(before + [q] + rest) == Answer(before + [r] + rest)
  {
    hide Alike, Left, Refuses, Kept, Sees, SameReads;
    var a, b := before + [q], before + [r];
    SwapFolds(before, q, r);
    if Refuses(a, |a|) {
      RefusedStays(a, rest, |rest|);
      RefusedStays(b, rest, |rest|);
    } else {
      AlikeFolds(a, b, rest, |rest|);
      if Left(a, |a|) == Left(b, |b|) {
        EqualFolds(a, b, rest, |rest|);
      } else {
        KeptStays(a, rest, |rest|);
        KeptStays(b, rest, |rest|);
      }
    }
  }

  /** `SELECT .. FROM s.x; SELECT .. FROM x`, which tells whether `x` is in scope. */
  function Telling(x: string): seq<Query> {
    [From([Name(Ident("s", true)), Name(Ident(x, true))], x), From([Name(Ident(x, true))], x)]
  }

  lemma {:induction false} Qualified(x: string)
    ensures Named([Name(Ident("s", true)), Name(Ident(x, true))], x) == RelName(Some("s"), x)
  {
    var parts := [Name(Ident("s", true)), Name(Ident(x, true))];
    assert parts[1..] == [Name(Ident(x, true))] && parts[1..][1..] == [];
    assert Idents(parts[1..]) == Some([x] + []);
    assert Idents(parts) == Some(["s"] + ([x] + []));
    assert ["s"] + ([x] + []) == ["s", x] && ["s", x][..1] == ["s"];
  }

  /** One more statement, `SELECT .. FROM` one relation that is not a view. */
  lemma {:induction false} OneFrom(qs: seq<Query>, n: nat, parts: seq<NamePart>, text: string, r: RelName)
    requires n < |qs| && qs[n] == From(parts, text) && Named(parts, text) == r && !IsView(r)
    ensures var v := Left(qs, n);
            && Left(qs, n + 1) == v && Refuses(qs, n + 1) == Refuses(qs, n)
            && Kept(qs, n + 1) == if r.schema.None? && r.name in v then Kept(qs, n) else Some(Text(r))
  {
    hide ReadsQuery, LeftQuery, Named, From, IsView, Text;
    var v := Left(qs, n);
    FromReads(parts, text, v);
    assert [Rel(r)][1..] == [];
    assert Met(qs, n) == if r.schema.None? && r.name in v then None else Some(Rel(r));
  }

  lemma {:induction false} TellingAnswers(qs: seq<Query>, x: string)
    requires !Refuses(qs, |qs|) && x !in RECORD_VIEWS
    ensures Answer(qs + Telling(x)) == Ok(Mixed(if x in Left(qs, |qs|) then "s." + x else x))
  {
    hide Left, Refuses, Kept, Sees, Named, From;
    var all, n := qs + Telling(x), |qs|;
    PrefixFolds(qs, Telling(x), n);
    assert all[n] == Telling(x)[0] && all[n + 1] == Telling(x)[1];
    Qualified(x);
    PlainName(x);
    OneFrom(all, n, [Name(Ident("s", true)), Name(Ident(x, true))], x, RelName(Some("s"), x));
    OneFrom(all, n + 1, [Name(Ident(x, true))], x, RelName(None, x));
    assert "s" + "." + x == "s." + x;
  }

  /** Statements that read the same give the same answer in every script exactly
      when the script is refused by then, or the names they leave in scope differ at
      most by views' names. */
  lemma {:induction false} SameInEveryScriptExactly(before: seq<Query>, q: Query, r: Query)
    requires SameReads(q, r)
    ensures var n, a, b := |before| + 1, before + [q], before + [r];
            SameInEveryScript(before, q, r) <==> Refuses(a, n) || Alike(Left(a, n), Left(b, n))
  {
    hide SameReads, Left, Refuses, Answer;
    var n, a, b := |before| + 1, before + [q], before + [r];
    if Refuses(a, n) || Alike(Left(a, n), Left(b, n)) {
      forall rest: seq<Query>
        ensures Answer(before + [q] + rest) == Answer(before + [r] + rest)
      {
        AlikeAnswers(before, q, r, rest);
      }
    } else {
      var x :| x !in RECORD_VIEWS && (x in Left(a, n)) != (x in Left(b, n));
      SwapFolds(before, q, r);
      TellingAnswers(a, x);
      TellingAnswers(b, x);
      assert |"s." + x| != |x|;
      assert Answer(before + [q] + Telling(x)) != Answer(before + [r] + Telling(x));
    }
  }

  /** So a renamed CTE is invisible in every script, exactly when. */
  lemma {:induction false} RenamingExactly(c: Renaming, before: seq<Query>, q: Query)
    requires Plain(c) && Fresh(c, q)
    ensures var n, r := |before| + 1, RenameQuery(c, q, [], c.from);
            SameInEveryScript(before, q, r) <==>
            Refuses(before + [q], n) || Alike(Left(before + [q], n), Left(before + [r], n))
  {
    hide ReadsQuery, RenameQuery, Fresh, Plain, SameInEveryScript, Alike, Left, Refuses;
    var r := RenameQuery(c, q, [], c.from);
    forall v
      ensures ReadsQuery(r, v) == ReadsQuery(q, v)
    {
      QueryRenamed(c, q, [], c.from, v, v);
    }
    SameInEveryScriptExactly(before, q, r);
  }

  /** And so is a CTE around a statement. */
  lemma {:induction false} ThroughExactly(before: seq<Query>, q: Query, alias: Ident)
    ensures var n, r := |before| + 1, Through(q, alias);
            SameInEveryScript(before, q, r) <==>
            Refuses(before + [q], n) || Alike(Left(before + [q], n), Left(before + [r], n))
  {
    hide ReadsQuery, Through, SameInEveryScript, Alike, Left, Refuses;
    var r := Through(q, alias);
    forall v
      ensures ReadsQuery(r, v) == ReadsQuery(q, v)
    {
      ThroughReads(q, alias, v);
    }
    SameInEveryScriptExactly(before, q, r);
  }
}
