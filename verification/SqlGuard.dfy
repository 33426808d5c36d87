/** The classifier of `record_view_use`: a visitor with a stack of CTE scopes
    that checks each body of a non-recursive WITH on its own and then skips it
    in the main walk. It is proved to do what the plain scoped reading of
    SqlReads says, at the cost SqlCost counts. */
module SqlGuard {
  import opened Wrappers
  import opened SqlAst
  import opened SqlReads
  import opened SqlCost

  /** Where a node is in its tree; it stands for the node's address. */
  type Path = seq<nat>

  /** The visitor's fields at one moment. */
  datatype Snapshot = Snapshot(
    scopes: seq<set<string>>,
    sawView: bool,
    other: Option<string>,
    checked: set<Path>,
    skipping: nat,
    tooManyCtes: bool,
    visits: nat)

  ghost function Visible(scopes: seq<set<string>>): set<string> {
    set i, name | 0 <= i < |scopes| && name in scopes[i] :: name
  }

  lemma VisiblePush(scopes: seq<set<string>>, scope: set<string>)
    ensures Visible(scopes + [scope]) == Visible(scopes) + scope
  {
    forall name
      ensures name in Visible(scopes + [scope]) <==> name in Visible(scopes) + scope
    {
      if name in scope { assert (scopes + [scope])[|scopes|] == scope; }
      if name in Visible(scopes) {
        var i :| 0 <= i < |scopes| && name in scopes[i];
        assert (scopes + [scope])[i] == scopes[i];
      }
    }
  }

  /** No checked body is at or below `at`. */
  ghost predicate Untouched(checked: set<Path>, at: Path) {
    forall c :: c in checked ==> !(at <= c)
  }

  /** `after` adds to `before` only bodies below `at`. */
  ghost predicate Grown(before: set<Path>, after: set<Path>, at: Path) {
    forall c :: c in after ==> c in before || at <= c
  }

  lemma SiblingUntouched(before: set<Path>, after: set<Path>, at: Path, i: nat, j: nat)
    requires Untouched(before, at + [j]) && Grown(before, after, at + [i]) && i != j
    ensures Untouched(after, at + [j])
  {
    forall c | c in after
      ensures !(at + [j] <= c)
    {
      if at + [i] <= c {
        assert c[|at|] == (at + [i])[|at|] == i;
        assert (at + [j])[|at|] == j;
      }
    }
  }

  lemma ChildUntouched(checked: set<Path>, at: Path, i: nat)
    requires Untouched(checked, at)
    ensures Untouched(checked, at + [i])
  {
    forall c | c in checked
      ensures !(at + [i] <= c)
    {
      assert at <= at + [i];
    }
  }

  /** What a walk over the reads `trace` does to the visitor: it breaks exactly
      at the first bad read, and otherwise leaves the scopes as they were. */
  ghost predicate Walked(a: Snapshot, b: Snapshot, trace: seq<Read>, at: Path, visits: nat, brk: bool) {
    var bad := FirstBad(trace);
    && brk == bad.Some?
    && b.sawView == (a.sawView || SawView(trace))
    && b.other == (if bad.Some? && bad.value.Rel? then Some(Text(bad.value.rel)) else a.other)
    && b.tooManyCtes == (a.tooManyCtes || bad == Some(TooMany))
    && a.skipping == b.skipping == 0
    && Grown(a.checked, b.checked, at)
    && a.visits <= b.visits <= a.visits + visits
    && (!brk ==> b.scopes == a.scopes && b.visits == a.visits + visits)
  }

  /** The same while an enclosing body is skipped: nothing but the visits. */
  ghost predicate Passed(a: Snapshot, b: Snapshot, visits: nat, brk: bool) {
    !brk && b == a.(visits := a.visits + visits)
  }

  ghost predicate Effect(a: Snapshot, b: Snapshot, trace: seq<Read>, at: Path, cost: Counts, brk: bool) {
    if a.skipping == 0 then Walked(a, b, trace, at, cost.visits, brk) else Passed(a, b, cost.nodes, brk)
  }

  lemma WalkedThen(a: Snapshot, b: Snapshot, c: Snapshot, t: seq<Read>, u: seq<Read>,
                   p: Path, q: Path, at: Path, m: nat, n: nat, brk: bool)
    requires Walked(a, b, t, p, m, false) && Walked(b, c, u, q, n, brk)
    requires at <= p && at <= q
    ensures Walked(a, c, t + u, at, m + n, brk)
  {
    ScanSplits(t, u);
    forall x | x in c.checked
      ensures x in a.checked || at <= x
    {
      if q <= x { assert at <= q <= x; }
      if p <= x { assert at <= p <= x; }
    }
  }

  lemma WalkedBreaks(a: Snapshot, b: Snapshot, t: seq<Read>, u: seq<Read>, p: Path, at: Path, m: nat, n: nat)
    requires Walked(a, b, t, p, m, true) && at <= p
    ensures Walked(a, b, t + u, at, m + n, true)
  {
    ScanSplits(t, u);
    forall x | x in b.checked
      ensures x in a.checked || at <= x
    {
      if p <= x { assert at <= p <= x; }
    }
  }

  lemma Then(a: Snapshot, b: Snapshot, c: Snapshot, t: seq<Read>, u: seq<Read>,
             p: Path, q: Path, at: Path, m: Counts, n: Counts, brk: bool)
    requires Effect(a, b, t, p, m, false) && Effect(b, c, u, q, n, brk)
    requires at <= p && at <= q
    ensures Effect(a, c, t + u, at, Both(m, n), brk)
  {
    if a.skipping == 0 {
      WalkedThen(a, b, c, t, u, p, q, at, m.visits, n.visits, brk);
    }
  }

  lemma Breaks(a: Snapshot, b: Snapshot, t: seq<Read>, u: seq<Read>, p: Path, at: Path, m: Counts, n: Counts)
    requires Effect(a, b, t, p, m, true) && at <= p
    ensures Effect(a, b, t + u, at, Both(m, n), true)
  {
    WalkedBreaks(a, b, t, u, p, at, m.visits, n.visits);
  }

  lemma Below(a: Snapshot, b: Snapshot, t: seq<Read>, p: Path, at: Path, m: Counts, brk: bool)
    requires Effect(a, b, t, p, m, brk) && at <= p
    ensures Effect(a, b, t, at, m, brk)
  {
    if a.skipping == 0 {
      forall x | x in b.checked
        ensures x in a.checked || at <= x
      {
        if p <= x { assert at <= p <= x; }
      }
    }
  }

  /** Whether the walk may go to `at`: it is skipping, or it has checked
      nothing there. */
  ghost predicate Open(s: Snapshot, at: Path) {
    s.skipping > 0 || Untouched(s.checked, at)
  }

  lemma OpenChildren(s: Snapshot, at: Path)
    requires Open(s, at)
    ensures Open(s, at + [0]) && Open(s, at + [1]) && Open(s, at + [2])
  {
    if s.skipping == 0 {
      ChildUntouched(s.checked, at, 0);
      ChildUntouched(s.checked, at, 1);
      ChildUntouched(s.checked, at, 2);
    }
  }

  lemma StillOpen(a: Snapshot, b: Snapshot, t: seq<Read>, at: Path, i: nat, j: nat, m: Counts)
    requires Open(a, at + [j]) && Effect(a, b, t, at + [i], m, false) && i != j
    ensures Open(b, at + [j])
  {
    if a.skipping == 0 {
      SiblingUntouched(a.checked, b.checked, at, i, j);
    }
  }

  /** Where the body of CTE `i` of the query at `at` is. */
  function CteAt(at: Path, i: nat): Path { at + [0] + [i] }

  ghost predicate OpenFrom(s: Snapshot, at: Path, i: nat) {
    forall j: nat :: i <= j ==> Open(s, CteAt(at, j))
  }

  lemma AllOpen(s: Snapshot, at: Path)
    requires Open(s, at + [0])
    ensures OpenFrom(s, at, 0)
  {
    forall j: nat
      ensures Open(s, CteAt(at, j))
    {
      if s.skipping == 0 { ChildUntouched(s.checked, at + [0], j); }
    }
  }

  lemma StillOpenFrom(a: Snapshot, b: Snapshot, t: seq<Read>, at: Path, i: nat, m: Counts)
    requires OpenFrom(a, at, i) && Effect(a, b, t, CteAt(at, i), m, false)
    ensures OpenFrom(b, at, i + 1)
  {
    forall j: nat | i + 1 <= j
      ensures Open(b, CteAt(at, j))
    {
      assert Open(a, CteAt(at, j));
      StillOpen(a, b, t, at + [0], i, j, m);
    }
  }

  ghost function Names(w: With): set<string> {
    if w.With? then CteNames(w.ctes) else {}
  }

  /** What the pre-visit reads of a WITH: the bodies of a non-recursive one. */
  ghost function WithReads(w: With, v: set<string>): seq<Read> {
    if w.With? && |w.ctes| > MAX_CTES then [TooMany]
    else if w.With? && !w.recursive then ReadsEarlier(w.ctes, |w.ctes|, v)
    else []
  }

  /** What `pre_visit_query` reads of a query it does not skip. */
  ghost function PreReads(q: Query, v: set<string>): seq<Read> {
    WithReads(q.with, v) + ScanTables(q.body, v + Names(q.with))
  }

  ghost function OwnVisits(ctes: seq<Cte>, n: nat): nat
    requires n <= |ctes|
  {
    if n == 0 then 0 else OwnVisits(ctes, n - 1) + QueryCost(ctes[n - 1].query).visits
  }

  ghost function PreVisits(w: With): nat {
    if w.With? && !w.recursive then OwnVisits(w.ctes, |w.ctes|) else 0
  }

  /** What the main walk then reads of the WITH: nothing of bodies it checked. */
  ghost function CtesReads(w: With, n: nat, inner: set<string>): seq<Read>
    requires w.With? && n <= |w.ctes|
  {
    if w.recursive then ReadsRecursive(w.ctes, n, inner) else []
  }

  /** The cost of passing over a body that was checked. */
  ghost function PassCost(c: Counts): Counts { c.(visits := c.nodes) }

  ghost function CtesAgain(w: With, n: nat): Counts
    requires w.With? && n <= |w.ctes|
  {
    if w.recursive then CtesCost(w, n) else PassCost(CtesCost(w, n))
  }

  ghost function RestReads(q: Query, inner: set<string>): seq<Read> {
    var main := ReadsBody(q.body, inner) + ReadsExpr(q.tail, inner);
    if q.with.With? then CtesReads(q.with, |q.with.ctes|, inner) + main else main
  }

  ghost function RestCost(q: Query): Counts {
    var main := Both(BodyCost(q.body), ExprCost(q.tail));
    if q.with.With? then Both(CtesAgain(q.with, |q.with.ctes|), main) else main
  }

  predicate OverLimit(w: With) {
    w.With? && |w.ctes| > MAX_CTES
  }

  /** Within the limit the walk reads just what the plain reading lists. */
  lemma {:induction false} PartsAreReads(q: Query, v: set<string>)
    requires !OverLimit(q.with)
    ensures ReadsQuery(q, v) == PreReads(q, v) + RestReads(q, v + Names(q.with))
  {
    hide ScanTables, ReadsBody, ReadsExpr, ReadsEarlier, ReadsRecursive, CteNames;
    var inner := v + Names(q.with);
    var scan, main := ScanTables(q.body, inner), ReadsBody(q.body, inner) + ReadsExpr(q.tail, inner);
    match q.with
    case NoWith =>
      assert inner == v && [] + scan == scan;
    case With(recursive, ctes) =>
      if recursive {
        assert [] + scan == scan;
        assert scan + ReadsRecursive(ctes, |ctes|, inner) + main == scan + (ReadsRecursive(ctes, |ctes|, inner) + main);
      } else {
        var early := ReadsEarlier(ctes, |ctes|, v);
        assert [] + main == main;
        assert early + scan + main == early + (scan + main);
      }
  }

  lemma {:induction false} TooManyFirst(a: seq<Read>, b: seq<Read>)
    ensures FirstBad([TooMany] + a + b) == FirstBad([TooMany]) && SawView([TooMany] + a + b) == SawView([TooMany])
  {
    ScanSplits([TooMany], a);
    ScanSplits([TooMany] + a, b);
  }

  lemma {:induction false} ReadsSplit(q: Query, v: set<string>)
    ensures var parts := PreReads(q, v) + RestReads(q, v + Names(q.with));
            && FirstBad(ReadsQuery(q, v)) == FirstBad(parts)
            && SawView(ReadsQuery(q, v)) == SawView(parts)
  {
    hide FirstBad, SawView, RestReads, ScanTables;
    if OverLimit(q.with) {
      TooManyFirst(ScanTables(q.body, v + Names(q.with)), RestReads(q, v + Names(q.with)));
    } else {
      PartsAreReads(q, v);
    }
  }

  /** The names in scope where the main walk stops. */
  ghost function RestLeft(q: Query, inner: set<string>): set<string> {
    if q.with.With? && Stops(CtesReads(q.with, |q.with.ctes|, inner)) then
      LeftRecursive(q.with.ctes, |q.with.ctes|, inner)
    else MainLeft(q, inner)
  }

  ghost function MainLeft(q: Query, inner: set<string>): set<string> {
    if Stops(ReadsBody(q.body, inner)) then LeftBody(q.body, inner) else LeftExpr(q.tail, inner)
  }

  /** Before a scope is opened a walk leaves what it found; after that, the names
      of its WITH as well. */
  lemma {:induction false} LeftSplit(q: Query, v: set<string>)
    ensures var inner := v + Names(q.with);
            LeftQuery(q, v) ==
            if Stops(WithReads(q.with, v)) then v
            else if Stops(ScanTables(q.body, inner)) then inner
            else RestLeft(q, inner)
  {
    hide ReadsEarlier, ReadsRecursive, ScanTables, ReadsBody, ReadsExpr, LeftRecursive, LeftBody, LeftExpr, CteNames;
    assert v + {} == v;
  }

  lemma {:induction false} OwnAndAgain(w: With, n: nat)
    requires w.With? && n <= |w.ctes|
    ensures CtesCost(w, n).visits == CtesAgain(w, n).visits + if w.recursive then 0 else OwnVisits(w.ctes, n)
  {
    if n > 0 && !w.recursive {
      OwnAndAgain(w, n - 1);
    }
  }

  lemma CostSplits(q: Query)
    ensures QueryCost(q).visits == 1 + PreVisits(q.with) + RestCost(q).visits
    ensures QueryCost(q).nodes == 1 + RestCost(q).nodes
  {
    if q.with.With? { OwnAndAgain(q.with, |q.with.ctes|); }
  }

  lemma {:induction false} EarlierBreaks(ctes: seq<Cte>, i: nat, n: nat, v: set<string>, a: Snapshot, b: Snapshot,
                                         at: Path)
    requires i <= n <= |ctes|
    requires Walked(a, b, ReadsEarlier(ctes, i, v), at, OwnVisits(ctes, i), true)
    ensures Walked(a, b, ReadsEarlier(ctes, n, v), at, OwnVisits(ctes, n), true)
  {
    if i < n {
      EarlierBreaks(ctes, i, n - 1, v, a, b, at);
      WalkedBreaks(a, b, ReadsEarlier(ctes, n - 1, v), ReadsQuery(ctes[n - 1].query, v + CteNames(ctes[..n - 1])),
                   at, at, OwnVisits(ctes, n - 1), QueryCost(ctes[n - 1].query).visits);
    }
  }

  lemma EarlierNext(ctes: seq<Cte>, i: nat, v: set<string>, a: Snapshot, b: Snapshot, c: Snapshot, at: Path, brk: bool)
    requires i < |ctes|
    requires Walked(a, b, ReadsEarlier(ctes, i, v), at, OwnVisits(ctes, i), false)
    requires Walked(b, c, ReadsQuery(ctes[i].query, v + CteNames(ctes[..i])), at, QueryCost(ctes[i].query).visits, brk)
    ensures Walked(a, c, ReadsEarlier(ctes, i + 1, v), at, OwnVisits(ctes, i + 1), brk)
  {
    WalkedThen(a, b, c, ReadsEarlier(ctes, i, v), ReadsQuery(ctes[i].query, v + CteNames(ctes[..i])),
               at, at, at, OwnVisits(ctes, i), QueryCost(ctes[i].query).visits, brk);
  }

  /** Visitor `a` once it has taken over what a separate walk over the body at
      `p` left in `y`. */
  ghost function Absorbed(a: Snapshot, y: Snapshot, p: Path): Snapshot {
    a.(sawView := a.sawView || y.sawView,
       checked := a.checked + {p},
       visits := a.visits + y.visits,
       tooManyCtes := a.tooManyCtes || y.tooManyCtes,
       other := if y.tooManyCtes || y.other.None? then a.other else y.other)
  }

  lemma BodyWalked(a: Snapshot, x: Snapshot, y: Snapshot, trace: seq<Read>, at: Path, p: Path, visits: nat, brk: bool)
    requires Walked(x, y, trace, p, visits, brk)
    requires !x.sawView && x.other.None? && !x.tooManyCtes && x.visits == 0
    requires a.skipping == 0 && at <= p
    ensures Walked(a, Absorbed(a, y, p), trace, at, visits, brk)
    ensures brk == (y.tooManyCtes || y.other.Some?)
  {
  }

  ghost function CteReads(w: With, i: nat, inner: set<string>): seq<Read>
    requires w.With? && i < |w.ctes|
  {
    if w.recursive then ReadsQuery(w.ctes[i].query, inner) else []
  }

  ghost function CteAgain(w: With, i: nat): Counts
    requires w.With? && i < |w.ctes|
  {
    var c := QueryCost(w.ctes[i].query);
    if w.recursive then c else PassCost(c)
  }

  lemma AgainStep(w: With, i: nat)
    requires w.With? && i < |w.ctes|
    ensures CtesAgain(w, i + 1).nodes == CtesAgain(w, i).nodes + CteAgain(w, i).nodes
    ensures CtesAgain(w, i + 1).visits == CtesAgain(w, i).visits + CteAgain(w, i).visits
  {
  }

  lemma AgainNext(w: With, i: nat, v: set<string>, a: Snapshot, b: Snapshot, c: Snapshot, p: Path, at: Path, brk: bool)
    requires w.With? && i < |w.ctes| && at <= p
    requires Effect(a, b, CtesReads(w, i, v), at, CtesAgain(w, i), false)
    requires Effect(b, c, CteReads(w, i, v), p, CteAgain(w, i), brk)
    ensures Effect(a, c, CtesReads(w, i + 1, v), at, CtesAgain(w, i + 1), brk)
  {
    Then(a, b, c, CtesReads(w, i, v), CteReads(w, i, v), at, p, at, CtesAgain(w, i), CteAgain(w, i), brk);
    AgainStep(w, i);
    assert CtesReads(w, i + 1, v) == CtesReads(w, i, v) + CteReads(w, i, v);
  }

  lemma {:induction false} AgainBreaks(w: With, i: nat, n: nat, v: set<string>, a: Snapshot, b: Snapshot, at: Path)
    requires w.With? && i <= n <= |w.ctes|
    requires Effect(a, b, CtesReads(w, i, v), at, CtesAgain(w, i), true)
    ensures Effect(a, b, CtesReads(w, n, v), at, CtesAgain(w, n), true)
  {
    if i < n {
      AgainBreaks(w, i, n - 1, v, a, b, at);
      Breaks(a, b, CtesReads(w, n - 1, v), CteReads(w, n - 1, v), at, at, CtesAgain(w, n - 1), CteAgain(w, n - 1));
      AgainStep(w, n - 1);
      assert CtesReads(w, n, v) == CtesReads(w, n - 1, v) + CteReads(w, n - 1, v);
    }
  }

  lemma AgainStarts(w: With, v: set<string>, a: Snapshot, at: Path)
    requires w.With?
    ensures Effect(a, a, CtesReads(w, 0, v), at, CtesAgain(w, 0), false)
  {
  }

  lemma EffectKeeps(a: Snapshot, b: Snapshot, t: seq<Read>, at: Path, m: Counts)
    requires Effect(a, b, t, at, m, false)
    ensures b.scopes == a.scopes && b.skipping == a.skipping
  {
  }

  lemma OpenHere(s: Snapshot, at: Path, i: nat)
    requires OpenFrom(s, at, i)
    ensures Open(s, CteAt(at, i))
  {
  }

  /** The names left by a recursive WITH are those of the first body that stops. */
  lemma LeftAtBreak(w: With, i: nat, v: set<string>, a: Snapshot, b: Snapshot, c: Snapshot, at: Path)
    requires w.With? && w.recursive && i < |w.ctes|
    requires Effect(a, b, CtesReads(w, i, v), at, CtesAgain(w, i), false)
    requires Effect(a, c, CtesReads(w, i + 1, v), at, CtesAgain(w, i + 1), true)
    ensures LeftRecursive(w.ctes, |w.ctes|, v) == LeftQuery(w.ctes[i].query, v)
  {
    hide ReadsQuery, LeftQuery, ReadsRecursive, CtesAgain;
    LeftStays(w.ctes, i + 1, |w.ctes|, v);
  }

  /** The visitor after the pre-visit of a query it does not skip. */
  ghost predicate Entered(a: Snapshot, b: Snapshot, q: Query, at: Path, brk: bool) {
    && Walked(a, if brk then b else b.(scopes := a.scopes), PreReads(q, Visible(a.scopes)), at + [0],
              1 + PreVisits(q.with), brk)
    && (!brk ==>
          && b.scopes == a.scopes + [Names(q.with)]
          && (q.with.With? && !q.with.recursive ==>
                forall i :: 0 <= i < |q.with.ctes| ==> CteAt(at, i) in b.checked)
          && (q.with.With? && q.with.recursive ==> b.checked == a.checked))
  }

  lemma EnterBreaks(a: Snapshot, b: Snapshot, q: Query, at: Path)
    requires Entered(a, b, q, at, true)
    ensures Walked(a, b, ReadsQuery(q, Visible(a.scopes)), at, QueryCost(q).visits, true)
  {
    var v := Visible(a.scopes);
    ReadsSplit(q, v);
    CostSplits(q);
    WalkedBreaks(a, b, PreReads(q, v), RestReads(q, v + Names(q.with)), at + [0], at,
                 1 + PreVisits(q.with), RestCost(q).visits);
  }

  lemma EnteredClean(a: Snapshot, b: Snapshot, q: Query, at: Path)
    requires Entered(a, b, q, at, false)
    ensures var v := Visible(a.scopes);
            !Stops(WithReads(q.with, v)) && !Stops(ScanTables(q.body, v + Names(q.with)))
  {
    hide WithReads, ScanTables;
    var v := Visible(a.scopes);
    ScanSplits(WithReads(q.with, v), ScanTables(q.body, v + Names(q.with)));
  }

  lemma EnteredOpen(a: Snapshot, b: Snapshot, q: Query, at: Path)
    requires Entered(a, b, q, at, false) && Open(a, at)
    ensures Open(b, at + [1]) && Open(b, at + [2])
    ensures q.with.With? && q.with.recursive ==> Open(b, at + [0])
  {
    OpenChildren(a, at);
    SiblingUntouched(a.checked, b.checked, at, 0, 1);
    SiblingUntouched(a.checked, b.checked, at, 0, 2);
  }

  lemma RestFollows(a: Snapshot, b: Snapshot, c: Snapshot, q: Query, at: Path, brk: bool)
    requires Entered(a, b, q, at, false) && b.skipping == 0
    requires Effect(b, c, RestReads(q, Visible(a.scopes) + Names(q.with)), at, RestCost(q), brk)
    ensures var end := if brk then c else c.(scopes := a.scopes);
            Walked(a, end, ReadsQuery(q, Visible(a.scopes)), at, QueryCost(q).visits, brk)
    ensures !brk ==> c.scopes == a.scopes + [Names(q.with)]
  {
    var v := Visible(a.scopes);
    ReadsSplit(q, v);
    CostSplits(q);
    WalkedThen(a, b.(scopes := a.scopes), if brk then c else c.(scopes := a.scopes),
               PreReads(q, v), RestReads(q, v + Names(q.with)), at + [0], at, at,
               1 + PreVisits(q.with), RestCost(q).visits, brk);
  }

  class Relations {
    var scopes: seq<set<string>>
    var sawView: bool
    var other: Option<string>
    var checked: set<Path>
    var skipping: nat
    var tooManyCtes: bool
    ghost var visits: nat

    constructor (scopes: seq<set<string>>)
      ensures Snap() == Snapshot(scopes, false, None, {}, 0, false, 0)
    {
      this.scopes := scopes;
      sawView, other, checked, skipping, tooManyCtes, visits := false, None, {}, 0, false, 0;
    }

    ghost function Snap(): Snapshot
      reads this
    {
      Snapshot(scopes, sawView, other, checked, skipping, tooManyCtes, visits)
    }

    method Record(r: RelName, ghost at: Path) returns (brk: bool)
      modifies this
      ensures checked == old(checked)
      ensures old(skipping) > 0 ==> !brk && Snap() == old(Snap())
      ensures old(skipping) == 0 ==> Walked(old(Snap()), Snap(), Resolve(r, Visible(old(scopes))), at, 0, brk)
      ensures scopes == old(scopes)
    {
      if skipping > 0 { return false; }
      ghost var trace := Resolve(r, Visible(scopes));
      if r.schema.None? && exists i :: 0 <= i < |scopes| && r.name in scopes[i] {
        return false;
      }
      assert trace == [Rel(r)];
      assert trace[1..] == [];
      if r.name in RECORD_VIEWS && (r.schema.None? || r.schema.value in VIEW_SCHEMAS) {
        sawView := true;
        return false;
      }
      other := Some(Text(r));
      return true;
    }

    method ScanBody(body: SetExpr, ghost at: Path) returns (brk: bool)
      modifies this
      ensures checked == old(checked)
      ensures old(skipping) > 0 ==> !brk && Snap() == old(Snap())
      ensures old(skipping) == 0 ==> Walked(old(Snap()), Snap(), ScanTables(body, Visible(old(scopes))), at, 0, brk)
      ensures scopes == old(scopes)
      decreases body
    {
      match body
      case Table(schema, name) => brk := Record(TableName(schema, name), at);
      case SetOp(_, left, right) =>
        ghost var s, v := Snap(), Visible(scopes);
        brk := ScanBody(left, at);
        if brk {
          WalkedBreaks(s, Snap(), ScanTables(left, v), ScanTables(right, v), at, at, 0, 0);
          return;
        }
        ghost var t := Snap();
        brk := ScanBody(right, at);
        if skipping == 0 {
          WalkedThen(s, t, Snap(), ScanTables(left, v), ScanTables(right, v), at, at, at, 0, 0, brk);
        }
      case _ => brk := false;
    }

    method VisitExpr(e: Expr, at: Path) returns (brk: bool)
      requires Open(Snap(), at)
      modifies this
      ensures Effect(old(Snap()), Snap(), ReadsExpr(e, Visible(old(scopes))), at, ExprCost(e), brk)
      ensures brk ==> Visible(scopes) == LeftExpr(e, Visible(old(scopes)))
      decreases e, 0
    {
      hide ReadsQuery, ReadsFactor, ReadsBody, QueryCost, FactorCost, BodyCost;
      ghost var s, v := Snap(), Visible(scopes);
      OpenChildren(s, at);
      match e
      case Leaf(_) => brk := false;
      case Apply(_, left, right) =>
        brk := VisitExpr(left, at + [0]);
        if brk {
          Breaks(s, Snap(), ReadsExpr(left, v), ReadsExpr(right, v), at + [0], at, ExprCost(left), ExprCost(right));
          return;
        }
        ghost var t := Snap();
        StillOpen(s, t, ReadsExpr(left, v), at, 0, 1, ExprCost(left));
        brk := VisitExpr(right, at + [1]);
        Then(s, t, Snap(), ReadsExpr(left, v), ReadsExpr(right, v), at + [0], at + [1], at,
             ExprCost(left), ExprCost(right), brk);
      case Sub(_, arg, query) =>
        brk := VisitExpr(arg, at + [0]);
        if brk {
          Breaks(s, Snap(), ReadsExpr(arg, v), ReadsQuery(query, v), at + [0], at, ExprCost(arg), QueryCost(query));
          return;
        }
        ghost var t := Snap();
        StillOpen(s, t, ReadsExpr(arg, v), at, 0, 1, ExprCost(arg));
        brk := VisitQuery(query, at + [1]);
        Then(s, t, Snap(), ReadsExpr(arg, v), ReadsQuery(query, v), at + [0], at + [1], at,
             ExprCost(arg), QueryCost(query), brk);
    }

    method VisitFactor(f: Factor, at: Path) returns (brk: bool)
      requires Open(Snap(), at)
      modifies this
      ensures Effect(old(Snap()), Snap(), ReadsFactor(f, Visible(old(scopes))), at, FactorCost(f), brk)
      ensures brk ==> Visible(scopes) == LeftFactor(f, Visible(old(scopes)))
      decreases f, 1
    {
      hide ReadsQuery, ReadsExpr, ReadsBody, QueryCost, ExprCost, BodyCost;
      ghost var s, v := Snap(), Visible(scopes);
      OpenChildren(s, at);
      match f
      case NoFrom => brk := false;
      case Relation(parts, text) => brk := Record(Named(parts, text), at);
      case Function(_, args) =>
        brk := VisitExpr(args, at + [0]);
        Below(s, Snap(), ReadsExpr(args, v), at + [0], at, ExprCost(args), brk);
      case Derived(query) =>
        brk := VisitQuery(query, at + [0]);
        Below(s, Snap(), ReadsQuery(query, v), at + [0], at, QueryCost(query), brk);
      case Joined(left, right, on) =>
        ghost var rest, restCost := ReadsFactor(right, v) + ReadsExpr(on, v), Both(FactorCost(right), ExprCost(on));
        brk := VisitFactor(left, at + [0]);
        if brk {
          Breaks(s, Snap(), ReadsFactor(left, v), rest, at + [0], at, FactorCost(left), restCost);
          return;
        }
        ghost var t := Snap();
        StillOpen(s, t, ReadsFactor(left, v), at, 0, 1, FactorCost(left));
        StillOpen(s, t, ReadsFactor(left, v), at, 0, 2, FactorCost(left));
        brk := VisitJoinRest(f, at);
        Then(s, t, Snap(), ReadsFactor(left, v), rest, at + [0], at, at, FactorCost(left), restCost, brk);
    }

    /** The right side and the condition of a join. */
    method VisitJoinRest(f: Factor, at: Path) returns (brk: bool)
      requires f.Joined? && Open(Snap(), at + [1]) && Open(Snap(), at + [2])
      modifies this
      ensures Effect(old(Snap()), Snap(),
                     ReadsFactor(f.right, Visible(old(scopes))) + ReadsExpr(f.on, Visible(old(scopes))),
                     at, Both(FactorCost(f.right), ExprCost(f.on)), brk)
      ensures var v := Visible(old(scopes));
              brk ==> Visible(scopes) ==
                      if Stops(ReadsFactor(f.right, v)) then LeftFactor(f.right, v) else LeftExpr(f.on, v)
      decreases f, 0
    {
      ghost var s, v := Snap(), Visible(scopes);
      brk := VisitFactor(f.right, at + [1]);
      if brk {
        Breaks(s, Snap(), ReadsFactor(f.right, v), ReadsExpr(f.on, v), at + [1], at, FactorCost(f.right),
               ExprCost(f.on));
        return;
      }
      ghost var t := Snap();
      StillOpen(s, t, ReadsFactor(f.right, v), at, 1, 2, FactorCost(f.right));
      brk := VisitExpr(f.on, at + [2]);
      Then(s, t, Snap(), ReadsFactor(f.right, v), ReadsExpr(f.on, v), at + [1], at + [2], at,
           FactorCost(f.right), ExprCost(f.on), brk);
    }

    /** The FROM and the WHERE of a SELECT. */
    method VisitSelectRest(body: SetExpr, at: Path) returns (brk: bool)
      requires body.Select? && Open(Snap(), at + [1]) && Open(Snap(), at + [2])
      modifies this
      ensures Effect(old(Snap()), Snap(),
                     ReadsFactor(body.from, Visible(old(scopes))) + ReadsExpr(body.filter, Visible(old(scopes))),
                     at, Both(FactorCost(body.from), ExprCost(body.filter)), brk)
      ensures var v := Visible(old(scopes));
              brk ==> Visible(scopes) ==
                      if Stops(ReadsFactor(body.from, v)) then LeftFactor(body.from, v) else LeftExpr(body.filter, v)
      decreases body, 0
    {
      ghost var s, v := Snap(), Visible(scopes);
      brk := VisitFactor(body.from, at + [1]);
      if brk {
        Breaks(s, Snap(), ReadsFactor(body.from, v), ReadsExpr(body.filter, v), at + [1], at, FactorCost(body.from),
               ExprCost(body.filter));
        return;
      }
      ghost var t := Snap();
      StillOpen(s, t, ReadsFactor(body.from, v), at, 1, 2, FactorCost(body.from));
      brk := VisitExpr(body.filter, at + [2]);
      Then(s, t, Snap(), ReadsFactor(body.from, v), ReadsExpr(body.filter, v), at + [1], at + [2], at,
           FactorCost(body.from), ExprCost(body.filter), brk);
    }

    method VisitBody(body: SetExpr, at: Path) returns (brk: bool)
      requires Open(Snap(), at)
      modifies this
      ensures Effect(old(Snap()), Snap(), ReadsBody(body, Visible(old(scopes))), at, BodyCost(body), brk)
      ensures brk ==> Visible(scopes) == LeftBody(body, Visible(old(scopes)))
      decreases body, 1
    {
      hide ReadsQuery, ReadsExpr, ReadsFactor, QueryCost, ExprCost, FactorCost;
      ghost var s, v := Snap(), Visible(scopes);
      OpenChildren(s, at);
      match body
      case Select(items, from, filter) =>
        ghost var rest := ReadsFactor(from, v) + ReadsExpr(filter, v);
        ghost var restCost := Both(FactorCost(from), ExprCost(filter));
        brk := VisitExpr(items, at + [0]);
        if brk {
          Breaks(s, Snap(), ReadsExpr(items, v), rest, at + [0], at, ExprCost(items), restCost);
          return;
        }
        ghost var t := Snap();
        StillOpen(s, t, ReadsExpr(items, v), at, 0, 1, ExprCost(items));
        StillOpen(s, t, ReadsExpr(items, v), at, 0, 2, ExprCost(items));
        brk := VisitSelectRest(body, at);
        Then(s, t, Snap(), ReadsExpr(items, v), rest, at + [0], at, at, ExprCost(items), restCost, brk);
      case Values(rows) =>
        brk := VisitExpr(rows, at + [0]);
        Below(s, Snap(), ReadsExpr(rows, v), at + [0], at, ExprCost(rows), brk);
      case Table(_, _) => brk := false;
      case Nested(query) =>
        brk := VisitQuery(query, at + [0]);
        Below(s, Snap(), ReadsQuery(query, v), at + [0], at, QueryCost(query), brk);
      case SetOp(_, left, right) =>
        brk := VisitBody(left, at + [0]);
        if brk {
          Breaks(s, Snap(), ReadsBody(left, v), ReadsBody(right, v), at + [0], at, BodyCost(left), BodyCost(right));
          return;
        }
        ghost var t := Snap();
        StillOpen(s, t, ReadsBody(left, v), at, 0, 1, BodyCost(left));
        brk := VisitBody(right, at + [1]);
        Then(s, t, Snap(), ReadsBody(left, v), ReadsBody(right, v), at + [0], at + [1], at,
             BodyCost(left), BodyCost(right), brk);
    }

    /** Take over what a separate walk over the body at `p` found. */
    method Absorb(body: Relations, p: Path)
      requires body != this
      modifies this
      ensures Snap() == Absorbed(old(Snap()), body.Snap(), p)
    {
      checked := checked + {p};
      sawView := sawView || body.sawView;
      visits := visits + body.visits;
      if body.tooManyCtes {
        tooManyCtes := true;
      } else if body.other.Some? {
        other := body.other;
      }
    }

    /** Check the body of CTE `i` of a non-recursive WITH on its own, in the
        scope of the CTEs before it. */
    method CheckBody(ctes: seq<Cte>, i: nat, at: Path) returns (brk: bool)
      requires skipping == 0 && i < |ctes|
      modifies this
      ensures Walked(old(Snap()), Snap(), ReadsQuery(ctes[i].query, Visible(old(scopes)) + CteNames(ctes[..i])),
                     at + [0], QueryCost(ctes[i].query).visits, brk)
      ensures checked == old(checked) + {CteAt(at, i)} && scopes == old(scopes)
      decreases ctes, 0
    {
      hide ReadsQuery, QueryCost, Walked, Visible, CteNames;
      ghost var s := Snap();
      VisiblePush(scopes, CteNames(ctes[..i]));
      assert ctes[i].query < ctes[i];
      var body := new Relations(scopes + [CteNames(ctes[..i])]);
      ghost var x := body.Snap();
      brk := body.VisitQuery(ctes[i].query, CteAt(at, i));
      Absorb(body, CteAt(at, i));
      BodyWalked(s, x, body.Snap(), ReadsQuery(ctes[i].query, Visible(s.scopes) + CteNames(ctes[..i])),
                 at + [0], CteAt(at, i), QueryCost(ctes[i].query).visits, brk);
      brk := body.tooManyCtes || body.other.Some?;
    }

    method CheckBodies(ctes: seq<Cte>, at: Path) returns (brk: bool)
      requires skipping == 0
      modifies this
      ensures Walked(old(Snap()), Snap(), ReadsEarlier(ctes, |ctes|, Visible(old(scopes))), at + [0],
                     OwnVisits(ctes, |ctes|), brk)
      ensures scopes == old(scopes)
      ensures !brk ==> forall i :: 0 <= i < |ctes| ==> CteAt(at, i) in checked
      decreases ctes, 1
    {
      hide ReadsQuery, QueryCost, FirstBad, SawView;
      ghost var s, v := Snap(), Visible(scopes);
      var i := 0;
      while i < |ctes|
        invariant 0 <= i <= |ctes|
        invariant Walked(s, Snap(), ReadsEarlier(ctes, i, v), at + [0], OwnVisits(ctes, i), false)
        invariant scopes == s.scopes
        invariant forall j :: 0 <= j < i ==> CteAt(at, j) in checked
      {
        ghost var t := Snap();
        brk := CheckBody(ctes, i, at);
        EarlierNext(ctes, i, v, s, t, Snap(), at + [0], brk);
        i := i + 1;
        if brk {
          EarlierBreaks(ctes, i, |ctes|, v, s, Snap(), at + [0]);
          return;
        }
      }
      brk := false;
    }

    /** The WITH of a query that is not skipped. */
    method CheckWith(w: With, at: Path) returns (brk: bool)
      requires skipping == 0
      modifies this
      ensures Walked(old(Snap()), Snap(), WithReads(w, Visible(old(scopes))), at + [0], PreVisits(w), brk)
      ensures scopes == old(scopes)
      ensures !brk && w.With? && !w.recursive ==> forall i :: 0 <= i < |w.ctes| ==> CteAt(at, i) in checked
      ensures !brk && w.With? && w.recursive ==> checked == old(checked)
      decreases w, 2
    {
      brk := false;
      if w.With? {
        if |w.ctes| > MAX_CTES {
          tooManyCtes := true;
          return true;
        }
        if !w.recursive {
          brk := CheckBodies(w.ctes, at);
        }
      }
    }

    method EnterBody(q: Query, at: Path) returns (brk: bool)
      requires skipping == 0
      modifies this
      ensures Walked(old(Snap()), if brk then Snap() else Snap().(scopes := old(scopes)),
                     ScanTables(q.body, Visible(old(scopes)) + Names(q.with)), at + [0], 0, brk)
      ensures checked == old(checked)
      ensures scopes == old(scopes) + [Names(q.with)]
    {
      var scope := if q.with.With? then CteNames(q.with.ctes) else {};
      VisiblePush(scopes, scope);
      scopes := scopes + [scope];
      brk := ScanBody(q.body, at + [0]);
    }

    method PreVisitQuery(q: Query, at: Path) returns (brk: bool)
      modifies this
      ensures old(skipping > 0 || at in checked) ==>
                !brk && Snap() == old(Snap()).(scopes := old(scopes) + [{}],
                                               skipping := old(skipping) + 1,
                                               visits := old(visits) + 1)
      ensures old(skipping == 0 && at !in checked) ==> Entered(old(Snap()), Snap(), q, at, brk)
      ensures brk ==> Visible(scopes) == LeftQuery(q, Visible(old(scopes)))
      decreases q, 0
    {
      hide ReadsQuery, QueryCost, FirstBad, SawView, ScanTables, WithReads, PreVisits;
      ghost var s, v := Snap(), Visible(scopes);
      visits := visits + 1;
      if skipping > 0 || at in checked {
        skipping := skipping + 1;
        scopes := scopes + [{}];
        return false;
      }
      ghost var scan := ScanTables(q.body, v + Names(q.with));
      brk := CheckWith(q.with, at);
      if brk {
        WalkedBreaks(s, Snap(), WithReads(q.with, v), scan, at + [0], at + [0], 1 + PreVisits(q.with), 0);
        LeftSplit(q, v);
        return;
      }
      ghost var t := Snap();
      brk := EnterBody(q, at);
      WalkedThen(s, t, if brk then Snap() else Snap().(scopes := s.scopes), WithReads(q.with, v), scan,
                 at + [0], at + [0], at + [0], 1 + PreVisits(q.with), 0, brk);
      if brk {
        VisiblePush(s.scopes, Names(q.with));
        LeftSplit(q, v);
      }
    }

    method PostVisitQuery()
      requires scopes != []
      modifies this
      ensures Snap() == old(Snap()).(scopes := old(scopes[..|scopes| - 1]),
                                     skipping := if old(skipping) == 0 then 0 else old(skipping) - 1)
    {
      scopes := scopes[..|scopes| - 1];
      skipping := if skipping == 0 then 0 else skipping - 1;
    }

    method VisitCte(w: With, i: nat, at: Path) returns (brk: bool)
      requires w.With? && i < |w.ctes|
      requires if w.recursive then Open(Snap(), CteAt(at, i)) else skipping > 0 || CteAt(at, i) in checked
      modifies this
      ensures Effect(old(Snap()), Snap(), CteReads(w, i, Visible(old(scopes))), CteAt(at, i), CteAgain(w, i), brk)
      ensures !w.recursive ==> !brk && checked == old(checked)
      ensures brk ==> Visible(scopes) == LeftQuery(w.ctes[i].query, Visible(old(scopes)))
      decreases w, 0
    {
      brk := VisitQuery(w.ctes[i].query, CteAt(at, i));
    }

    /** The main walk over the CTEs of a WITH. */
    method VisitCtes(w: With, at: Path) returns (brk: bool)
      requires w.With?
      requires skipping == 0 && !w.recursive ==> forall i :: 0 <= i < |w.ctes| ==> CteAt(at, i) in checked
      requires w.recursive ==> Open(Snap(), at + [0])
      modifies this
      ensures Effect(old(Snap()), Snap(), CtesReads(w, |w.ctes|, Visible(old(scopes))), at + [0],
                     CtesAgain(w, |w.ctes|), brk)
      ensures brk ==> w.recursive && Visible(scopes) == LeftRecursive(w.ctes, |w.ctes|, Visible(old(scopes)))
      decreases w, 1
    {
      hide Effect, Visible, LeftQuery, LeftRecursive, CtesReads, CteReads, CtesAgain, CteAgain, OpenFrom;
      ghost var s, v := Snap(), Visible(scopes);
      if w.recursive { AllOpen(s, at); }
      AgainStarts(w, v, s, at + [0]);
      var i := 0;
      while i < |w.ctes|
        invariant 0 <= i <= |w.ctes|
        invariant Effect(s, Snap(), CtesReads(w, i, v), at + [0], CtesAgain(w, i), false)
        invariant w.recursive ==> OpenFrom(Snap(), at, i)
        invariant !w.recursive ==> checked == s.checked
      {
        ghost var t := Snap();
        EffectKeeps(s, t, CtesReads(w, i, v), at + [0], CtesAgain(w, i));
        if w.recursive { OpenHere(t, at, i); }
        brk := VisitCte(w, i, at);
        AgainNext(w, i, v, s, t, Snap(), CteAt(at, i), at + [0], brk);
        if brk {
          AgainBreaks(w, i + 1, |w.ctes|, v, s, Snap(), at + [0]);
          LeftAtBreak(w, i, v, s, t, Snap(), at + [0]);
          return;
        }
        if w.recursive { StillOpenFrom(t, Snap(), CteReads(w, i, v), at, i, CteAgain(w, i)); }
        i := i + 1;
      }
      brk := false;
    }

    /** The main walk over a query its pre-visit let through. */
    method VisitRest(q: Query, at: Path) returns (brk: bool)
      requires q.with.With? && skipping == 0 && !q.with.recursive ==>
                 forall i :: 0 <= i < |q.with.ctes| ==> CteAt(at, i) in checked
      requires q.with.With? && q.with.recursive ==> Open(Snap(), at + [0])
      requires Open(Snap(), at + [1]) && Open(Snap(), at + [2])
      modifies this
      ensures Effect(old(Snap()), Snap(), RestReads(q, Visible(old(scopes))), at, RestCost(q), brk)
      ensures brk ==> Visible(scopes) == RestLeft(q, Visible(old(scopes)))
      decreases q, 1
    {
      ghost var s, v := Snap(), Visible(scopes);
      ghost var main := ReadsBody(q.body, v) + ReadsExpr(q.tail, v);
      ghost var mainCost := Both(BodyCost(q.body), ExprCost(q.tail));
      if q.with.With? {
        ghost var n := |q.with.ctes|;
        ghost var ctes, ctesCost := CtesReads(q.with, n, v), CtesAgain(q.with, n);
        brk := VisitCtes(q.with, at);
        if brk {
          Breaks(s, Snap(), ctes, main, at + [0], at, ctesCost, mainCost);
          return;
        }
        ghost var t := Snap();
        StillOpen(s, t, ctes, at, 0, 1, ctesCost);
        StillOpen(s, t, ctes, at, 0, 2, ctesCost);
        brk := VisitMain(q, at);
        Then(s, t, Snap(), ctes, main, at + [0], at, at, ctesCost, mainCost, brk);
      } else {
        brk := VisitMain(q, at);
      }
    }

    method VisitMain(q: Query, at: Path) returns (brk: bool)
      requires Open(Snap(), at + [1]) && Open(Snap(), at + [2])
      modifies this
      ensures Effect(old(Snap()), Snap(),
                     ReadsBody(q.body, Visible(old(scopes))) + ReadsExpr(q.tail, Visible(old(scopes))),
                     at, Both(BodyCost(q.body), ExprCost(q.tail)), brk)
      ensures brk ==> Visible(scopes) == MainLeft(q, Visible(old(scopes)))
      decreases q, 0
    {
      ghost var s, v := Snap(), Visible(scopes);
      brk := VisitBody(q.body, at + [1]);
      if brk {
        Breaks(s, Snap(), ReadsBody(q.body, v), ReadsExpr(q.tail, v), at + [1], at, BodyCost(q.body), ExprCost(q.tail));
        return;
      }
      ghost var t := Snap();
      StillOpen(s, t, ReadsBody(q.body, v), at, 1, 2, BodyCost(q.body));
      brk := VisitExpr(q.tail, at + [2]);
      Then(s, t, Snap(), ReadsBody(q.body, v), ReadsExpr(q.tail, v), at + [1], at + [2], at,
           BodyCost(q.body), ExprCost(q.tail), brk);
    }

    method VisitQuery(q: Query, at: Path) returns (brk: bool)
      requires at in checked || Open(Snap(), at)
      modifies this
      ensures old(at !in checked) ==>
                Effect(old(Snap()), Snap(), ReadsQuery(q, Visible(old(scopes))), at, QueryCost(q), brk)
      ensures old(at in checked) ==> Passed(old(Snap()), Snap(), QueryCost(q).nodes, brk)
      // Where it stops, the scopes it was in stay pushed.
      ensures brk ==> Visible(scopes) == LeftQuery(q, Visible(old(scopes)))
      decreases q, 2
    {
      hide ReadsQuery, ReadsExpr, ReadsFactor, ReadsBody, QueryCost, ExprCost, FactorCost, BodyCost, FirstBad, SawView;
      ghost var s := Snap();
      ghost var skip := skipping > 0 || at in checked;
      brk := PreVisitQuery(q, at);
      ghost var t := Snap();
      if brk {
        EnterBreaks(s, t, q, at);
        return;
      }
      if !skip {
        EnteredOpen(s, t, q, at);
        VisiblePush(s.scopes, Names(q.with));
      }
      brk := VisitRest(q, at);
      CostSplits(q);
      if !skip {
        RestFollows(s, t, Snap(), q, at, brk);
        if brk { LeftSplit(q, Visible(s.scopes)); EnteredClean(s, t, q, at); }
      }
      if !brk { PostVisitQuery(); }
    }
  }
}
