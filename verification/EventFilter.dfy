/** The event log filter compiled to a SQL fragment with ordered binds, and what
    the fragment selects. */
module EventFilter {
  import opened Wrappers
  import opened SqlText

  const PROTECTED_EVENT_TYPES := [
    "space.access_granted", "space.access_revoked", "space.moderator_read",
    "space_inspector.enabled", "space_inspector.disabled",
    "event_logs.purged", "event_logs.retention_changed"]

  datatype Protected = Include | Exclude | Only

  datatype Filter = Filter(
    eventType: Option<string>,
    category: Option<string>,
    severity: Option<string>,
    subject: Option<string>,
    after: Option<string>,
    before: Option<string>,
    protected: Protected)

  datatype Event = Event(eventType: string, severity: string, subject: Option<string>, createdAt: string)

  // ---- SQL fragments and what they mean ----

  datatype Column = EventType | Severity | Subject | CreatedAt

  datatype Token =
    | And | Or | Open | Close | Comma | Mark
    | Col(column: Column) | Eq | LikeOp | In | NotIn | AtLeast | Below

  type Sql = seq<Token>

  /** A column's text; a NULL satisfies no comparison. */
  function ColumnOf(row: Event, column: Column): Option<string> {
    match column
    case EventType => Some(row.eventType)
    case Severity => Some(row.severity)
    case Subject => row.subject
    case CreatedAt => Some(row.createdAt)
  }

  /** A value read off the front of a fragment, and what is left to read. */
  datatype Parsed = Parsed(value: bool, rest: Sql, binds: seq<string>) | Malformed

  /** `? , ? , ... )`: whether one of the binds is `text`. */
  function List(sql: Sql, binds: seq<string>, text: Option<string>): (p: Parsed)
    ensures p.Parsed? ==> |p.rest| < |sql|
  {
    if |sql| < 2 || !sql[0].Mark? || binds == [] then Malformed
    else
      var hit := text == Some(binds[0]);
      if sql[1].Close? then Parsed(hit, sql[2..], binds[1..])
      else if sql[1].Comma? then
        match List(sql[2..], binds[1..], text)
        case Malformed => Malformed
        case Parsed(v, rest, left) => Parsed(hit || v, rest, left)
      else Malformed
  }

  /** One comparison. */
  function Term(fold: bool, sql: Sql, binds: seq<string>, row: Event): (p: Parsed)
    ensures p.Parsed? ==> |p.rest| < |sql|
  {
    if |sql| < 3 || !sql[0].Col? then Malformed
    else
      var text := ColumnOf(row, sql[0].column);
      if (sql[1].In? || sql[1].NotIn?) && sql[2].Open? then
        match List(sql[3..], binds, text)
        case Malformed => Malformed
        case Parsed(v, rest, left) => Parsed(text.Some? && v == sql[1].In?, rest, left)
      else if !sql[2].Mark? || binds == [] then Malformed
      else
        var rest, left, bind := sql[3..], binds[1..], binds[0];
        match sql[1]
        case Eq => Parsed(text == Some(bind), rest, left)
        case LikeOp => Parsed(text.Some? && Like(fold, bind, text.value), rest, left)
        case AtLeast => Parsed(text.Some? && !Less(text.value, bind), rest, left)
        case Below => Parsed(text.Some? && Less(text.value, bind), rest, left)
        case _ => Malformed
  }

  /** `term OR term ... )`. */
  function Any(fold: bool, sql: Sql, binds: seq<string>, row: Event): (p: Parsed)
    ensures p.Parsed? ==> |p.rest| < |sql|
    decreases |sql|
  {
    match Term(fold, sql, binds, row)
    case Malformed => Malformed
    case Parsed(v, rest, left) =>
      if rest == [] then Malformed
      else if rest[0].Close? then Parsed(v, rest[1..], left)
      else if rest[0].Or? then
        match Any(fold, rest[1..], left, row)
        case Malformed => Malformed
        case Parsed(w, more, last) => Parsed(v || w, more, last)
      else Malformed
  }

  function Clause(fold: bool, sql: Sql, binds: seq<string>, row: Event): (p: Parsed)
    ensures p.Parsed? ==> |p.rest| < |sql|
  {
    if sql != [] && sql[0].Open? then Any(fold, sql[1..], binds, row) else Term(fold, sql, binds, row)
  }

  /** The fragment after `WHERE 1=1`, each mark taking the next bind. None when it
      does not parse or the binds do not come out even. */
  function Where(fold: bool, sql: Sql, binds: seq<string>, row: Event): Option<bool>
    decreases |sql|
  {
    if sql == [] then if binds == [] then Some(true) else None
    else if !sql[0].And? then None
    else
      match Clause(fold, sql[1..], binds, row)
      case Malformed => None
      case Parsed(v, rest, left) =>
        match Where(fold, rest, left, row)
        case None => None
        case Some(w) => Some(v && w)
  }

  // ---- The field-by-field meaning ----

  /** The parts of a comma-separated list; there is always one. */
  function Split(s: string): (parts: seq<string>)
    ensures parts != []
  {
    if s == [] then [""]
    else
      var parts := Split(s[1..]);
      if s[0] == ',' then [""] + parts else [[s[0]] + parts[0]] + parts[1..]
  }

  function Joined(parts: seq<string>): string
    requires parts != []
  {
    if |parts| == 1 then parts[0] else parts[0] + "," + Joined(parts[1..])
  }

  predicate NoComma(parts: seq<string>) {
    forall i :: 0 <= i < |parts| ==> ',' !in parts[i]
  }

  /** Splitting is the one way to write a list as parts without commas. */
  lemma {:induction false} SplitJoins(s: string)
    ensures Joined(Split(s)) == s && NoComma(Split(s))
  {
    if s != [] {
      var parts := Split(s[1..]);
      SplitJoins(s[1..]);
      if s[0] == ',' {
        assert ([""] + parts)[1..] == parts;
        assert Joined([""] + parts) == "" + "," + s[1..];
        assert NoComma([""] + parts);
      } else {
        var first := [s[0]] + parts[0];
        assert ([first] + parts[1..])[1..] == parts[1..];
        assert Joined([first] + parts[1..]) == [s[0]] + Joined(parts);
        assert NoComma([first] + parts[1..]);
      }
      assert s == [s[0]] + s[1..];
    }
  }

  lemma {:induction false} JoinSplits(parts: seq<string>)
    requires parts != [] && NoComma(parts)
    ensures Split(Joined(parts)) == parts
    decreases |parts|, |parts[0]|
  {
    var s, first := Joined(parts), parts[0];
    if first == [] {
      if |parts| == 1 {
        assert parts == [""];
      } else {
        JoinSplits(parts[1..]);
        assert s == "," + Joined(parts[1..]);
        assert parts == [""] + parts[1..];
      }
    } else {
      var less := [first[1..]] + parts[1..];
      assert less[1..] == parts[1..];
      assert first == [first[0]] + first[1..] && ',' !in first[1..];
      assert s == [first[0]] + Joined(less);
      JoinSplits(less);
      assert [[first[0]] + less[0]] + less[1..] == parts;
    }
  }

  predicate IsProtected(eventType: string) {
    eventType in PROTECTED_EVENT_TYPES
  }

  /** Some part, with `.%` after it, is LIKE the event type. */
  predicate InCategory(fold: bool, parts: seq<string>, eventType: string) {
    exists i :: 0 <= i < |parts| && Like(fold, parts[i] + ".%", eventType)
  }

  predicate ProtectedMatches(protected: Protected, eventType: string) {
    match protected
    case Include => true
    case Exclude => !IsProtected(eventType)
    case Only => IsProtected(eventType)
  }

  predicate Selects(fold: bool, f: Filter, row: Event) {
    && (f.eventType.Some? ==> row.eventType == f.eventType.value)
    && (f.category.Some? ==> InCategory(fold, Split(f.category.value), row.eventType))
    && (f.severity.Some? ==> row.severity in Split(f.severity.value))
    && (f.subject.Some? ==> row.subject.Some? && Like(fold, "%" + f.subject.value + "%", row.subject.value))
    && (f.after.Some? ==> !Less(row.createdAt, f.after.value))
    && (f.before.Some? ==> Less(row.createdAt, f.before.value))
    && ProtectedMatches(f.protected, row.eventType)
  }

  // ---- The builder ----

  /** A fragment and its binds. */
  datatype Fragment = Fragment(sql: Sql, binds: seq<string>)

  function Plus(a: Fragment, b: Fragment): Fragment {
    Fragment(a.sql + b.sql, a.binds + b.binds)
  }

  function Marks(n: nat): Sql {
    if n == 0 then [] else if n == 1 then [Mark] else [Mark, Comma] + Marks(n - 1)
  }

  function LikeTerms(n: nat): Sql {
    if n == 0 then []
    else if n == 1 then [Col(EventType), LikeOp, Mark]
    else [Col(EventType), LikeOp, Mark, Or] + LikeTerms(n - 1)
  }

  function Dotted(parts: seq<string>): (r: seq<string>)
    ensures |r| == |parts| && forall i :: 0 <= i < |parts| ==> r[i] == parts[i] + ".%"
  {
    if parts == [] then [] else [parts[0] + ".%"] + Dotted(parts[1..])
  }

  function OneOf(column: Column, op: Token, values: seq<string>): Fragment {
    Fragment([And, Col(column), op, Open] + Marks(|values|) + [Close], values)
  }

  function Compare(column: Column, op: Token, value: string): Fragment {
    Fragment([And, Col(column), op, Mark], [value])
  }

  function Categories(parts: seq<string>): Fragment {
    Fragment([And, Open] + LikeTerms(|parts|) + [Close], Dotted(parts))
  }

  /** `build`: each field that is set pushes its clause and its binds. */
  method Build(f: Filter) returns (out: Fragment)
    ensures forall fold, row :: Where(fold, out.sql, out.binds, row) == Some(Selects(fold, f, row))
  {
    hide Plus, Compare, Categories, OneOf, Where, Selects, Nothing;
    out := Nothing();
    if f.eventType.Some? {
      out := Plus(out, Compare(EventType, Eq, f.eventType.value));
    }
    ghost var p1 := Step(Nothing(), TypePiece(f), out);
    if f.category.Some? {
      var parts := Split(f.category.value);
      out := Plus(out, Categories(parts));
    }
    ghost var p2 := Step(p1, CategoryPiece(f), out);
    if f.severity.Some? {
      var parts := Split(f.severity.value);
      out := Plus(out, OneOf(Severity, In, parts));
    }
    ghost var p3 := Step(p2, SeverityPiece(f), out);
    if f.subject.Some? {
      out := Plus(out, Compare(Subject, LikeOp, "%" + f.subject.value + "%"));
    }
    ghost var p4 := Step(p3, SubjectPiece(f), out);
    if f.after.Some? {
      out := Plus(out, Compare(CreatedAt, AtLeast, f.after.value));
    }
    ghost var p5 := Step(p4, AfterPiece(f), out);
    if f.before.Some? {
      out := Plus(out, Compare(CreatedAt, Below, f.before.value));
    }
    ghost var p6 := Step(p5, BeforePiece(f), out);
    match f.protected {
      case Include =>
      case Exclude => out := Plus(out, OneOf(EventType, NotIn, PROTECTED_EVENT_TYPES));
      case Only => out := Plus(out, OneOf(EventType, In, PROTECTED_EVENT_TYPES));
    }
    ghost var p7 := Step(p6, ProtectedPiece(f), out);
    CompiledAlwaysMeans(f);
  }

  lemma {:induction false} CompiledAlwaysMeans(f: Filter)
    ensures forall fold, row :: Where(fold, Compiled(f).sql, Compiled(f).binds, row) == Some(Selects(fold, f, row))
  {
    hide Compiled, Where, Selects;
    forall fold, row
      ensures Where(fold, Compiled(f).sql, Compiled(f).binds, row) == Some(Selects(fold, f, row))
    {
      CompiledMeans(fold, f, row);
    }
  }

  /** Pushing a piece, or nothing when the piece is nothing. */
  lemma Step(before: Fragment, piece: Fragment, out: Fragment) returns (after: Fragment)
    requires out == Plus(before, piece) || (piece == Nothing() && out == before)
    ensures after == out == Plus(before, piece)
  {
    after := out;
    if piece == Nothing() { assert before.sql + [] == before.sql && before.binds + [] == before.binds; }
  }

  function Nothing(): Fragment { Fragment([], []) }

  function TypePiece(f: Filter): Fragment {
    if f.eventType.Some? then Compare(EventType, Eq, f.eventType.value) else Nothing()
  }

  function CategoryPiece(f: Filter): Fragment {
    if f.category.Some? then Categories(Split(f.category.value)) else Nothing()
  }

  function SeverityPiece(f: Filter): Fragment {
    if f.severity.Some? then OneOf(Severity, In, Split(f.severity.value)) else Nothing()
  }

  function SubjectPiece(f: Filter): Fragment {
    if f.subject.Some? then Compare(Subject, LikeOp, "%" + f.subject.value + "%") else Nothing()
  }

  function AfterPiece(f: Filter): Fragment {
    if f.after.Some? then Compare(CreatedAt, AtLeast, f.after.value) else Nothing()
  }

  function BeforePiece(f: Filter): Fragment {
    if f.before.Some? then Compare(CreatedAt, Below, f.before.value) else Nothing()
  }

  function ProtectedPiece(f: Filter): Fragment {
    match f.protected
    case Include => Nothing()
    case Exclude => OneOf(EventType, NotIn, PROTECTED_EVENT_TYPES)
    case Only => OneOf(EventType, In, PROTECTED_EVENT_TYPES)
  }

  function Compiled(f: Filter): Fragment {
    Plus(Plus(Plus(Plus(Plus(Plus(Plus(Nothing(), TypePiece(f)), CategoryPiece(f)), SeverityPiece(f)),
                        SubjectPiece(f)), AfterPiece(f)), BeforePiece(f)), ProtectedPiece(f))
  }

  // ---- What each piece means ----

  /** The fragment means `v` for the row, whatever follows it. */
  ghost predicate Means(fold: bool, row: Event, frag: Fragment, v: bool) {
    forall rest, more :: MeansThen(fold, row, frag, v, rest, more)
  }

  predicate MeansThen(fold: bool, row: Event, frag: Fragment, v: bool, rest: Sql, more: seq<string>) {
    Where(fold, frag.sql + rest, frag.binds + more, row) == Both(v, Where(fold, rest, more, row))
  }

  function Both(v: bool, w: Option<bool>): Option<bool> {
    match w case None => None case Some(x) => Some(v && x)
  }

  lemma {:induction false} NothingMeans(fold: bool, row: Event)
    ensures Means(fold, row, Nothing(), true)
  {
    hide Where;
    var none := Nothing();
    forall rest: Sql, more: seq<string>
      ensures MeansThen(fold, row, none, true, rest, more)
    {
      assert [] + rest == rest && [] + more == more;
    }
  }

  lemma {:induction false} PlusMeans(fold: bool, row: Event, a: Fragment, u: bool, b: Fragment, v: bool)
    requires Means(fold, row, a, u) && Means(fold, row, b, v)
    ensures Means(fold, row, Plus(a, b), u && v)
  {
    hide Where;
    var sum, w := Plus(a, b), u && v;
    forall rest: Sql, more: seq<string>
      ensures MeansThen(fold, row, sum, w, rest, more)
    {
      assert MeansThen(fold, row, b, v, rest, more);
      assert MeansThen(fold, row, a, u, b.sql + rest, b.binds + more);
      assert (a.sql + b.sql) + rest == a.sql + (b.sql + rest);
      assert (a.binds + b.binds) + more == a.binds + (b.binds + more);
    }
  }

  /** A clause after AND is read whole, whatever follows it. */
  predicate ReadsThen(fold: bool, row: Event, frag: Fragment, v: bool, rest: Sql, more: seq<string>) {
    && frag.sql != [] && frag.sql[0] == And
    && Clause(fold, frag.sql[1..] + rest, frag.binds + more, row) == Parsed(v, rest, more)
  }

  lemma {:induction false} ClauseMeans(fold: bool, row: Event, frag: Fragment, v: bool)
    requires forall rest, more :: ReadsThen(fold, row, frag, v, rest, more)
    ensures Means(fold, row, frag, v)
  {
    forall rest: Sql, more: seq<string>
      ensures MeansThen(fold, row, frag, v, rest, more)
    {
      assert ReadsThen(fold, row, frag, v, rest, more);
      WhereAnd(fold, row, frag, v, rest, more);
    }
  }

  lemma {:induction false} WhereAnd(fold: bool, row: Event, frag: Fragment, v: bool, rest: Sql, more: seq<string>)
    requires ReadsThen(fold, row, frag, v, rest, more)
    ensures MeansThen(fold, row, frag, v, rest, more)
  {
    hide Clause;
    assert (frag.sql + rest)[1..] == frag.sql[1..] + rest;
  }

  lemma {:induction false} CompareMeans(fold: bool, row: Event, column: Column, op: Token, value: string, v: bool)
    requires op.Eq? || op.LikeOp? || op.AtLeast? || op.Below?
    requires Term(fold, [Col(column), op, Mark], [value], row) == Parsed(v, [], [])
    ensures Means(fold, row, Compare(column, op, value), v)
  {
    var frag := Compare(column, op, value);
    forall rest: Sql, more: seq<string>
      ensures ReadsThen(fold, row, frag, v, rest, more)
    {
      var sql := frag.sql[1..] + rest;
      assert sql[3..] == rest && (frag.binds + more)[1..] == more;
    }
    ClauseMeans(fold, row, frag, v);
  }

  /** One mark and what follows it. */
  lemma {:induction false} ListLast(bind: string, text: Option<string>, rest: Sql, more: seq<string>)
    ensures List([Mark, Close] + rest, [bind] + more, text) == Parsed(text == Some(bind), rest, more)
  {
    assert ([Mark, Close] + rest)[2..] == rest && ([bind] + more)[1..] == more;
  }

  lemma {:induction false} ListNext(bind: string, text: Option<string>, sql: Sql, binds: seq<string>)
    ensures List([Mark, Comma] + sql, [bind] + binds, text) ==
            match List(sql, binds, text)
            case Malformed => Malformed
            case Parsed(v, rest, left) => Parsed(text == Some(bind) || v, rest, left)
  {
    assert ([Mark, Comma] + sql)[2..] == sql && ([bind] + binds)[1..] == binds;
  }

  lemma {:induction false} ListMeans(values: seq<string>, text: Option<string>, rest: Sql, more: seq<string>)
    requires values != []
    ensures List(Marks(|values|) + [Close] + rest, values + more, text) ==
            Parsed(text.Some? && text.value in values, rest, more)
  {
    hide List;
    assert values + more == [values[0]] + (values[1..] + more);
    if |values| == 1 {
      assert Marks(1) + [Close] + rest == [Mark, Close] + rest && values[1..] + more == more;
      ListLast(values[0], text, rest, more);
    } else {
      var next := Marks(|values| - 1) + [Close] + rest;
      assert Marks(|values|) + [Close] + rest == [Mark, Comma] + next;
      ListNext(values[0], text, next, values[1..] + more);
      ListMeans(values[1..], text, rest, more);
      assert values == [values[0]] + values[1..];
    }
  }

  /** A list comparison reads the column, the operator, the opening and the list. */
  lemma {:induction false} TermIn(fold: bool, row: Event, column: Column, op: Token, sql: Sql, binds: seq<string>,
                                  v: bool, rest: Sql, more: seq<string>)
    requires op.In? || op.NotIn?
    requires List(sql, binds, ColumnOf(row, column)) == Parsed(v, rest, more)
    ensures Clause(fold, [Col(column), op, Open] + sql, binds, row) ==
            Parsed(ColumnOf(row, column).Some? && v == op.In?, rest, more)
  {
    hide List, Like, ColumnOf;
    assert ([Col(column), op, Open] + sql)[3..] == sql;
  }

  lemma {:induction false} OneOfReads(fold: bool, row: Event, column: Column, op: Token, values: seq<string>,
                                      rest: Sql, more: seq<string>)
    requires values != [] && (op.In? || op.NotIn?)
    ensures var text := ColumnOf(row, column);
            ReadsThen(fold, row, OneOf(column, op, values), text.Some? && (text.value in values) == op.In?, rest, more)
  {
    hide List, Like, ColumnOf, Clause, Marks;
    var frag, text := OneOf(column, op, values), ColumnOf(row, column);
    var list := Marks(|values|) + [Close] + rest;
    assert frag.sql[1..] + rest == [Col(column), op, Open] + list;
    ListMeans(values, text, rest, more);
    TermIn(fold, row, column, op, list, values + more, text.Some? && text.value in values, rest, more);
  }

  lemma {:induction false} OneOfMeans(fold: bool, row: Event, column: Column, op: Token, values: seq<string>)
    requires values != [] && (op.In? || op.NotIn?)
    ensures var text := ColumnOf(row, column);
            Means(fold, row, OneOf(column, op, values), text.Some? && (text.value in values) == op.In?)
  {
    hide OneOf, ColumnOf, ReadsThen, Means;
    var frag, text := OneOf(column, op, values), ColumnOf(row, column);
    var v := text.Some? && (text.value in values) == op.In?;
    forall rest: Sql, more: seq<string>
      ensures ReadsThen(fold, row, frag, v, rest, more)
    {
      OneOfReads(fold, row, column, op, values, rest, more);
    }
    ClauseMeans(fold, row, frag, v);
  }

  lemma {:induction false} TermLike(fold: bool, row: Event, bind: string, rest: Sql, more: seq<string>)
    ensures Term(fold, [Col(EventType), LikeOp, Mark] + rest, [bind] + more, row) ==
            Parsed(Like(fold, bind, row.eventType), rest, more)
  {
    hide Like;
    assert ([Col(EventType), LikeOp, Mark] + rest)[3..] == rest && ([bind] + more)[1..] == more;
  }

  lemma {:induction false} AnyLast(fold: bool, row: Event, bind: string, rest: Sql, more: seq<string>)
    ensures Any(fold, [Col(EventType), LikeOp, Mark] + ([Close] + rest), [bind] + more, row) ==
            Parsed(Like(fold, bind, row.eventType), rest, more)
  {
    hide Like, Term;
    TermLike(fold, row, bind, [Close] + rest, more);
    assert ([Close] + rest)[1..] == rest;
  }

  lemma {:induction false} AnyNext(fold: bool, row: Event, bind: string, next: Sql, left: seq<string>, v: bool,
                                   rest: Sql, more: seq<string>)
    requires Any(fold, next, left, row) == Parsed(v, rest, more)
    ensures Any(fold, [Col(EventType), LikeOp, Mark] + ([Or] + next), [bind] + left, row) ==
            Parsed(Like(fold, bind, row.eventType) || v, rest, more)
  {
    hide Like, Term;
    TermLike(fold, row, bind, [Or] + next, left);
    assert ([Or] + next)[1..] == next;
  }

  lemma {:induction false} LikeTermsSplit(n: nat, rest: Sql)
    requires n > 0
    ensures LikeTerms(n) + [Close] + rest ==
            [Col(EventType), LikeOp, Mark]
            + (if n == 1 then [Close] + rest else [Or] + (LikeTerms(n - 1) + [Close] + rest))
  {
    assert n > 1 ==> [Col(EventType), LikeOp, Mark, Or] == [Col(EventType), LikeOp, Mark] + [Or];
  }

  lemma {:induction false} AnyMeans(fold: bool, row: Event, parts: seq<string>, rest: Sql, more: seq<string>)
    requires parts != []
    ensures Any(fold, LikeTerms(|parts|) + [Close] + rest, Dotted(parts) + more, row) ==
            Parsed(InCategory(fold, parts, row.eventType), rest, more)
  {
    hide Any, Like, LikeTerms, InCategory;
    var bind, left := parts[0] + ".%", Dotted(parts[1..]) + more;
    assert Dotted(parts) + more == [bind] + left;
    InCategorySplits(fold, parts, row.eventType);
    LikeTermsSplit(|parts|, rest);
    if |parts| == 1 {
      assert parts[1..] == [] && left == more;
      AnyLast(fold, row, bind, rest, more);
    } else {
      AnyMeans(fold, row, parts[1..], rest, more);
      AnyNext(fold, row, bind, LikeTerms(|parts| - 1) + [Close] + rest, left,
              InCategory(fold, parts[1..], row.eventType), rest, more);
    }
  }

  lemma InCategorySplits(fold: bool, parts: seq<string>, eventType: string)
    requires parts != []
    ensures InCategory(fold, parts, eventType) <==>
            Like(fold, parts[0] + ".%", eventType) || (|parts| > 1 && InCategory(fold, parts[1..], eventType))
  {
    if i :| 0 < i < |parts| && Like(fold, parts[i] + ".%", eventType) {
      assert parts[1..][i - 1] == parts[i];
    }
  }

  lemma {:induction false} CategoriesMean(fold: bool, row: Event, parts: seq<string>)
    requires parts != []
    ensures Means(fold, row, Categories(parts), InCategory(fold, parts, row.eventType))
  {
    var frag, v := Categories(parts), InCategory(fold, parts, row.eventType);
    forall rest: Sql, more: seq<string>
      ensures ReadsThen(fold, row, frag, v, rest, more)
    {
      var sql := frag.sql[1..] + rest;
      assert sql[1..] == LikeTerms(|parts|) + [Close] + rest;
      AnyMeans(fold, row, parts, rest, more);
    }
    ClauseMeans(fold, row, frag, v);
  }

  lemma {:induction false} TypeMeans(fold: bool, f: Filter, row: Event)
    ensures Means(fold, row, TypePiece(f), f.eventType.Some? ==> row.eventType == f.eventType.value)
  {
    if f.eventType.Some? {
      CompareMeans(fold, row, EventType, Eq, f.eventType.value, row.eventType == f.eventType.value);
    } else {
      NothingMeans(fold, row);
    }
  }

  lemma {:induction false} CategoryMeans(fold: bool, f: Filter, row: Event)
    ensures Means(fold, row, CategoryPiece(f),
                  f.category.Some? ==> InCategory(fold, Split(f.category.value), row.eventType))
  {
    if f.category.Some? { CategoriesMean(fold, row, Split(f.category.value)); } else { NothingMeans(fold, row); }
  }

  lemma {:induction false} SeverityMeans(fold: bool, f: Filter, row: Event)
    ensures Means(fold, row, SeverityPiece(f), f.severity.Some? ==> row.severity in Split(f.severity.value))
  {
    if f.severity.Some? {
      OneOfMeans(fold, row, Severity, In, Split(f.severity.value));
    } else {
      NothingMeans(fold, row);
    }
  }

  lemma {:induction false} SubjectMeans(fold: bool, f: Filter, row: Event)
    ensures Means(fold, row, SubjectPiece(f), f.subject.Some? ==>
                    row.subject.Some? && Like(fold, "%" + f.subject.value + "%", row.subject.value))
  {
    if f.subject.Some? {
      var p := "%" + f.subject.value + "%";
      CompareMeans(fold, row, Subject, LikeOp, p, row.subject.Some? && Like(fold, p, row.subject.value));
    } else {
      NothingMeans(fold, row);
    }
  }

  lemma {:induction false} TimesMean(fold: bool, f: Filter, row: Event)
    ensures Means(fold, row, AfterPiece(f), f.after.Some? ==> !Less(row.createdAt, f.after.value))
    ensures Means(fold, row, BeforePiece(f), f.before.Some? ==> Less(row.createdAt, f.before.value))
  {
    NothingMeans(fold, row);
    if f.after.Some? {
      CompareMeans(fold, row, CreatedAt, AtLeast, f.after.value, !Less(row.createdAt, f.after.value));
    }
    if f.before.Some? {
      CompareMeans(fold, row, CreatedAt, Below, f.before.value, Less(row.createdAt, f.before.value));
    }
  }

  lemma {:induction false} ProtectedMeans(fold: bool, f: Filter, row: Event)
    ensures Means(fold, row, ProtectedPiece(f), ProtectedMatches(f.protected, row.eventType))
  {
    match f.protected
    case Include => NothingMeans(fold, row);
    case Exclude => OneOfMeans(fold, row, EventType, NotIn, PROTECTED_EVENT_TYPES);
    case Only => OneOfMeans(fold, row, EventType, In, PROTECTED_EVENT_TYPES);
  }

  /** The compiled fragment selects what the fields say, and its marks and binds
      come out even. */
  lemma {:induction false} CompiledMeans(fold: bool, f: Filter, row: Event)
    ensures Where(fold, Compiled(f).sql, Compiled(f).binds, row) == Some(Selects(fold, f, row))
  {
    hide Means, TypePiece, CategoryPiece, SeverityPiece, SubjectPiece, AfterPiece, BeforePiece, ProtectedPiece, Plus;
    TypeMeans(fold, f, row);
    CategoryMeans(fold, f, row);
    SeverityMeans(fold, f, row);
    SubjectMeans(fold, f, row);
    TimesMean(fold, f, row);
    ProtectedMeans(fold, f, row);
    var u1 := f.eventType.Some? ==> row.eventType == f.eventType.value;
    var u2 := f.category.Some? ==> InCategory(fold, Split(f.category.value), row.eventType);
    var u3 := f.severity.Some? ==> row.severity in Split(f.severity.value);
    var u4 := f.subject.Some? ==>
                row.subject.Some? && Like(fold, "%" + f.subject.value + "%", row.subject.value);
    var u5 := f.after.Some? ==> !Less(row.createdAt, f.after.value);
    var u6 := f.before.Some? ==> Less(row.createdAt, f.before.value);
    var u7 := ProtectedMatches(f.protected, row.eventType);
    NothingMeans(fold, row);
    var p1 := Plus(Nothing(), TypePiece(f));
    var p2 := Plus(p1, CategoryPiece(f));
    var p3 := Plus(p2, SeverityPiece(f));
    var p4 := Plus(p3, SubjectPiece(f));
    var p5 := Plus(p4, AfterPiece(f));
    var p6 := Plus(p5, BeforePiece(f));
    PlusMeans(fold, row, Nothing(), true, TypePiece(f), u1);
    PlusMeans(fold, row, p1, u1, CategoryPiece(f), u2);
    PlusMeans(fold, row, p2, u1 && u2, SeverityPiece(f), u3);
    PlusMeans(fold, row, p3, u1 && u2 && u3, SubjectPiece(f), u4);
    PlusMeans(fold, row, p4, u1 && u2 && u3 && u4, AfterPiece(f), u5);
    PlusMeans(fold, row, p5, u1 && u2 && u3 && u4 && u5, BeforePiece(f), u6);
    PlusMeans(fold, row, p6, u1 && u2 && u3 && u4 && u5 && u6, ProtectedPiece(f), u7);
    WholeMeans(fold, row, Compiled(f), u1 && u2 && u3 && u4 && u5 && u6 && u7);
  }

  lemma {:induction false} WholeMeans(fold: bool, row: Event, frag: Fragment, v: bool)
    requires Means(fold, row, frag, v)
    ensures Where(fold, frag.sql, frag.binds, row) == Some(v)
  {
    assert MeansThen(fold, row, frag, v, [], []);
    assert frag.sql + [] == frag.sql && frag.binds + [] == frag.binds;
  }

  /** The lower bound takes in its own moment and the upper one does not: between
      them, at one moment, they share out what a filter without bounds selects. */
  lemma {:induction false} BoundsPartition(fold: bool, f: Filter, t: string, row: Event)
    requires f.after.None? && f.before.None?
    ensures var later, earlier := Selects(fold, f.(after := Some(t)), row), Selects(fold, f.(before := Some(t)), row);
            && (later || earlier <==> Selects(fold, f, row)) && !(later && earlier)
            && (row.createdAt == t ==> !earlier)
  {
    hide Like, Split, InCategory, IsProtected;
    LessSelf(t);
  }

  /** Exclude and Only share out what Include selects, and nothing is in both. */
  lemma ProtectedPartitions(fold: bool, f: Filter, row: Event)
    ensures var excluded := Selects(fold, f.(protected := Exclude), row);
            var only := Selects(fold, f.(protected := Only), row);
            && (Selects(fold, f.(protected := Include), row) <==> excluded || only)
            && !(excluded && only)
            && (only ==> IsProtected(row.eventType)) && (excluded ==> !IsProtected(row.eventType))
  {
  }

  // ---- When LIKE means what the fields are documented to mean ----

  predicate HasWildcard(s: string) {
    '%' in s || '_' in s
  }

  /** A text that fits the pattern `s` without being `s`, when it has wildcards. */
  function Filled(s: string): (t: string)
    ensures |t| == |s|
    ensures forall i :: 0 <= i < |s| ==> t[i] == if s[i] == '%' || s[i] == '_' then 'a' else s[i]
  {
    if s == [] then [] else [if s[0] == '%' || s[0] == '_' then 'a' else s[0]] + Filled(s[1..])
  }

  lemma {:induction false} LikeFilled(fold: bool, s: string, rest: string, t: string)
    requires Like(fold, rest, t)
    ensures Like(fold, s + rest, Filled(s) + t)
  {
    if s == [] {
      assert s + rest == rest && Filled(s) + t == t;
    } else {
      assert (s + rest)[1..] == s[1..] + rest;
      assert (Filled(s) + t)[1..] == Filled(s[1..]) + t;
      LikeFilled(fold, s[1..], rest, t);
    }
  }

  lemma {:induction false} LikeRest(fold: bool, t: string)
    ensures Like(fold, "%", t)
  {
    LikePercent(fold, "", t);
    assert "%" + "" == "%" && t[|t|..] == "";
    assert GoesOn(fold, "", t, |t|);
  }

  /** The same text, up to ASCII case where LIKE folds it. */
  predicate Same(fold: bool, s: string, t: string) {
    |s| == |t| && forall i :: 0 <= i < |s| ==> s[i] == t[i] || (fold && Lower(s[i]) == Lower(t[i]))
  }

  lemma {:induction false} PlainFits(fold: bool, s: string, t: string)
    requires !HasWildcard(s) && |s| == |t|
    ensures Literal(s) && (Fits(fold, s, t) <==> Same(fold, s, t))
  {
    assert forall i :: 0 <= i < |s| ==> s[i] in s;
  }

  predicate OccursAt(fold: bool, t: string, s: string, k: nat) {
    k + |s| <= |t| && Same(fold, s, t[k..k + |s|])
  }

  ghost predicate Contains(fold: bool, t: string, s: string) {
    exists k: nat :: OccursAt(fold, t, s, k)
  }

  predicate StartsWith(fold: bool, t: string, s: string) {
    |s| <= |t| && Same(fold, s, t[..|s|])
  }

  /** The subject filter is a substring match for every subject exactly when it
      has no wildcard in it. */
  lemma {:induction false} SubjectIsSubstringExactly(fold: bool, s: string)
    ensures (forall t: string :: Like(fold, "%" + s + "%", t) <==> Contains(fold, t, s)) <==> !HasWildcard(s)
  {
    hide Like, HasWildcard, Contains;
    assert "%" + s + "%" == "%" + (s + "%");
    if HasWildcard(s) {
      var t := Filled(s);
      LikeRest(fold, "");
      LikeFilled(fold, s, "%", "");
      LikePercent(fold, s + "%", t);
      GoesOnHere(fold, s + "%", t);
      assert t + "" == t;
      FilledDiffers(fold, s);
    } else {
      forall t: string
        ensures Like(fold, "%" + s + "%", t) <==> Contains(fold, t, s)
      {
        SubstringLike(fold, s, t);
      }
    }
  }

  lemma {:induction false} FilledDiffers(fold: bool, s: string)
    requires HasWildcard(s)
    ensures !Same(fold, s, Filled(s)) && !Contains(fold, Filled(s), s)
  {
    var i :| 0 <= i < |s| && (s[i] == '%' || s[i] == '_');
    assert Filled(s)[i] == 'a';
    assert Filled(s)[0..|s|] == Filled(s);
  }

  lemma {:induction false} SubstringLike(fold: bool, s: string, t: string)
    requires !HasWildcard(s)
    ensures Like(fold, "%" + (s + "%"), t) <==> Contains(fold, t, s)
  {
    hide Like, HasWildcard, Same;
    LikePercent(fold, s + "%", t);
    forall k: nat
      ensures GoesOn(fold, s + "%", t, k) <==> OccursAt(fold, t, s, k)
    {
      if k <= |t| {
        PlainPrefixLike(fold, s, t[k..]);
        if k + |s| <= |t| { assert t[k..][..|s|] == t[k..k + |s|]; }
      }
    }
  }

  lemma {:induction false} PlainPrefixLike(fold: bool, s: string, t: string)
    requires !HasWildcard(s)
    ensures Like(fold, s + "%", t) <==> StartsWith(fold, t, s)
  {
    hide Like, HasWildcard, Same, Fits, Literal;
    PlainFits(fold, s, s);
    LikeLiteral(fold, s, "%", t);
    if |s| <= |t| {
      PlainFits(fold, s, t[..|s|]);
      LikeRest(fold, t[|s|..]);
    }
  }

  /** A category part is a prefix of event types exactly when it has no wildcard. */
  lemma {:induction false} CategoryIsPrefixExactly(fold: bool, part: string)
    ensures (forall t: string :: Like(fold, part + ".%", t) <==> StartsWith(fold, t, part + "."))
            <==> !HasWildcard(part)
  {
    hide Like;
    if HasWildcard(part) {
      WildcardIsNoPrefix(fold, part);
    } else {
      assert part + ".%" == (part + ".") + "%" && !HasWildcard(part + ".");
      forall t: string
        ensures Like(fold, part + ".%", t) <==> StartsWith(fold, t, part + ".")
      {
        PlainPrefixLike(fold, part + ".", t);
      }
    }
  }

  lemma {:induction false} WildcardIsNoPrefix(fold: bool, part: string)
    requires HasWildcard(part)
    ensures var t := Filled(part) + "."; Like(fold, part + ".%", t) && !StartsWith(fold, t, part + ".")
  {
    hide Like, HasWildcard;
    var t := Filled(part) + ".";
    FilledDiffers(fold, part);
    LikeRest(fold, "");
    LikeLiteral(fold, ".", "%", ".");
    assert "." + "%" == ".%" && "."[..1] == "." && "."[1..] == "";
    LikeFilled(fold, part, ".%", ".");
    assert t[..|part + "."|] == t;
    assert forall i :: 0 <= i < |part| ==> (part + ".")[i] == part[i] && t[i] == Filled(part)[i];
  }
}
