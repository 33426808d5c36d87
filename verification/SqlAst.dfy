/** The part of the SQL syntax tree that the record-view classifier walks, and
    how names in it are compared. */
module SqlAst {
  import opened Wrappers
  import SqlText

  datatype Ident = Ident(value: string, quoted: bool)

  /** A part of an object name: an identifier, or something computed. */
  datatype NamePart = Name(ident: Ident) | Computed

  /** A query; `tail` stands for ORDER BY, LIMIT and the clauses after the
      body, and `shape` for which of them there are. */
  datatype Query = Query(with: With, body: SetExpr, tail: Expr, shape: nat)

  datatype With = NoWith | With(recursive: bool, ctes: seq<Cte>)

  datatype Cte = Cte(alias: Ident, query: Query)

  datatype SetExpr =
    | Select(items: Expr, from: Factor, filter: Expr)
    | Values(rows: Expr)
    | Table(schema: Option<string>, name: Option<string>)
    | Nested(query: Query)
    | SetOp(op: nat, left: SetExpr, right: SetExpr)

  /** An item of FROM. `Relation` is a table named without arguments and
      `Function` one with them; a comma list is a chain of `Joined`. */
  datatype Factor =
    | NoFrom
    | Relation(parts: seq<NamePart>, text: string)
    | Function(text: string, args: Expr)
    | Derived(query: Query)
    | Joined(left: Factor, right: Factor, on: Expr)

  /** An expression. `Apply` nests for any number of arguments, and `Sub` is a
      subquery with the operator around it (EXISTS, IN, a scalar). */
  datatype Expr =
    | Leaf(column: nat)
    | Apply(op: nat, left: Expr, right: Expr)
    | Sub(op: nat, arg: Expr, query: Query)

  /** A relation as a query names it once its CTE names are resolved. */
  datatype RelName = RelName(schema: Option<string>, name: string)

  const RECORD_VIEWS: set<string> :=
    {"happyview_records", "happyview_record_refs", "happyview_records_by_collection"}

  const VIEW_SCHEMAS: set<string> := {"main", "public"}

  const MAX_CTES: nat := 1000

  function Lowered(s: string): string {
    seq(|s|, i requires 0 <= i < |s| => SqlText.Lower(s[i]))
  }

  /** The name an identifier stands for: its case counts only in quotes. */
  function Fold(ident: Ident): string {
    if ident.quoted then ident.value else Lowered(ident.value)
  }

  function CteNames(ctes: seq<Cte>): set<string> {
    if ctes == [] then {} else CteNames(ctes[..|ctes| - 1]) + {Fold(ctes[|ctes| - 1].alias)}
  }

  predicate IsView(r: RelName) {
    r.name in RECORD_VIEWS && (r.schema.None? || r.schema.value in VIEW_SCHEMAS)
  }

  /** A relation as a refusal names it. */
  function Text(r: RelName): string {
    match r.schema
    case None => r.name
    case Some(schema) => schema + "." + r.name
  }

  /** The folded identifiers of a name, or None when a part is not one. */
  function Idents(parts: seq<NamePart>): Option<seq<string>> {
    if parts == [] then Some([])
    else
      match (parts[0], Idents(parts[1..]))
      case (Name(ident), Some(rest)) => Some([Fold(ident)] + rest)
      case _ => None
  }

  function Dotted(idents: seq<string>): string {
    if idents == [] then ""
    else if |idents| == 1 then idents[0]
    else idents[0] + "." + Dotted(idents[1..])
  }

  /** The relation a FROM item names. A name that is empty or not made of plain
      identifiers goes under the schema `?`, which no view has. */
  function Named(parts: seq<NamePart>, text: string): RelName {
    match Idents(parts)
    case None => RelName(Some("?"), text)
    case Some(idents) =>
      if idents == [] then RelName(Some("?"), text)
      else
        var last := idents[|idents| - 1];
        var rest := idents[..|idents| - 1];
        RelName(if rest == [] then None else Some(Dotted(rest)), last)
  }

  /** The relation `TABLE x` names. */
  function TableName(schema: Option<string>, name: Option<string>): RelName {
    RelName(if schema.None? then None else Some(Lowered(schema.value)),
            if name.None? then "table" else Lowered(name.value))
  }
}
