/** The answers of `record_view_use` by how names are written: which spellings of
    a relation are a record view, what a refusal calls the others, and when a
    script is refused for a WITH over the limit. */
module SqlSpelling {
  import opened Wrappers
  import opened SqlAst
  import opened SqlReads
  import opened SqlMentions
  import opened SqlClassify

  /** The identifier is the word: letter for letter in quotes, and otherwise in
      capitals or not. */
  predicate Spells(ident: Ident, word: string) {
    if ident.quoted then ident.value == word
    else
      && |ident.value| == |word|
      && forall i :: 0 <= i < |word| ==>
           || (ident.value[i] == word[i] && !('A' <= word[i] <= 'Z'))
           || ('A' <= ident.value[i] <= 'Z' && ident.value[i] as int + 32 == word[i] as int)
  }

  predicate SpellsView(ident: Ident) {
    || Spells(ident, "happyview_records") || Spells(ident, "happyview_record_refs")
    || Spells(ident, "happyview_records_by_collection")
  }

  predicate SpellsSchema(ident: Ident) {
    Spells(ident, "main") || Spells(ident, "public")
  }

  lemma FoldSpells(ident: Ident, word: string)
    ensures Fold(ident) == word <==> Spells(ident, word)
  {
    if !ident.quoted && |ident.value| == |word| {
      var s := ident.value;
      assert |Lowered(s)| == |s| && forall i :: 0 <= i < |s| ==> Lowered(s)[i] == SqlText.Lower(s[i]);
      if Spells(ident, word) {
        assert forall i :: 0 <= i < |s| ==> Lowered(s)[i] == word[i];
      }
    }
  }

  lemma ViewSpelt(ident: Ident)
    ensures Fold(ident) in RECORD_VIEWS <==> SpellsView(ident)
    ensures Fold(ident) in VIEW_SCHEMAS <==> SpellsSchema(ident)
  {
    hide Fold;
    FoldSpells(ident, "happyview_records");
    FoldSpells(ident, "happyview_record_refs");
    FoldSpells(ident, "happyview_records_by_collection");
    FoldSpells(ident, "main");
    FoldSpells(ident, "public");
  }

  /** A view's name on its own, or after `main` or `public`. */
  predicate PartsSpellView(parts: seq<NamePart>) {
    || (|parts| == 1 && parts[0].Name? && SpellsView(parts[0].ident))
    || (|parts| == 2 && parts[0].Name? && parts[1].Name?
        && SpellsSchema(parts[0].ident) && SpellsView(parts[1].ident))
  }

  lemma {:induction false} DottedHasDot(idents: seq<string>)
    requires |idents| >= 2
    ensures '.' in Dotted(idents)
  {
    assert (idents[0] + ".")[|idents[0]|] == '.';
  }

  lemma {:induction false} IdentsAre(parts: seq<NamePart>)
    ensures Idents(parts).Some? <==> forall i :: 0 <= i < |parts| ==> parts[i].Name?
    ensures var r := Idents(parts);
            r.Some? ==> |r.value| == |parts| && forall i :: 0 <= i < |parts| ==> r.value[i] == Fold(parts[i].ident)
  {
    hide Fold;
    if parts != [] { IdentsAre(parts[1..]); }
  }

  lemma {:induction false} NamedIsView(parts: seq<NamePart>, text: string)
    ensures IsView(Named(parts, text)) <==> PartsSpellView(parts)
  {
    hide Fold, SpellsView, SpellsSchema;
    IdentsAre(parts);
    if Idents(parts).Some? && parts != [] {
      var idents := Idents(parts).value;
      var n := |idents| - 1;
      ViewSpelt(parts[n].ident);
      if n == 1 {
        ViewSpelt(parts[0].ident);
        assert idents[..1] == [idents[0]];
      } else if n > 1 {
        DottedHasDot(idents[..n]);
        assert forall s :: s in VIEW_SCHEMAS ==> '.' !in s;
      }
    }
  }

  /** `SELECT .. FROM x` is a read of the views just when `x` is written as one;
      otherwise it is refused. */
  lemma {:induction false} SelectFromExactly(parts: seq<NamePart>, text: string)
    ensures Answer([From(parts, text)]) ==
            if PartsSpellView(parts) then Ok(Only) else Ok(Mixed(Text(Named(parts, text))))
  {
    hide ReadsQuery, Named, PartsSpellView, IsView;
    NamedIsView(parts, text);
    FromReads(parts, text, {});
    OneRead([From(parts, text)], Named(parts, text));
  }

  lemma {:induction false} OneRead(qs: seq<Query>, r: RelName)
    requires |qs| == 1 && ReadsQuery(qs[0], {}) == [Rel(r)]
    ensures Answer(qs) == if IsView(r) then Ok(Only) else Ok(Mixed(Text(r)))
  {
    hide ReadsQuery, LeftQuery, IsView;
    assert [Rel(r)][1..] == [];
    assert Left(qs, 0) == {} && !Refuses(qs, 0) && Kept(qs, 0) == None && !Sees(qs, 0);
    assert Met(qs, 0) == if IsView(r) then None else Some(Rel(r));
  }

  /** A refusal calls a relation what its quoted parts say. */
  lemma {:induction false} RefusalNames(schema: string, name: string)
    requires schema !in VIEW_SCHEMAS
    ensures Answer([From([Name(Ident(schema, true)), Name(Ident(name, true))], name)]) == Ok(Mixed(schema + "." + name))
    ensures name !in RECORD_VIEWS ==> Answer([From([Name(Ident(name, true))], name)]) == Ok(Mixed(name))
  {
    hide Answer;
    var one, two := [Name(Ident(name, true))], [Name(Ident(schema, true)), Name(Ident(name, true))];
    IdentsAre(one);
    IdentsAre(two);
    SelectFromExactly(one, name);
    SelectFromExactly(two, name);
    NamedIsView(one, name);
    NamedIsView(two, name);
    assert Idents(one).value == [name] && Idents(two).value == [schema, name];
    assert [schema, name][..1] == [schema] && [name][..0] == [];
  }

  /** `TABLE x`, whose name has lost its quotes. */
  lemma {:induction false} TableExactly(schema: Option<string>, name: Option<string>)
    ensures var spelt := && name.Some? && SpellsView(Ident(name.value, false))
                         && (schema.None? || SpellsSchema(Ident(schema.value, false)));
            Answer([Query(NoWith, Table(schema, name), Leaf(0), 0)]) ==
            if spelt then Ok(Only) else Ok(Mixed(Text(TableName(schema, name))))
  {
    hide SpellsView, SpellsSchema, Lowered;
    var q, r := Query(NoWith, Table(schema, name), Leaf(0), 0), TableName(schema, name);
    if name.Some? { ViewSpelt(Ident(name.value, false)); }
    if schema.Some? { ViewSpelt(Ident(schema.value, false)); }
    assert ScanTables(q.body, {}) == [Rel(r)] && ReadsBody(q.body, {}) == [] && ReadsExpr(q.tail, {}) == [];
    assert ReadsQuery(q, {}) == [Rel(r)] + ([] + []);
    OneRead([q], r);
  }

  /** An answer by what stands in the text: an error only where some WITH has more
      than a thousand CTEs, and always when the statement's own one does; a name
      only of a relation that is used and is not a view. */
  lemma {:induction false} RefusalsAreMentioned(qs: seq<Query>)
    ensures Answer(qs).Err? ==> exists i :: 0 <= i < |qs| && OccursQuery(qs[i], BigWith)
    ensures var answer := Answer(qs);
            answer.Ok? && answer.value.Mixed? ==>
              exists i, r :: 0 <= i < |qs| && OccursQuery(qs[i], Use(r)) && !IsView(r) && answer.value.name == Text(r)
    ensures (exists i :: 0 <= i < |qs| && qs[i].with.With? && |qs[i].with.ctes| > 1000) ==> Answer(qs).Err?
  {
    hide Answer, OccursQuery, IsView, ReadsQuery;
    AnswerIsRight(qs);
    AnswerIsDecided(qs);
    var answer := Answer(qs);
    if answer.Err? {
      var i :| 0 <= i < |qs| && TooMany in Reads(qs[i]);
      ReadsOccur(qs[i], {}, TooMany);
    } else if answer.value.Mixed? {
      var r :| AnyReads(qs, Rel(r)) && !IsView(r) && answer.value.name == Text(r);
      var i :| 0 <= i < |qs| && Rel(r) in Reads(qs[i]);
      ReadsOccur(qs[i], {}, Rel(r));
    }
    if i :| 0 <= i < |qs| && qs[i].with.With? && |qs[i].with.ctes| > 1000 {
      OverLimitMet(qs, i);
    }
  }

  lemma OverLimitMet(qs: seq<Query>, i: nat)
    requires i < |qs| && qs[i].with.With? && |qs[i].with.ctes| > 1000
    ensures Met(qs, i) == Some(TooMany)
  {
    hide Left;
    assert ReadsQuery(qs[i], Left(qs, i)) == [TooMany];
  }
}
