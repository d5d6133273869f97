/**
 The autocompleter: suggests table, alias and column names for the name the
 cursor is in, from the parsed statements and a schema.

 Source: code/autocomplete.py. The schema (`table_to_column`) is a
 dictionary; here it is its entries in insertion order, with distinct keys.
 The nested loops of the source over clauses and fields are walks over the
 fields of the clauses laid end to end.
 */
module Autocomplete {
  import opened Optional
  import opened Tokens
  import opened Ast
  import opened Strings

  /** `table_to_column`: table names to column lists, keys distinct. */
  type Schema = s: seq<(string, seq<string>)> | forall i, j | 0 <= i < j < |s| :: s[i].0 != s[j].0
    witness []

  predicate HasTable(schema: Schema, table: string) {
    exists i | 0 <= i < |schema| :: schema[i].0 == table
  }

  /** `table_to_column.get(table, [])`. */
  function ColumnsOf(schema: seq<(string, seq<string>)>, table: string): (r: seq<string>)
    ensures (forall i | 0 <= i < |schema| :: schema[i].0 != table) ==> r == []
    ensures forall i | 0 <= i < |schema| && schema[i].0 == table && (forall j | 0 <= j < i :: schema[j].0 != table) ::
              r == schema[i].1
    decreases |schema|
  {
    if |schema| == 0 then []
    else if schema[0].0 == table then schema[0].1
    else
      assert forall i | 1 <= i < |schema| :: schema[i] == schema[1..][i - 1];
      ColumnsOf(schema[1..], table)
  }

  /** With distinct keys, the columns of a table are those of its entry. */
  lemma ColumnsOfEntry(schema: Schema, i: nat)
    requires i < |schema|
    ensures ColumnsOf(schema, schema[i].0) == schema[i].1
  {
  }

  /** The table names of the schema, in order. */
  function TableNames(schema: seq<(string, seq<string>)>): (r: seq<string>)
    ensures |r| == |schema| && forall i | 0 <= i < |schema| :: r[i] == schema[i].0
  {
    seq(|schema|, i requires 0 <= i < |schema| => schema[i].0)
  }

  /** The names among `names` that start with `prefix`, in order. */
  function WithPrefix(names: seq<string>, prefix: string): (r: seq<string>)
    ensures |r| <= |names|
    decreases |names|
  {
    if |names| == 0 then []
    else (if StartsWith(names[0], prefix) then [names[0]] else []) + WithPrefix(names[1..], prefix)
  }

  /** A name is offered exactly when it is listed and starts with the
      prefix. */
  lemma {:induction false} WithPrefixMembers(names: seq<string>, prefix: string, s: string)
    ensures s in WithPrefix(names, prefix) <==> s in names && StartsWith(s, prefix)
    decreases |names|
  {
    if |names| > 0 {
      WithPrefixMembers(names[1..], prefix, s);
      assert names == [names[0]] + names[1..];
    }
  }

  lemma {:induction false} WithPrefixAppend(a: seq<string>, b: seq<string>, prefix: string)
    ensures WithPrefix(a + b, prefix) == WithPrefix(a, prefix) + WithPrefix(b, prefix)
    decreases |a|
  {
    if |a| > 0 {
      assert (a + b)[1..] == a[1..] + b;
      WithPrefixAppend(a[1..], b, prefix);
    } else {
      assert a + b == b;
    }
  }

  // ---------------------------------------------------------------------------
  // Names from tokens

  /** `extract_name_from_token`: the name a token spells, cut at the cursor
      when there is one. `None` when the cursor is outside the token, and for
      any token but a non-keyword name or a double-quoted string. A quoted
      name loses its opening quote and one closing quote. */
  function ExtractName(text: string, t: Token, cursor: Option<int>): (r: Option<string>)
    ensures r.Some? ==> t.IsName(NonKeyword) || t.IsSpecial(DoubleQuoteString)
    ensures r.Some? && cursor.Some? ==> t.start <= cursor.value <= t.End()
  {
    var start := t.start;
    if cursor.Some? && !(start <= cursor.value <= t.End()) then None
    else
      var end := if cursor.Some? then cursor.value else t.End();
      if t.IsName(NonKeyword) then Some(PySlice(text, start, end))
      else if t.IsSpecial(DoubleQuoteString) then
        Some(DropClosingQuote(PySlice(text, start + 1, end)))
      else None
  }

  /** `name[:-1]` when `name` ends with a double quote, else `name`. */
  function DropClosingQuote(name: string): string {
    if |name| > 0 && name[|name| - 1] == '"' then PySlice(name, 0, -1) else name
  }

  /** Dropping the closing quote keeps a prefix a prefix. */
  lemma DropClosingQuotePrefix(full: string, part: string)
    requires StartsWith(full, part)
    ensures StartsWith(DropClosingQuote(full), DropClosingQuote(part))
  {
    var f, p := DropClosingQuote(full), DropClosingQuote(part);
    assert StartsWith(part, p);
    if |part| < |full| {
      assert StartsWith(f, part);
      StartsWithTrans(f, part, p);
    } else {
      assert part == full;
    }
  }

  /** A cursor inside or at either end of a name token extracts something,
      and what it extracts is a prefix of the whole name. */
  lemma NameBeforeCursorIsPrefix(text: string, t: Token, cursor: int)
    requires t.IsName(NonKeyword) || t.IsSpecial(DoubleQuoteString)
    requires t.start <= cursor <= t.End()
    ensures ExtractName(text, t, Some(cursor)).Some? && ExtractName(text, t, None).Some?
    ensures StartsWith(ExtractName(text, t, None).value, ExtractName(text, t, Some(cursor)).value)
  {
    if t.IsName(NonKeyword) {
      PySlicePrefix(text, t.start, cursor, t.End());
    } else {
      PySlicePrefix(text, t.start + 1, cursor, t.End());
      DropClosingQuotePrefix(PySlice(text, t.start + 1, t.End()), PySlice(text, t.start + 1, cursor));
    }
  }

  /** A cursor at the end of the token extracts the whole name. */
  lemma CursorAtEndExtractsWholeName(text: string, t: Token)
    ensures ExtractName(text, t, Some(t.End())) == ExtractName(text, t, None)
  {
  }

  // ---------------------------------------------------------------------------
  // Tables in play

  /** A table of a FROM clause and its alias, both as extracted names. */
  datatype TableInPlay = TableInPlay(name: string, alias: Option<string>)

  /** The table a FROM field brings into play: only a table that is a single
      name (a value expression) counts, so a dotted table does not. */
  function TableOfField(text: string, f: Field): (r: Option<TableInPlay>)
    ensures r.Some? ==> f.expression.ValueExpression?
  {
    if !f.expression.ValueExpression? then None
    else
      var name := ExtractName(text, f.expression.token, None);
      if name.None? then None
      else Some(TableInPlay(name.value, if f.aliasName.Some? then ExtractName(text, f.aliasName.value, None) else None))
  }

  function TablesOfFields(text: string, fields: seq<Field>): (r: seq<TableInPlay>)
    ensures |r| <= |fields|
    decreases |fields|
  {
    if |fields| == 0 then []
    else
      var t := TableOfField(text, fields[0]);
      (if t.Some? then [t.value] else []) + TablesOfFields(text, fields[1..])
  }

  /** The tables in play are exactly what the fields bring into play. */
  lemma {:induction false} TablesOfFieldsMembers(text: string, fields: seq<Field>, t: TableInPlay)
    ensures t in TablesOfFields(text, fields) <==> exists f | f in fields :: TableOfField(text, f) == Some(t)
    decreases |fields|
  {
    if |fields| > 0 {
      TablesOfFieldsMembers(text, fields[1..], t);
      assert fields == [fields[0]] + fields[1..];
      assert forall f | f in fields :: f == fields[0] || f in fields[1..];
    }
  }

  /** The fields of the FROM clauses, one clause after another. */
  function FromFieldsOf(froms: seq<FromClause>): seq<Field>
    decreases |froms|
  {
    if |froms| == 0 then [] else froms[0].fields + FromFieldsOf(froms[1..])
  }

  lemma {:induction false} FromFieldsOfMembers(froms: seq<FromClause>, f: Field)
    ensures f in FromFieldsOf(froms) <==> exists i | 0 <= i < |froms| :: f in froms[i].fields
    decreases |froms|
  {
    if |froms| > 0 {
      FromFieldsOfMembers(froms[1..], f);
      if exists i | 1 <= i < |froms| :: f in froms[i].fields {
        var i :| 1 <= i < |froms| && f in froms[i].fields;
        assert froms[1..][i - 1] == froms[i];
      }
    }
  }

  /** `get_tables_and_aliases`. */
  function TablesAndAliases(text: string, stmt: Statement): seq<TableInPlay> {
    TablesOfFields(text, FromFieldsOf(stmt.froms))
  }

  // ---------------------------------------------------------------------------
  // Suggestions

  /** After `predot.`, a table is meant when its name or its alias is
      `predot`. */
  predicate Names(t: TableInPlay, predot: string) {
    t.name == predot || t.alias == Some(predot)
  }

  /** The columns that may follow `predot.`: those starting with `name` of
      every table in play that `predot` names, in order. */
  function DotSuggestions(schema: Schema, tables: seq<TableInPlay>, predot: string, name: string): (r: seq<string>)
    decreases |tables|
  {
    if |tables| == 0 then []
    else
      (if Names(tables[0], predot) then WithPrefix(ColumnsOf(schema, tables[0].name), name) else [])
      + DotSuggestions(schema, tables[1..], predot, name)
  }

  /** After a dot, a name is suggested exactly when it starts with what is
      typed and is a column of a table the name before the dot names. */
  lemma {:induction false} DotSuggestionsMembers(schema: Schema, tables: seq<TableInPlay>, predot: string, name: string, s: string)
    ensures s in DotSuggestions(schema, tables, predot, name)
            <==> StartsWith(s, name)
                 && exists i | 0 <= i < |tables| :: Names(tables[i], predot) && s in ColumnsOf(schema, tables[i].name)
    decreases |tables|
  {
    if |tables| > 0 {
      DotSuggestionsMembers(schema, tables[1..], predot, name, s);
      WithPrefixMembers(ColumnsOf(schema, tables[0].name), name, s);
      if exists i | 1 <= i < |tables| :: Names(tables[i], predot) && s in ColumnsOf(schema, tables[i].name) {
        var i :| 1 <= i < |tables| && Names(tables[i], predot) && s in ColumnsOf(schema, tables[i].name);
        assert tables[1..][i - 1] == tables[i];
      }
    }
  }

  /** The aliases in play, in order. */
  function Aliases(tables: seq<TableInPlay>): seq<string>
    decreases |tables|
  {
    if |tables| == 0 then []
    else (if tables[0].alias.Some? then [tables[0].alias.value] else []) + Aliases(tables[1..])
  }

  /** The columns of every table in play, one table after another, repeats
      kept. */
  function AllColumns(schema: Schema, tables: seq<TableInPlay>): seq<string>
    decreases |tables|
  {
    if |tables| == 0 then [] else ColumnsOf(schema, tables[0].name) + AllColumns(schema, tables[1..])
  }

  /** Without a dot: the matching aliases, then the matching columns of all
      tables in play. */
  function PlainSuggestions(schema: Schema, tables: seq<TableInPlay>, name: string): seq<string> {
    WithPrefix(Aliases(tables), name) + WithPrefix(AllColumns(schema, tables), name)
  }

  lemma {:induction false} AliasesMembers(tables: seq<TableInPlay>, s: string)
    ensures s in Aliases(tables) <==> exists i | 0 <= i < |tables| :: tables[i].alias == Some(s)
    decreases |tables|
  {
    if |tables| > 0 {
      AliasesMembers(tables[1..], s);
      if exists i | 1 <= i < |tables| :: tables[i].alias == Some(s) {
        var i :| 1 <= i < |tables| && tables[i].alias == Some(s);
        assert tables[1..][i - 1] == tables[i];
      }
    }
  }

  lemma {:induction false} AllColumnsMembers(schema: Schema, tables: seq<TableInPlay>, s: string)
    ensures s in AllColumns(schema, tables) <==> exists i | 0 <= i < |tables| :: s in ColumnsOf(schema, tables[i].name)
    decreases |tables|
  {
    if |tables| > 0 {
      AllColumnsMembers(schema, tables[1..], s);
      if exists i | 1 <= i < |tables| :: s in ColumnsOf(schema, tables[i].name) {
        var i :| 1 <= i < |tables| && s in ColumnsOf(schema, tables[i].name);
        assert tables[1..][i - 1] == tables[i];
      }
    }
  }

  /** Without a dot, a name is suggested exactly when it starts with what is
      typed and is an alias in play or a column of a table in play; the
      aliases come first. */
  lemma PlainSuggestionsMembers(schema: Schema, tables: seq<TableInPlay>, name: string, s: string)
    ensures s in PlainSuggestions(schema, tables, name)
            <==> StartsWith(s, name)
                 && ((exists i | 0 <= i < |tables| :: tables[i].alias == Some(s))
                     || (exists i | 0 <= i < |tables| :: s in ColumnsOf(schema, tables[i].name)))
    ensures PlainSuggestions(schema, tables, name)[..|WithPrefix(Aliases(tables), name)|] == WithPrefix(Aliases(tables), name)
  {
    WithPrefixMembers(Aliases(tables), name, s);
    WithPrefixMembers(AllColumns(schema, tables), name, s);
    AliasesMembers(tables, s);
    AllColumnsMembers(schema, tables, s);
  }

  /** `suggest_in_expression`: the suggestions for the first value, from the
      left, whose token the cursor is in. */
  function SuggestInExpression(text: string, cursor: int, e: Expression, tables: seq<TableInPlay>, schema: Schema,
                               predot: Option<string>): (r: Option<seq<string>>)
  {
    match e
    case ValueExpression(t) =>
      var name := ExtractName(text, t, Some(cursor));
      if name.None? then None
      else if predot.Some? then Some(DotSuggestions(schema, tables, predot.value, name.value))
      else Some(PlainSuggestions(schema, tables, name.value))
    case ParenExpression(_, inner, _) =>
      SuggestInExpression(text, cursor, inner, tables, schema, None)
    case BinaryExpression(left, op, right) =>
      var l := SuggestInExpression(text, cursor, left, tables, schema, None);
      if l.Some? then l
      else
        var before := if op.IsPunct(Dot) && left.ValueExpression? then ExtractName(text, left.token, None) else None;
        SuggestInExpression(text, cursor, right, tables, schema, before)
    case PlaceholderExpression(_) => None
  }

  /** Reference for what is being typed: the part before the cursor of the
      leftmost value of `e` whose token the cursor is in. */
  function NameAtCursor(text: string, e: Expression, cursor: int): Option<string> {
    match e
    case ValueExpression(t) => ExtractName(text, t, Some(cursor))
    case ParenExpression(_, inner, _) => NameAtCursor(text, inner, cursor)
    case BinaryExpression(left, _, right) =>
      var l := NameAtCursor(text, left, cursor);
      if l.Some? then l else NameAtCursor(text, right, cursor)
    case PlaceholderExpression(_) => None
  }

  /** Something is suggested exactly when the cursor is in a name of the
      expression, whatever came before a dot, and every suggestion starts
      with the name typed so far. */
  lemma {:induction false} SuggestionsStartWithTypedName(text: string, cursor: int, e: Expression, tables: seq<TableInPlay>,
                                                         schema: Schema, predot: Option<string>)
    ensures SuggestInExpression(text, cursor, e, tables, schema, predot).Some? <==> NameAtCursor(text, e, cursor).Some?
    ensures SuggestInExpression(text, cursor, e, tables, schema, predot).Some? ==>
              forall s | s in SuggestInExpression(text, cursor, e, tables, schema, predot).value ::
                StartsWith(s, NameAtCursor(text, e, cursor).value)
  {
    match e
    case ValueExpression(t) =>
      var name := ExtractName(text, t, Some(cursor));
      if name.Some? {
        forall s | s in SuggestInExpression(text, cursor, e, tables, schema, predot).value
          ensures StartsWith(s, name.value)
        {
          if predot.Some? {
            DotSuggestionsMembers(schema, tables, predot.value, name.value, s);
          } else {
            PlainSuggestionsMembers(schema, tables, name.value, s);
          }
        }
      }
    case ParenExpression(_, inner, _) =>
      SuggestionsStartWithTypedName(text, cursor, inner, tables, schema, None);
    case BinaryExpression(left, op, right) =>
      SuggestionsStartWithTypedName(text, cursor, left, tables, schema, None);
      var before := if op.IsPunct(Dot) && left.ValueExpression? then ExtractName(text, left.token, None) else None;
      SuggestionsStartWithTypedName(text, cursor, right, tables, schema, before);
    case PlaceholderExpression(_) =>
  }

  /** In `x.y` with the cursor in `y`, a name is suggested exactly when it
      starts with the part of `y` typed so far and is a column of a table in
      play whose name or alias is `x`. */
  lemma DottedColumn(text: string, cursor: int, l: Token, dot: Token, r: Token, tables: seq<TableInPlay>, schema: Schema)
    requires dot.IsPunct(Dot)
    requires ExtractName(text, l, Some(cursor)).None? && ExtractName(text, l, None).Some?
    requires ExtractName(text, r, Some(cursor)).Some?
    ensures var x, y := ExtractName(text, l, None).value, ExtractName(text, r, Some(cursor)).value;
            var got := SuggestInExpression(text, cursor, BinaryExpression(ValueExpression(l), dot, ValueExpression(r)), tables, schema, None);
            && got.Some?
            && forall c: string :: c in got.value <==>
                 StartsWith(c, y) && exists i | 0 <= i < |tables| :: Names(tables[i], x) && c in ColumnsOf(schema, tables[i].name)
  {
    var x, y := ExtractName(text, l, None).value, ExtractName(text, r, Some(cursor)).value;
    forall c: string {
      DotSuggestionsMembers(schema, tables, x, y, c);
    }
  }

  /** In `x.y.z`, parsed as `(x.y).z`, with the cursor in `z` only: what stands
      before the second dot is not a single value, so `z` gets the suggestions
      of a name typed on its own, aliases and columns of every table in play. */
  lemma ChainedDotIsPlain(text: string, cursor: int, a: Token, d1: Token, b: Token, d2: Token, c: Token,
                          tables: seq<TableInPlay>, schema: Schema)
    requires d1.IsPunct(Dot) && d2.IsPunct(Dot)
    requires ExtractName(text, a, Some(cursor)).None? && ExtractName(text, b, Some(cursor)).None?
    requires ExtractName(text, c, Some(cursor)).Some?
    ensures var e := BinaryExpression(BinaryExpression(ValueExpression(a), d1, ValueExpression(b)), d2, ValueExpression(c));
            var got := SuggestInExpression(text, cursor, e, tables, schema, None);
            && got.Some?
            && forall s: string :: s in got.value <==>
                 StartsWith(s, ExtractName(text, c, Some(cursor)).value)
                 && ((exists i | 0 <= i < |tables| :: tables[i].alias == Some(s))
                     || (exists i | 0 <= i < |tables| :: s in ColumnsOf(schema, tables[i].name)))
  {
    var left := BinaryExpression(ValueExpression(a), d1, ValueExpression(b));
    var before := ExtractName(text, a, None);
    assert SuggestInExpression(text, cursor, ValueExpression(b), tables, schema, before).None?;
    assert SuggestInExpression(text, cursor, left, tables, schema, None).None?;
    var name := ExtractName(text, c, Some(cursor)).value;
    assert SuggestInExpression(text, cursor, ValueExpression(c), tables, schema, None) == Some(PlainSuggestions(schema, tables, name));
    forall s: string {
      PlainSuggestionsMembers(schema, tables, name, s);
    }
  }

  /** `suggest_in_from`: the tables of the schema, in order, that start with
      the table name typed so far. */
  function SuggestInFrom(text: string, cursor: int, table: Expression, schema: Schema): (r: Option<seq<string>>)
    ensures r.Some? <==> table.ValueExpression? && ExtractName(text, table.token, Some(cursor)).Some?
  {
    if table.ValueExpression? then
      var name := ExtractName(text, table.token, Some(cursor));
      if name.None? then None else Some(WithPrefix(TableNames(schema), name.value))
    else None
  }

  /** In FROM, a table is suggested exactly when the schema has it and its
      name starts with what is typed. */
  lemma SuggestInFromMembers(text: string, cursor: int, table: Expression, schema: Schema, s: string)
    requires SuggestInFrom(text, cursor, table, schema).Some?
    ensures s in SuggestInFrom(text, cursor, table, schema).value
            <==> HasTable(schema, s) && StartsWith(s, ExtractName(text, table.token, Some(cursor)).value)
  {
    WithPrefixMembers(TableNames(schema), ExtractName(text, table.token, Some(cursor)).value, s);
    if HasTable(schema, s) {
      var i :| 0 <= i < |schema| && schema[i].0 == s;
      assert TableNames(schema)[i] == s;
    }
  }

  // ---------------------------------------------------------------------------
  // Statements

  /** A place of a statement where a name can be completed: a SELECT field or
      WHERE condition, or a FROM table. */
  datatype Site = ExpressionSite(expression: Expression) | TableSite(table: Expression)

  function ExpressionSites(fields: seq<Field>): (r: seq<Site>)
    ensures |r| == |fields| && forall i | 0 <= i < |fields| :: r[i] == ExpressionSite(fields[i].expression)
  {
    seq(|fields|, i requires 0 <= i < |fields| => ExpressionSite(fields[i].expression))
  }

  function SelectSites(selects: seq<SelectClause>): seq<Site>
    decreases |selects|
  {
    if |selects| == 0 then [] else ExpressionSites(selects[0].fields) + SelectSites(selects[1..])
  }

  function TableSites(fields: seq<Field>): (r: seq<Site>)
    ensures |r| == |fields| && forall i | 0 <= i < |fields| :: r[i] == TableSite(fields[i].expression)
  {
    seq(|fields|, i requires 0 <= i < |fields| => TableSite(fields[i].expression))
  }

  function WhereSites(wheres: seq<WhereClause>): seq<Site> {
    seq(|wheres|, i requires 0 <= i < |wheres| => ExpressionSite(wheres[i].expression))
  }

  /** The sites in the order the source searches them: the SELECT fields,
      then the FROM tables, then the WHERE conditions. */
  function Sites(stmt: Statement): seq<Site> {
    SelectSites(stmt.selects) + TableSites(FromFieldsOf(stmt.froms)) + WhereSites(stmt.wheres)
  }

  /** The SELECT sites are the expressions of the fields of the SELECT
      clauses. */
  lemma {:induction false} SelectSitesMembers(selects: seq<SelectClause>, site: Site)
    ensures site in SelectSites(selects)
            <==> exists i, j | 0 <= i < |selects| && 0 <= j < |selects[i].fields| ::
                   site == ExpressionSite(selects[i].fields[j].expression)
    decreases |selects|
  {
    if |selects| > 0 {
      SelectSitesMembers(selects[1..], site);
      if exists i, j | 1 <= i < |selects| && 0 <= j < |selects[i].fields| :: site == ExpressionSite(selects[i].fields[j].expression) {
        var i, j :| 1 <= i < |selects| && 0 <= j < |selects[i].fields| && site == ExpressionSite(selects[i].fields[j].expression);
        assert selects[1..][i - 1] == selects[i];
      }
      if site in SelectSites(selects[1..]) {
        var i, j :| 0 <= i < |selects[1..]| && 0 <= j < |selects[1..][i].fields| && site == ExpressionSite(selects[1..][i].fields[j].expression);
        assert selects[i + 1] == selects[1..][i];
      }
    }
  }

  /** Every SELECT field, FROM table and WHERE condition of a statement is
      searched, and nothing else. */
  lemma SitesMembers(stmt: Statement, site: Site)
    ensures site in Sites(stmt)
            <==> || (exists i, j | 0 <= i < |stmt.selects| && 0 <= j < |stmt.selects[i].fields| ::
                       site == ExpressionSite(stmt.selects[i].fields[j].expression))
                 || (exists i | 0 <= i < |stmt.froms| :: exists f | f in stmt.froms[i].fields :: site == TableSite(f.expression))
                 || (exists k | 0 <= k < |stmt.wheres| :: site == ExpressionSite(stmt.wheres[k].expression))
  {
    SelectSitesMembers(stmt.selects, site);
    var tables := TableSites(FromFieldsOf(stmt.froms));
    if site in tables {
      var k :| 0 <= k < |tables| && tables[k] == site;
      FromFieldsOfMembers(stmt.froms, FromFieldsOf(stmt.froms)[k]);
    }
    if exists i | 0 <= i < |stmt.froms| :: exists f | f in stmt.froms[i].fields :: site == TableSite(f.expression) {
      var i :| 0 <= i < |stmt.froms| && exists f | f in stmt.froms[i].fields :: site == TableSite(f.expression);
      var f :| f in stmt.froms[i].fields && site == TableSite(f.expression);
      FromFieldsOfMembers(stmt.froms, f);
      var k :| 0 <= k < |FromFieldsOf(stmt.froms)| && FromFieldsOf(stmt.froms)[k] == f;
      assert tables[k] == site;
    }
    var wheres := WhereSites(stmt.wheres);
    if exists k | 0 <= k < |stmt.wheres| :: site == ExpressionSite(stmt.wheres[k].expression) {
      var k :| 0 <= k < |stmt.wheres| && site == ExpressionSite(stmt.wheres[k].expression);
      assert wheres[k] == site;
    }
  }

  function SuggestAt(text: string, cursor: int, site: Site, tables: seq<TableInPlay>, schema: Schema): Option<seq<string>> {
    match site
    case ExpressionSite(e) => SuggestInExpression(text, cursor, e, tables, schema, None)
    case TableSite(t) => SuggestInFrom(text, cursor, t, schema)
  }

  /** What each site suggests, in order. */
  function SiteSuggestions(text: string, cursor: int, sites: seq<Site>, tables: seq<TableInPlay>, schema: Schema)
    : (r: seq<Option<seq<string>>>)
    ensures |r| == |sites| && forall i | 0 <= i < |sites| :: r[i] == SuggestAt(text, cursor, sites[i], tables, schema)
  {
    seq(|sites|, i requires 0 <= i < |sites| => SuggestAt(text, cursor, sites[i], tables, schema))
  }

  /** The suggestion of a statement: that of the first site that has one. */
  function SuggestInStatement(text: string, stmt: Statement, cursor: int, schema: Schema): Option<seq<string>> {
    FirstSome(SiteSuggestions(text, cursor, Sites(stmt), TablesAndAliases(text, stmt), schema))
  }

  /** A statement suggests something exactly when one of its sites does, and
      then it is the suggestion of the first such site, site `i`. */
  lemma SuggestInStatementIsFirstSite(text: string, stmt: Statement, cursor: int, schema: Schema) returns (i: nat)
    requires SuggestInStatement(text, stmt, cursor, schema).Some?
    ensures i < |Sites(stmt)|
    ensures SuggestInStatement(text, stmt, cursor, schema) == SuggestAt(text, cursor, Sites(stmt)[i], TablesAndAliases(text, stmt), schema)
    ensures forall j | 0 <= j < i :: SuggestAt(text, cursor, Sites(stmt)[j], TablesAndAliases(text, stmt), schema).None?
  {
    i := FirstSomeIsFirst(SiteSuggestions(text, cursor, Sites(stmt), TablesAndAliases(text, stmt), schema));
  }

  /** The statement's span holds the cursor, both ends included. */
  predicate SpanHolds(stmt: Statement, cursor: int) {
    stmt.start <= cursor <= stmt.End()
  }

  /** What each statement suggests: nothing when its span does not hold the
      cursor. */
  function StatementSuggestions(text: string, stmts: seq<Statement>, cursor: int, schema: Schema)
    : (r: seq<Option<seq<string>>>)
    ensures |r| == |stmts|
    ensures forall i | 0 <= i < |stmts| ::
              r[i] == if SpanHolds(stmts[i], cursor) then SuggestInStatement(text, stmts[i], cursor, schema) else None
  {
    seq(|stmts|, i requires 0 <= i < |stmts| =>
      if SpanHolds(stmts[i], cursor) then SuggestInStatement(text, stmts[i], cursor, schema) else None)
  }

  /** `suggest`: the first suggestion of the first statement, among those
      whose span holds the cursor, that has one. */
  function Suggest(text: string, stmts: seq<Statement>, cursor: int, schema: Schema): (r: Option<seq<string>>)
    ensures (forall i | 0 <= i < |stmts| :: !SpanHolds(stmts[i], cursor)) ==> r.None?
  {
    FirstSome(StatementSuggestions(text, stmts, cursor, schema))
  }

  /** A suggestion comes from a statement whose span holds the cursor, the
      statement `i`, and no earlier statement holding the cursor has one. */
  lemma SuggestIsFirstHolding(text: string, stmts: seq<Statement>, cursor: int, schema: Schema) returns (i: nat)
    requires Suggest(text, stmts, cursor, schema).Some?
    ensures i < |stmts| && SpanHolds(stmts[i], cursor)
    ensures Suggest(text, stmts, cursor, schema) == SuggestInStatement(text, stmts[i], cursor, schema)
    ensures forall j | 0 <= j < i :: !SpanHolds(stmts[j], cursor) || SuggestInStatement(text, stmts[j], cursor, schema).None?
  {
    var results := StatementSuggestions(text, stmts, cursor, schema);
    i := FirstSomeIsFirst(results);
    forall j | 0 <= j < i
      ensures !SpanHolds(stmts[j], cursor) || SuggestInStatement(text, stmts[j], cursor, schema).None?
    {
      assert results[j].None?;
    }
  }
}
