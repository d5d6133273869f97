/**
 How the parts fit together: every statement the parser builds can be given
 to the formatter, and the formatter writes one for every statement that
 holds anything besides WHERE conditions and comments.
 */
module Pipeline {
  import opened Tokens
  import opened Ast
  import Parser
  import Formatter

  /** Every operator the parser accepts is in the precedence table, and
      every comment it keeps is a special token, so a well-formed statement
      is one the formatter can write. */
  lemma WellFormedIsFormattable(stmt: Statement)
    requires Parser.WellFormedStatement(TokenPrecedence, stmt)
    ensures Formatter.Formattable(stmt)
  {
    forall i | 0 <= i < |stmt.selects|
      ensures Formatter.FieldsInTable(stmt.selects[i].fields)
    {
      var fields := stmt.selects[i].fields;
      forall j | 0 <= j < |fields|
        ensures OperatorsInTable(fields[j].expression)
      {
        BoundedOperatorsInTable(fields[j].expression, CommaPrecedence - 1);
      }
    }
    forall i | 0 <= i < |stmt.froms|
      ensures Formatter.FieldsInTable(stmt.froms[i].fields)
    {
      var fields := stmt.froms[i].fields;
      forall j | 0 <= j < |fields|
        ensures OperatorsInTable(fields[j].expression)
      {
        BoundedOperatorsInTable(fields[j].expression, DotPrecedence);
      }
    }
    forall i | 0 <= i < |stmt.wheres|
      ensures OperatorsInTable(stmt.wheres[i].expression)
    {
      BoundedOperatorsInTable(stmt.wheres[i].expression, CommaPrecedence - 1);
    }
  }

  /** Each parsed statement with an unknown sequence, a SELECT or a FROM
      clause formats. */
  lemma ParsedStatementsFormat(text: string, startPosition: nat, i: nat)
    requires i < |Parser.Parse(text, startPosition)|
    requires var stmt := Parser.Parse(text, startPosition)[i];
             |stmt.unknowns| > 0 || |stmt.selects| > 0 || |stmt.froms| > 0
    ensures Formatter.FormatStatement(text, Parser.Parse(text, startPosition)[i]).Some?
  {
    Parser.ParseProperties(text, startPosition);
    var stmt := Parser.Parse(text, startPosition)[i];
    WellFormedIsFormattable(stmt);
    Formatter.FormatsWithClauses(text, stmt);
  }
}
