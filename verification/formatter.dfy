/**
 The formatter: writes a parsed statement back as SQL in the usual clause
 order.

 Source: code/formatter.py. Where the source raises (a `KeyError` for an
 operator without a precedence, an `AttributeError` for a comment that is
 not a special token, an `IndexError` when the text before the WHERE lines
 is blank) the model returns `None`.
 */
module Formatter {
  import opened Optional
  import opened Chars
  import opened Tokens
  import opened Ast
  import opened Strings

  // ---------------------------------------------------------------------------
  // Expressions

  /** `operator_to_precedence[t.type]`: the table entry of the token's kind,
      or `None` where the lookup fails (a kind without an entry, or a token
      that has no kind to look up). */
  function TablePrecedence(t: Token): (r: Option<int>)
    ensures r.Some? <==> IsOperatorToken(t)
    ensures r.Some? ==> r.value == TokenPrecedence(t)
  {
    var ty := TypeOf(t);
    if ty.None? then None else Precedence(ty.value)
  }

  /** The entry is the one the precedence table lists for the token's kind. */
  lemma TablePrecedenceIsLookup(t: Token)
    requires TablePrecedence(t).Some?
    ensures OperatorToPrecedence(TypeOf(t).value) == TablePrecedence(t)
  {
    PrecedenceIsTableLookup(TypeOf(t).value);
  }

  /** The precedence of AND: the entry the WHERE lines compare against. */
  const AndPrecedence: int := 9

  lemma AndPrecedenceIsTableEntry()
    ensures OperatorToPrecedence(NameType(And)) == Some(AndPrecedence)
  {
    LookupFirstEntry(PrecedenceTable, NameType(And), 0, 21);
  }

  /** The text a token covers. */
  function TokenText(text: string, t: Token): string {
    PySlice(text, t.start, t.End())
  }

  /** `format_expression`: values as they are written, parentheses always
      closed, `.` and `::` (precedence at most 2) without spaces and every
      other operator between single spaces. `None` exactly when an operator
      has no table entry. */
  function FormatExpression(text: string, e: Expression): (r: Option<string>)
    ensures r.Some? <==> OperatorsInTable(e)
  {
    match e
    case ValueExpression(t) => Some(TokenText(text, t))
    case ParenExpression(_, inner, _) =>
      var f := FormatExpression(text, inner);
      if f.None? then None else Some("(" + f.value + ")")
    case BinaryExpression(left, op, right) =>
      var l := FormatExpression(text, left);
      var r := FormatExpression(text, right);
      var p := TablePrecedence(op);
      if l.None? || r.None? || p.None? then None
      else if p.value <= 2 then Some(l.value + TokenText(text, op) + r.value)
      else Some(l.value + " " + TokenText(text, op) + " " + r.value)
    case PlaceholderExpression(s) => Some(s)
  }

  /** How the formatter spells a token of an expression: parentheses as
      themselves, everything else as the text it covers. */
  function Spelling(text: string, t: Token): string {
    if t.IsPunct(LeftParen) then "("
    else if t.IsPunct(RightParen) then ")"
    else TokenText(text, t)
  }

  /** The spellings of `ts`, one after another. */
  function Spelled(text: string, ts: seq<Token>): string
    decreases |ts|
  {
    if |ts| == 0 then [] else Spelling(text, ts[0]) + Spelled(text, ts[1..])
  }

  lemma {:induction false} SpelledAppend(text: string, a: seq<Token>, b: seq<Token>)
    ensures Spelled(text, a + b) == Spelled(text, a) + Spelled(text, b)
    decreases |a|
  {
    if |a| > 0 {
      assert (a + b)[1..] == a[1..] + b;
      SpelledAppend(text, a[1..], b);
    } else {
      assert a + b == b;
    }
  }

  /** A closed parenthesis is spelled around its contents. */
  lemma SpelledParen(text: string, l: Token, ts: seq<Token>, r: Token)
    requires l.IsPunct(LeftParen) && r.IsPunct(RightParen)
    ensures Spelled(text, [l] + (ts + [r])) == "(" + Spelled(text, ts) + ")"
  {
    SpelledAppend(text, [l], ts + [r]);
    SpelledAppend(text, ts, [r]);
    assert Spelled(text, [l]) == "(" + Spelled(text, []);
    assert Spelled(text, [r]) == ")" + Spelled(text, []);
  }

  /** An operator that is not a parenthesis is spelled as its text between
      its operands. */
  lemma SpelledBinary(text: string, ls: seq<Token>, op: Token, rs: seq<Token>)
    requires !op.IsPunct(LeftParen) && !op.IsPunct(RightParen)
    ensures Spelled(text, ls + ([op] + rs)) == Spelled(text, ls) + TokenText(text, op) + Spelled(text, rs)
  {
    SpelledAppend(text, ls, [op] + rs);
    assert ([op] + rs)[1..] == rs;
    var a, b, c := Spelled(text, ls), TokenText(text, op), Spelled(text, rs);
    assert Spelled(text, [op] + rs) == b + c;
    assert a + (b + c) == a + b + c;
  }

  lemma SpelledValue(text: string, t: Token)
    requires !t.IsPunct(LeftParen) && !t.IsPunct(RightParen)
    ensures Spelled(text, [t]) == TokenText(text, t)
  {
    assert Spelled(text, [t]) == Spelling(text, t) + Spelled(text, []);
  }

  /** `s` without its space characters. */
  function RemoveSpaces(s: string): (r: string)
    decreases |s|
  {
    if |s| == 0 then []
    else (if s[0] == ' ' then [] else [s[0]]) + RemoveSpaces(s[1..])
  }

  lemma {:induction false} RemoveSpacesAppend(a: string, b: string)
    ensures RemoveSpaces(a + b) == RemoveSpaces(a) + RemoveSpaces(b)
    decreases |a|
  {
    if |a| > 0 {
      assert (a + b)[1..] == a[1..] + b;
      RemoveSpacesAppend(a[1..], b);
    } else {
      assert a + b == b;
    }
  }

  /** Parentheses keep what the spaces removed from their contents agree on. */
  lemma RemoveSpacesParen(f: string, g: string)
    requires RemoveSpaces(f) == RemoveSpaces(g)
    ensures RemoveSpaces("(" + f + ")") == RemoveSpaces("(" + g + ")")
  {
    RemoveSpacesAppend("(" + f, ")");
    RemoveSpacesAppend("(", f);
    RemoveSpacesAppend("(" + g, ")");
    RemoveSpacesAppend("(", g);
  }

  /** The spaces around an operator are removed with the others. */
  lemma RemoveSpacesBinary(l: string, o: string, r: string)
    ensures RemoveSpaces(l + " " + o + " " + r) == RemoveSpaces(l + o + r)
  {
    assert RemoveSpaces(" ") == [];
    RemoveSpacesAppend(l + " " + o + " ", r);
    RemoveSpacesAppend(l + " " + o, " ");
    RemoveSpacesAppend(l + " ", o);
    RemoveSpacesAppend(l, " ");
    RemoveSpacesAppend(l + o, r);
    RemoveSpacesAppend(l, o);
  }

  /** Operands that agree with spaces removed give binary texts that agree. */
  lemma RemoveSpacesOperands(l: string, l': string, o: string, r: string, r': string)
    requires RemoveSpaces(l) == RemoveSpaces(l') && RemoveSpaces(r) == RemoveSpaces(r')
    ensures RemoveSpaces(l + o + r) == RemoveSpaces(l' + o + r')
  {
    RemoveSpacesAppend(l + o, r);
    RemoveSpacesAppend(l, o);
    RemoveSpacesAppend(l' + o, r');
    RemoveSpacesAppend(l', o);
  }

  /** A complete expression: value tokens, parentheses with both their
      tokens, operators with table entries, and no placeholder. */
  predicate Complete(e: Expression) {
    match e
    case ValueExpression(t) => IsValueToken(t)
    case ParenExpression(l, inner, r) => l.IsPunct(LeftParen) && r.Some? && r.value.IsPunct(RightParen) && Complete(inner)
    case BinaryExpression(left, op, right) => IsOperatorToken(op) && Complete(left) && Complete(right)
    case PlaceholderExpression(_) => false
  }

  /** A complete expression is well formed, has no placeholder and only
      operators with table entries. */
  lemma {:induction false} CompleteIsFormattable(e: Expression)
    requires Complete(e)
    ensures WellFormed(e) && PlaceholderFree(e) && OperatorsInTable(e)
  {
    match e
    case ParenExpression(_, inner, _) =>
      CompleteIsFormattable(inner);
    case BinaryExpression(left, _, right) =>
      CompleteIsFormattable(left);
      CompleteIsFormattable(right);
    case _ =>
  }

  /** The parenthesis step of `FormatOnlyInsertsSpaces`. */
  lemma ParenInsertsSpaces(text: string, l: Token, inner: Expression, r: Token)
    requires l.IsPunct(LeftParen) && r.IsPunct(RightParen)
    requires FormatExpression(text, inner).Some?
    requires RemoveSpaces(FormatExpression(text, inner).value) == RemoveSpaces(Spelled(text, TokensOf(inner)))
    ensures FormatExpression(text, ParenExpression(l, inner, Some(r))).Some?
    ensures RemoveSpaces(FormatExpression(text, ParenExpression(l, inner, Some(r))).value)
            == RemoveSpaces(Spelled(text, TokensOf(ParenExpression(l, inner, Some(r)))))
  {
    SpelledParen(text, l, TokensOf(inner), r);
    RemoveSpacesParen(FormatExpression(text, inner).value, Spelled(text, TokensOf(inner)));
  }

  /** No parenthesis has a precedence-table entry. */
  lemma OperatorIsNotParen(op: Token)
    requires IsOperatorToken(op)
    ensures !op.IsPunct(LeftParen) && !op.IsPunct(RightParen)
  {
  }

  /** The operator step of `FormatOnlyInsertsSpaces`. */
  lemma BinaryInsertsSpaces(text: string, left: Expression, op: Token, right: Expression)
    requires IsOperatorToken(op)
    requires FormatExpression(text, left).Some? && FormatExpression(text, right).Some?
    requires RemoveSpaces(FormatExpression(text, left).value) == RemoveSpaces(Spelled(text, TokensOf(left)))
    requires RemoveSpaces(FormatExpression(text, right).value) == RemoveSpaces(Spelled(text, TokensOf(right)))
    ensures FormatExpression(text, BinaryExpression(left, op, right)).Some?
    ensures RemoveSpaces(FormatExpression(text, BinaryExpression(left, op, right)).value)
            == RemoveSpaces(Spelled(text, TokensOf(BinaryExpression(left, op, right))))
  {
    var lf, rf := FormatExpression(text, left).value, FormatExpression(text, right).value;
    var sl, sr := Spelled(text, TokensOf(left)), Spelled(text, TokensOf(right));
    var o := TokenText(text, op);
    OperatorIsNotParen(op);
    SpelledBinary(text, TokensOf(left), op, TokensOf(right));
    assert Spelled(text, TokensOf(BinaryExpression(left, op, right))) == sl + o + sr;
    var f := FormatExpression(text, BinaryExpression(left, op, right)).value;
    if TablePrecedence(op).value <= 2 {
      assert f == lf + o + rf;
    } else {
      assert f == lf + " " + o + " " + rf;
      RemoveSpacesBinary(lf, o, rf);
    }
    RemoveSpacesOperands(lf, sl, o, rf, sr);
  }

  /** Formatting only inserts spaces: with its spaces removed, the formatted
      expression is its tokens' text with the spaces removed. */
  lemma {:induction false} FormatOnlyInsertsSpaces(text: string, e: Expression)
    requires Complete(e)
    ensures FormatExpression(text, e).Some?
    ensures RemoveSpaces(FormatExpression(text, e).value) == RemoveSpaces(Spelled(text, TokensOf(e)))
  {
    match e
    case ValueExpression(t) =>
      SpelledValue(text, t);
    case ParenExpression(l, inner, r) =>
      FormatOnlyInsertsSpaces(text, inner);
      ParenInsertsSpaces(text, l, inner, r.value);
    case BinaryExpression(left, op, right) =>
      FormatOnlyInsertsSpaces(text, left);
      FormatOnlyInsertsSpaces(text, right);
      BinaryInsertsSpaces(text, left, op, right);
  }

  /** Values, closed parentheses, `.` and `::` only: the operators written
      without spaces, and nothing the formatter has to add. */
  predicate Tight(e: Expression) {
    match e
    case ValueExpression(t) => IsValueToken(t)
    case ParenExpression(l, inner, r) => l.IsPunct(LeftParen) && r.Some? && r.value.IsPunct(RightParen) && Tight(inner)
    case BinaryExpression(left, op, right) => (op.IsPunct(Dot) || op.IsPunct(DoubleColon)) && Tight(left) && Tight(right)
    case PlaceholderExpression(_) => false
  }

  /** A tight expression is complete. */
  lemma {:induction false} TightIsComplete(e: Expression)
    requires Tight(e)
    ensures Complete(e)
  {
    match e
    case ParenExpression(_, inner, _) =>
      TightIsComplete(inner);
    case BinaryExpression(left, _, right) =>
      TightIsComplete(left);
      TightIsComplete(right);
    case _ =>
  }

  /** `.` and `::` are the operators written without spaces. */
  lemma TightOperatorPrecedence(op: Token)
    requires op.IsPunct(Dot) || op.IsPunct(DoubleColon)
    ensures TablePrecedence(op).Some? && TablePrecedence(op).value <= 2
  {
  }

  /** The parenthesis step of `TightFormatsVerbatim`. */
  lemma ParenVerbatim(text: string, l: Token, inner: Expression, r: Token)
    requires l.IsPunct(LeftParen) && r.IsPunct(RightParen)
    requires FormatExpression(text, inner) == Some(Spelled(text, TokensOf(inner)))
    ensures FormatExpression(text, ParenExpression(l, inner, Some(r))) == Some(Spelled(text, TokensOf(ParenExpression(l, inner, Some(r)))))
  {
    SpelledParen(text, l, TokensOf(inner), r);
  }

  /** No value token has a precedence-table entry, and none is a parenthesis. */
  lemma ValueIsNotOperator(t: Token)
    requires IsValueToken(t)
    ensures !IsOperatorToken(t) && !t.IsPunct(LeftParen) && !t.IsPunct(RightParen)
  {
  }

  /** The operator step of `TightFormatsVerbatim`. */
  lemma BinaryVerbatim(text: string, left: Expression, op: Token, right: Expression)
    requires op.IsPunct(Dot) || op.IsPunct(DoubleColon)
    requires FormatExpression(text, left) == Some(Spelled(text, TokensOf(left)))
    requires FormatExpression(text, right) == Some(Spelled(text, TokensOf(right)))
    ensures FormatExpression(text, BinaryExpression(left, op, right)) == Some(Spelled(text, TokensOf(BinaryExpression(left, op, right))))
  {
    var lf, rf := FormatExpression(text, left).value, FormatExpression(text, right).value;
    SpelledBinary(text, TokensOf(left), op, TokensOf(right));
    assert Spelled(text, TokensOf(BinaryExpression(left, op, right))) == lf + TokenText(text, op) + rf;
    TightOperatorPrecedence(op);
    assert TablePrecedence(op).value <= 2;
  }

  /** A tight expression is written exactly as its tokens' text, one after
      another. */
  lemma {:induction false} TightFormatsVerbatim(text: string, e: Expression)
    requires Tight(e)
    ensures FormatExpression(text, e) == Some(Spelled(text, TokensOf(e)))
  {
    match e
    case ValueExpression(t) =>
      SpelledValue(text, t);
    case ParenExpression(l, inner, r) =>
      TightFormatsVerbatim(text, inner);
      ParenVerbatim(text, l, inner, r.value);
    case BinaryExpression(left, op, right) =>
      TightFormatsVerbatim(text, left);
      TightFormatsVerbatim(text, right);
      BinaryVerbatim(text, left, op, right);
    case PlaceholderExpression(_) =>
  }

  /** How a token stands in a formatted expression, read off the token alone:
      an operator looser than `::` between single spaces, every other token
      as it is spelled. */
  function Layout(text: string, t: Token): string {
    if TablePrecedence(t).Some? && TablePrecedence(t).value > 2 then " " + TokenText(text, t) + " "
    else Spelling(text, t)
  }

  /** The layouts of `ts`, one after another. */
  function LaidOut(text: string, ts: seq<Token>): string
    decreases |ts|
  {
    if |ts| == 0 then [] else Layout(text, ts[0]) + LaidOut(text, ts[1..])
  }

  lemma {:induction false} LaidOutAppend(text: string, a: seq<Token>, b: seq<Token>)
    ensures LaidOut(text, a + b) == LaidOut(text, a) + LaidOut(text, b)
    decreases |a|
  {
    if |a| > 0 {
      assert (a + b)[1..] == a[1..] + b;
      LaidOutAppend(text, a[1..], b);
    } else {
      assert a + b == b;
    }
  }

  /** The parenthesis step of `FormatIsLayout`. */
  lemma ParenLaidOut(text: string, l: Token, inner: Expression, r: Token)
    requires l.IsPunct(LeftParen) && r.IsPunct(RightParen)
    requires FormatExpression(text, inner) == Some(LaidOut(text, TokensOf(inner)))
    ensures FormatExpression(text, ParenExpression(l, inner, Some(r))) == Some(LaidOut(text, TokensOf(ParenExpression(l, inner, Some(r)))))
  {
    var ts := TokensOf(inner);
    if IsOperatorToken(l) || IsOperatorToken(r) {
      OperatorIsNotParen(if IsOperatorToken(l) then l else r);
    }
    LaidOutAppend(text, [l], ts + [r]);
    LaidOutAppend(text, ts, [r]);
    assert Layout(text, l) == "(" && Layout(text, r) == ")";
    assert LaidOut(text, [l]) == "(" + LaidOut(text, []);
    assert LaidOut(text, [r]) == ")" + LaidOut(text, []);
    var e := ParenExpression(l, inner, Some(r));
    assert TokensOf(e) == [l] + (ts + [r]);
    assert LaidOut(text, TokensOf(e)) == "(" + LaidOut(text, ts) + ")";
  }

  /** An operator is laid out between its operands. */
  lemma LaidOutAround(text: string, ls: seq<Token>, op: Token, rs: seq<Token>)
    ensures LaidOut(text, ls + ([op] + rs)) == LaidOut(text, ls) + Layout(text, op) + LaidOut(text, rs)
  {
    LaidOutAppend(text, ls, [op] + rs);
    assert ([op] + rs)[1..] == rs;
    assert LaidOut(text, [op] + rs) == Layout(text, op) + LaidOut(text, rs);
  }

  /** An operator with a table entry stands between spaces exactly when it is
      looser than `::`. */
  lemma OperatorLayout(text: string, op: Token)
    requires IsOperatorToken(op)
    ensures Layout(text, op) == if TablePrecedence(op).value > 2 then " " + TokenText(text, op) + " " else TokenText(text, op)
  {
    OperatorIsNotParen(op);
  }

  /** `FormatExpression` writes an operator by its layout between its
      formatted operands. */
  lemma FormatBinaryByLayout(text: string, left: Expression, op: Token, right: Expression)
    requires IsOperatorToken(op)
    requires FormatExpression(text, left).Some? && FormatExpression(text, right).Some?
    ensures FormatExpression(text, BinaryExpression(left, op, right))
            == Some(FormatExpression(text, left).value + Layout(text, op) + FormatExpression(text, right).value)
  {
    var a, c := FormatExpression(text, left).value, FormatExpression(text, right).value;
    var o := TokenText(text, op);
    OperatorLayout(text, op);
    if TablePrecedence(op).value > 2 {
      assert a + (" " + o + " ") + c == a + " " + o + " " + c;
    }
  }

  /** The operator step of `FormatIsLayout`. */
  lemma BinaryLaidOut(text: string, left: Expression, op: Token, right: Expression)
    requires IsOperatorToken(op)
    requires FormatExpression(text, left) == Some(LaidOut(text, TokensOf(left)))
    requires FormatExpression(text, right) == Some(LaidOut(text, TokensOf(right)))
    ensures FormatExpression(text, BinaryExpression(left, op, right)) == Some(LaidOut(text, TokensOf(BinaryExpression(left, op, right))))
  {
    FormatBinaryByLayout(text, left, op, right);
    LaidOutAround(text, TokensOf(left), op, TokensOf(right));
  }

  /** The formatter lays an expression out token by token: for a complete
      expression, its formatted text is the layout of each of its tokens in
      order, so every operator looser than `::` stands between single spaces,
      and nothing else adds or drops a character. */
  lemma {:induction false} FormatIsLayout(text: string, e: Expression)
    requires Complete(e)
    ensures FormatExpression(text, e) == Some(LaidOut(text, TokensOf(e)))
  {
    match e
    case ValueExpression(t) =>
      ValueIsNotOperator(t);
      assert Layout(text, t) == TokenText(text, t);
      assert LaidOut(text, [t]) == Layout(text, t) + LaidOut(text, []);
      assert LaidOut(text, TokensOf(e)) == TokenText(text, t);
      assert FormatExpression(text, e) == Some(TokenText(text, t));
    case ParenExpression(l, inner, r) =>
      FormatIsLayout(text, inner);
      ParenLaidOut(text, l, inner, r.value);
    case BinaryExpression(left, op, right) =>
      FormatIsLayout(text, left);
      FormatIsLayout(text, right);
      BinaryLaidOut(text, left, op, right);
  }

  // ---------------------------------------------------------------------------
  // Lines of a statement

  /** Empty, or ending with a newline: a run of whole lines. */
  predicate EndsLine(s: string) {
    |s| == 0 || s[|s| - 1] == '\n'
  }

  lemma EndsLineAppend(a: string, b: string)
    requires EndsLine(a) && EndsLine(b)
    ensures EndsLine(a + b)
  {
  }

  /** Every comment is a special token, as `Statement.comments` is declared. */
  predicate CommentsAreSpecial(comments: seq<Token>) {
    forall i | 0 <= i < |comments| :: comments[i].SpecialToken?
  }

  /** One line per comment: its text, closed with a block-comment end when it
      ran to the end of the text. `None` for a token without `has_end_sequence`. */
  function CommentLines(text: string, comments: seq<Token>): (r: Option<string>)
    ensures r.Some? <==> CommentsAreSpecial(comments)
    ensures r.Some? ==> EndsLine(r.value)
    decreases |comments|
  {
    if |comments| == 0 then Some([])
    else
      var c := comments[0];
      var rest := CommentLines(text, comments[1..]);
      if !c.SpecialToken? || rest.None? then None
      else Some(TokenText(text, c) + (if c.hasEndSequence then "" else " */") + "\n" + rest.value)
  }

  /** One line per unknown sequence, quoting its text. */
  function UnknownLines(text: string, unknowns: seq<UnknownSequence>): (r: string)
    ensures EndsLine(r)
    ensures |unknowns| > 0 ==> |r| > 0 && r[0] == '-'
    decreases |unknowns|
  {
    if |unknowns| == 0 then []
    else
      var u := unknowns[0];
      "-- UNKNOWN SEQUENCE: `" + PySlice(text, u.start, u.End()) + "`\n" + UnknownLines(text, unknowns[1..])
  }

  /** A SELECT alias that is a double-quoted string running to the end of the
      text: the formatter closes it. */
  predicate UnclosedQuotedAlias(t: Token) {
    t.IsSpecial(DoubleQuoteString) && !t.hasEndSequence
  }

  /** A field: its expression, then ` AS ` and the alias; when `closeQuotes`
      (in SELECT), an unclosed quoted alias gets its closing quote. */
  function FieldText(text: string, f: Field, closeQuotes: bool): (r: Option<string>)
    ensures r.Some? <==> OperatorsInTable(f.expression)
  {
    var e := FormatExpression(text, f.expression);
    if e.None? then None
    else match f.aliasName
      case None => Some(e.value)
      case Some(a) =>
        Some(e.value + " AS " + TokenText(text, a) + (if closeQuotes && UnclosedQuotedAlias(a) then "\"" else ""))
  }

  predicate FieldsInTable(fields: seq<Field>) {
    forall i | 0 <= i < |fields| :: OperatorsInTable(fields[i].expression)
  }

  function FieldTexts(text: string, fields: seq<Field>, closeQuotes: bool): (r: Option<seq<string>>)
    ensures r.Some? <==> FieldsInTable(fields)
    ensures r.Some? ==> |r.value| == |fields|
    ensures r.Some? ==> forall i | 0 <= i < |fields| :: Some(r.value[i]) == FieldText(text, fields[i], closeQuotes)
    decreases |fields|
  {
    if |fields| == 0 then Some([])
    else
      var f := FieldText(text, fields[0], closeQuotes);
      var rest := FieldTexts(text, fields[1..], closeQuotes);
      if f.None? || rest.None? then None
      else
        assert forall i | 1 <= i < |fields| :: fields[i] == fields[1..][i - 1];
        Some([f.value] + rest.value)
  }

  /** One line per clause: four spaces, the fields joined by `, `, and a comma
      after every clause but the last. */
  function ClauseLines(text: string, clauses: seq<seq<Field>>, closeQuotes: bool): (r: Option<string>)
    ensures r.Some? <==> forall i | 0 <= i < |clauses| :: FieldsInTable(clauses[i])
    ensures r.Some? ==> EndsLine(r.value)
    decreases |clauses|
  {
    if |clauses| == 0 then Some([])
    else
      var fields := FieldTexts(text, clauses[0], closeQuotes);
      var rest := ClauseLines(text, clauses[1..], closeQuotes);
      if fields.None? || rest.None? then None
      else
        assert forall i | 1 <= i < |clauses| :: clauses[i] == clauses[1..][i - 1];
        Some("    " + Strings.Join(", ", fields.value) + (if |clauses| == 1 then "" else ",") + "\n" + rest.value)
  }

  function SelectFields(selects: seq<SelectClause>): (r: seq<seq<Field>>)
    ensures |r| == |selects| && forall i | 0 <= i < |selects| :: r[i] == selects[i].fields
  {
    seq(|selects|, i requires 0 <= i < |selects| => selects[i].fields)
  }

  // ---------------------------------------------------------------------------
  // Leaving out repeated FROM tables

  /** The name under which a FROM field is recognised as a repeat: the text
      of a table that is a plain name. */
  function TableKey(text: string, f: Field): Option<string> {
    if f.expression.ValueExpression? && f.expression.token.NameToken? then Some(TokenText(text, f.expression.token))
    else None
  }

  /** The names of the plain-name tables among `fields`. */
  function FieldKeys(text: string, fields: seq<Field>): set<string> {
    set f | f in fields && TableKey(text, f).Some? :: TableKey(text, f).value
  }

  /** The fields of one FROM clause the formatter writes, and the names seen
      after the clause: a field whose plain-name table was seen before is
      left out. */
  function KeepFirst(text: string, fields: seq<Field>, seen: set<string>): (r: (seq<Field>, set<string>))
    decreases |fields|
  {
    if |fields| == 0 then ([], seen)
    else
      var key := TableKey(text, fields[0]);
      if key.Some? && key.value in seen then KeepFirst(text, fields[1..], seen)
      else
        var rest := KeepFirst(text, fields[1..], if key.Some? then seen + {key.value} else seen);
        ([fields[0]] + rest.0, rest.1)
  }

  /** After a clause, the seen names are the earlier ones and the clause's
      plain-name tables. */
  lemma {:induction false} KeepFirstSeen(text: string, fields: seq<Field>, seen: set<string>)
    ensures KeepFirst(text, fields, seen).1 == seen + FieldKeys(text, fields)
    decreases |fields|
  {
    if |fields| > 0 {
      var key := TableKey(text, fields[0]);
      assert FieldKeys(text, fields) == FieldKeys(text, [fields[0]]) + FieldKeys(text, fields[1..]) by {
        assert fields == [fields[0]] + fields[1..];
      }
      if key.Some? && key.value in seen {
        assert seen + {key.value} == seen;
      }
      KeepFirstSeen(text, fields[1..], if key.Some? then seen + {key.value} else seen);
    }
  }

  /** The written fields are fields of the clause, and every field left out
      has a plain-name table. */
  lemma {:induction false} KeepFirstFields(text: string, fields: seq<Field>, seen: set<string>)
    ensures forall f | f in KeepFirst(text, fields, seen).0 :: f in fields
    ensures forall i | 0 <= i < |fields| :: fields[i] in KeepFirst(text, fields, seen).0 || TableKey(text, fields[i]).Some?
    decreases |fields|
  {
    if |fields| > 0 {
      var key := TableKey(text, fields[0]);
      assert forall i | 1 <= i < |fields| :: fields[i] == fields[1..][i - 1];
      KeepFirstFields(text, fields[1..], if key.Some? then seen + {key.value} else seen);
      KeepFirstFields(text, fields[1..], seen);
    }
  }

  /** The fields of each FROM clause the formatter writes, the seen names
      carried from clause to clause. */
  function KeptClauses(text: string, froms: seq<FromClause>, seen: set<string>): (r: seq<seq<Field>>)
    ensures |r| == |froms|
    decreases |froms|
  {
    if |froms| == 0 then []
    else
      var k := KeepFirst(text, froms[0].fields, seen);
      [k.0] + KeptClauses(text, froms[1..], k.1)
  }

  lemma {:induction false} KeptClausesFields(text: string, froms: seq<FromClause>, seen: set<string>)
    ensures var kept := KeptClauses(text, froms, seen);
            forall i | 0 <= i < |froms| ::
              && (forall f | f in kept[i] :: f in froms[i].fields)
              && (forall j | 0 <= j < |froms[i].fields| :: froms[i].fields[j] in kept[i] || TableKey(text, froms[i].fields[j]).Some?)
    decreases |froms|
  {
    if |froms| > 0 {
      var k := KeepFirst(text, froms[0].fields, seen);
      KeepFirstFields(text, froms[0].fields, seen);
      KeptClausesFields(text, froms[1..], k.1);
      assert forall i | 1 <= i < |froms| :: froms[i] == froms[1..][i - 1];
    }
  }

  /** The FROM lines; the seen names start empty for every statement. */
  function FromLines(text: string, froms: seq<FromClause>): (r: Option<string>)
    ensures r.Some? <==> forall i | 0 <= i < |froms| :: FieldsInTable(froms[i].fields)
    ensures r.Some? ==> EndsLine(r.value)
  {
    var kept := KeptClauses(text, froms, {});
    KeptClausesFields(text, froms, {});
    assert (forall i | 0 <= i < |froms| :: FieldsInTable(froms[i].fields)) ==>
           (forall i | 0 <= i < |kept| :: FieldsInTable(kept[i])) by {
      forall i | 0 <= i < |kept| && FieldsInTable(froms[i].fields)
        ensures FieldsInTable(kept[i])
      {
        forall j | 0 <= j < |kept[i]|
          ensures OperatorsInTable(kept[i][j].expression)
        {
          assert kept[i][j] in kept[i];
          var f :| f in froms[i].fields && f == kept[i][j];
        }
      }
    }
    ClauseLines(text, kept, false)
  }

  // ---------------------------------------------------------------------------
  // The trailing-separator trim

  /** The characters the formatter trims from the end of its text. */
  predicate IsTrimmed(c: char) {
    IsSpace(c) || c == ','
  }

  /** Reference for the trim: the length of `s` without its trailing run of
      whitespace and commas. */
  function TrimmedEnd(s: string): (n: nat)
    ensures n <= |s|
    ensures forall i | n <= i < |s| :: IsTrimmed(s[i])
    ensures n > 0 ==> !IsTrimmed(s[n - 1])
    decreases |s|
  {
    if |s| == 0 then 0
    else if IsTrimmed(s[|s| - 1]) then TrimmedEnd(s[..|s| - 1])
    else |s|
  }

  /** The source's backwards scan with a negative index: `k` stands for
      `-last_char`. `None` when the index runs off the front (`IndexError`);
      otherwise the `k` that stops the scan. */
  function LastKept(s: string, k: nat): (r: Option<nat>)
    requires k >= 1
    requires forall i | 0 <= i && |s| - k < i < |s| :: IsTrimmed(s[i])
    ensures r == if TrimmedEnd(s) == 0 then None else Some(|s| + 1 - TrimmedEnd(s))
    decreases |s| + 1 - k
  {
    if k > |s| then None
    else if IsTrimmed(s[|s| - k]) then LastKept(s, k + 1)
    else Some(k)
  }

  /** The trim before the WHERE lines: cut the trailing whitespace and commas
      and end with one newline. The slice `ret[:last_char + 1]` is empty when
      the text's last character is kept (`last_char + 1 == 0`), so then only
      the newline is left. */
  function Trim(s: string): (r: Option<string>)
    ensures r.None? <==> TrimmedEnd(s) == 0
    ensures r.Some? && TrimmedEnd(s) < |s| ==> r.value == s[..TrimmedEnd(s)] + "\n"
    ensures r.Some? && TrimmedEnd(s) == |s| ==> r.value == "\n"
  {
    var k := LastKept(s, 1);
    if k.None? then None
    else Some(PySlice(s, 0, 1 - k.value) + "\n")
  }

  /** No text, or only whitespace and commas: nothing for the trim to keep. */
  lemma AllTrimmedHasNoEnd(s: string)
    ensures TrimmedEnd(s) == 0 <==> forall i | 0 <= i < |s| :: IsTrimmed(s[i])
  {
  }

  // ---------------------------------------------------------------------------
  // Statements

  /** Whether a WHERE condition is wrapped in parentheses: a binary expression
      whose operator binds more loosely than AND. `None` where the lookup
      fails. */
  function WrapsCondition(e: Expression): (r: Option<bool>)
    ensures r.None? ==> !OperatorsInTable(e)
  {
    if e.BinaryExpression? then
      var p := TablePrecedence(e.operator);
      if p.None? then None else Some(p.value > AndPrecedence)
    else Some(false)
  }

  /** The operators looser than AND are OR and the comma. */
  lemma LooserThanAnd(t: Token)
    ensures (TablePrecedence(t).Some? && TablePrecedence(t).value > AndPrecedence) <==> t.IsName(Or) || t.IsPunct(Comma)
  {
  }

  /** The WHERE lines: `WHERE ` before the first condition and `AND ` before
      the others. */
  function WhereLines(text: string, wheres: seq<WhereClause>, first: bool): (r: Option<string>)
    ensures r.Some? <==> forall i | 0 <= i < |wheres| :: OperatorsInTable(wheres[i].expression)
    decreases |wheres|
  {
    if |wheres| == 0 then Some([])
    else
      var e := wheres[0].expression;
      var wrap := WrapsCondition(e);
      var f := FormatExpression(text, e);
      var rest := WhereLines(text, wheres[1..], false);
      if wrap.None? || f.None? || rest.None? then None
      else
        assert forall i | 1 <= i < |wheres| :: wheres[i] == wheres[1..][i - 1];
        Some((if first then "WHERE " else "AND ") + (if wrap.value then "(" + f.value + ")" else f.value) + "\n" + rest.value)
  }

  /** `SELECT` when there are fields, `SELECT *` when there are tables only. */
  function SelectHeader(stmt: Statement): string {
    if |stmt.selects| > 0 then "SELECT\n"
    else if |stmt.froms| > 0 then "SELECT *\n"
    else ""
  }

  function FromHeader(stmt: Statement): string {
    if |stmt.froms| > 0 then "FROM\n" else ""
  }

  /** What the formatter can write: comments that are special tokens, and
      operators with table entries in every field and condition. */
  predicate Formattable(stmt: Statement) {
    && CommentsAreSpecial(stmt.comments)
    && (forall i | 0 <= i < |stmt.selects| :: FieldsInTable(stmt.selects[i].fields))
    && (forall i | 0 <= i < |stmt.froms| :: FieldsInTable(stmt.froms[i].fields))
    && (forall i | 0 <= i < |stmt.wheres| :: OperatorsInTable(stmt.wheres[i].expression))
  }

  /** Everything before the trim: comments, unknown sequences, SELECT and
      FROM. */
  function Body(text: string, stmt: Statement): (r: Option<string>)
    ensures r.Some? <==> CommentsAreSpecial(stmt.comments)
                         && (forall i | 0 <= i < |stmt.selects| :: FieldsInTable(stmt.selects[i].fields))
                         && (forall i | 0 <= i < |stmt.froms| :: FieldsInTable(stmt.froms[i].fields))
    ensures r.Some? ==> EndsLine(r.value) && CommentLines(text, stmt.comments).Some?
  {
    var comments := CommentLines(text, stmt.comments);
    var selects := ClauseLines(text, SelectFields(stmt.selects), true);
    var froms := FromLines(text, stmt.froms);
    if comments.None? || selects.None? || froms.None? then None
    else
      var u := UnknownLines(text, stmt.unknowns);
      var h, f := SelectHeader(stmt), FromHeader(stmt);
      EndsLineAppend(comments.value, u);
      EndsLineAppend(comments.value + u, h);
      EndsLineAppend(comments.value + u + h, selects.value);
      EndsLineAppend(comments.value + u + h + selects.value, f);
      EndsLineAppend(comments.value + u + h + selects.value + f, froms.value);
      Some(comments.value + u + h + selects.value + f + froms.value)
  }

  /** `format_statement`. */
  function FormatStatement(text: string, stmt: Statement): (r: Option<string>)
    ensures r.Some? ==> Formattable(stmt)
    ensures r.Some? ==> Body(text, stmt).Some? && WhereLines(text, stmt.wheres, true).Some?
  {
    var body := Body(text, stmt);
    if body.None? then None
    else
      var trimmed := Trim(body.value);
      if trimmed.None? then None
      else
        var wheres := WhereLines(text, stmt.wheres, true);
        if wheres.None? then None else Some(trimmed.value + wheres.value)
  }

  // ---------------------------------------------------------------------------
  // Properties of a formatted statement

  /** The formatter fails exactly where the source raises: an operator
      without a table entry, a comment that is not a special token, or
      nothing but whitespace and commas before the WHERE lines. */
  lemma FormatStatementDefined(text: string, stmt: Statement)
    ensures FormatStatement(text, stmt).Some? <==> Formattable(stmt) && TrimmedEnd(Body(text, stmt).value) > 0
  {
  }

  /** A character the trim does not remove survives it. */
  lemma TrimKeeps(s: string, n: nat)
    requires n < |s| && !IsTrimmed(s[n])
    ensures TrimmedEnd(s) > n
  {
  }

  /** The text before the WHERE lines ends with a newline, so the trim never
      meets a kept last character: the `ret[:0]` case cannot happen, and the
      trim only removes a trailing run of whitespace and commas. */
  lemma TrimCutsTrailingRun(text: string, stmt: Statement)
    requires Body(text, stmt).Some? && |Body(text, stmt).value| > 0
    ensures TrimmedEnd(Body(text, stmt).value) < |Body(text, stmt).value|
  {
  }

  /** A prefix whose last character the trim does not remove survives the
      trim. */
  lemma PrefixSurvivesTrim(body: string, p: string, w: string)
    requires |p| > 0 && StartsWith(body, p) && !IsTrimmed(p[|p| - 1])
    ensures StartsWith(body[..TrimmedEnd(body)] + "\n" + w, p)
  {
    assert body[|p| - 1] == p[|p| - 1];
    TrimKeeps(body, |p| - 1);
    var out := body[..TrimmedEnd(body)] + "\n" + w;
    assert out[..|p|] == body[..|p|];
  }

  /** The pieces of the text before the WHERE lines. */
  lemma BodyPieces(text: string, stmt: Statement) returns (c: string, u: string, h: string, rest: string)
    requires Body(text, stmt).Some?
    ensures Body(text, stmt).value == c + u + h + rest
    ensures CommentLines(text, stmt.comments) == Some(c)
    ensures u == UnknownLines(text, stmt.unknowns) && h == SelectHeader(stmt)
  {
    c, u, h := CommentLines(text, stmt.comments).value, UnknownLines(text, stmt.unknowns), SelectHeader(stmt);
    rest := ClauseLines(text, SelectFields(stmt.selects), true).value + FromHeader(stmt) + FromLines(text, stmt.froms).value;
  }

  /** The layout the trim leaves: what comes before a kept character is
      kept whole. */
  lemma TrimLayout(c: string, u: string, h: string, rest: string, w: string)
    requires (|u| > 0 && u[0] == '-') || StartsWith(h, "SELECT")
    ensures var body := c + u + h + rest;
            var out := body[..TrimmedEnd(body)] + "\n" + w;
            && StartsWith(out, c)
            && (StartsWith(h, "SELECT") ==> StartsWith(out, c + u + "SELECT"))
  {
    var body := c + u + h + rest;
    var w' := w;
    var p := if |u| > 0 && u[0] == '-' then c + u[..1] else c + u + h[..1];
    assert StartsWith(body, p) by {
      assert body[..|p|] == p;
    }
    PrefixSurvivesTrim(body, p, w');
    StartsWithTrans(body[..TrimmedEnd(body)] + "\n" + w', p, c);
    if StartsWith(h, "SELECT") {
      assert body[..|c + u| + 6] == c + u + "SELECT";
      PrefixSurvivesTrim(body, c + u + "SELECT", w');
    }
  }

  /** Text that holds a line the trim does not remove keeps it. */
  lemma ContentSurvivesTrim(body: string, c: string, u: string, h: string, rest: string)
    requires body == c + u + h + rest
    requires (|u| > 0 && u[0] == '-') || (|u| == 0 && |h| > 0 && h[0] == 'S')
    ensures TrimmedEnd(body) > |c|
  {
    assert body[|c|] == if |u| > 0 then u[0] else h[0];
    TrimKeeps(body, |c|);
  }

  /** With an unknown sequence, a SELECT or a FROM, the text before the
      WHERE lines is not blank: the trim keeps more than the comment lines. */
  lemma BodyNotBlank(text: string, stmt: Statement)
    requires Body(text, stmt).Some?
    requires |stmt.unknowns| > 0 || |stmt.selects| > 0 || |stmt.froms| > 0
    ensures TrimmedEnd(Body(text, stmt).value) > |CommentLines(text, stmt.comments).value|
  {
    var c, u, h, rest := BodyPieces(text, stmt);
    ContentSurvivesTrim(Body(text, stmt).value, c, u, h, rest);
  }

  /** A statement with an unknown sequence, a SELECT or a FROM can always be
      formatted when its operators have entries and its comments are special
      tokens. */
  lemma FormatsWithClauses(text: string, stmt: Statement)
    requires Formattable(stmt)
    requires |stmt.unknowns| > 0 || |stmt.selects| > 0 || |stmt.froms| > 0
    ensures FormatStatement(text, stmt).Some?
  {
    BodyNotBlank(text, stmt);
    FormatStatementDefined(text, stmt);
  }

  /** A formatted statement is the trimmed text before the WHERE lines, a
      newline, and the WHERE lines. */
  lemma FormatStatementPieces(text: string, stmt: Statement)
    requires FormatStatement(text, stmt).Some?
    ensures var body := Body(text, stmt).value;
            FormatStatement(text, stmt).value == body[..TrimmedEnd(body)] + "\n" + WhereLines(text, stmt.wheres, true).value
  {
    TrimCutsTrailingRun(text, stmt);
  }

  /** In a formatted statement with an unknown sequence, a SELECT or a FROM,
      the comment lines come first and the WHERE lines last; with SELECT or
      FROM clauses the unknown-sequence lines follow the comments, and then
      the word SELECT. */
  lemma FormattedLayout(text: string, stmt: Statement)
    requires FormatStatement(text, stmt).Some?
    requires |stmt.unknowns| > 0 || |stmt.selects| > 0 || |stmt.froms| > 0
    ensures var out := FormatStatement(text, stmt).value;
            var c := CommentLines(text, stmt.comments).value;
            var u := UnknownLines(text, stmt.unknowns);
            var w := WhereLines(text, stmt.wheres, true).value;
            && StartsWith(out, c)
            && (|stmt.selects| > 0 || |stmt.froms| > 0 ==> StartsWith(out, c + u + "SELECT"))
            && |w| <= |out| && out[|out| - |w|..] == w
  {
    FormatStatementPieces(text, stmt);
    var c, u, h, rest := BodyPieces(text, stmt);
    var w := WhereLines(text, stmt.wheres, true).value;
    TrimLayout(c, u, h, rest, w);
    var body := Body(text, stmt).value;
    var out := body[..TrimmedEnd(body)] + "\n" + w;
    assert out[|out| - |w|..] == w;
  }

  /** With nothing but WHERE clauses, the text before the WHERE lines is
      empty and the source's trim raises. */
  lemma WhereOnlyFails(text: string, stmt: Statement)
    requires |stmt.comments| == 0 && |stmt.unknowns| == 0 && |stmt.selects| == 0 && |stmt.froms| == 0
    ensures FormatStatement(text, stmt).None?
  {
  }

  /** A condition is wrapped in parentheses exactly when it is an OR or a
      comma expression. */
  lemma WhereWrapping(text: string, e: Expression)
    requires OperatorsInTable(e)
    ensures var f := FormatExpression(text, e).value;
            WhereLines(text, [WhereClause(e)], true)
            == Some("WHERE " + (if e.BinaryExpression? && (e.operator.IsName(Or) || e.operator.IsPunct(Comma))
                                then "(" + f + ")" else f) + "\n")
  {
    if e.BinaryExpression? {
      LooserThanAnd(e.operator);
    }
    assert [WhereClause(e)][1..] == [];
    var f := FormatExpression(text, e).value;
    var wrap := WrapsCondition(e).value;
    var line := "WHERE " + (if wrap then "(" + f + ")" else f) + "\n";
    assert line + [] == line;
  }

  // ---------------------------------------------------------------------------
  // Which repeated FROM tables are left out

  /** The fields whose flag is set, in order. */
  function Filter(fields: seq<Field>, keep: seq<bool>): seq<Field>
    requires |keep| == |fields|
    decreases |fields|
  {
    if |fields| == 0 then []
    else (if keep[0] then [fields[0]] else []) + Filter(fields[1..], keep[1..])
  }

  /** Field `j` is written: its table is not a plain name, or the name is
      neither in `seen` nor the name of an earlier field. */
  predicate IsFirstOccurrence(text: string, fields: seq<Field>, seen: set<string>, j: nat)
    requires j < |fields|
  {
    var key := TableKey(text, fields[j]);
    key.None? || (key.value !in seen && forall i | 0 <= i < j :: TableKey(text, fields[i]) != key)
  }

  function FirstOccurrences(text: string, fields: seq<Field>, seen: set<string>): (r: seq<bool>)
    ensures |r| == |fields|
    ensures forall j | 0 <= j < |fields| :: r[j] == IsFirstOccurrence(text, fields, seen, j)
  {
    seq(|fields|, j requires 0 <= j < |fields| => IsFirstOccurrence(text, fields, seen, j))
  }

  /** Dropping the first field moves the names it could repeat into `seen`. */
  lemma FirstOccurrencesShift(text: string, fields: seq<Field>, seen: set<string>)
    requires |fields| > 0
    ensures var key := TableKey(text, fields[0]);
            FirstOccurrences(text, fields, seen)[1..]
            == FirstOccurrences(text, fields[1..], if key.Some? then seen + {key.value} else seen)
  {
    var key := TableKey(text, fields[0]);
    var seen' := if key.Some? then seen + {key.value} else seen;
    var tail := fields[1..];
    forall j | 1 <= j < |fields|
      ensures IsFirstOccurrence(text, fields, seen, j) == IsFirstOccurrence(text, tail, seen', j - 1)
    {
      var k := TableKey(text, fields[j]);
      assert tail[j - 1] == fields[j];
      if k.Some? {
        assert (forall i | 0 <= i < j :: TableKey(text, fields[i]) != k)
               == (key != k && forall i | 0 <= i < j - 1 :: TableKey(text, tail[i]) != k) by {
          assert forall i | 0 <= i < j - 1 :: tail[i] == fields[i + 1];
          if key != k && forall i | 0 <= i < j - 1 :: TableKey(text, tail[i]) != k {
            forall i | 0 <= i < j
              ensures TableKey(text, fields[i]) != k
            {
              if i > 0 {
                assert fields[i] == tail[i - 1];
              }
            }
          }
        }
      }
    }
  }

  /** The fields of a FROM clause the formatter writes are exactly the first
      occurrences of their table names, and every field whose table is not a
      plain name. */
  lemma {:induction false} KeepFirstKeepsFirstOccurrences(text: string, fields: seq<Field>, seen: set<string>)
    ensures KeepFirst(text, fields, seen).0 == Filter(fields, FirstOccurrences(text, fields, seen))
    decreases |fields|
  {
    if |fields| > 0 {
      var key := TableKey(text, fields[0]);
      var seen' := if key.Some? then seen + {key.value} else seen;
      KeepFirstKeepsFirstOccurrences(text, fields[1..], seen');
      FirstOccurrencesShift(text, fields, seen);
      if key.Some? && key.value in seen {
        assert seen' == seen;
      }
    }
  }

  /** The plain-name tables of the FROM clauses before clause `i`. */
  function SeenBefore(text: string, froms: seq<FromClause>, i: nat): set<string>
    requires i <= |froms|
    decreases i
  {
    if i == 0 then {} else SeenBefore(text, froms, i - 1) + FieldKeys(text, froms[i - 1].fields)
  }

  lemma {:induction false} SeenBeforeShift(text: string, froms: seq<FromClause>, i: nat)
    requires 1 <= i <= |froms|
    ensures SeenBefore(text, froms, i) == FieldKeys(text, froms[0].fields) + SeenBefore(text, froms[1..], i - 1)
    decreases i
  {
    if i > 1 {
      SeenBeforeShift(text, froms, i - 1);
      assert froms[1..][i - 2] == froms[i - 1];
    }
  }

  lemma {:induction false} KeptClausesFirstOccurrences(text: string, froms: seq<FromClause>, seen: set<string>, i: nat)
    requires i < |froms|
    ensures KeptClauses(text, froms, seen)[i]
            == Filter(froms[i].fields, FirstOccurrences(text, froms[i].fields, seen + SeenBefore(text, froms, i)))
    decreases i
  {
    var k := KeepFirst(text, froms[0].fields, seen);
    if i == 0 {
      KeepFirstKeepsFirstOccurrences(text, froms[0].fields, seen);
      assert seen + SeenBefore(text, froms, 0) == seen;
    } else {
      KeptClausesFirstOccurrences(text, froms[1..], k.1, i - 1);
      KeepFirstSeen(text, froms[0].fields, seen);
      SeenBeforeShift(text, froms, i);
      assert froms[1..][i - 1] == froms[i];
      assert k.1 + SeenBefore(text, froms[1..], i - 1) == seen + SeenBefore(text, froms, i);
    }
  }

  /** Across the FROM clauses of a statement, a field is written exactly when
      its table is not a plain name or the name appears in no earlier field of
      this clause or any earlier clause. */
  lemma FromClausesWriteFirstOccurrences(text: string, froms: seq<FromClause>, i: nat)
    requires i < |froms|
    ensures KeptClauses(text, froms, {})[i]
            == Filter(froms[i].fields, FirstOccurrences(text, froms[i].fields, SeenBefore(text, froms, i)))
  {
    KeptClausesFirstOccurrences(text, froms, {}, i);
    assert {} + SeenBefore(text, froms, i) == SeenBefore(text, froms, i);
  }
}
