/**
 The syntax tree the parser builds.

 Source: code/my_ast.py. Nodes refer to the text only through tokens and
 `(start, length)` spans, never by copying it. `SelectField` and `FromField`
 have the same shape (an expression and an optional alias), so both are the
 `Field` below; the expression of a FROM field is the table name.
 */
module Ast {
  import opened Optional
  import opened Tokens

  datatype Expression =
    | ValueExpression(token: Token)
    | ParenExpression(leftParen: Token, expr: Expression, rightParen: Option<Token>)
    | BinaryExpression(left: Expression, operator: Token, right: Expression)
    | PlaceholderExpression(placeholderText: string)

  datatype Field = Field(expression: Expression, aliasName: Option<Token>)

  datatype SelectClause = SelectClause(fields: seq<Field>)

  datatype FromClause = FromClause(fields: seq<Field>)

  datatype WhereClause = WhereClause(expression: Expression)

  /** A run of tokens the parser could not place, from `firstToken` on. */
  datatype UnknownSequence = UnknownSequence(start: nat, length: int, firstToken: Token) {
    function End(): int {
      start + length
    }
  }

  datatype Statement = Statement(
    start: nat,
    length: int,
    selects: seq<SelectClause>,
    froms: seq<FromClause>,
    wheres: seq<WhereClause>,
    comments: seq<Token>,
    unknowns: seq<UnknownSequence>)
  {
    function End(): int {
      start + length
    }
  }

  // ---------------------------------------------------------------------------
  // What the node comments of the source allow

  /** A value is a non-keyword name, a number or a quoted string. */
  predicate IsValueToken(t: Token) {
    t.IsName(NonKeyword) || t.NumberToken? || t.IsString()
  }

  /** An alias is a non-keyword name or a double-quoted string. */
  predicate IsAliasToken(t: Token) {
    t.IsName(NonKeyword) || t.IsSpecial(DoubleQuoteString)
  }

  /** Values hold value tokens, parentheses hold `(` and, unless unclosed, `)`,
      operators are names or punctuation, and the placeholder text is "1".
      Which operators have a precedence is `Bounded`'s concern. */
  predicate WellFormed(e: Expression) {
    match e
    case ValueExpression(t) => IsValueToken(t)
    case ParenExpression(l, inner, r) =>
      l.IsPunct(LeftParen) && (r.Some? ==> r.value.IsPunct(RightParen)) && WellFormed(inner)
    case BinaryExpression(left, op, right) => IsNameOrPunct(op) && WellFormed(left) && WellFormed(right)
    case PlaceholderExpression(text) => text == "1"
  }

  predicate WellFormedField(f: Field) {
    WellFormed(f.expression) && (f.aliasName.Some? ==> IsAliasToken(f.aliasName.value))
  }

  predicate PlaceholderFree(e: Expression) {
    match e
    case ValueExpression(_) => true
    case ParenExpression(_, inner, _) => PlaceholderFree(inner)
    case BinaryExpression(left, _, right) => PlaceholderFree(left) && PlaceholderFree(right)
    case PlaceholderExpression(_) => false
  }

  /** The tokens an expression holds, in the order of the text: values,
      parentheses and operators. A placeholder holds none. */
  function TokensOf(e: Expression): seq<Token> {
    match e
    case ValueExpression(t) => [t]
    case ParenExpression(l, inner, r) => [l] + (if r.Some? then TokensOf(inner) + [r.value] else TokensOf(inner))
    case BinaryExpression(left, op, right) => TokensOf(left) + ([op] + TokensOf(right))
    case PlaceholderExpression(_) => []
  }

  // ---------------------------------------------------------------------------
  // Precedence shape

  /** The precedence of the operator at the top of `e`; 0 for anything that
      is not a binary expression, which binds tighter than every operator. */
  function Top(prec: Precedences, e: Expression): int {
    if e.BinaryExpression? then prec(e.operator) else 0
  }

  /** Every operator outside parentheses has a precedence of at most
      `ceiling`, and the right operand of an operator with precedence `p` has
      only operators tighter than `p` outside parentheses. Inside parentheses
      the ceiling is the comma's. */
  predicate Bounded(prec: Precedences, e: Expression, ceiling: int) {
    match e
    case ValueExpression(_) => true
    case ParenExpression(_, inner, _) => Bounded(prec, inner, CommaPrecedence)
    case BinaryExpression(left, op, right) =>
      prec(op) <= ceiling && Bounded(prec, left, ceiling) && Bounded(prec, right, prec(op) - 1)
    case PlaceholderExpression(_) => true
  }

  /** The left operand of every operator binds at least as tightly as the
      operator itself: equal precedences group to the left. */
  predicate LeftAssociative(prec: Precedences, e: Expression) {
    match e
    case ValueExpression(_) => true
    case ParenExpression(_, inner, _) => LeftAssociative(prec, inner)
    case BinaryExpression(left, op, right) =>
      Top(prec, left) <= prec(op) && LeftAssociative(prec, left) && LeftAssociative(prec, right)
    case PlaceholderExpression(_) => true
  }

  /** Every operator outside parentheses is `.`. */
  predicate DotChain(e: Expression) {
    match e
    case BinaryExpression(left, op, right) => op.IsPunct(Dot) && DotChain(left) && DotChain(right)
    case _ => true
  }

  /** A bound keeps the top operator under it. */
  lemma BoundedTop(prec: Precedences, e: Expression, ceiling: int)
    requires ceiling >= 0
    requires Bounded(prec, e, ceiling)
    ensures Top(prec, e) <= ceiling
  {
  }

  /** With a ceiling of 1, the precedence of `.`, an expression is a chain of
      dots between operands. */
  lemma {:induction false} BoundedByDotIsDotChain(prec: Precedences, e: Expression, ceiling: int)
    requires OnlyDotIsTightest(prec) && ceiling <= DotPrecedence
    requires Bounded(prec, e, ceiling)
    ensures DotChain(e)
  {
    match e
    case BinaryExpression(left, op, right) =>
      BoundedByDotIsDotChain(prec, left, ceiling);
      BoundedByDotIsDotChain(prec, right, prec(op) - 1);
    case _ =>
  }

  /** Every operator of `e` has an entry in the precedence table. */
  predicate OperatorsInTable(e: Expression) {
    match e
    case ValueExpression(_) => true
    case ParenExpression(_, inner, _) => OperatorsInTable(inner)
    case BinaryExpression(left, op, right) => IsOperatorToken(op) && OperatorsInTable(left) && OperatorsInTable(right)
    case PlaceholderExpression(_) => true
  }

  /** Under the table's precedences, a well-formed expression bounded by a
      ceiling no looser than the comma's uses only operators the table has. */
  lemma {:induction false} BoundedOperatorsInTable(e: Expression, ceiling: int)
    requires ceiling <= CommaPrecedence
    requires WellFormed(e) && Bounded(TokenPrecedence, e, ceiling)
    ensures OperatorsInTable(e)
  {
    match e
    case ParenExpression(_, inner, _) =>
      BoundedOperatorsInTable(inner, CommaPrecedence);
    case BinaryExpression(left, op, right) =>
      PrecedenceWithinTable(op);
      BoundedOperatorsInTable(left, ceiling);
      BoundedOperatorsInTable(right, TokenPrecedence(op) - 1);
    case _ =>
  }
}
