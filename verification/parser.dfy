/**
 The recursive-descent parser with precedence climbing.

 Source: code/parser.py. The parser reads the token stream `Lex` produces (the
 tokens the tokenizer's `peek` and `consume` serve, see `TokenQueue`), so its
 state is an index into that stream, the end of the last consumed token (the
 tokenizer's `end_idx_of_last_consumed_token`) and the comments collected for
 the statement being parsed. The parser never fails: an exception the source
 raises for an unexpected token becomes a value (a placeholder expression or
 an unknown sequence).
 */
module Parser {
  import opened Optional
  import opened Tokens
  import opened Scanner
  import opened Ast

  // ---------------------------------------------------------------------------
  // The stream and the parser state

  /** The parser's input: the tokens `Lex` produces, the marker after them,
      and the precedence the parser gives each token. The program's parser
      uses the table's, `TokenPrecedence` (see `InputOf`); the proofs hold
      for any function with the properties `Precedences` lists. */
  datatype Input = Input(tokens: seq<Token>, endOfString: Token, precedence: Precedences) {
    /** The token at index `i`, counting from 0. */
    function At(i: nat): Token {
      if i < |tokens| then tokens[i] else endOfString
    }
  }

  /** What the parser relies on in an input: the marker after the tokens is
      the end-of-text token. */
  predicate ValidStream(s: Input) {
    s.endOfString.IsEndOfString()
  }

  /** The inputs the parser reads. */
  type Stream = s: Input | ValidStream(s) witness Input([], SpecialToken(0, 0, EndOfString, true), TokenPrecedence)

  /** What `Parser(text, start_position)` reads: the tokens from the start
      position and the table's precedences. */
  function InputOf(text: string, startPosition: nat): (s: Stream)
    ensures s.tokens == Lex(text, startPosition).tokens && s.precedence == TokenPrecedence
  {
    var lexed := Lex(text, startPosition);
    Input(lexed.tokens, lexed.endOfString, TokenPrecedence)
  }

  /** The loosest precedence an expression may absorb: from 0 (no operator)
      up to the comma's. */
  type Ceiling = c: int | 0 <= c <= CommaPrecedence

  /** The tokens are non-empty, are not the marker and follow one another in
      the text, and the marker comes last. */
  predicate OrderedStream(s: Input) {
    && (forall i | 0 <= i < |s.tokens| :: !s.tokens[i].IsEndOfString() && 1 <= s.tokens[i].length)
    && (forall i, j | 0 <= i < j < |s.tokens| :: s.tokens[i].End() <= s.tokens[j].start)
    && (forall i | 0 <= i < |s.tokens| :: s.tokens[i].End() <= s.endOfString.start)
  }

  lemma InputIsOrdered(text: string, position: nat)
    ensures OrderedStream(InputOf(text, position))
  {
  }

  /** The comment tokens among the tokens at indices `i` to `j - 1`, in order. */
  function CommentsBetween(s: Stream, i: nat, j: nat): (r: seq<Token>)
    requires i <= j <= |s.tokens|
    ensures forall k | 0 <= k < |r| :: r[k].IsComment()
    decreases j - i
  {
    if i == j then []
    else (if s.tokens[i].IsComment() then [s.tokens[i]] else []) + CommentsBetween(s, i + 1, j)
  }

  /** Collecting comments over two adjacent ranges is collecting them over the
      whole range. */
  lemma {:induction false} CommentsBetweenSplit(s: Stream, i: nat, j: nat, k: nat)
    requires i <= j <= k <= |s.tokens|
    ensures CommentsBetween(s, i, k) == CommentsBetween(s, i, j) + CommentsBetween(s, j, k)
    decreases j - i
  {
    if i < j {
      CommentsBetweenSplit(s, i + 1, j, k);
    }
  }

  /** The parser's position in the stream (the number of tokens consumed)
      and the comments met so far in the statement. */
  datatype PState = PState(pos: nat, comments: seq<Token>)

  /** The position never passes the marker: the parser never consumes it. */
  predicate Consistent(s: Stream, st: PState) {
    st.pos <= |s.tokens|
  }

  /** The tokenizer's `end_idx_of_last_consumed_token` at position `pos`: the
      end of the token just before it, or -1 before the first (`TokenQueue.Consume`
      records exactly this). */
  function LastEnd(s: Stream, pos: nat): int
    requires pos <= |s.tokens|
  {
    if pos == 0 then -1 else s.tokens[pos - 1].End()
  }

  /** `st'` is at or after `st` and still within the stream. */
  predicate Moves(s: Stream, st: PState, st': PState) {
    st.pos <= st'.pos <= |s.tokens|
  }

  /** `st'` follows `st`, and exactly the comments among the tokens consumed
      in between were recorded, in order. */
  predicate Steps(s: Stream, st: PState, st': PState) {
    Moves(s, st, st') && st'.comments == st.comments + CommentsBetween(s, st.pos, st'.pos)
  }

  lemma StepsTrans(s: Stream, a: PState, b: PState, c: PState)
    requires Steps(s, a, b) && Steps(s, b, c)
    ensures Steps(s, a, c)
  {
    CommentsBetweenSplit(s, a.pos, b.pos, c.pos);
    assert c.comments == a.comments + (CommentsBetween(s, a.pos, b.pos) + CommentsBetween(s, b.pos, c.pos));
  }

  /** `consume()`: move past the token at the position. */
  function Advance(s: Stream, st: PState): (r: PState)
    requires st.pos < |s.tokens|
    ensures Moves(s, st, r) && r.pos == st.pos + 1
  {
    PState(st.pos + 1, st.comments)
  }

  /** Consuming a token that is not a comment records nothing. */
  lemma AdvanceSteps(s: Stream, st: PState)
    requires st.pos < |s.tokens| && !s.tokens[st.pos].IsComment()
    ensures Steps(s, st, Advance(s, st))
  {
    assert CommentsBetween(s, st.pos + 1, st.pos + 1) == [];
  }

  // ---------------------------------------------------------------------------
  // Comments and newlines

  /** The token at `i` is one `NextStandard` skips: a comment, or a newline
      that no other newline follows. */
  predicate Skippable(s: Stream, i: nat)
    requires i < |s.tokens|
  {
    s.tokens[i].IsComment() || (s.tokens[i].IsNewline() && !s.At(i + 1).IsNewline())
  }

  /** The token at the position is one `NextStandard` would stop at. */
  predicate AtStandard(s: Stream, st: PState) {
    st.pos < |s.tokens| ==> !Skippable(s, st.pos)
  }

  /** Consume one token `NextStandard` skips, appending it to the comments
      when it is a comment. */
  function Skip(s: Stream, st: PState): (r: PState)
    requires st.pos < |s.tokens|
    ensures Moves(s, st, r) && r.pos == st.pos + 1
  {
    if s.tokens[st.pos].IsComment() then
      PState(st.pos + 1, st.comments + [s.tokens[st.pos]])
    else
      Advance(s, st)
  }

  /** Skipping records exactly the skipped comment. */
  lemma SkipSteps(s: Stream, st: PState)
    requires st.pos < |s.tokens|
    ensures Steps(s, st, Skip(s, st))
  {
    assert CommentsBetween(s, st.pos + 1, st.pos + 1) == [];
  }

  /** `get_next_standard_token`: skip comments, recording them, and single
      newlines, and return the token after them without consuming it: the
      token at a position it would not skip. */
  function NextStandard(s: Stream, st: PState): (r: (Token, PState))
    requires Consistent(s, st)
    ensures Moves(s, st, r.1) && AtStandard(s, r.1)
    ensures r.0 == s.At(r.1.pos)
    decreases |s.tokens| - st.pos
  {
    if st.pos < |s.tokens| && Skippable(s, st.pos) then
      // A single newline is consumed and the loop goes on with the token
      // after it, which is not a newline: the same as starting over there.
      NextStandard(s, Skip(s, st))
    else
      (s.At(st.pos), st)
  }

  /** `NextStandard` records exactly the comments it skips. */
  lemma {:induction false} NextStandardSteps(s: Stream, st: PState)
    requires Consistent(s, st)
    ensures Steps(s, st, NextStandard(s, st).1)
    decreases |s.tokens| - st.pos
  {
    if st.pos < |s.tokens| && Skippable(s, st.pos) {
      SkipSteps(s, st);
      NextStandardSteps(s, Skip(s, st));
      StepsTrans(s, st, Skip(s, st), NextStandard(s, st).1);
    } else {
      assert CommentsBetween(s, st.pos, st.pos) == [];
    }
  }

  /** `NextStandard` consumes only tokens it skips. */
  lemma {:induction false} NextStandardSkipsOnly(s: Stream, st: PState)
    requires Consistent(s, st)
    ensures forall i | st.pos <= i < NextStandard(s, st).1.pos :: Skippable(s, i)
    decreases |s.tokens| - st.pos
  {
    if st.pos < |s.tokens| && Skippable(s, st.pos) {
      NextStandardSkipsOnly(s, Skip(s, st));
    }
  }

  /** A standard token is never a comment, and it is a newline only when
      another newline follows it, so a newline pair ends a statement. */
  lemma StandardToken(s: Stream, st: PState)
    requires Consistent(s, st) && AtStandard(s, st)
    ensures !s.At(st.pos).IsComment()
    ensures s.At(st.pos).IsNewline() ==> s.At(st.pos + 1).IsNewline()
  {
  }

  /** At a token `NextStandard` stops at, it consumes nothing. */
  lemma StandardIsIdle(s: Stream, st: PState)
    requires Consistent(s, st) && AtStandard(s, st)
    ensures NextStandard(s, st) == (s.At(st.pos), st)
  {
  }

  // ---------------------------------------------------------------------------
  // Expressions

  /** The precedence climber absorbs `t` under `ceiling`: it is a name or
      punctuation token whose precedence is at most the ceiling. */
  predicate Absorbs(prec: Precedences, t: Token, ceiling: Ceiling) {
    IsNameOrPunct(t) && prec(t) <= ceiling
  }

  /** Where an expression under `ceiling` ended without a placeholder: at a
      token `NextStandard` stops at, which the ceiling does not admit. */
  predicate StopsAt(s: Stream, st: PState, ceiling: Ceiling) {
    AtStandard(s, st) && !Absorbs(s.precedence, s.At(st.pos), ceiling)
  }

  /** The ceiling of the right operand of `op`: just below the operator's
      own precedence, so that equal precedences group to the left. */
  function OperandCeiling(prec: Precedences, op: Token): (c: Ceiling)
    ensures c < prec(op)
  {
    prec(op) - 1
  }

  /** `parse_non_binary_expression`: a value, a parenthesised expression (the
      comma is allowed inside), or, for any other token, the placeholder "1"
      with that token left unconsumed. */
  function ParseLeaf(s: Stream, st: PState): (r: (Expression, PState))
    requires Consistent(s, st)
    ensures Moves(s, st, r.1) && !r.0.BinaryExpression?
    ensures !r.0.PlaceholderExpression? ==> r.1.pos > st.pos
    decreases |s.tokens| - st.pos, 0
  {
    var next := NextStandard(s, st);
    if IsValueToken(next.0) then
      (ValueExpression(next.0), Advance(s, next.1))
    else if next.0.IsPunct(LeftParen) then
      var inner := ParseExpression(s, Advance(s, next.1), CommaPrecedence);
      var close := NextStandard(s, inner.1);
      if close.0.IsPunct(RightParen) then
        (ParenExpression(next.0, inner.0, Some(close.0)), Advance(s, close.1))
      else
        (ParenExpression(next.0, inner.0, None), close.1)
    else
      (PlaceholderExpression("1"), next.1)
  }

  /** `parse_expression`: a leaf, then as many operators as the ceiling
      allows. A placeholder leaf ends the expression at once. */
  function ParseExpression(s: Stream, st: PState, ceiling: Ceiling): (r: (Expression, PState))
    requires Consistent(s, st)
    ensures Moves(s, st, r.1)
    ensures !r.0.PlaceholderExpression? ==> r.1.pos > st.pos
    decreases |s.tokens| - st.pos, 3
  {
    var leaf := ParseLeaf(s, st);
    if leaf.0.PlaceholderExpression? then leaf else Climb(s, leaf.1, leaf.0, ceiling)
  }

  /** The loop of `parse_expression`: while the next standard token is an
      operator the ceiling admits, absorb it (`ClimbOperator`); otherwise
      the expression is complete. */
  function Climb(s: Stream, st: PState, left: Expression, ceiling: Ceiling): (r: (Expression, PState))
    requires Consistent(s, st)
    ensures Moves(s, st, r.1)
    ensures r.0 == left || r.0.BinaryExpression?
    decreases |s.tokens| - st.pos, 2
  {
    var next := NextStandard(s, st);
    if Absorbs(s.precedence, next.0, ceiling) then ClimbOperator(s, next.1, left, ceiling) else (left, next.1)
  }

  /** One round of the loop: consume the operator at the position and parse
      its right operand. A placeholder right operand stops the loop (but not
      the loops of enclosing expressions). */
  function ClimbOperator(s: Stream, st: PState, left: Expression, ceiling: Ceiling): (r: (Expression, PState))
    requires st.pos < |s.tokens|
    ensures Moves(s, st, r.1) && r.1.pos > st.pos && r.0.BinaryExpression?
    decreases |s.tokens| - st.pos, 1
  {
    var right := RightOperand(s, st);
    var e := BinaryExpression(left, s.tokens[st.pos], right.0);
    if right.0.PlaceholderExpression? then (e, right.1) else Climb(s, right.1, e, ceiling)
  }

  /** The right operand of the operator at the position: the expression after
      it, under the operator's `OperandCeiling`. */
  function RightOperand(s: Stream, st: PState): (r: (Expression, PState))
    requires st.pos < |s.tokens|
    ensures Moves(s, st, r.1) && r.1.pos > st.pos
    decreases |s.tokens| - st.pos, 0
  {
    ParseExpression(s, Advance(s, st), OperandCeiling(s.precedence, s.tokens[st.pos]))
  }

  /** The measure the expression lemmas recurse on: four steps for every token
      left to read, with `k` ordering the lemmas that start at the same
      position in the order the parse functions call one another. */
  function Rank(s: Stream, st: PState, k: nat): nat {
    4 * (if st.pos <= |s.tokens| then |s.tokens| - st.pos else 0) + k
  }

  /** Which leaf the next standard token starts: a value token is the value,
      `(` opens a parenthesised expression, and any other token gives the
      placeholder, which consumes only what `NextStandard` skipped. */
  lemma ParseLeafKinds(s: Stream, st: PState)
    requires Consistent(s, st)
    ensures var t := NextStandard(s, st).0;
            var r := ParseLeaf(s, st);
            && (r.0.ValueExpression? <==> IsValueToken(t))
            && (r.0.ValueExpression? ==> r.0.token == t)
            && (r.0.ParenExpression? <==> t.IsPunct(LeftParen))
            && (r.0.ParenExpression? ==> r.0.leftParen == t)
            && (r.0.PlaceholderExpression? ==> r.1 == NextStandard(s, st).1)
  {
  }

  /** A placeholder expression is a placeholder leaf: nothing but what
      `NextStandard` skips is consumed. */
  lemma ParseExpressionPlaceholder(s: Stream, st: PState, ceiling: Ceiling)
    requires Consistent(s, st)
    ensures ParseExpression(s, st, ceiling).0.PlaceholderExpression? ==>
              ParseExpression(s, st, ceiling).1 == NextStandard(s, st).1
  {
    ParseLeafKinds(s, st);
  }

  /** The operator a round of the loop consumes is the standard token at the
      position, so it is neither a comment nor the end-of-text marker. */
  lemma AbsorbedIsOperator(s: Stream, st: PState, ceiling: Ceiling)
    requires Consistent(s, st) && Absorbs(s.precedence, s.At(st.pos), ceiling)
    ensures st.pos < |s.tokens| && !s.tokens[st.pos].IsComment()
  {
  }

  // ---------------------------------------------------------------------------
  // The comments met while parsing an expression are recorded

  lemma {:induction false} ParseLeafSteps(s: Stream, st: PState)
    requires Consistent(s, st)
    ensures Steps(s, st, ParseLeaf(s, st).1)
    decreases Rank(s, st, 0)
  {
    var next := NextStandard(s, st);
    NextStandardSteps(s, st);
    if IsValueToken(next.0) {
      AdvanceSteps(s, next.1);
      StepsTrans(s, st, next.1, Advance(s, next.1));
    } else if next.0.IsPunct(LeftParen) {
      var st1 := Advance(s, next.1);
      AdvanceSteps(s, next.1);
      StepsTrans(s, st, next.1, st1);
      var inner := ParseExpression(s, st1, CommaPrecedence);
      ParseExpressionSteps(s, st1, CommaPrecedence);
      StepsTrans(s, st, st1, inner.1);
      var close := NextStandard(s, inner.1);
      NextStandardSteps(s, inner.1);
      StepsTrans(s, st, inner.1, close.1);
      if close.0.IsPunct(RightParen) {
        AdvanceSteps(s, close.1);
        StepsTrans(s, st, close.1, Advance(s, close.1));
      }
    }
  }

  /** Parsing an expression records exactly the comments among the tokens it
      consumes, in order. */
  lemma {:induction false} ParseExpressionSteps(s: Stream, st: PState, ceiling: Ceiling)
    requires Consistent(s, st)
    ensures Steps(s, st, ParseExpression(s, st, ceiling).1)
    decreases Rank(s, st, 3)
  {
    var leaf := ParseLeaf(s, st);
    ParseLeafSteps(s, st);
    if !leaf.0.PlaceholderExpression? {
      ClimbSteps(s, leaf.1, leaf.0, ceiling);
      StepsTrans(s, st, leaf.1, ParseExpression(s, st, ceiling).1);
    }
  }

  lemma {:induction false} ClimbSteps(s: Stream, st: PState, left: Expression, ceiling: Ceiling)
    requires Consistent(s, st)
    ensures Steps(s, st, Climb(s, st, left, ceiling).1)
    decreases Rank(s, st, 2)
  {
    var next := NextStandard(s, st);
    NextStandardSteps(s, st);
    if Absorbs(s.precedence, next.0, ceiling) {
      AbsorbedIsOperator(s, next.1, ceiling);
      ClimbOperatorSteps(s, next.1, left, ceiling);
      StepsTrans(s, st, next.1, Climb(s, st, left, ceiling).1);
    }
  }

  lemma {:induction false} ClimbOperatorSteps(s: Stream, st: PState, left: Expression, ceiling: Ceiling)
    requires st.pos < |s.tokens| && !s.tokens[st.pos].IsComment()
    ensures Steps(s, st, ClimbOperator(s, st, left, ceiling).1)
    decreases Rank(s, st, 1)
  {
    var right := RightOperand(s, st);
    OperandSteps(s, st);
    if !right.0.PlaceholderExpression? {
      var e := BinaryExpression(left, s.tokens[st.pos], right.0);
      ClimbSteps(s, right.1, e, ceiling);
      StepsTrans(s, st, right.1, Climb(s, right.1, e, ceiling).1);
    }
  }

  /** An operator and its right operand record the operand's comments. */
  lemma {:induction false} OperandSteps(s: Stream, st: PState)
    requires st.pos < |s.tokens| && !s.tokens[st.pos].IsComment()
    ensures Steps(s, st, RightOperand(s, st).1)
    decreases Rank(s, st, 0)
  {
    var st1 := Advance(s, st);
    AdvanceSteps(s, st);
    ParseExpressionSteps(s, st1, OperandCeiling(s.precedence, s.tokens[st.pos]));
    StepsTrans(s, st, st1, RightOperand(s, st).1);
  }

  // ---------------------------------------------------------------------------
  // Parsing an expression loses no token

  /** The tokens at indices `i` to `j - 1` that `NextStandard` does not skip,
      in order. */
  function StandardTokens(s: Stream, i: nat, j: nat): seq<Token>
    requires i <= j <= |s.tokens|
    decreases j - i
  {
    if i == j then []
    else (if Skippable(s, i) then [] else [s.tokens[i]]) + StandardTokens(s, i + 1, j)
  }

  /** Between positions `i` and `j` the parser reads the standard tokens `ts`. */
  predicate Reads(s: Stream, i: nat, j: nat, ts: seq<Token>) {
    i <= j <= |s.tokens| && StandardTokens(s, i, j) == ts
  }

  lemma {:induction false} StandardTokensSplit(s: Stream, i: nat, j: nat, k: nat)
    requires i <= j <= k <= |s.tokens|
    ensures StandardTokens(s, i, k) == StandardTokens(s, i, j) + StandardTokens(s, j, k)
    decreases j - i
  {
    if i < j {
      StandardTokensSplit(s, i + 1, j, k);
    }
  }

  lemma ReadsTrans(s: Stream, i: nat, j: nat, k: nat, a: seq<Token>, b: seq<Token>)
    requires Reads(s, i, j, a) && Reads(s, j, k, b)
    ensures Reads(s, i, k, a + b)
  {
    StandardTokensSplit(s, i, j, k);
  }

  lemma ReadsNothingThen(s: Stream, i: nat, j: nat, k: nat, b: seq<Token>)
    requires Reads(s, i, j, []) && Reads(s, j, k, b)
    ensures Reads(s, i, k, b)
  {
    ReadsTrans(s, i, j, k, [], b);
    assert [] + b == b;
  }

  lemma ReadsThenNothing(s: Stream, i: nat, j: nat, k: nat, a: seq<Token>)
    requires Reads(s, i, j, a) && Reads(s, j, k, [])
    ensures Reads(s, i, k, a)
  {
    ReadsTrans(s, i, j, k, a, []);
    assert a + [] == a;
  }

  /** Consuming the standard token at the position reads exactly it. */
  lemma ReadsOne(s: Stream, st: PState)
    requires st.pos < |s.tokens| && AtStandard(s, st)
    ensures Reads(s, st.pos, st.pos + 1, [s.tokens[st.pos]])
  {
  }

  lemma ReadsCons(s: Stream, i: nat, j: nat, ts: seq<Token>)
    requires i < |s.tokens| && AtStandard(s, PState(i, []))
    requires Reads(s, i + 1, j, ts)
    ensures Reads(s, i, j, [s.tokens[i]] + ts)
  {
  }

  lemma {:induction false} ReadsSkipped(s: Stream, i: nat, j: nat)
    requires i <= j <= |s.tokens|
    requires forall k | i <= k < j :: Skippable(s, k)
    ensures Reads(s, i, j, [])
    decreases j - i
  {
    if i < j {
      ReadsSkipped(s, i + 1, j);
    }
  }

  /** `NextStandard` passes over no standard token. */
  lemma NextStandardReadsNothing(s: Stream, st: PState)
    requires Consistent(s, st)
    ensures Reads(s, st.pos, NextStandard(s, st).1.pos, [])
  {
    NextStandardSkipsOnly(s, st);
    ReadsSkipped(s, st.pos, NextStandard(s, st).1.pos);
  }

  lemma ConcatAssoc(a: seq<Token>, b: seq<Token>, c: seq<Token>)
    ensures (a + b) + c == a + (b + c)
  {
  }

  /** A parsed leaf holds exactly the standard tokens it consumed, in order. */
  lemma {:induction false} ParseLeafTokens(s: Stream, st: PState)
    requires Consistent(s, st)
    ensures Reads(s, st.pos, ParseLeaf(s, st).1.pos, TokensOf(ParseLeaf(s, st).0))
    decreases Rank(s, st, 1)
  {
    var r := ParseLeaf(s, st);
    var next := NextStandard(s, st);
    NextStandardReadsNothing(s, st);
    if IsValueToken(next.0) {
      ReadsOne(s, next.1);
      ReadsNothingThen(s, st.pos, next.1.pos, r.1.pos, [next.0]);
    } else if next.0.IsPunct(LeftParen) {
      ParenTokens(s, next.1);
      ReadsNothingThen(s, st.pos, next.1.pos, r.1.pos, TokensOf(r.0));
    } else {
      assert r == (PlaceholderExpression("1"), next.1);
    }
  }

  /** From the `(` on, a parenthesis leaf reads `(`, the tokens of the
      expression inside and the `)` if there is one. */
  lemma {:induction false} ParenTokens(s: Stream, st: PState)
    requires Consistent(s, st) && AtStandard(s, st)
    requires s.At(st.pos).IsPunct(LeftParen)
    ensures var r := ParseLeaf(s, st);
            Reads(s, st.pos, r.1.pos, TokensOf(r.0))
    decreases Rank(s, st, 0)
  {
    var r := ParseLeaf(s, st);
    var l := s.tokens[st.pos];
    var st1 := Advance(s, st);
    assert NextStandard(s, st) == (l, st);
    ReadsOne(s, st);
    var inner := ParseExpression(s, st1, CommaPrecedence);
    ParseExpressionTokens(s, st1, CommaPrecedence);
    var close := NextStandard(s, inner.1);
    NextStandardReadsNothing(s, inner.1);
    ReadsThenNothing(s, st1.pos, inner.1.pos, close.1.pos, TokensOf(inner.0));
    if close.0.IsPunct(RightParen) {
      assert r == (ParenExpression(l, inner.0, Some(close.0)), Advance(s, close.1));
      ReadsOne(s, close.1);
      ReadsTrans(s, st1.pos, close.1.pos, r.1.pos, TokensOf(inner.0), [close.0]);
      ReadsTrans(s, st.pos, st1.pos, r.1.pos, [l], TokensOf(inner.0) + [close.0]);
    } else {
      assert r == (ParenExpression(l, inner.0, None), close.1);
      ReadsTrans(s, st.pos, st1.pos, r.1.pos, [l], TokensOf(inner.0));
    }
  }

  /** A parsed expression holds exactly the standard tokens it consumed, in
      order: no value, parenthesis or operator is dropped, duplicated or
      moved. */
  lemma {:induction false} ParseExpressionTokens(s: Stream, st: PState, ceiling: Ceiling)
    requires Consistent(s, st)
    ensures var r := ParseExpression(s, st, ceiling);
            Reads(s, st.pos, r.1.pos, TokensOf(r.0))
    decreases Rank(s, st, 3)
  {
    var leaf := ParseLeaf(s, st);
    ParseLeafTokens(s, st);
    if !leaf.0.PlaceholderExpression? {
      var r := Climb(s, leaf.1, leaf.0, ceiling);
      ClimbTokens(s, leaf.1, leaf.0, ceiling);
      ReadsTrans(s, st.pos, leaf.1.pos, r.1.pos, TokensOf(leaf.0), StandardTokens(s, leaf.1.pos, r.1.pos));
    }
  }

  lemma {:induction false} ClimbTokens(s: Stream, st: PState, left: Expression, ceiling: Ceiling)
    requires Consistent(s, st)
    ensures var r := Climb(s, st, left, ceiling);
            st.pos <= r.1.pos && TokensOf(r.0) == TokensOf(left) + StandardTokens(s, st.pos, r.1.pos)
    decreases Rank(s, st, 2)
  {
    var r := Climb(s, st, left, ceiling);
    var next := NextStandard(s, st);
    NextStandardReadsNothing(s, st);
    if Absorbs(s.precedence, next.0, ceiling) {
      AbsorbedIsOperator(s, next.1, ceiling);
      ClimbOperatorTokens(s, next.1, left, ceiling);
      ReadsNothingThen(s, st.pos, next.1.pos, r.1.pos, StandardTokens(s, next.1.pos, r.1.pos));
    } else {
      assert TokensOf(left) + [] == TokensOf(left);
    }
  }

  lemma {:induction false} ClimbOperatorTokens(s: Stream, st: PState, left: Expression, ceiling: Ceiling)
    requires st.pos < |s.tokens| && AtStandard(s, st)
    ensures var r := ClimbOperator(s, st, left, ceiling);
            TokensOf(r.0) == TokensOf(left) + StandardTokens(s, st.pos, r.1.pos)
    decreases Rank(s, st, 1)
  {
    var r := ClimbOperator(s, st, left, ceiling);
    var binop := s.tokens[st.pos];
    var right := RightOperand(s, st);
    OperandTokens(s, st);
    if !right.0.PlaceholderExpression? {
      ClimbTokens(s, right.1, BinaryExpression(left, binop, right.0), ceiling);
      JoinOperand(s, st.pos, right.1.pos, r.1.pos, TokensOf(left), [binop] + TokensOf(right.0), TokensOf(r.0));
    }
  }

  /** Up to the end of its right operand, an operator reads itself and the
      operand's tokens. */
  lemma {:induction false} OperandTokens(s: Stream, st: PState)
    requires st.pos < |s.tokens| && AtStandard(s, st)
    ensures var right := RightOperand(s, st);
            Reads(s, st.pos, right.1.pos, [s.tokens[st.pos]] + TokensOf(right.0))
    decreases Rank(s, st, 0)
  {
    var right := RightOperand(s, st);
    ParseExpressionTokens(s, Advance(s, st), OperandCeiling(s.precedence, s.tokens[st.pos]));
    ReadsCons(s, st.pos, right.1.pos, TokensOf(right.0));
  }

  /** An operator with its operand (`operand`) read from `i` to `j`, and the
      rest of the climb read from `j` to `k`: the tokens after the left
      operand's are everything read from `i` to `k`. */
  lemma JoinOperand(s: Stream, i: nat, j: nat, k: nat, left: seq<Token>, operand: seq<Token>, result: seq<Token>)
    ensures Reads(s, i, j, operand) && j <= k <= |s.tokens| && result == (left + operand) + StandardTokens(s, j, k) ==>
            result == left + StandardTokens(s, i, k)
  {
    if Reads(s, i, j, operand) && j <= k <= |s.tokens| {
      StandardTokensSplit(s, i, j, k);
      ConcatAssoc(left, operand, StandardTokens(s, j, k));
    }
  }

  // ---------------------------------------------------------------------------
  // Parsed expressions are well formed and bounded by their ceiling

  lemma {:induction false} ParseLeafWellFormed(s: Stream, st: PState)
    requires Consistent(s, st)
    ensures WellFormed(ParseLeaf(s, st).0) && Bounded(s.precedence, ParseLeaf(s, st).0, 0)
    decreases Rank(s, st, 0)
  {
    var next := NextStandard(s, st);
    if !IsValueToken(next.0) && next.0.IsPunct(LeftParen) {
      ParseExpressionWellFormed(s, Advance(s, next.1), CommaPrecedence);
    }
  }

  /** Every node the parser builds is well formed, and no operator outside
      parentheses binds more loosely than the ceiling it was parsed under. */
  lemma {:induction false} ParseExpressionWellFormed(s: Stream, st: PState, ceiling: Ceiling)
    requires Consistent(s, st)
    ensures WellFormed(ParseExpression(s, st, ceiling).0) && Bounded(s.precedence, ParseExpression(s, st, ceiling).0, ceiling)
    decreases Rank(s, st, 3)
  {
    var leaf := ParseLeaf(s, st);
    ParseLeafWellFormed(s, st);
    if !leaf.0.PlaceholderExpression? {
      ClimbWellFormed(s, leaf.1, leaf.0, ceiling);
    }
  }

  lemma {:induction false} ClimbWellFormed(s: Stream, st: PState, left: Expression, ceiling: Ceiling)
    requires Consistent(s, st)
    requires WellFormed(left) && Bounded(s.precedence, left, ceiling)
    ensures WellFormed(Climb(s, st, left, ceiling).0) && Bounded(s.precedence, Climb(s, st, left, ceiling).0, ceiling)
    decreases Rank(s, st, 2)
  {
    var next := NextStandard(s, st);
    if Absorbs(s.precedence, next.0, ceiling) {
      AbsorbedIsOperator(s, next.1, ceiling);
      ClimbOperatorWellFormed(s, next.1, left, ceiling);
    }
  }

  lemma {:induction false} ClimbOperatorWellFormed(s: Stream, st: PState, left: Expression, ceiling: Ceiling)
    requires st.pos < |s.tokens| && Absorbs(s.precedence, s.tokens[st.pos], ceiling)
    requires WellFormed(left) && Bounded(s.precedence, left, ceiling)
    ensures var r := ClimbOperator(s, st, left, ceiling);
            WellFormed(r.0) && Bounded(s.precedence, r.0, ceiling)
    decreases Rank(s, st, 1)
  {
    var binop := s.tokens[st.pos];
    var right := RightOperand(s, st);
    ParseExpressionWellFormed(s, Advance(s, st), OperandCeiling(s.precedence, binop));
    if !right.0.PlaceholderExpression? {
      ClimbWellFormed(s, right.1, BinaryExpression(left, binop, right.0), ceiling);
    }
  }

  // ---------------------------------------------------------------------------
  // Where a parsed expression stops

  /** An expression without placeholders ends at a standard token that the
      ceiling does not admit: every operator the ceiling allows has been
      absorbed. */
  lemma ParseExpressionStops(s: Stream, st: PState, ceiling: Ceiling)
    requires Consistent(s, st)
    ensures var r := ParseExpression(s, st, ceiling);
            PlaceholderFree(r.0) ==> StopsAt(s, r.1, ceiling)
  {
    var leaf := ParseLeaf(s, st);
    if !leaf.0.PlaceholderExpression? {
      ClimbStops(s, leaf.1, leaf.0, ceiling);
    }
  }

  lemma {:induction false} ClimbStops(s: Stream, st: PState, left: Expression, ceiling: Ceiling)
    requires Consistent(s, st)
    ensures var r := Climb(s, st, left, ceiling);
            PlaceholderFree(r.0) ==> StopsAt(s, r.1, ceiling)
    decreases Rank(s, st, 2)
  {
    var next := NextStandard(s, st);
    if Absorbs(s.precedence, next.0, ceiling) {
      AbsorbedIsOperator(s, next.1, ceiling);
      ClimbOperatorStops(s, next.1, left, ceiling);
    }
  }

  lemma {:induction false} ClimbOperatorStops(s: Stream, st: PState, left: Expression, ceiling: Ceiling)
    requires st.pos < |s.tokens|
    ensures var r := ClimbOperator(s, st, left, ceiling);
            PlaceholderFree(r.0) ==> StopsAt(s, r.1, ceiling)
    decreases Rank(s, st, 1)
  {
    var r := ClimbOperator(s, st, left, ceiling);
    var right := RightOperand(s, st);
    var e := BinaryExpression(left, s.tokens[st.pos], right.0);
    if right.0.PlaceholderExpression? {
      assert r.0 == e && !PlaceholderFree(e);
    } else {
      ClimbStops(s, right.1, e, ceiling);
    }
  }

  // ---------------------------------------------------------------------------
  // Equal precedences group to the left

  /** `left` may become the left operand of `op`: unless it holds a
      placeholder, it groups equal precedences to the left and binds at least
      as tightly as `op`. */
  predicate ReadyFor(prec: Precedences, left: Expression, op: Token) {
    PlaceholderFree(left) ==> LeftAssociative(prec, left) && Top(prec, left) <= prec(op)
  }

  /** What the loop keeps of its left operand: unless it holds a placeholder,
      it groups equal precedences to the left, and it is ready for the next
      operator if the ceiling admits that one. A leaf (top precedence 0)
      always is. */
  predicate ReadyToClimb(s: Stream, st: PState, left: Expression, ceiling: Ceiling)
    requires Consistent(s, st)
  {
    var next := NextStandard(s, st).0;
    && (PlaceholderFree(left) ==> LeftAssociative(s.precedence, left))
    && (Absorbs(s.precedence, next, ceiling) ==> ReadyFor(s.precedence, left, next))
  }

  /** A parsed leaf without placeholders groups equal precedences to the left. */
  lemma {:induction false} ParseLeafAssociates(s: Stream, st: PState)
    requires Consistent(s, st)
    ensures PlaceholderFree(ParseLeaf(s, st).0) ==> LeftAssociative(s.precedence, ParseLeaf(s, st).0)
    decreases Rank(s, st, 0)
  {
    var next := NextStandard(s, st);
    if !IsValueToken(next.0) && next.0.IsPunct(LeftParen) {
      ParseExpressionAssociates(s, Advance(s, next.1), CommaPrecedence);
    }
  }

  /** An expression without placeholders groups equal precedences to the left. */
  lemma {:induction false} ParseExpressionAssociates(s: Stream, st: PState, ceiling: Ceiling)
    requires Consistent(s, st)
    ensures var r := ParseExpression(s, st, ceiling);
            PlaceholderFree(r.0) ==> LeftAssociative(s.precedence, r.0)
    decreases Rank(s, st, 3)
  {
    var leaf := ParseLeaf(s, st);
    ParseLeafAssociates(s, st);
    if !leaf.0.PlaceholderExpression? {
      ClimbAssociates(s, leaf.1, leaf.0, ceiling);
    }
  }

  /** The loop builds a left-associative tree from a left operand that is
      ready for it. */
  lemma {:induction false} ClimbAssociates(s: Stream, st: PState, left: Expression, ceiling: Ceiling)
    requires Consistent(s, st)
    ensures var r := Climb(s, st, left, ceiling);
            ReadyToClimb(s, st, left, ceiling) && PlaceholderFree(r.0) ==> LeftAssociative(s.precedence, r.0)
    decreases Rank(s, st, 2)
  {
    var next := NextStandard(s, st);
    if Absorbs(s.precedence, next.0, ceiling) {
      AbsorbedIsOperator(s, next.1, ceiling);
      ClimbOperatorAssociates(s, next.1, left, ceiling);
    }
  }

  /** Absorbing an operator that binds no more tightly than the left operand
      keeps the tree left-associative. */
  lemma {:induction false} ClimbOperatorAssociates(s: Stream, st: PState, left: Expression, ceiling: Ceiling)
    requires st.pos < |s.tokens|
    ensures var r := ClimbOperator(s, st, left, ceiling);
            ReadyFor(s.precedence, left, s.tokens[st.pos]) && PlaceholderFree(r.0) ==> LeftAssociative(s.precedence, r.0)
    decreases Rank(s, st, 1)
  {
    var r := ClimbOperator(s, st, left, ceiling);
    var right := RightOperand(s, st);
    var e := BinaryExpression(left, s.tokens[st.pos], right.0);
    if right.0.PlaceholderExpression? {
      assert r.0 == e && !PlaceholderFree(e);
    } else {
      OperandJoin(s, st, left, ceiling);
      ClimbAssociates(s, right.1, e, ceiling);
    }
  }

  /** After the operator and its right operand, the joined expression is
      ready for the next round: the left operand binds at least as tightly as
      the operator, and the right operand stopped at a token that binds more
      loosely than it. */
  lemma {:induction false} OperandJoin(s: Stream, st: PState, left: Expression, ceiling: Ceiling)
    requires st.pos < |s.tokens|
    ensures var binop := s.tokens[st.pos];
            var right := RightOperand(s, st);
            ReadyFor(s.precedence, left, binop) ==>
              ReadyToClimb(s, right.1, BinaryExpression(left, binop, right.0), ceiling)
    decreases Rank(s, st, 0)
  {
    var c := OperandCeiling(s.precedence, s.tokens[st.pos]);
    var right := RightOperand(s, st);
    ParseExpressionAssociates(s, Advance(s, st), c);
    ParseExpressionStops(s, Advance(s, st), c);
    if PlaceholderFree(right.0) {
      StandardIsIdle(s, right.1);
    }
  }

  /** An expression without placeholders groups equal precedences to the left,
      and ends at a standard token that the ceiling does not admit. */
  lemma ParseExpressionShape(s: Stream, st: PState, ceiling: Ceiling)
    requires Consistent(s, st)
    ensures var r := ParseExpression(s, st, ceiling);
            PlaceholderFree(r.0) ==> LeftAssociative(s.precedence, r.0) && StopsAt(s, r.1, ceiling)
  {
    ParseExpressionAssociates(s, st, ceiling);
    ParseExpressionStops(s, st, ceiling);
  }

  // ---------------------------------------------------------------------------
  // Clauses

  /** The optional alias after a field's expression: an optional `AS`, then a
      non-keyword name or double-quoted string, which is consumed. Returns
      the alias, the next standard token after it and the state there. */
  function ParseAlias(s: Stream, st: PState): (r: (Option<Token>, Token, PState))
    requires Consistent(s, st)
    ensures Moves(s, st, r.2) && AtStandard(s, r.2) && r.1 == s.At(r.2.pos)
  {
    var t := NextStandard(s, st);
    var t2 := if t.0.IsName(As) then NextStandard(s, Advance(s, t.1)) else t;
    if IsAliasToken(t2.0) then
      var t3 := NextStandard(s, Advance(s, t2.1));
      (Some(t2.0), t3.0, t3.1)
    else
      (None, t2.0, t2.1)
  }

  /** The loop shared by `parse_select` and `parse_from`: fields separated by
      commas, each an expression under `ceiling` with an optional alias. The
      loop ends at the first standard token after a field that is not a
      comma, which it leaves unconsumed. There is always at least one field,
      if only the placeholder. */
  function ParseFields(s: Stream, st: PState, ceiling: Ceiling): (r: (seq<Field>, PState))
    requires Consistent(s, st)
    ensures Moves(s, st, r.1) && |r.0| >= 1
    ensures AtStandard(s, r.1) && !s.At(r.1.pos).IsPunct(Comma)
    decreases |s.tokens| - st.pos
  {
    var expr := ParseExpression(s, st, ceiling);
    var alias := ParseAlias(s, expr.1);
    var field := Field(expr.0, alias.0);
    if alias.1.IsPunct(Comma) then
      var rest := ParseFields(s, Advance(s, alias.2), ceiling);
      ([field] + rest.0, rest.1)
    else
      ([field], alias.2)
  }

  /** `parse_select`: consume the SELECT token, then fields under a ceiling
      just below the comma's, so that commas separate fields. */
  function ParseSelect(s: Stream, st: PState): (r: (SelectClause, PState))
    requires st.pos < |s.tokens|
    ensures Moves(s, st, r.1) && r.1.pos > st.pos && |r.0.fields| >= 1
  {
    var fields := ParseFields(s, Advance(s, st), CommaPrecedence - 1);
    (SelectClause(fields.0), fields.1)
  }

  /** `parse_from`: consume the FROM token, then fields under the dot's
      precedence, so that table names are dot-separated. */
  function ParseFrom(s: Stream, st: PState): (r: (FromClause, PState))
    requires st.pos < |s.tokens|
    ensures Moves(s, st, r.1) && r.1.pos > st.pos && |r.0.fields| >= 1
  {
    var fields := ParseFields(s, Advance(s, st), DotPrecedence);
    (FromClause(fields.0), fields.1)
  }

  /** `parse_where`: consume the WHERE token, then one expression under a
      ceiling just below the comma's. */
  function ParseWhere(s: Stream, st: PState): (r: (WhereClause, PState))
    requires st.pos < |s.tokens|
    ensures Moves(s, st, r.1) && r.1.pos > st.pos
  {
    var expr := ParseExpression(s, Advance(s, st), CommaPrecedence - 1);
    (WhereClause(expr.0), expr.1)
  }

  /** Parsing fields records exactly the comments it consumes. */
  lemma {:induction false} ParseFieldsSteps(s: Stream, st: PState, ceiling: Ceiling)
    requires Consistent(s, st)
    ensures Steps(s, st, ParseFields(s, st, ceiling).1)
    decreases |s.tokens| - st.pos
  {
    var expr := ParseExpression(s, st, ceiling);
    ParseExpressionSteps(s, st, ceiling);
    var alias := ParseAlias(s, expr.1);
    ParseAliasSteps(s, expr.1);
    StepsTrans(s, st, expr.1, alias.2);
    if alias.1.IsPunct(Comma) {
      var st1 := Advance(s, alias.2);
      AdvanceSteps(s, alias.2);
      StepsTrans(s, st, alias.2, st1);
      ParseFieldsSteps(s, st1, ceiling);
      StepsTrans(s, st, st1, ParseFields(s, st1, ceiling).1);
    }
  }

  lemma ParseAliasSteps(s: Stream, st: PState)
    requires Consistent(s, st)
    ensures Steps(s, st, ParseAlias(s, st).2)
  {
    var t := NextStandard(s, st);
    NextStandardSteps(s, st);
    var t2 := t;
    if t.0.IsName(As) {
      var st1 := Advance(s, t.1);
      AdvanceSteps(s, t.1);
      StepsTrans(s, st, t.1, st1);
      t2 := NextStandard(s, st1);
      NextStandardSteps(s, st1);
      StepsTrans(s, st, st1, t2.1);
    }
    if IsAliasToken(t2.0) {
      var st3 := Advance(s, t2.1);
      AdvanceSteps(s, t2.1);
      StepsTrans(s, st, t2.1, st3);
      NextStandardSteps(s, st3);
      StepsTrans(s, st, st3, NextStandard(s, st3).1);
    }
  }

  /** Every field is well formed and its expression is bounded by `ceiling`. */
  predicate WellFormedFields(prec: Precedences, fields: seq<Field>, ceiling: Ceiling) {
    forall i | 0 <= i < |fields| :: WellFormedField(fields[i]) && Bounded(prec, fields[i].expression, ceiling)
  }

  lemma WellFormedFieldsCons(prec: Precedences, field: Field, rest: seq<Field>, ceiling: Ceiling)
    requires WellFormedField(field) && Bounded(prec, field.expression, ceiling)
    requires WellFormedFields(prec, rest, ceiling)
    ensures WellFormedFields(prec, [field] + rest, ceiling)
  {
    var fields := [field] + rest;
    forall i | 0 <= i < |fields|
      ensures WellFormedField(fields[i]) && Bounded(prec, fields[i].expression, ceiling)
    {
      if i > 0 {
        assert fields[i] == rest[i - 1];
      }
    }
  }

  /** Every field is well formed and its expression is bounded by the
      clause's ceiling. */
  lemma {:induction false} ParseFieldsWellFormed(s: Stream, st: PState, ceiling: Ceiling)
    requires Consistent(s, st)
    ensures WellFormedFields(s.precedence, ParseFields(s, st, ceiling).0, ceiling)
    decreases |s.tokens| - st.pos
  {
    var expr := ParseExpression(s, st, ceiling);
    ParseExpressionWellFormed(s, st, ceiling);
    var alias := ParseAlias(s, expr.1);
    ParseAliasIsAlias(s, expr.1);
    var field := Field(expr.0, alias.0);
    if alias.1.IsPunct(Comma) {
      var st1 := Advance(s, alias.2);
      ParseFieldsWellFormed(s, st1, ceiling);
      WellFormedFieldsCons(s.precedence, field, ParseFields(s, st1, ceiling).0, ceiling);
      assert ParseFields(s, st, ceiling).0 == [field] + ParseFields(s, st1, ceiling).0;
    } else {
      assert ParseFields(s, st, ceiling).0 == [field];
    }
  }

  /** An alias is a non-keyword name or a double-quoted string, and when the
      next standard token after the optional `AS` is one, it is taken. */
  lemma ParseAliasIsAlias(s: Stream, st: PState)
    requires Consistent(s, st)
    ensures var r := ParseAlias(s, st);
            var t := NextStandard(s, st);
            var t2 := if t.0.IsName(As) then NextStandard(s, Advance(s, t.1)) else t;
            && (r.0.Some? ==> IsAliasToken(r.0.value))
            && (r.0.Some? <==> IsAliasToken(t2.0))
  {
  }

  /** Every field of a SELECT clause is bounded below the comma: the clause
      holds no comma outside parentheses. */
  lemma ParseSelectWellFormed(s: Stream, st: PState)
    requires st.pos < |s.tokens|
    ensures WellFormedFields(s.precedence, ParseSelect(s, st).0.fields, CommaPrecedence - 1)
  {
    ParseFieldsWellFormed(s, Advance(s, st), CommaPrecedence - 1);
  }

  /** Every table of a FROM clause is a dot-separated chain of names, numbers,
      strings or parenthesised expressions. */
  lemma ParseFromIsDotChains(s: Stream, st: PState)
    requires OnlyDotIsTightest(s.precedence) && st.pos < |s.tokens|
    ensures var fields := ParseFrom(s, st).0.fields;
            forall i | 0 <= i < |fields| ::
              WellFormedField(fields[i]) && DotChain(fields[i].expression)
  {
    var fields := ParseFrom(s, st).0.fields;
    ParseFieldsWellFormed(s, Advance(s, st), DotPrecedence);
    forall i | 0 <= i < |fields|
      ensures DotChain(fields[i].expression)
    {
      BoundedByDotIsDotChain(s.precedence, fields[i].expression, DotPrecedence);
    }
  }

  /** The condition of a WHERE clause is well formed and holds no comma
      outside parentheses. */
  lemma ParseWhereWellFormed(s: Stream, st: PState)
    requires st.pos < |s.tokens|
    ensures var e := ParseWhere(s, st).0.expression;
            WellFormed(e) && Bounded(s.precedence, e, CommaPrecedence - 1)
  {
    ParseExpressionWellFormed(s, Advance(s, st), CommaPrecedence - 1);
  }

  // ---------------------------------------------------------------------------
  // Statements

  /** The clause keywords `parse_statement` hands to a clause parser. */
  predicate IsClauseKeyword(t: Token) {
    t.IsName(Select) || t.IsName(From) || t.IsName(Where)
  }

  /** The standard tokens that end a statement: `;`, a newline (which, being
      standard, is the first of two) and the end of the text. */
  predicate IsTerminator(t: Token) {
    t.IsPunct(Semicolon) || t.IsNewline() || t.IsEndOfString()
  }

  /** Parse the clause the keyword at the position starts and add it to the
      statement. */
  function ParseClause(s: Stream, st: PState, stmt: Statement): (r: (Statement, PState))
    requires st.pos < |s.tokens| && IsClauseKeyword(s.tokens[st.pos])
    ensures Moves(s, st, r.1) && r.1.pos > st.pos
  {
    var t := s.tokens[st.pos];
    if t.IsName(Select) then
      var c := ParseSelect(s, st);
      (stmt.(selects := stmt.selects + [c.0]), c.1)
    else if t.IsName(From) then
      var c := ParseFrom(s, st);
      (stmt.(froms := stmt.froms + [c.0]), c.1)
    else
      var c := ParseWhere(s, st);
      (stmt.(wheres := stmt.wheres + [c.0]), c.1)
  }

  /** Record a token the statement cannot place: it opens a new unknown
      sequence after a known token, and otherwise stretches the last sequence
      to its end. */
  function AddUnknown(unknowns: seq<UnknownSequence>, t: Token, prevKnown: bool): (r: seq<UnknownSequence>)
    requires !prevKnown ==> |unknowns| > 0
    ensures |r| > 0 && r[|r| - 1].End() == t.End()
    ensures prevKnown ==> r == unknowns + [UnknownSequence(t.start, t.length, t)]
    ensures !prevKnown ==> |r| == |unknowns| && r[..|r| - 1] == unknowns[..|unknowns| - 1]
    ensures !prevKnown ==> r[|r| - 1].start == unknowns[|r| - 1].start && r[|r| - 1].firstToken == unknowns[|r| - 1].firstToken
  {
    if prevKnown then
      unknowns + [UnknownSequence(t.start, t.length, t)]
    else
      var last := unknowns[|unknowns| - 1];
      unknowns[..|unknowns| - 1] + [last.(length := t.End() - last.start)]
  }

  /** Consume the terminator at the position: one token for `;`, both
      newlines of a pair, and nothing at the end of the text. */
  function PastTerminator(s: Stream, st: PState): (r: PState)
    requires Consistent(s, st) && AtStandard(s, st) && IsTerminator(s.At(st.pos))
    ensures Moves(s, st, r)
    ensures r.pos == st.pos <==> s.At(st.pos).IsEndOfString()
  {
    if s.At(st.pos).IsPunct(Semicolon) then Advance(s, st)
    else if s.At(st.pos).IsNewline() then Advance(s, Advance(s, st))
    else st
  }

  /** The loop of `parse_statement`. Each round looks at the next standard
      token: a clause keyword starts a clause, a terminator ends the statement
      at the end of the last token consumed before it, and any other token is
      consumed as unknown. */
  function StatementLoop(s: Stream, st: PState, stmt: Statement, prevKnown: bool): (r: (Statement, PState))
    requires Consistent(s, st)
    requires !prevKnown ==> |stmt.unknowns| > 0
    ensures Moves(s, st, r.1) && r.0.start == stmt.start
    ensures r.1.pos == st.pos ==> s.At(st.pos).IsEndOfString()
    decreases |s.tokens| - st.pos
  {
    var next := NextStandard(s, st);
    if IsClauseKeyword(next.0) then
      var c := ParseClause(s, next.1, stmt);
      StatementLoop(s, c.1, c.0, true)
    else if IsTerminator(next.0) then
      (stmt.(length := LastEnd(s, next.1.pos) - stmt.start), PastTerminator(s, next.1))
    else
      StatementLoop(s, Advance(s, next.1), stmt.(unknowns := AddUnknown(stmt.unknowns, next.0, prevKnown)), false)
  }

  /** `parse_statement`: a statement starting at the token at the position,
      holding the comments met while parsing it. The state returned starts
      the next statement with no comments. */
  function ParseStatement(s: Stream, st: PState): (r: (Statement, PState))
    requires Consistent(s, st)
    ensures Moves(s, st, r.1) && r.1.comments == []
    ensures r.0.start == s.At(st.pos).start
    ensures r.1.pos == st.pos ==> s.At(st.pos).IsEndOfString()
  {
    var first := s.At(st.pos);
    var loop := StatementLoop(s, PState(st.pos, []), Statement(first.start, first.length, [], [], [], [], []), true);
    (loop.0.(comments := loop.1.comments), PState(loop.1.pos, []))
  }

  /** `consume_newline_semicolons`: the position of the first token from
      `pos` on that is neither a newline nor `;`. */
  function SkipNewlineSemicolons(s: Stream, pos: nat): (r: nat)
    requires pos <= |s.tokens|
    ensures pos <= r <= |s.tokens|
    ensures !s.At(r).IsNewline() && !s.At(r).IsPunct(Semicolon)
    ensures forall i | pos <= i < r :: s.tokens[i].IsNewline() || s.tokens[i].IsPunct(Semicolon)
    decreases |s.tokens| - pos
  {
    if pos < |s.tokens| && (s.tokens[pos].IsNewline() || s.tokens[pos].IsPunct(Semicolon)) then
      SkipNewlineSemicolons(s, pos + 1)
    else
      pos
  }

  /** `parse_all` from position `pos`: skip newlines and semicolons, stop at
      the end of the text, otherwise parse a statement and go on after it. */
  function ParseAllFrom(s: Stream, pos: nat): (r: seq<Statement>)
    requires pos <= |s.tokens|
    decreases |s.tokens| - pos
  {
    var start := SkipNewlineSemicolons(s, pos);
    if s.At(start).IsEndOfString() then []
    else
      var stmt := ParseStatement(s, PState(start, []));
      [stmt.0] + ParseAllFrom(s, stmt.1.pos)
  }

  /** `Parser(text, start_position).parse_all()`. */
  function Parse(text: string, startPosition: nat): seq<Statement> {
    ParseAllFrom(InputOf(text, startPosition), 0)
  }

  // ---------------------------------------------------------------------------
  // A statement holds exactly the comments among its tokens

  lemma ParseClauseSteps(s: Stream, st: PState, stmt: Statement)
    requires st.pos < |s.tokens| && IsClauseKeyword(s.tokens[st.pos])
    ensures Steps(s, st, ParseClause(s, st, stmt).1)
  {
    var st1 := Advance(s, st);
    AdvanceSteps(s, st);
    var t := s.tokens[st.pos];
    if t.IsName(Select) {
      ParseFieldsSteps(s, st1, CommaPrecedence - 1);
      StepsTrans(s, st, st1, ParseFields(s, st1, CommaPrecedence - 1).1);
    } else if t.IsName(From) {
      ParseFieldsSteps(s, st1, DotPrecedence);
      StepsTrans(s, st, st1, ParseFields(s, st1, DotPrecedence).1);
    } else {
      ParseExpressionSteps(s, st1, CommaPrecedence - 1);
      StepsTrans(s, st, st1, ParseExpression(s, st1, CommaPrecedence - 1).1);
    }
  }

  lemma PastTerminatorSteps(s: Stream, st: PState)
    requires Consistent(s, st) && AtStandard(s, st) && IsTerminator(s.At(st.pos))
    ensures Steps(s, st, PastTerminator(s, st))
  {
    if s.At(st.pos).IsPunct(Semicolon) {
      AdvanceSteps(s, st);
    } else if s.At(st.pos).IsNewline() {
      AdvanceSteps(s, st);
      AdvanceSteps(s, Advance(s, st));
      StepsTrans(s, st, Advance(s, st), Advance(s, Advance(s, st)));
    } else {
      assert CommentsBetween(s, st.pos, st.pos) == [];
    }
  }

  lemma {:induction false} StatementLoopSteps(s: Stream, st: PState, stmt: Statement, prevKnown: bool)
    requires Consistent(s, st)
    requires !prevKnown ==> |stmt.unknowns| > 0
    ensures Steps(s, st, StatementLoop(s, st, stmt, prevKnown).1)
    decreases |s.tokens| - st.pos
  {
    var r := StatementLoop(s, st, stmt, prevKnown);
    var next := NextStandard(s, st);
    NextStandardSteps(s, st);
    if IsClauseKeyword(next.0) {
      var c := ParseClause(s, next.1, stmt);
      ParseClauseSteps(s, next.1, stmt);
      StepsTrans(s, st, next.1, c.1);
      StatementLoopSteps(s, c.1, c.0, true);
      assert r == StatementLoop(s, c.1, c.0, true);
      StepsTrans(s, st, c.1, r.1);
    } else if IsTerminator(next.0) {
      PastTerminatorSteps(s, next.1);
      StepsTrans(s, st, next.1, r.1);
    } else {
      StandardToken(s, next.1);
      var st1 := Advance(s, next.1);
      AdvanceSteps(s, next.1);
      StepsTrans(s, st, next.1, st1);
      var stmt1 := stmt.(unknowns := AddUnknown(stmt.unknowns, next.0, prevKnown));
      StatementLoopSteps(s, st1, stmt1, false);
      assert r == StatementLoop(s, st1, stmt1, false);
      StepsTrans(s, st, st1, r.1);
    }
  }

  /** A statement's comments are exactly the comment tokens among the tokens
      it consumed, in the order of the text. */
  lemma ParseStatementComments(s: Stream, st: PState)
    requires Consistent(s, st)
    ensures var r := ParseStatement(s, st);
            r.0.comments == CommentsBetween(s, st.pos, r.1.pos)
  {
    var first := s.At(st.pos);
    StatementLoopSteps(s, PState(st.pos, []), Statement(first.start, first.length, [], [], [], [], []), true);
  }

  // ---------------------------------------------------------------------------
  // A statement ends where its last token before the terminator ends

  lemma {:induction false} StatementLoopEnd(s: Stream, st: PState, stmt: Statement, prevKnown: bool) returns (q: nat)
    requires Consistent(s, st)
    requires !prevKnown ==> |stmt.unknowns| > 0
    ensures var r := StatementLoop(s, st, stmt, prevKnown);
            st.pos <= q <= r.1.pos && r.0.End() == LastEnd(s, q) && IsTerminator(s.At(q))
    decreases |s.tokens| - st.pos
  {
    var r := StatementLoop(s, st, stmt, prevKnown);
    var next := NextStandard(s, st);
    if IsClauseKeyword(next.0) {
      var c := ParseClause(s, next.1, stmt);
      q := StatementLoopEnd(s, c.1, c.0, true);
      assert r == StatementLoop(s, c.1, c.0, true);
    } else if IsTerminator(next.0) {
      q := next.1.pos;
      assert r.0.End() == LastEnd(s, q);
    } else {
      var stmt1 := stmt.(unknowns := AddUnknown(stmt.unknowns, next.0, prevKnown));
      q := StatementLoopEnd(s, Advance(s, next.1), stmt1, false);
      assert r == StatementLoop(s, Advance(s, next.1), stmt1, false);
    }
  }

  /** A statement that starts at a token other than a terminator consumes at
      least one token, and ends where the token just before the terminator
      that stopped it ends; in a stream whose tokens follow one another, that
      is at or before the terminator's start. */
  lemma ParseStatementSpan(s: Stream, st: PState) returns (q: nat)
    requires Consistent(s, st) && !IsTerminator(s.At(st.pos))
    ensures var r := ParseStatement(s, st);
            && st.pos < q <= r.1.pos
            && IsTerminator(s.At(q))
            && r.0.End() == s.tokens[q - 1].End()
            && (OrderedStream(s) ==> r.0.End() <= s.At(q).start)
  {
    var first := s.At(st.pos);
    var stmt := Statement(first.start, first.length, [], [], [], [], []);
    q := StatementLoopEnd(s, PState(st.pos, []), stmt, true);
    ParseStatementIsLoop(s, st);
    var r := ParseStatement(s, st);
    StatementEndsBeforeTerminator(s, st.pos, q, r.1.pos, r.0.End());
  }

  // `ParseStatement` keeps the span and the position of its loop.
  lemma ParseStatementIsLoop(s: Stream, st: PState)
    requires Consistent(s, st)
    ensures var first := s.At(st.pos);
            var loop := StatementLoop(s, PState(st.pos, []), Statement(first.start, first.length, [], [], [], [], []), true);
            ParseStatement(s, st).0.End() == loop.0.End() && ParseStatement(s, st).1.pos == loop.1.pos
  {
  }

  // The step of `ParseStatementSpan` from `LastEnd` to the token before the
  // terminator.
  lemma StatementEndsBeforeTerminator(s: Stream, p: nat, q: nat, next: nat, end: int)
    requires p <= q <= next <= |s.tokens| && !IsTerminator(s.At(p)) && IsTerminator(s.At(q))
    requires end == LastEnd(s, q)
    ensures p < q && end == s.tokens[q - 1].End()
    ensures OrderedStream(s) ==> end <= s.At(q).start
  {
  }


  // ---------------------------------------------------------------------------
  // Parsed statements are well formed

  /** An unknown sequence starts at its first token, which is a standard token
      the statement could not place. */
  predicate WellFormedUnknown(u: UnknownSequence) {
    && u.start == u.firstToken.start
    && !IsClauseKeyword(u.firstToken) && !IsTerminator(u.firstToken) && !u.firstToken.IsComment()
  }

  /** What every statement the parser builds satisfies: each SELECT and FROM
      clause has at least one well-formed field, SELECT fields and WHERE
      conditions hold no comma outside parentheses, FROM fields only dots,
      unknown sequences start at a token that could not be placed, and the
      comments are comment tokens. */
  predicate WellFormedStatement(prec: Precedences, stmt: Statement) {
    && (forall i | 0 <= i < |stmt.selects| ::
          |stmt.selects[i].fields| >= 1 && WellFormedFields(prec, stmt.selects[i].fields, CommaPrecedence - 1))
    && (forall i | 0 <= i < |stmt.froms| ::
          |stmt.froms[i].fields| >= 1 && WellFormedFields(prec, stmt.froms[i].fields, DotPrecedence))
    && (forall i | 0 <= i < |stmt.wheres| ::
          WellFormed(stmt.wheres[i].expression) && Bounded(prec, stmt.wheres[i].expression, CommaPrecedence - 1))
    && (forall i | 0 <= i < |stmt.unknowns| :: WellFormedUnknown(stmt.unknowns[i]))
    && (forall i | 0 <= i < |stmt.comments| :: stmt.comments[i].IsComment())
  }

  /** Adding a well-formed SELECT clause keeps a statement well formed. */
  lemma AddSelectWellFormed(prec: Precedences, stmt: Statement, c: SelectClause)
    requires WellFormedStatement(prec, stmt)
    requires |c.fields| >= 1 && WellFormedFields(prec, c.fields, CommaPrecedence - 1)
    ensures WellFormedStatement(prec, stmt.(selects := stmt.selects + [c]))
  {
  }

  /** Adding a FROM clause of well-formed fields bounded by the dot keeps a
      statement well formed. */
  lemma AddFromWellFormed(prec: Precedences, stmt: Statement, c: FromClause)
    requires WellFormedStatement(prec, stmt)
    requires |c.fields| >= 1 && WellFormedFields(prec, c.fields, DotPrecedence)
    ensures WellFormedStatement(prec, stmt.(froms := stmt.froms + [c]))
  {
  }

  /** Adding a well-formed WHERE clause keeps a statement well formed. */
  lemma AddWhereWellFormed(prec: Precedences, stmt: Statement, c: WhereClause)
    requires WellFormedStatement(prec, stmt)
    requires WellFormed(c.expression) && Bounded(prec, c.expression, CommaPrecedence - 1)
    ensures WellFormedStatement(prec, stmt.(wheres := stmt.wheres + [c]))
  {
  }

  lemma ParseClauseWellFormed(s: Stream, st: PState, stmt: Statement)
    requires st.pos < |s.tokens| && IsClauseKeyword(s.tokens[st.pos])
    requires WellFormedStatement(s.precedence, stmt)
    ensures WellFormedStatement(s.precedence, ParseClause(s, st, stmt).0)
  {
    var t := s.tokens[st.pos];
    if t.IsName(Select) {
      ParseSelectWellFormed(s, st);
      AddSelectWellFormed(s.precedence, stmt, ParseSelect(s, st).0);
    } else if t.IsName(From) {
      ParseFieldsWellFormed(s, Advance(s, st), DotPrecedence);
      AddFromWellFormed(s.precedence, stmt, ParseFrom(s, st).0);
    } else {
      ParseWhereWellFormed(s, st);
      AddWhereWellFormed(s.precedence, stmt, ParseWhere(s, st).0);
    }
  }

  lemma AddUnknownWellFormed(unknowns: seq<UnknownSequence>, t: Token, prevKnown: bool)
    requires !prevKnown ==> |unknowns| > 0
    requires forall i | 0 <= i < |unknowns| :: WellFormedUnknown(unknowns[i])
    requires !IsClauseKeyword(t) && !IsTerminator(t) && !t.IsComment()
    ensures var r := AddUnknown(unknowns, t, prevKnown);
            forall i | 0 <= i < |r| :: WellFormedUnknown(r[i])
  {
    var r := AddUnknown(unknowns, t, prevKnown);
    if !prevKnown {
      forall i | 0 <= i < |r|
        ensures WellFormedUnknown(r[i])
      {
        if i < |r| - 1 {
          assert r[i] == r[..|r| - 1][i] == unknowns[..|unknowns| - 1][i];
        }
      }
    }
  }

  lemma {:induction false} StatementLoopWellFormed(s: Stream, st: PState, stmt: Statement, prevKnown: bool)
    requires Consistent(s, st)
    requires !prevKnown ==> |stmt.unknowns| > 0
    requires WellFormedStatement(s.precedence, stmt)
    ensures WellFormedStatement(s.precedence, StatementLoop(s, st, stmt, prevKnown).0)
    decreases |s.tokens| - st.pos
  {
    var r := StatementLoop(s, st, stmt, prevKnown);
    var next := NextStandard(s, st);
    if IsClauseKeyword(next.0) {
      var c := ParseClause(s, next.1, stmt);
      ParseClauseWellFormed(s, next.1, stmt);
      StatementLoopWellFormed(s, c.1, c.0, true);
      assert r == StatementLoop(s, c.1, c.0, true);
    } else if !IsTerminator(next.0) {
      StandardToken(s, next.1);
      AddUnknownWellFormed(stmt.unknowns, next.0, prevKnown);
      var stmt1 := stmt.(unknowns := AddUnknown(stmt.unknowns, next.0, prevKnown));
      StatementLoopWellFormed(s, Advance(s, next.1), stmt1, false);
      assert r == StatementLoop(s, Advance(s, next.1), stmt1, false);
    }
  }

  /** Every statement the parser builds is well formed. */
  lemma ParseStatementWellFormed(s: Stream, st: PState)
    requires Consistent(s, st)
    ensures WellFormedStatement(s.precedence, ParseStatement(s, st).0)
  {
    var first := s.At(st.pos);
    var stmt := Statement(first.start, first.length, [], [], [], [], []);
    StatementLoopWellFormed(s, PState(st.pos, []), stmt, true);
    StatementLoopSteps(s, PState(st.pos, []), stmt, true);
  }

  // ---------------------------------------------------------------------------
  // The whole text

  /** The comments of the statements, one statement after another. */
  function AllComments(stmts: seq<Statement>): seq<Token> {
    if |stmts| == 0 then [] else stmts[0].comments + AllComments(stmts[1..])
  }

  lemma {:induction false} CommentsBetweenNone(s: Stream, i: nat, j: nat)
    requires i <= j <= |s.tokens|
    requires forall k | i <= k < j :: !s.tokens[k].IsComment()
    ensures CommentsBetween(s, i, j) == []
    decreases j - i
  {
    if i < j {
      CommentsBetweenNone(s, i + 1, j);
    }
  }

  /** No token but the marker is the end of the text. */
  predicate MarkerOnlyAtEnd(s: Stream) {
    forall i | 0 <= i < |s.tokens| :: !s.tokens[i].IsEndOfString()
  }

  /** Every comment of the text lands in exactly one statement, in order: the
      statements' comments together are the comment tokens of the stream. */
  lemma {:induction false} ParseAllComments(s: Stream, pos: nat)
    requires MarkerOnlyAtEnd(s) && pos <= |s.tokens|
    ensures AllComments(ParseAllFrom(s, pos)) == CommentsBetween(s, pos, |s.tokens|)
    decreases |s.tokens| - pos
  {
    var start := SkipNewlineSemicolons(s, pos);
    CommentsBetweenNone(s, pos, start);
    CommentsBetweenSplit(s, pos, start, |s.tokens|);
    if s.At(start).IsEndOfString() {
      assert start == |s.tokens|;
    } else {
      var stmt := ParseStatement(s, PState(start, []));
      ParseStatementComments(s, PState(start, []));
      ParseAllComments(s, stmt.1.pos);
      CommentsBetweenSplit(s, start, stmt.1.pos, |s.tokens|);
      var rest := ParseAllFrom(s, stmt.1.pos);
      assert ParseAllFrom(s, pos) == [stmt.0] + rest;
      assert ([stmt.0] + rest)[1..] == rest;
    }
  }

  /** Statements cover non-empty, disjoint ranges of the text, in order. */
  predicate InTextOrder(stmts: seq<Statement>) {
    && (forall i | 0 <= i < |stmts| :: stmts[i].start < stmts[i].End())
    && (forall i | 0 <= i < |stmts| - 1 :: stmts[i].End() <= stmts[i + 1].start)
  }

  lemma InTextOrderCons(stmt: Statement, rest: seq<Statement>)
    requires stmt.start < stmt.End() && InTextOrder(rest)
    requires |rest| > 0 ==> stmt.End() <= rest[0].start
    ensures InTextOrder([stmt] + rest)
  {
    var all := [stmt] + rest;
    forall i | 0 <= i < |all|
      ensures all[i].start < all[i].End()
    {
      if i > 0 {
        assert all[i] == rest[i - 1];
      }
    }
    forall i | 0 <= i < |all| - 1
      ensures all[i].End() <= all[i + 1].start
    {
      if i > 0 {
        assert all[i] == rest[i - 1] && all[i + 1] == rest[i];
      }
    }
  }

  /** In a stream whose tokens follow one another, a statement starting at a
      token other than a terminator covers a non-empty range of the text that
      ends before every token it did not consume, and before the end of the
      text. */
  lemma ParseStatementInText(s: Stream, st: PState)
    requires OrderedStream(s) && Consistent(s, st) && !IsTerminator(s.At(st.pos))
    ensures var r := ParseStatement(s, st);
            && st.pos < |s.tokens| && r.0.start == s.tokens[st.pos].start && r.0.start < r.0.End()
            && (forall p | r.1.pos <= p < |s.tokens| :: r.0.End() <= s.tokens[p].start)
            && r.0.End() <= s.endOfString.start
  {
    var r := ParseStatement(s, st);
    var q := ParseStatementSpan(s, st);
    OrderedRange(s, st.pos, q, r.1.pos);
  }

  // The tokens at indices `i` to `q - 1` of an ordered stream cover a
  // non-empty stretch of the text that ends before every token from `next`
  // on, and before the marker.
  lemma OrderedRange(s: Stream, i: nat, q: nat, next: nat)
    requires OrderedStream(s) && i < q <= next <= |s.tokens|
    ensures s.tokens[i].start < s.tokens[q - 1].End()
    ensures forall p | next <= p < |s.tokens| :: s.tokens[q - 1].End() <= s.tokens[p].start
    ensures s.tokens[q - 1].End() <= s.endOfString.start
  {
    OrderedSpan(s, i, q - 1);
  }

  lemma OrderedStarts(s: Stream, i: nat, j: nat)
    requires OrderedStream(s) && i <= j < |s.tokens|
    ensures s.tokens[i].start <= s.tokens[j].start
  {
    if i < j {
      assert s.tokens[i].End() <= s.tokens[j].start;
    }
  }

  /** In an ordered stream, the tokens from `i` to `k` cover a non-empty
      stretch of the text that ends before every later token starts. */
  lemma OrderedSpan(s: Stream, i: nat, k: nat)
    requires OrderedStream(s) && i <= k < |s.tokens|
    ensures s.tokens[i].start < s.tokens[k].End()
    ensures forall p | k < p < |s.tokens| :: s.tokens[k].End() <= s.tokens[p].start
  {
    if i < k {
      assert s.tokens[i].End() <= s.tokens[k].start;
    }
  }

  /** In a stream whose tokens follow one another, the statements cover
      non-empty, disjoint ranges of the text in order, each starting at a
      token at or after `pos`. */
  lemma {:induction false} ParseAllInOrder(s: Stream, pos: nat)
    requires OrderedStream(s) && pos <= |s.tokens|
    ensures var r := ParseAllFrom(s, pos);
            && InTextOrder(r)
            && (|r| > 0 ==> exists p | pos <= p < |s.tokens| :: r[0].start == s.tokens[p].start)
    decreases |s.tokens| - pos
  {
    var start := SkipNewlineSemicolons(s, pos);
    if !s.At(start).IsEndOfString() {
      var st := PState(start, []);
      var stmt := ParseStatement(s, st);
      ParseStatementInText(s, st);
      ParseAllInOrder(s, stmt.1.pos);
      var rest := ParseAllFrom(s, stmt.1.pos);
      InTextOrderCons(stmt.0, rest);
      assert ParseAllFrom(s, pos) == [stmt.0] + rest;
    }
  }

  /** In a stream whose tokens follow one another, every statement lies
      between the start of the token at `pos` and the end of the text. */
  lemma {:induction false} ParseAllWithin(s: Stream, pos: nat)
    requires OrderedStream(s) && pos <= |s.tokens|
    ensures |ParseAllFrom(s, pos)| > 0 ==> pos < |s.tokens|
    ensures forall i | 0 <= i < |ParseAllFrom(s, pos)| :: pos < |s.tokens| && s.tokens[pos].start <= ParseAllFrom(s, pos)[i].start
    ensures forall i | 0 <= i < |ParseAllFrom(s, pos)| :: ParseAllFrom(s, pos)[i].End() <= s.endOfString.start
    decreases |s.tokens| - pos
  {
    var start := SkipNewlineSemicolons(s, pos);
    if !s.At(start).IsEndOfString() {
      var st := PState(start, []);
      var stmt := ParseStatement(s, st);
      StatementWithin(s, st);
      ParseAllWithin(s, stmt.1.pos);
      var rest := ParseAllFrom(s, stmt.1.pos);
      OrderedStarts(s, pos, start);
      if |rest| > 0 {
        OrderedStarts(s, pos, stmt.1.pos);
      }
      WithinCons(s, pos, stmt.0, rest);
      assert ParseAllFrom(s, pos) == [stmt.0] + rest;
    }
  }

  // A statement parsed at `st` lies between its first token's start and the
  // end of the text.
  lemma StatementWithin(s: Stream, st: PState)
    requires OrderedStream(s) && Consistent(s, st) && !IsTerminator(s.At(st.pos))
    ensures var r := ParseStatement(s, st);
            st.pos < |s.tokens| && r.0.start == s.tokens[st.pos].start && r.0.End() <= s.endOfString.start
  {
    ParseStatementInText(s, st);
  }

  // The step of `ParseAllWithin`: a statement and the ones after it.
  lemma WithinCons(s: Stream, pos: nat, first: Statement, rest: seq<Statement>)
    requires pos < |s.tokens| && s.tokens[pos].start <= first.start && first.End() <= s.endOfString.start
    requires forall i | 0 <= i < |rest| :: s.tokens[pos].start <= rest[i].start
    requires forall i | 0 <= i < |rest| :: rest[i].End() <= s.endOfString.start
    ensures var all := [first] + rest;
            && (forall i | 0 <= i < |all| :: pos < |s.tokens| && s.tokens[pos].start <= all[i].start)
            && (forall i | 0 <= i < |all| :: all[i].End() <= s.endOfString.start)
  {
    var all := [first] + rest;
    forall i | 0 < i < |all|
      ensures s.tokens[pos].start <= all[i].start && all[i].End() <= s.endOfString.start
    {
      assert all[i] == rest[i - 1];
    }
  }

  /** Every statement of the text is well formed. */
  lemma {:induction false} ParseAllWellFormed(s: Stream, pos: nat)
    requires pos <= |s.tokens|
    ensures forall i | 0 <= i < |ParseAllFrom(s, pos)| :: WellFormedStatement(s.precedence, ParseAllFrom(s, pos)[i])
    decreases |s.tokens| - pos
  {
    var start := SkipNewlineSemicolons(s, pos);
    if !s.At(start).IsEndOfString() {
      var stmt := ParseStatement(s, PState(start, []));
      ParseStatementWellFormed(s, PState(start, []));
      ParseAllWellFormed(s, stmt.1.pos);
      var rest := ParseAllFrom(s, stmt.1.pos);
      var all := ParseAllFrom(s, pos);
      assert all == [stmt.0] + rest;
      forall i | 0 <= i < |all|
        ensures WellFormedStatement(s.precedence, all[i])
      {
        if i > 0 {
          assert all[i] == rest[i - 1];
        }
      }
    }
  }

  /** For a text: the statements are well formed, cover disjoint ranges of the
      text in order, all of them between the start position and the end of
      the text, and share out the text's comments among them. */
  lemma ParseProperties(text: string, startPosition: nat)
    ensures var stmts := Parse(text, startPosition);
            var s := InputOf(text, startPosition);
            && (forall i | 0 <= i < |stmts| :: WellFormedStatement(TokenPrecedence, stmts[i]))
            && InTextOrder(stmts)
            && (forall i | 0 <= i < |stmts| :: startPosition <= stmts[i].start && stmts[i].End() <= |text|)
            && AllComments(stmts) == CommentsBetween(s, 0, |s.tokens|)
  {
    var s := InputOf(text, startPosition);
    InputIsOrdered(text, startPosition);
    ParseAllWellFormed(s, 0);
    ParseAllInOrder(s, 0);
    ParseAllWithin(s, 0);
    ParseAllComments(s, 0);
    if |s.tokens| > 0 {
      assert startPosition <= s.tokens[0].start < |text|;
      assert s.endOfString.start == |text|;
    }
  }
}
