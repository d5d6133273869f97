/**
 The pure scanner: `SearchNext` reads the text from a position and returns the
 next token and the position after it. It never fails: malformed input shows up
 only as `UnknownOperator` tokens and unterminated strings or block comments.

 Source: code/tokenizer.py, `Tokenizer._search_next`. The regular expressions
 of the source are replaced by the hand-written searches below, each with a
 contract that states what the corresponding match finds.
 */
module Scanner {
  import opened Optional
  import opened Chars
  import opened Tokens

  // ---------------------------------------------------------------------------
  // Runs and searches

  /** The character classes the scanner takes maximal runs of. */
  datatype CharClass = BlankChars | WordChars | NumberChars | OperatorChars

  predicate InClass(cls: CharClass, c: char) {
    match cls
    case BlankChars => IsBlank(c)
    case WordChars => IsWordChar(c)
    case NumberChars => IsNumberChar(c)
    case OperatorChars => IsOperatorChar(c)
  }

  /** `text[i..j]` lies in the text and every character in it satisfies `p`. */
  ghost predicate RunOf(text: string, i: nat, j: nat, cls: CharClass) {
    i <= j <= |text| && forall k | i <= k < j :: InClass(cls, text[k])
  }

  /** `text[i..j]` is a run of `p` characters that cannot be extended. */
  ghost predicate MaximalRun(text: string, i: nat, j: nat, cls: CharClass) {
    RunOf(text, i, j, cls) && (j < |text| ==> !InClass(cls, text[j]))
  }

  /** The end of the longest run of `p` characters starting at `i`; `i` itself
      when `i` is at or past the end of the text. */
  function RunEnd(text: string, i: nat, cls: CharClass): (j: nat)
    ensures i <= j
    ensures i <= |text| ==> MaximalRun(text, i, j, cls)
    ensures i > |text| ==> j == i
    decreases |text| - i
  {
    if i < |text| && InClass(cls, text[i]) then RunEnd(text, i + 1, cls) else i
  }

  /** The first index at or after `i` holding `c`. */
  function FindChar(text: string, i: nat, c: char): (r: Option<nat>)
    ensures r.Some? ==> i <= r.value < |text| && text[r.value] == c
    ensures r.Some? ==> forall k | i <= k < r.value :: text[k] != c
    ensures r.None? ==> forall k | i <= k < |text| :: text[k] != c
    decreases |text| - i
  {
    if i >= |text| then None
    else if text[i] == c then Some(i)
    else FindChar(text, i + 1, c)
  }

  // The block-comment close, star then slash, starts at index `k`.
  ghost predicate CloseAt(text: string, k: nat) {
    k + 1 < |text| && text[k] == '*' && text[k + 1] == '/'
  }

  // The end of the nearest block-comment close (star then slash) that starts
  // at or after `i`: the lazy match of any characters followed by the close.
  function FindCommentClose(text: string, i: nat): (r: Option<nat>)
    ensures r.Some? ==> i + 2 <= r.value <= |text| && CloseAt(text, r.value - 2)
    ensures r.Some? ==> forall k | i <= k < r.value - 2 :: !CloseAt(text, k)
    ensures r.None? ==> forall k | i <= k :: !CloseAt(text, k)
    decreases |text| - i
  {
    if i + 1 >= |text| then None
    else if text[i] == '*' && text[i + 1] == '/' then Some(i + 2)
    else FindCommentClose(text, i + 1)
  }

  // ---------------------------------------------------------------------------
  // Quoted strings

  /** The quote at `j` is escaped: a backslash inside the match (which starts at
      `from`) comes right before it. */
  ghost predicate Escaped(text: string, from: nat, j: nat)
    requires j < |text|
  {
    from < j && text[j - 1] == '\\'
  }

  /** The first quote `q` at or after `i` that is not escaped. */
  function FirstUnescapedQuote(text: string, from: nat, i: nat, q: char): (r: Option<nat>)
    ensures r.Some? ==> i <= r.value < |text| && text[r.value] == q && !Escaped(text, from, r.value)
    ensures r.Some? ==> forall k | i <= k < r.value :: text[k] == q ==> Escaped(text, from, k)
    ensures r.None? ==> forall k | i <= k < |text| :: text[k] == q ==> Escaped(text, from, k)
    decreases |text| - i
  {
    if i >= |text| then None
    else if text[i] == q && !(from < i && text[i - 1] == '\\') then Some(i)
    else FirstUnescapedQuote(text, from, i + 1, q)
  }

  /** The last quote `q` in `text[from..hi]`. */
  function LastQuote(text: string, from: nat, hi: nat, q: char): (r: Option<nat>)
    requires hi <= |text|
    ensures r.Some? ==> from <= r.value < hi && text[r.value] == q
    ensures r.Some? ==> forall k | r.value < k < hi :: text[k] != q
    ensures r.None? ==> forall k | from <= k < hi :: text[k] != q
    decreases hi
  {
    if hi <= from then None
    else if text[hi - 1] == q then Some(hi - 1)
    else LastQuote(text, from, hi - 1, q)
  }

  /** Where the match of `(\\q|[^q])*q` starting at `from` ends, if it matches.
      Taken greedily, the match closes at the first quote that no backslash
      escapes. When every later quote is escaped, the regular-expression
      engine backtracks and closes the match at the last of them. It fails
      only when no quote follows at all. */
  function QuoteMatchEnd(text: string, from: nat, q: char): (r: Option<nat>)
    ensures r.Some? ==> from < r.value <= |text| && text[r.value - 1] == q
    ensures r.None? <==> forall k | from <= k < |text| :: text[k] != q
    ensures r.Some? && !Escaped(text, from, r.value - 1) ==>
              forall k | from <= k < r.value - 1 :: text[k] == q ==> Escaped(text, from, k)
    ensures r.Some? && Escaped(text, from, r.value - 1) ==>
              (forall k | from <= k < |text| :: text[k] == q ==> Escaped(text, from, k))
              && (forall k | r.value <= k < |text| :: text[k] != q)
  {
    match FirstUnescapedQuote(text, from, from, q)
    case Some(j) => Some(j + 1)
    case None =>
      match LastQuote(text, from, |text|, q)
      case Some(j) => Some(j + 1)
      case None => None
  }

  /** `s` is a sequence of units of the string pattern: either a backslash
      followed by the quote `q`, or one character other than `q`. This is the
      language of `(\\q|[^q])*`. */
  ghost predicate QuoteBody(s: string, q: char)
    decreases |s|
  {
    s == []
    || (|s| >= 2 && s[0] == '\\' && s[1] == q && QuoteBody(s[2..], q))
    || (s[0] != q && QuoteBody(s[1..], q))
  }

  /** A string whose first character is not `q` and whose every other `q` comes
      right after a backslash is made of string-pattern units. */
  lemma {:induction false} EscapedQuotesFormBody(s: string, q: char)
    requires q != '\\'
    requires |s| > 0 ==> s[0] != q
    requires forall k | 0 < k < |s| :: s[k] == q ==> s[k - 1] == '\\'
    ensures QuoteBody(s, q)
    decreases |s|
  {
    if s == [] {
    } else if |s| >= 2 && s[0] == '\\' && s[1] == q {
      var rest := s[2..];
      forall k | 0 < k < |rest| && rest[k] == q
        ensures rest[k - 1] == '\\'
      {
        assert s[k + 2] == q;
      }
      if |rest| > 0 {
        assert rest[0] == s[2];
      }
      EscapedQuotesFormBody(rest, q);
    } else {
      var rest := s[1..];
      forall k | 0 < k < |rest| && rest[k] == q
        ensures rest[k - 1] == '\\'
      {
        assert s[k + 1] == q;
      }
      if |rest| > 0 {
        assert rest[0] == s[1];
      }
      EscapedQuotesFormBody(rest, q);
    }
  }

  /** Whatever `QuoteMatchEnd` finds is a match of `(\\q|[^q])*q`: a body of
      string-pattern units followed by the closing quote. */
  lemma QuoteMatchIsRegexMatch(text: string, from: nat, q: char)
    requires q != '\\'
    requires 0 < from <= |text| && text[from - 1] == q
    requires QuoteMatchEnd(text, from, q).Some?
    ensures var e := QuoteMatchEnd(text, from, q).value;
            QuoteBody(text[from..e - 1], q) && text[e - 1] == q
  {
    var e := QuoteMatchEnd(text, from, q).value;
    var s := text[from..e - 1];
    if |s| > 0 {
      assert !Escaped(text, from, from);
      assert s[0] == text[from];
    }
    forall k | 0 < k < |s| && s[k] == q
      ensures s[k - 1] == '\\'
    {
      assert text[from + k] == q;
      assert Escaped(text, from, from + k);
    }
    EscapedQuotesFormBody(s, q);
  }

  // ---------------------------------------------------------------------------
  // The scanner

  /** The end-of-text token at `position`. */
  function EndOfStringAt(position: nat): Token {
    SpecialToken(position, 0, EndOfString, true)
  }

  /** The text a token covers. */
  function TokenText(text: string, t: Token): string
    requires t.End() <= |text|
  {
    text[t.start..t.End()]
  }

  // A line comment (two dashes) starts at `s`.
  predicate LineCommentAt(text: string, s: nat) {
    s + 1 < |text| && text[s] == '-' && text[s + 1] == '-'
  }

  // A block comment (slash then star) starts at `s`.
  predicate BlockCommentAt(text: string, s: nat) {
    s + 1 < |text| && text[s] == '/' && text[s + 1] == '*'
  }

  /** A name: a letter, then the longest run of letters, digits and
      underscores. Its kind is the keyword whose value is the lower-cased
      text, or `NonKeyword` when there is none. */
  function ScanName(text: string, start: nat): (r: (Token, nat))
    requires start < |text| && IsAlpha(text[start])
    ensures r.1 == r.0.End() && r.0.start == start && r.0.NameToken?
    ensures MaximalRun(text, start + 1, r.1, WordChars)
    ensures r.0.nameKind != NonKeyword ==> NameValue(r.0.nameKind) == LowerString(text[start..r.1])
    ensures r.0.nameKind == NonKeyword <==>
              forall k: NameKind | k != NonKeyword :: NameValue(k) != LowerString(text[start..r.1])
  {
    var e := RunEnd(text, start + 1, WordChars);
    var kind := NameKindOf(LowerString(text[start..e]));
    (NameToken(start, e - start, kind), e)
  }

  /** A number: a digit, then the longest run of digits and dots. */
  function ScanNumber(text: string, start: nat): (r: (Token, nat))
    requires start < |text| && IsDigit(text[start])
    ensures r.1 == r.0.End() && r.0.start == start && r.0.NumberToken?
    ensures MaximalRun(text, start + 1, r.1, NumberChars)
  {
    var e := RunEnd(text, start + 1, NumberChars);
    (NumberToken(start, e - start), e)
  }

  /** A quoted string starting at `start` with quote character `q`: through
      the end of the string pattern's match, or to the end of the text,
      unterminated, when there is no match. */
  function ScanString(text: string, start: nat, q: char): (r: (Token, nat))
    requires start < |text| && text[start] == q && (q == '"' || q == '\'')
    ensures r.1 == r.0.End() <= |text| && r.0.start == start && r.0.length >= 1
    ensures r.0.IsSpecial(if q == '"' then DoubleQuoteString else SingleQuoteString)
    ensures r.0.hasEndSequence <==> exists k | start < k < |text| :: text[k] == q
    ensures r.0.hasEndSequence ==>
              start + 2 <= r.1 && text[r.1 - 1] == q && QuoteBody(text[start + 1..r.1 - 1], q)
    ensures !r.0.hasEndSequence ==> r.1 == |text|
  {
    var kind := if q == '"' then DoubleQuoteString else SingleQuoteString;
    match QuoteMatchEnd(text, start + 1, q)
    case Some(e) =>
      QuoteMatchIsRegexMatch(text, start + 1, q);
      (SpecialToken(start, e - start, kind, true), e)
    case None => (SpecialToken(start, |text| - start, kind, false), |text|)
  }

  /** A line comment starting at `start`: up to, not including, the next
      newline, or to the end of the text. It always counts as terminated. */
  function ScanLineComment(text: string, start: nat): (r: (Token, nat))
    requires LineCommentAt(text, start)
    ensures r.1 == r.0.End() <= |text| && r.0.start == start && r.0.length >= 2
    ensures r.0.IsSpecial(SingleLineComment) && r.0.hasEndSequence
    ensures forall k | start <= k < r.1 :: text[k] != '\n'
    ensures r.1 < |text| ==> text[r.1] == '\n'
  {
    match FindChar(text, start + 2, '\n')
    case Some(k) => (SpecialToken(start, k - start, SingleLineComment, true), k)
    case None => (SpecialToken(start, |text| - start, SingleLineComment, true), |text|)
  }

  // A block comment starting at `start`: through the nearest close (star then
  // slash) that begins after the opening pair, or to the end of the text,
  // unterminated.
  function ScanBlockComment(text: string, start: nat): (r: (Token, nat))
    requires BlockCommentAt(text, start)
    ensures r.1 == r.0.End() <= |text| && r.0.start == start && r.0.length >= 2
    ensures r.0.IsSpecial(MultiLineComment)
    ensures r.0.hasEndSequence ==>
              start + 4 <= r.1 && CloseAt(text, r.1 - 2)
              && forall k | start + 2 <= k < r.1 - 2 :: !CloseAt(text, k)
    ensures !r.0.hasEndSequence ==>
              r.1 == |text| && forall k | start + 2 <= k :: !CloseAt(text, k)
  {
    match FindCommentClose(text, start + 2)
    case Some(e) => (SpecialToken(start, e - start, MultiLineComment, true), e)
    case None => (SpecialToken(start, |text| - start, MultiLineComment, false), |text|)
  }

  /** Punctuation at `start`: a structural symbol on its own, else the longest
      run of operator characters, looked up in the punctuation table, else one
      unknown character. */
  function ScanPunctuation(text: string, start: nat): (r: (Token, nat))
    requires start < |text|
    ensures r.1 == r.0.End() <= |text| && r.0.start == start && r.0.length >= 1
    ensures r.0.PunctuationToken?
    // `-` and `~` fall outside the operator class, so `Minus` and `BitNot` never appear.
    ensures r.0.punctKind != Minus && r.0.punctKind != BitNot
    ensures IsStructural(text[start]) ==> r.1 == start + 1 && PunctValue(r.0.punctKind) == [text[start]]
    ensures !IsStructural(text[start]) && IsOperatorChar(text[start]) ==>
              MaximalRun(text, start, r.1, OperatorChars)
              && (r.0.punctKind != UnknownOperator <==>
                    exists k :: IsOperatorKind(k) && PunctValue(k) == text[start..r.1])
              && (r.0.punctKind != UnknownOperator ==> PunctValue(r.0.punctKind) == text[start..r.1])
    ensures !IsStructural(text[start]) && !IsOperatorChar(text[start]) ==>
              r.1 == start + 1 && r.0.punctKind == UnknownOperator
  {
    NonOperatorsExact([text[start]]);
    match TextToNonOperators([text[start]])
    case Some(k) => (PunctuationToken(start, 1, k), start + 1)
    case None =>
      if IsOperatorChar(text[start]) then
        var e := RunEnd(text, start, OperatorChars);
        var run := text[start..e];
        OperatorRunLookup(run);
        PunctuationLookupComplete(run);
        (PunctuationToken(start, e - start, TextToPunctuationToken(run).GetOr(UnknownOperator)), e)
      else
        (PunctuationToken(start, 1, UnknownOperator), start + 1)
  }

  /** The token that starts at `start` and the position after it: the first
      character decides how it is scanned, and at or past the end of the text
      it is the end-of-text marker. */
  function ScanToken(text: string, start: nat): (r: (Token, nat))
    ensures r.1 == r.0.End() && r.0.start == start
    ensures r.0.IsEndOfString() <==> start >= |text|
    ensures r.0.IsEndOfString() ==> r.0 == EndOfStringAt(start)
    ensures !r.0.IsEndOfString() ==> 1 <= r.0.length && r.0.End() <= |text|
    ensures r.0.SpecialToken? && !r.0.hasEndSequence ==>
              (r.0.IsString() || r.0.IsSpecial(MultiLineComment)) && r.0.End() == |text|
  {
    if start >= |text| then
      (EndOfStringAt(start), start)
    else
      var c := text[start];
      if IsAlpha(c) then ScanName(text, start)
      else if IsDigit(c) then ScanNumber(text, start)
      else if c == '"' || c == '\'' then ScanString(text, start, c)
      else if LineCommentAt(text, start) then ScanLineComment(text, start)
      else if BlockCommentAt(text, start) then ScanBlockComment(text, start)
      else ScanPunctuation(text, start)
  }

  /** The next token at or after `position`, and the position after it. */
  function SearchNext(text: string, position: nat): (r: (Token, nat))
    // The position after the token is the token's end.
    ensures r.1 == r.0.End()
    // Only blanks (whitespace other than newline) are skipped.
    ensures position <= r.0.start
    ensures forall k | position <= k < r.0.start :: k < |text| && IsBlank(text[k])
    ensures r.0.start < |text| ==> !IsBlank(text[r.0.start])
    // End of text: a zero-length marker that does not move past the blanks.
    ensures r.0.IsEndOfString() <==> r.0.start >= |text|
    ensures r.0.IsEndOfString() ==> r.0.length == 0 && r.0.hasEndSequence
    ensures r.0.IsEndOfString() ==> r.0.start == if position <= |text| then |text| else position
    ensures position >= |text| ==> r == (EndOfStringAt(position), position)
    // Every other token is non-empty and inside the text.
    ensures !r.0.IsEndOfString() ==> 1 <= r.0.length && r.0.End() <= |text|
    // Only strings and block comments are ever unterminated, and they then run to the end.
    ensures r.0.SpecialToken? && !r.0.hasEndSequence ==>
              (r.0.IsString() || r.0.IsSpecial(MultiLineComment)) && r.0.End() == |text|
  {
    ScanToken(text, RunEnd(text, position, BlankChars))
  }

  /** The first character after the skipped blanks decides how the token is
      scanned. */
  lemma SearchNextDispatch(text: string, position: nat)
    ensures var r := SearchNext(text, position);
            r.0.start < |text| ==>
              var c := text[r.0.start];
              (IsAlpha(c) ==> r == ScanName(text, r.0.start))
              && (IsDigit(c) ==> r == ScanNumber(text, r.0.start))
              && (c == '"' || c == '\'' ==> r == ScanString(text, r.0.start, c))
              && (LineCommentAt(text, r.0.start) ==> r == ScanLineComment(text, r.0.start))
              && (BlockCommentAt(text, r.0.start) ==> r == ScanBlockComment(text, r.0.start))
              && (!IsAlnum(c) && c != '"' && c != '\'' &&
                  !LineCommentAt(text, r.0.start) && !BlockCommentAt(text, r.0.start) ==>
                    r == ScanPunctuation(text, r.0.start))
  {
  }

  /** The kind of the token `SearchNext` returns matches the category of its
      first character: names start with a letter, numbers with a digit, strings
      with a quote, comments with their opening pair; everything else is
      punctuation. */
  lemma TokenCategories(text: string, position: nat)
    ensures var t := SearchNext(text, position).0;
            var s := t.start;
            (t.NameToken? <==> s < |text| && IsAlpha(text[s]))
            && (t.NumberToken? <==> s < |text| && IsDigit(text[s]))
            && (t.IsString() <==> s < |text| && (text[s] == '"' || text[s] == '\''))
            && (t.IsSpecial(SingleLineComment) <==> LineCommentAt(text, s))
            && (t.IsSpecial(MultiLineComment) <==> BlockCommentAt(text, s))
            && (t.IsComment() <==> LineCommentAt(text, s) || BlockCommentAt(text, s))
  {
  }

  /** Skipping blanks from a position that holds no blank stays put. */
  lemma NoBlanksToSkip(text: string, start: nat)
    requires start < |text| ==> !IsBlank(text[start])
    ensures RunEnd(text, start, BlankChars) == start
  {
  }

  // ---------------------------------------------------------------------------
  // Scanning a token's own text

  // A maximal run that ends at `e` still ends there once the text is cut to
  // `text[s..e]`.
  lemma RunEndWindow(text: string, s: nat, e: nat, i: nat, cls: CharClass)
    requires s <= i <= e <= |text| && RunEnd(text, i, cls) == e
    ensures RunEnd(text[s..e], i - s, cls) == e - s
  {
    var w := text[s..e];
    var j := RunEnd(w, i - s, cls);
    if j < |w| {
      assert false;
    }
  }

  lemma NameWindow(text: string, s: nat)
    requires s < |text| && IsAlpha(text[s])
    ensures var r := ScanName(text, s);
            ScanName(text[s..r.1], 0) == (r.0.WithStart(0), r.1 - s)
  {
    var e := ScanName(text, s).1;
    var w := text[s..e];
    assert w[0] == text[s];
    RunEndWindow(text, s, e, s + 1, WordChars);
    assert w[0..|w|] == w;
  }

  lemma NumberWindow(text: string, s: nat)
    requires s < |text| && IsDigit(text[s])
    ensures var r := ScanNumber(text, s);
            ScanNumber(text[s..r.1], 0) == (r.0.WithStart(0), r.1 - s)
  {
    var e := ScanNumber(text, s).1;
    assert text[s..e][0] == text[s];
    RunEndWindow(text, s, e, s + 1, NumberChars);
  }

  /** Cutting the text after a closed string leaves the closing quote where the
      string pattern's match ends: every earlier quote stays escaped. */
  lemma StringWindow(text: string, s: nat, q: char)
    requires s < |text| && text[s] == q && (q == '"' || q == '\'')
    ensures var r := ScanString(text, s, q);
            ScanString(text[s..r.1], 0, q) == (r.0.WithStart(0), r.1 - s)
  {
    var e := ScanString(text, s, q).1;
    var w := text[s..e];
    assert w[0] == text[s];
    match QuoteMatchEnd(text, s + 1, q)
    case Some(m) =>
      assert w[|w| - 1] == text[e - 1];
      var n := QuoteMatchEnd(w, 1, q);
      assert n.Some?;
      if n.value < |w| {
        assert false;
      }
    case None =>
      if QuoteMatchEnd(w, 1, q).Some? {
        assert false;
      }
  }

  lemma LineCommentWindow(text: string, s: nat)
    requires LineCommentAt(text, s)
    ensures var r := ScanLineComment(text, s);
            ScanLineComment(text[s..r.1], 0) == (r.0.WithStart(0), r.1 - s)
  {
    var e := ScanLineComment(text, s).1;
    var w := text[s..e];
    assert w[0] == text[s] && w[1] == text[s + 1];
    if FindChar(w, 2, '\n').Some? {
      assert false;
    }
  }

  /** Cutting the text after a closed block comment leaves its close as the
      first one after the opening pair. */
  lemma BlockCommentWindow(text: string, s: nat)
    requires BlockCommentAt(text, s)
    ensures var r := ScanBlockComment(text, s);
            ScanBlockComment(text[s..r.1], 0) == (r.0.WithStart(0), r.1 - s)
  {
    var r := ScanBlockComment(text, s);
    var e := r.1;
    var w := text[s..e];
    assert w[0] == text[s] && w[1] == text[s + 1];
    var n := FindCommentClose(w, 2);
    if r.0.hasEndSequence {
      assert CloseAt(w, |w| - 2) by {
        assert w[|w| - 2] == text[e - 2] && w[|w| - 1] == text[e - 1];
      }
      assert n.Some?;
      if n.value < |w| {
        var k := n.value - 2;
        assert w[k] == text[s + k] && w[k + 1] == text[s + k + 1];
        assert CloseAt(text, s + k);
        assert false;
      }
    } else if n.Some? {
      var k := n.value - 2;
      assert w[k] == text[s + k] && w[k + 1] == text[s + k + 1];
      assert CloseAt(text, s + k);
      assert false;
    }
  }

  lemma PunctuationWindow(text: string, s: nat)
    requires s < |text|
    ensures var r := ScanPunctuation(text, s);
            ScanPunctuation(text[s..r.1], 0) == (r.0.WithStart(0), r.1 - s)
  {
    var e := ScanPunctuation(text, s).1;
    var w := text[s..e];
    assert w[0] == text[s];
    assert [w[0]] == [text[s]];
    if TextToNonOperators([text[s]]).None? && IsOperatorChar(text[s]) {
      RunEndWindow(text, s, e, s, OperatorChars);
      assert w[0..|w|] == w;
    }
  }

  /** Scanning the text of the token that starts at `s` on its own finds the
      same token, moved to position 0. */
  lemma ScanTokenWindow(text: string, s: nat)
    requires s < |text|
    ensures var r := ScanToken(text, s);
            ScanToken(text[s..r.1], 0) == (r.0.WithStart(0), r.1 - s)
  {
    var c := text[s];
    assert text[s..ScanToken(text, s).1][0] == c;
    if IsAlpha(c) {
      NameWindow(text, s);
    } else if IsDigit(c) {
      NumberWindow(text, s);
    } else if c == '"' || c == '\'' {
      StringWindow(text, s, c);
    } else {
      SymbolWindow(text, s);
    }
  }

  // The same for a comment or punctuation: the opening pair of a comment lies
  // inside the token, and an operator run is not cut short.
  lemma SymbolWindow(text: string, s: nat)
    requires s < |text| && !IsAlnum(text[s]) && text[s] != '"' && text[s] != '\''
    ensures var r := ScanToken(text, s);
            ScanToken(text[s..r.1], 0) == (r.0.WithStart(0), r.1 - s)
  {
    var w := text[s..ScanToken(text, s).1];
    assert w[0] == text[s];
    assert |w| >= 2 ==> w[1] == text[s + 1];
    if LineCommentAt(text, s) {
      LineCommentWindow(text, s);
      assert LineCommentAt(w, 0);
    } else if BlockCommentAt(text, s) {
      BlockCommentWindow(text, s);
      assert !LineCommentAt(w, 0) && BlockCommentAt(w, 0);
    } else {
      PunctuationWindow(text, s);
      assert !LineCommentAt(w, 0) && !BlockCommentAt(w, 0);
    }
  }

  // From a character that is not blank, the same holds for `SearchNext`.
  lemma SearchWindow(text: string, s: nat)
    requires s < |text| && !IsBlank(text[s])
    ensures var r := ScanToken(text, s);
            SearchNext(text[s..r.1], 0) == (r.0.WithStart(0), r.1 - s)
  {
    var w := text[s..ScanToken(text, s).1];
    ScanTokenWindow(text, s);
    assert w[0] == text[s];
    NoBlanksToSkip(w, 0);
  }

  /** A token's own text scans, from its first character, to the same token:
      the same kind, length and termination, starting at 0. The scan that
      found the token looked at nothing beyond it. */
  lemma RescanTokenText(text: string, position: nat)
    ensures var t := SearchNext(text, position).0;
            t.End() <= |text| ==> SearchNext(TokenText(text, t), 0) == (t.WithStart(0), t.length)
  {
    var r := SearchNext(text, position);
    var t := r.0;
    if t.End() <= |text| {
      if t.start < |text| {
        assert r == ScanToken(text, t.start);
        SearchWindow(text, t.start);
      } else {
        EndOfTextWindow(text, t);
      }
    }
  }

  // The end-of-text marker at the end of the text covers no text, and the
  // empty text scans to the marker at 0.
  lemma EndOfTextWindow(text: string, t: Token)
    requires t.IsEndOfString() && t.length == 0 && t.hasEndSequence && t.End() <= |text|
    ensures SearchNext(TokenText(text, t), 0) == (t.WithStart(0), t.length)
  {
    assert TokenText(text, t) == [];
  }

  /** The end-of-text marker is the last word: scanning from its position
      finds it again. */
  lemma EndOfStringIsSticky(text: string, position: nat)
    requires SearchNext(text, position).0.IsEndOfString()
    ensures SearchNext(text, SearchNext(text, position).1) == SearchNext(text, position)
  {
    NoBlanksToSkip(text, SearchNext(text, position).1);
  }

  // ---------------------------------------------------------------------------
  // The token stream

  /** The distance from `p` to the end of the text, zero past it. */
  function Remaining(text: string, p: nat): nat {
    if p <= |text| then |text| - p else 0
  }

  /** `ts` tiles `text[p..]`: the tokens follow one another, each non-empty
      and inside the text, and only blanks lie before, between and after
      them. */
  ghost predicate Tiles(text: string, p: nat, ts: seq<Token>)
    decreases |ts|
  {
    if ts == [] then
      forall k | p <= k < |text| :: IsBlank(text[k])
    else
      && p <= ts[0].start
      && 1 <= ts[0].length
      && ts[0].End() <= |text|
      && (forall k | p <= k < ts[0].start :: IsBlank(text[k]))
      && Tiles(text, ts[0].End(), ts[1..])
  }

  /** All the tokens the scanner produces from a position: the ones before
      the end of the text, then the end-of-text marker, which every further
      scan returns again. */
  datatype TokenStream = TokenStream(tokens: seq<Token>, endOfString: Token) {
    /** The token at index `i`, counting from 0. */
    function At(i: nat): Token {
      if i < |tokens| then tokens[i] else endOfString
    }
  }

  /** Scan repeatedly from `position` until the end-of-text marker. Scanning
      loses nothing: the tokens tile the rest of the text, none of them is the
      marker, and the marker sits at the end of the text. */
  function Lex(text: string, position: nat): (s: TokenStream)
    ensures Tiles(text, position, s.tokens)
    ensures forall i | 0 <= i < |s.tokens| :: !s.tokens[i].IsEndOfString()
    ensures s.endOfString == EndOfStringAt(if position <= |text| then |text| else position)
    ensures forall i | 0 <= i < |s.tokens| ::
              position <= s.tokens[i].start && 1 <= s.tokens[i].length && s.tokens[i].End() <= |text|
    ensures forall i, j | 0 <= i < j < |s.tokens| :: s.tokens[i].End() <= s.tokens[j].start
    decreases Remaining(text, position)
  {
    var (t, next) := SearchNext(text, position);
    if t.IsEndOfString() then
      TokenStream([], t)
    else
      var rest := Lex(text, next);
      TokenStream([t] + rest.tokens, rest.endOfString)
  }
}
