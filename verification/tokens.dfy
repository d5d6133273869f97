/**
 The token model: token kinds, the lookup tables that turn matched text into a
 kind, the operator precedence table and the token records themselves.

 Source: code/my_token.py.
 */
module Tokens {
  import opened Optional
  import opened Chars

  /** Kinds of a name token (a token that starts with a letter).
      `SomeKw` is the keyword `some`; it is renamed so that it does not clash
      with `Option.Some`. */
  datatype NameKind =
    | Select | From | Where | Group | Order | By
    | Insert | Into | Values
    | Delete
    | Case | Using | As | Distinct
    | Null | Asc | Desc | Nulls | First | Last | Exists
    | Left | Right | Full | Inner | Outer | Straight | Cross | Natural | Join | On
    | Union | Except | Intersect
    | Is | Not | And | All | Any | Between | In | Like | Or | SomeKw
    | NonKeyword

  /** The string value of each name kind. Every keyword's value is its own
      lower-case spelling; the value of `NonKeyword` starts with a space so that
      no scanned name can ever spell it. */
  function NameValue(k: NameKind): string {
    match k
    case Select => "select"
    case From => "from"
    case Where => "where"
    case Group => "group"
    case Order => "order"
    case By => "by"
    case Insert => "insert"
    case Into => "into"
    case Values => "values"
    case Delete => "delete"
    case Case => "case"
    case Using => "using"
    case As => "as"
    case Distinct => "distinct"
    case Null => "null"
    case Asc => "asc"
    case Desc => "desc"
    case Nulls => "nulls"
    case First => "first"
    case Last => "last"
    case Exists => "exists"
    case Left => "left"
    case Right => "right"
    case Full => "full"
    case Inner => "inner"
    case Outer => "outer"
    case Straight => "straight"
    case Cross => "cross"
    case Natural => "natural"
    case Join => "join"
    case On => "on"
    case Union => "union"
    case Except => "except"
    case Intersect => "intersect"
    case Is => "is"
    case Not => "not"
    case And => "and"
    case All => "all"
    case Any => "any"
    case Between => "between"
    case In => "in"
    case Like => "like"
    case Or => "or"
    case SomeKw => "some"
    case NonKeyword => " name"
  }

  /** The keyword lookup table: each member's lower-cased value maps to the
      member. The table is organised by key length, which does not change which
      strings it maps or to what. */
  function TextToNameToken(s: string): (r: Option<NameKind>)
    ensures r.Some? ==> NameValue(r.value) == s
  {
    match |s|
    case 2 => KeywordsOfLengthTwo(s)
    case 3 => KeywordsOfLengthThree(s)
    case 4 => KeywordsOfLengthFour(s)
    case 5 => KeywordsOfLengthFive(s)
    case 6 => KeywordsOfLengthSix(s)
    case 7 => KeywordsOfLengthSeven(s)
    case 8 => KeywordsOfLengthEight(s)
    case 9 => KeywordsOfLengthNine(s)
    case _ => None
  }

  function KeywordsOfLengthTwo(s: string): (r: Option<NameKind>)
    ensures r.Some? ==> NameValue(r.value) == s
  {
    if s == "by" then Some(By) else
    if s == "as" then Some(As) else
    if s == "on" then Some(On) else
    if s == "is" then Some(Is) else
    if s == "in" then Some(In) else
    if s == "or" then Some(Or) else
    None
  }

  function KeywordsOfLengthThree(s: string): (r: Option<NameKind>)
    ensures r.Some? ==> NameValue(r.value) == s
  {
    if s == "asc" then Some(Asc) else
    if s == "not" then Some(Not) else
    if s == "and" then Some(And) else
    if s == "all" then Some(All) else
    if s == "any" then Some(Any) else
    None
  }

  /** Four-letter keys, split by first letter. */
  function KeywordsOfLengthFour(s: string): (r: Option<NameKind>)
    requires |s| == 4
    ensures r.Some? ==> NameValue(r.value) == s
  {
    if s[0] < 'j' then KeywordsOfLengthFourBeforeJ(s) else KeywordsOfLengthFourFromJ(s)
  }

  function KeywordsOfLengthFourBeforeJ(s: string): (r: Option<NameKind>)
    ensures r.Some? ==> NameValue(r.value) == s
  {
    if s == "from" then Some(From) else
    if s == "into" then Some(Into) else
    if s == "case" then Some(Case) else
    if s == "desc" then Some(Desc) else
    if s == "full" then Some(Full) else
    None
  }

  function KeywordsOfLengthFourFromJ(s: string): (r: Option<NameKind>)
    ensures r.Some? ==> NameValue(r.value) == s
  {
    if s == "null" then Some(Null) else
    if s == "last" then Some(Last) else
    if s == "left" then Some(Left) else
    if s == "join" then Some(Join) else
    if s == "like" then Some(Like) else
    if s == "some" then Some(SomeKw) else
    None
  }

  /** Five-letter keys (and the non-keyword's value), split by first letter. */
  function KeywordsOfLengthFive(s: string): (r: Option<NameKind>)
    requires |s| == 5
    ensures r.Some? ==> NameValue(r.value) == s
  {
    if s[0] < 'o' then KeywordsOfLengthFiveBeforeO(s) else KeywordsOfLengthFiveFromO(s)
  }

  function KeywordsOfLengthFiveBeforeO(s: string): (r: Option<NameKind>)
    ensures r.Some? ==> NameValue(r.value) == s
  {
    if s == "group" then Some(Group) else
    if s == "nulls" then Some(Nulls) else
    if s == "first" then Some(First) else
    if s == "inner" then Some(Inner) else
    if s == "cross" then Some(Cross) else
    if s == " name" then Some(NonKeyword) else
    None
  }

  function KeywordsOfLengthFiveFromO(s: string): (r: Option<NameKind>)
    ensures r.Some? ==> NameValue(r.value) == s
  {
    if s == "where" then Some(Where) else
    if s == "order" then Some(Order) else
    if s == "using" then Some(Using) else
    if s == "right" then Some(Right) else
    if s == "outer" then Some(Outer) else
    if s == "union" then Some(Union) else
    None
  }

  function KeywordsOfLengthSix(s: string): (r: Option<NameKind>)
    ensures r.Some? ==> NameValue(r.value) == s
  {
    if s == "select" then Some(Select) else
    if s == "insert" then Some(Insert) else
    if s == "values" then Some(Values) else
    if s == "delete" then Some(Delete) else
    if s == "exists" then Some(Exists) else
    if s == "except" then Some(Except) else
    None
  }

  function KeywordsOfLengthSeven(s: string): (r: Option<NameKind>)
    ensures r.Some? ==> NameValue(r.value) == s
  {
    if s == "natural" then Some(Natural) else
    if s == "between" then Some(Between) else
    None
  }

  function KeywordsOfLengthEight(s: string): (r: Option<NameKind>)
    ensures r.Some? ==> NameValue(r.value) == s
  {
    if s == "distinct" then Some(Distinct) else
    if s == "straight" then Some(Straight) else
    None
  }

  function KeywordsOfLengthNine(s: string): (r: Option<NameKind>)
    ensures r.Some? ==> NameValue(r.value) == s
  {
    if s == "intersect" then Some(Intersect) else
    None
  }

  /** Kinds of a punctuation token (a token made only of non-alphanumeric
      characters): operators, then the structural symbols that never take part
      in a longest match, then the fallback for unrecognised operator text. */
  datatype PunctKind =
    | Dot | DoubleColon | BitNot | LeftShift | RightShift
    | Multiply | Divide | Mod
    | Plus | Minus | BitAnd | BitOr | BitXor
    | Equal | LessThan | GreaterThan | LessThanOrEqual | GreaterThanOrEqual | NotEqual
    | Semicolon | LeftParen | RightParen | LeftBracket | RightBracket | Comma | Newline
    | UnknownOperator

  /** The string value of each punctuation kind. `UnknownOperator`'s value
      starts with a space, which no operator character run contains. */
  function PunctValue(k: PunctKind): string {
    match k
    case Dot => "."
    case DoubleColon => "::"
    case BitNot => "~"
    case LeftShift => "<<"
    case RightShift => ">>"
    case Multiply => "*"
    case Divide => "/"
    case Mod => "%"
    case Plus => "+"
    case Minus => "-"
    case BitAnd => "&"
    case BitOr => "|"
    case BitXor => "^"
    case Equal => "="
    case LessThan => "<"
    case GreaterThan => ">"
    case LessThanOrEqual => "<="
    case GreaterThanOrEqual => ">="
    case NotEqual => "!="
    case Semicolon => ";"
    case LeftParen => "("
    case RightParen => ")"
    case LeftBracket => "["
    case RightBracket => "]"
    case Comma => ","
    case Newline => "\n"
    case UnknownOperator => " unknown"
  }

  /** The punctuation lookup table: each member's value maps to the member. */
  function TextToPunctuationToken(s: string): (r: Option<PunctKind>)
    ensures r.Some? ==> PunctValue(r.value) == s
  {
    if |s| == 1 then SingleCharPunctuation(s[0])
    else if |s| == 2 then TwoCharPunctuation(s)
    else if s == " unknown" then Some(UnknownOperator)
    else None
  }

  function SingleCharPunctuation(c: char): (r: Option<PunctKind>)
    ensures r.Some? ==> PunctValue(r.value) == [c]
  {
    match c
    case '.' => Some(Dot)
    case '~' => Some(BitNot)
    case '*' => Some(Multiply)
    case '/' => Some(Divide)
    case '%' => Some(Mod)
    case '+' => Some(Plus)
    case '-' => Some(Minus)
    case '&' => Some(BitAnd)
    case '|' => Some(BitOr)
    case '^' => Some(BitXor)
    case '=' => Some(Equal)
    case '<' => Some(LessThan)
    case '>' => Some(GreaterThan)
    case ';' => Some(Semicolon)
    case '(' => Some(LeftParen)
    case ')' => Some(RightParen)
    case '[' => Some(LeftBracket)
    case ']' => Some(RightBracket)
    case ',' => Some(Comma)
    case '\n' => Some(Newline)
    case _ => None
  }

  function TwoCharPunctuation(s: string): (r: Option<PunctKind>)
    ensures r.Some? ==> PunctValue(r.value) == s
  {
    if s == "::" then Some(DoubleColon) else
    if s == "<<" then Some(LeftShift) else
    if s == ">>" then Some(RightShift) else
    if s == "<=" then Some(LessThanOrEqual) else
    if s == ">=" then Some(GreaterThanOrEqual) else
    if s == "!=" then Some(NotEqual) else
    None
  }

  /** The structural punctuation that the scanner emits one character at a time
      instead of taking a longest match. */
  function TextToNonOperators(s: string): (r: Option<PunctKind>)
    ensures r.Some? ==> PunctValue(r.value) == s
  {
    if s == ";" then Some(Semicolon)
    else if s == "(" then Some(LeftParen)
    else if s == ")" then Some(RightParen)
    else if s == "[" then Some(LeftBracket)
    else if s == "]" then Some(RightBracket)
    else if s == "," then Some(Comma)
    else if s == "\n" then Some(Newline)
    else None
  }

  /** Kinds of a special token: strings, comments and the end-of-text marker. */
  datatype SpecialKind =
    | SingleQuoteString | DoubleQuoteString
    | SingleLineComment | MultiLineComment
    | EndOfString

  /** The key type of the precedence table: the kind of a name or of a
      punctuation token. */
  datatype TokenType = NameType(name: NameKind) | PunctType(punct: PunctKind)

  /** One entry of the precedence table. */
  type PrecedenceEntry = (TokenType, int)

  /** The precedence table in source order: a smaller number binds tighter.
      `~` and `NOT` have no entry because only binary operators are
      supported. */
  const PrecedenceTable: seq<PrecedenceEntry> := [
    (PunctType(Dot), 1),
    (PunctType(DoubleColon), 2),
    (PunctType(LeftShift), 4),
    (PunctType(RightShift), 4),
    (PunctType(Multiply), 5),
    (PunctType(Divide), 5),
    (PunctType(Mod), 5),
    (PunctType(Plus), 6),
    (PunctType(Minus), 6),
    (PunctType(BitAnd), 6),
    (PunctType(BitOr), 6),
    (PunctType(BitXor), 6),
    (PunctType(Equal), 7),
    (PunctType(LessThan), 7),
    (PunctType(GreaterThan), 7),
    (PunctType(LessThanOrEqual), 7),
    (PunctType(GreaterThanOrEqual), 7),
    (PunctType(NotEqual), 7),
    (NameType(Is), 7),
    (NameType(In), 7),
    (NameType(Like), 7),
    (NameType(And), 9),
    (NameType(Or), 10),
    (PunctType(Comma), 100)
  ]

  /** The value of the first entry for `ty` at or after index `i`, if any. */
  function Lookup(table: seq<PrecedenceEntry>, ty: TokenType, i: nat): Option<int>
    decreases |table| - i
  {
    if i >= |table| then None
    else if table[i].0 == ty then Some(table[i].1)
    else Lookup(table, ty, i + 1)
  }

  /** The precedence of a token type, when the table has one. */
  function OperatorToPrecedence(ty: TokenType): Option<int> {
    Lookup(PrecedenceTable, ty, 0)
  }

  /** The loosest precedence: the table's comma entry (see
      `CommaPrecedenceIsTableEntry`). */
  const CommaPrecedence: int := 100

  /** The tightest precedence: the table's dot entry (see
      `DotPrecedenceIsTableEntry`). */
  const DotPrecedence: int := 1

  /** A token: a half-open range `[start, start + length)` of the text plus its
      kind. A token never copies the text it covers. `hasEndSequence` is false
      only for a string or block comment that ran to the end of the text. */
  datatype Token =
    | NameToken(start: nat, length: nat, nameKind: NameKind)
    | NumberToken(start: nat, length: nat)
    | PunctuationToken(start: nat, length: nat, punctKind: PunctKind)
    | SpecialToken(start: nat, length: nat, specialKind: SpecialKind, hasEndSequence: bool)
  {
    /** One past the last index the token covers. */
    function End(): nat {
      start + length
    }

    /** The same token, moved to start at `p`. */
    function WithStart(p: nat): (t: Token)
      ensures t.start == p && t.length == length && t.End() == p + length
    {
      match this
      case NameToken(_, n, k) => NameToken(p, n, k)
      case NumberToken(_, n) => NumberToken(p, n)
      case PunctuationToken(_, n, k) => PunctuationToken(p, n, k)
      case SpecialToken(_, n, k, closed) => SpecialToken(p, n, k, closed)
    }

    predicate IsName(k: NameKind) {
      NameToken? && nameKind == k
    }

    predicate IsPunct(k: PunctKind) {
      PunctuationToken? && punctKind == k
    }

    predicate IsSpecial(k: SpecialKind) {
      SpecialToken? && specialKind == k
    }

    predicate IsEndOfString() {
      IsSpecial(EndOfString)
    }

    predicate IsNewline() {
      IsPunct(Newline)
    }

    predicate IsComment() {
      IsSpecial(SingleLineComment) || IsSpecial(MultiLineComment)
    }

    predicate IsString() {
      IsSpecial(SingleQuoteString) || IsSpecial(DoubleQuoteString)
    }
  }

  /** The key under which a name or punctuation token's kind is looked up. */
  function TypeOf(t: Token): Option<TokenType> {
    match t
    case NameToken(_, _, k) => Some(NameType(k))
    case PunctuationToken(_, _, k) => Some(PunctType(k))
    case _ => None
  }

  /** The precedence table read as a dictionary, one case per key, with one
      more than the comma's precedence for a kind that is not a key. This is
      the same mapping as `OperatorToPrecedence` (see
      `PrecedenceIsTableLookup`), written so that the parser's proofs need not
      search the table. */
  function PunctPrecedence(k: PunctKind): (p: int)
    ensures 1 <= p <= CommaPrecedence + 1
  {
    match k
    case Dot => DotPrecedence
    case DoubleColon => 2
    case LeftShift | RightShift => 4
    case Multiply | Divide | Mod => 5
    case Plus | Minus | BitAnd | BitOr | BitXor => 6
    case Equal | LessThan | GreaterThan | LessThanOrEqual | GreaterThanOrEqual | NotEqual => 7
    case Comma => CommaPrecedence
    case _ => CommaPrecedence + 1
  }

  function NamePrecedence(k: NameKind): (p: int)
    ensures 1 < p <= CommaPrecedence + 1
  {
    match k
    case Is | In | Like => 7
    case And => 9
    case Or => 10
    case _ => CommaPrecedence + 1
  }

  /** The table entry for a token type, if any. */
  function Precedence(ty: TokenType): (r: Option<int>)
    ensures r.Some? ==> 1 <= r.value <= CommaPrecedence
  {
    var p := match ty
      case PunctType(k) => PunctPrecedence(k)
      case NameType(k) => NamePrecedence(k);
    if p <= CommaPrecedence then Some(p) else None
  }

  /** The precedence the parser gives a token it meets where an operator may
      follow: the table entry, or one more than the comma's when there is none. */
  function TokenPrecedence(t: Token): (p: int)
    ensures 1 <= p <= CommaPrecedence + 1
  {
    match t
    case PunctuationToken(_, _, k) => PunctPrecedence(k)
    case NameToken(_, _, k) => NamePrecedence(k)
    case _ => CommaPrecedence + 1
  }

  /** What the expression parser relies on in a precedence function: every
      token gets a precedence from 1 to one past the comma's. `TokenPrecedence`
      is one; the parser is stated for any, so that its proofs need not look
      inside the table. */
  type Precedences = f: Token -> int | forall t :: 1 <= f(t) <= CommaPrecedence + 1
    witness TokenPrecedence

  /** Only `.` has the dot's precedence or less, as in the table
      (`OnlyDotHasPrecedenceOne`). */
  ghost predicate OnlyDotIsTightest(prec: Precedences) {
    forall t :: prec(t) <= DotPrecedence ==> t.IsPunct(Dot)
  }

  /** The tokens the parser may take as a binary operator when their
      precedence allows: names and punctuation. */
  predicate IsNameOrPunct(t: Token) {
    t.NameToken? || t.PunctuationToken?
  }

  /** A token the parser may use as a binary operator: its kind has a precedence. */
  predicate IsOperatorToken(t: Token) {
    TypeOf(t).Some? && Precedence(TypeOf(t).value).Some?
  }

  // ---------------------------------------------------------------------------
  // Properties of the tables

  /** The keyword table's keys are exactly the members' values: every member is
      found under its own value, and (by `TextToNameToken`'s contract) a string
      found in the table is the value of the member it maps to. */
  lemma NameTableExact(k: NameKind)
    ensures TextToNameToken(NameValue(k)) == Some(k)
  {
    if k == By || k == As || k == On || k == Is || k == In || k == Or {
      KeywordsOfLengthTwoExact(k);
    } else if k == Asc || k == Not || k == And || k == All || k == Any {
      KeywordsOfLengthThreeExact(k);
    } else if k == From || k == Into || k == Case || k == Desc || k == Full {
      KeywordsOfLengthFourBeforeJExact(k);
    } else if k == Null || k == Last || k == Left || k == Join || k == Like || k == SomeKw {
      KeywordsOfLengthFourFromJExact(k);
    } else if k == Group || k == Nulls || k == First || k == Inner || k == Cross || k == NonKeyword {
      KeywordsOfLengthFiveBeforeOExact(k);
    } else if k == Where || k == Order || k == Using || k == Right || k == Outer || k == Union {
      KeywordsOfLengthFiveFromOExact(k);
    } else if k == Select || k == Insert || k == Values || k == Delete || k == Exists || k == Except {
      KeywordsOfLengthSixExact(k);
    } else if k == Natural || k == Between {
      KeywordsOfLengthSevenExact(k);
    } else if k == Distinct || k == Straight {
      KeywordsOfLengthEightExact(k);
    } else if k == Intersect {
      KeywordsOfLengthNineExact(k);
    }
  }

  lemma KeywordsOfLengthTwoExact(k: NameKind)
    requires k == By || k == As || k == On || k == Is || k == In || k == Or
    ensures TextToNameToken(NameValue(k)) == Some(k)
  {
  }

  lemma KeywordsOfLengthThreeExact(k: NameKind)
    requires k == Asc || k == Not || k == And || k == All || k == Any
    ensures TextToNameToken(NameValue(k)) == Some(k)
  {
  }

  lemma KeywordsOfLengthFourBeforeJExact(k: NameKind)
    requires k == From || k == Into || k == Case || k == Desc || k == Full
    ensures TextToNameToken(NameValue(k)) == Some(k)
  {
  }

  lemma KeywordsOfLengthFourFromJExact(k: NameKind)
    requires k == Null || k == Last || k == Left || k == Join || k == Like || k == SomeKw
    ensures TextToNameToken(NameValue(k)) == Some(k)
  {
  }

  lemma KeywordsOfLengthFiveBeforeOExact(k: NameKind)
    requires k == Group || k == Nulls || k == First || k == Inner || k == Cross || k == NonKeyword
    ensures TextToNameToken(NameValue(k)) == Some(k)
  {
  }

  lemma KeywordsOfLengthFiveFromOExact(k: NameKind)
    requires k == Where || k == Order || k == Using || k == Right || k == Outer || k == Union
    ensures TextToNameToken(NameValue(k)) == Some(k)
  {
  }

  lemma KeywordsOfLengthSixExact(k: NameKind)
    requires k == Select || k == Insert || k == Values || k == Delete || k == Exists || k == Except
    ensures TextToNameToken(NameValue(k)) == Some(k)
  {
  }

  lemma KeywordsOfLengthSevenExact(k: NameKind)
    requires k == Natural || k == Between
    ensures TextToNameToken(NameValue(k)) == Some(k)
  {
  }

  lemma KeywordsOfLengthEightExact(k: NameKind)
    requires k == Distinct || k == Straight
    ensures TextToNameToken(NameValue(k)) == Some(k)
  {
  }

  lemma KeywordsOfLengthNineExact(k: NameKind)
    requires k == Intersect
    ensures TextToNameToken(NameValue(k)) == Some(k)
  {
  }

  /** Every punctuation member is found under its own value. */
  lemma PunctuationTableExact(k: PunctKind)
    ensures TextToPunctuationToken(PunctValue(k)) == Some(k)
  {
    if k == DoubleColon || k == LeftShift || k == RightShift
       || k == LessThanOrEqual || k == GreaterThanOrEqual || k == NotEqual {
      TwoCharPunctuationExact(k);
    } else if k != UnknownOperator {
      SingleCharPunctuationExact(k);
    }
  }

  lemma SingleCharPunctuationExact(k: PunctKind)
    requires k !in {DoubleColon, LeftShift, RightShift, LessThanOrEqual, GreaterThanOrEqual, NotEqual, UnknownOperator}
    ensures TextToPunctuationToken(PunctValue(k)) == Some(k)
  {
  }

  lemma TwoCharPunctuationExact(k: PunctKind)
    requires k in {DoubleColon, LeftShift, RightShift, LessThanOrEqual, GreaterThanOrEqual, NotEqual}
    ensures TextToPunctuationToken(PunctValue(k)) == Some(k)
  {
  }

  /** A string the keyword table does not map is no member's value. */
  lemma NameLookupComplete(s: string)
    ensures TextToNameToken(s).None? ==> forall k: NameKind :: NameValue(k) != s
  {
    forall k: NameKind
      ensures TextToNameToken(s).None? ==> NameValue(k) != s
    {
      NameTableExact(k);
    }
  }

  /** The kind a name gets: the keyword whose value is `s`, or `NonKeyword`
      exactly when no keyword has that value. */
  function NameKindOf(s: string): (k: NameKind)
    ensures k != NonKeyword ==> NameValue(k) == s
    ensures k == NonKeyword <==> forall k': NameKind | k' != NonKeyword :: NameValue(k') != s
  {
    NameLookupComplete(s);
    match TextToNameToken(s)
    case Some(k) =>
      assert k == NonKeyword ==> forall k': NameKind | k' != NonKeyword :: NameValue(k') != s by {
        if k == NonKeyword {
          forall k': NameKind | k' != NonKeyword
            ensures NameValue(k') != s
          {
            NameTableExact(k');
          }
        }
      }
      k
    case None => NonKeyword
  }

  /** A string the punctuation table does not map is the value of no
      punctuation kind other than `UnknownOperator`. */
  lemma PunctuationLookupComplete(s: string)
    ensures TextToPunctuationToken(s).None? ==>
              forall k: PunctKind | k != UnknownOperator :: PunctValue(k) != s
  {
    forall k: PunctKind | k != UnknownOperator
      ensures TextToPunctuationToken(s).None? ==> PunctValue(k) != s
    {
      PunctuationTableExact(k);
    }
  }

  /** The operator kinds: the punctuation kinds whose value is a run of
      operator characters. */
  predicate IsOperatorKind(k: PunctKind) {
    k in {Dot, DoubleColon, LeftShift, RightShift, Multiply, Divide, Mod, Plus,
          BitAnd, BitOr, BitXor, Equal, LessThan, GreaterThan,
          LessThanOrEqual, GreaterThanOrEqual, NotEqual}
  }

  /** Looking up a run of operator characters finds an operator kind or
      nothing. In particular it never finds `UnknownOperator` (whose value
      starts with a space), nor `Minus` or `BitNot` (whose characters are
      outside the operator class), nor a structural symbol. */
  lemma OperatorRunLookup(s: string)
    requires forall i | 0 <= i < |s| :: IsOperatorChar(s[i])
    ensures TextToPunctuationToken(s).Some? ==> IsOperatorKind(TextToPunctuationToken(s).value)
  {
    var r := TextToPunctuationToken(s);
    if r.Some? {
      var v := PunctValue(r.value);
      assert v == s;
      if |s| > 0 {
        assert IsOperatorChar(v[0]);
      }
      if |s| > 1 {
        assert IsOperatorChar(v[1]);
      }
    }
  }

  /** The structural table holds exactly the seven one-character symbols
      `; ( ) [ ] , \n`. */
  lemma NonOperatorsExact(s: string)
    ensures TextToNonOperators(s).Some? <==> |s| == 1 && IsStructural(s[0])
  {
    if |s| == 1 && IsStructural(s[0]) {
      assert s == [s[0]];
    }
  }

  /** A lookup finds a key exactly when some entry from `i` on has it, and
      then returns the value of such an entry. */
  lemma {:induction false} LookupFindsEntry(table: seq<PrecedenceEntry>, ty: TokenType, i: nat)
    ensures Lookup(table, ty, i).Some? <==> exists j | i <= j < |table| :: table[j].0 == ty
    ensures Lookup(table, ty, i).Some? ==>
              exists j | i <= j < |table| :: table[j] == (ty, Lookup(table, ty, i).value)
    decreases |table| - i
  {
    if i < |table| && table[i].0 != ty {
      LookupFindsEntry(table, ty, i + 1);
    }
  }

  /** The comma's entry is the loosest precedence. */
  lemma CommaPrecedenceIsTableEntry()
    ensures OperatorToPrecedence(PunctType(Comma)) == Some(CommaPrecedence)
  {
    LookupFirstEntry(PrecedenceTable, PunctType(Comma), 0, |PrecedenceTable| - 1);
  }

  /** The dot's entry is the tightest precedence. */
  lemma DotPrecedenceIsTableEntry()
    ensures OperatorToPrecedence(PunctType(Dot)) == Some(DotPrecedence)
  {
    LookupFirstEntry(PrecedenceTable, PunctType(Dot), 0, 0);
  }

  /** Every precedence lies between 1 and 100; only `.` has 1 and only the
      comma has 100. */
  lemma TableEntries()
    ensures forall i | 0 <= i < |PrecedenceTable| :: 1 <= PrecedenceTable[i].1 <= CommaPrecedence
    ensures forall i | 0 <= i < |PrecedenceTable| ::
              (PrecedenceTable[i].1 == 1 <==> PrecedenceTable[i].0 == PunctType(Dot))
    ensures forall i | 0 <= i < |PrecedenceTable| ::
              (PrecedenceTable[i].1 == CommaPrecedence <==> PrecedenceTable[i].0 == PunctType(Comma))
  {
  }

  /** Every precedence lies between 1 and the comma's; only `.` has 1 and
      only the comma has the largest. */
  lemma PrecedenceTableShape(ty: TokenType)
    ensures OperatorToPrecedence(ty).Some? ==> 1 <= OperatorToPrecedence(ty).value <= CommaPrecedence
    ensures OperatorToPrecedence(ty).Some? ==>
              (OperatorToPrecedence(ty).value == 1 <==> ty == PunctType(Dot))
    ensures OperatorToPrecedence(ty).Some? ==>
              (OperatorToPrecedence(ty).value == CommaPrecedence <==> ty == PunctType(Comma))
  {
    LookupFindsEntry(PrecedenceTable, ty, 0);
    TableEntries();
  }

  /** Only binary operators are supported: `~` has no entry. */
  lemma BitNotHasNoPrecedence()
    ensures OperatorToPrecedence(PunctType(BitNot)).None?
  {
    LookupFindsEntry(PrecedenceTable, PunctType(BitNot), 0);
  }

  /** Only binary operators are supported: `NOT` has no entry. */
  lemma NotHasNoPrecedence()
    ensures OperatorToPrecedence(NameType(Not)).None?
  {
    LookupFindsEntry(PrecedenceTable, NameType(Not), 0);
  }

  /** A lookup from `i` returns the value of the first entry with the key. */
  lemma {:induction false} LookupFirstEntry(table: seq<PrecedenceEntry>, ty: TokenType, i: nat, j: nat)
    requires i <= j < |table| && table[j].0 == ty
    requires forall k | i <= k < j :: table[k].0 != ty
    ensures Lookup(table, ty, i) == Some(table[j].1)
    decreases j - i
  {
    if i < j {
      LookupFirstEntry(table, ty, i + 1, j);
    }
  }

  /** No key appears twice in the table. */
  lemma TableKeysDistinct()
    ensures forall j, k | 0 <= j < k < |PrecedenceTable| :: PrecedenceTable[j].0 != PrecedenceTable[k].0
  {
  }

  /** The table read as a dictionary: a token type has a precedence exactly
      when it is a key, and then the precedence is the value of its entry. */
  lemma TableLookupIsExact(ty: TokenType)
    ensures OperatorToPrecedence(ty).Some? <==> exists j | 0 <= j < |PrecedenceTable| :: PrecedenceTable[j].0 == ty
    ensures forall j | 0 <= j < |PrecedenceTable| && PrecedenceTable[j].0 == ty ::
              OperatorToPrecedence(ty) == Some(PrecedenceTable[j].1)
  {
    LookupFindsEntry(PrecedenceTable, ty, 0);
    TableKeysDistinct();
    forall j | 0 <= j < |PrecedenceTable| && PrecedenceTable[j].0 == ty
      ensures OperatorToPrecedence(ty) == Some(PrecedenceTable[j].1)
    {
      LookupFirstEntry(PrecedenceTable, ty, 0, j);
    }
  }

  /** The entries from index `lo` to `hi - 1` are what `Precedence` gives
      their keys. */
  predicate EntriesArePrecedences(lo: nat, hi: nat) {
    forall j | lo <= j < hi && j < |PrecedenceTable| :: Precedence(PrecedenceTable[j].0) == Some(PrecedenceTable[j].1)
  }

  lemma TightEntriesArePrecedences()
    ensures EntriesArePrecedences(0, 8)
  {
  }

  lemma MiddleEntriesArePrecedences()
    ensures EntriesArePrecedences(8, 16)
  {
  }

  lemma LooseEntriesArePrecedences()
    ensures EntriesArePrecedences(16, 24)
  {
  }

  /** Every entry of the table is what `Precedence` gives its key. */
  lemma TableEntriesArePrecedences()
    ensures forall j | 0 <= j < |PrecedenceTable| :: Precedence(PrecedenceTable[j].0) == Some(PrecedenceTable[j].1)
  {
    TightEntriesArePrecedences();
    MiddleEntriesArePrecedences();
    LooseEntriesArePrecedences();
  }

  /** The case-by-case mapping and the table lookup agree on every token
      type: both the keys and the values are the same. */
  lemma PrecedenceIsTableLookup(ty: TokenType)
    ensures Precedence(ty) == OperatorToPrecedence(ty)
  {
    TableLookupIsExact(ty);
    TableEntriesArePrecedences();
    if Precedence(ty).Some? {
      var j := TableIndex(ty);
      assert PrecedenceTable[j].0 == ty;
    }
  }

  /** Where a type with a precedence sits in the table. */
  function TableIndex(ty: TokenType): (j: nat)
    requires Precedence(ty).Some?
    ensures j < |PrecedenceTable| && PrecedenceTable[j].0 == ty
  {
    match ty
    case PunctType(k) => (
      match k
      case Dot => 0
      case DoubleColon => 1
      case LeftShift => 2
      case RightShift => 3
      case Multiply => 4
      case Divide => 5
      case Mod => 6
      case Plus => 7
      case Minus => 8
      case BitAnd => 9
      case BitOr => 10
      case BitXor => 11
      case Equal => 12
      case LessThan => 13
      case GreaterThan => 14
      case LessThanOrEqual => 15
      case GreaterThanOrEqual => 16
      case NotEqual => 17
      case Comma => 23)
    case NameType(k) => (
      match k
      case Is => 18
      case In => 19
      case Like => 20
      case And => 21
      case Or => 22)
  }

  /** Only `.` has precedence 1 or less, so an expression whose operators bind
      at most as loosely as 1 is a dot chain. */
  lemma OnlyDotHasPrecedenceOne(t: Token)
    ensures TokenPrecedence(t) <= 1 <==> t.IsPunct(Dot)
  {
  }

  /** The table's precedences give only `.` the dot's precedence. */
  lemma TableOnlyDotIsTightest()
    ensures OnlyDotIsTightest(TokenPrecedence)
  {
    forall t: Token
      ensures TokenPrecedence(t) <= DotPrecedence ==> t.IsPunct(Dot)
    {
      OnlyDotHasPrecedenceOne(t);
    }
  }

  /** A token's precedence is at most the comma's exactly when the table has
      an entry for it. */
  lemma PrecedenceWithinTable(t: Token)
    ensures TokenPrecedence(t) <= CommaPrecedence <==> IsOperatorToken(t)
  {
  }
}
