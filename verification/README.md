# unordered-sql, modelled in Dafny

unordered-sql reads SQL whose clauses may come in any order (`FROM t SELECT a
WHERE b`). It does three things with it:

- formats it back in the usual clause order;
- suggests table, alias and column names at a cursor position;
- tokenizes and parses it the same way for both.

This project models that pipeline as pure Dafny functions and proves properties of each stage:

- **Tokens** (`tokens.dfy`, `chars.dfy`). The token kinds, the keyword and punctuation lookup tables and the operator precedence table of `code/my_token.py`.
- **Scanner** (`scanner.dfy`). `Tokenizer._search_next`: given a position in the text, the next token and the position after it. `Lex` is the whole token stream from a position.
- **TokenQueue** (`tokenqueue.dfy`). The tokenizer object with its `peek_queue`: `consume`, `peek(k)` and `end_idx_of_last_consumed_token`.
- **Ast** (`ast.dfy`). The syntax tree of `code/my_ast.py`.
- **Parser** (`parser.dfy`). `parse_all`, `parse_statement`, the clause parsers and the precedence-climbing expression parser of `code/parser.py`. It runs over the stream `Lex` produces, which the queue is proved to serve.
- **Formatter** (`formatter.dfy`, `strings.dfy`). `format_expression` and `format_statement` of `code/formatter.py`.
- **Autocomplete** (`autocomplete.dfy`). `suggest` and its helpers from `code/autocomplete.py`.
- **Pipeline** (`pipeline.dfy`). How the parts fit together: every statement the parser builds is acceptable to the formatter.

The source signals errors with exceptions. The model returns a value instead:

- the parser never fails (a placeholder expression or an unknown sequence);
- the formatter returns `None` exactly where the source raises;
- the autocompleter returns `None` where the source does.

## Model

| member | source | states |
|---|---|---|
| Chars.LowerString | code/tokenizer.py:89-91 | ASCII `str.lower` keeps the length and lowers every character on its own. |
| Tokens.TextToNameToken | code/my_token.py:174-176 | The keyword table maps a string only to a kind whose lower-cased value is that string. |
| Tokens.NameTableExact | code/my_token.py:174-176 | Every name kind is found under its own value, so the table has one key per member. |
| Tokens.NameKindOf | code/tokenizer.py:89-91 | A name gets `NonKeyword` exactly when no keyword has its lower-cased text as value, and otherwise the keyword with that value. |
| Tokens.TextToPunctuationToken | code/my_token.py:180-182 | The punctuation table maps a string only to a kind whose value is that string. |
| Tokens.PunctuationTableExact | code/my_token.py:180-182 | Every punctuation kind is found under its own value. |
| Tokens.PunctuationLookupComplete | code/my_token.py:180-182 | A string the punctuation table does not map is the value of no kind except `UnknownOperator`. |
| Tokens.NonOperatorsExact | code/my_token.py:187-195 | The structural table maps a string exactly when it is one of the seven one-character structural symbols. |
| Tokens.OperatorRunLookup | code/my_token.py:31 | Looking up a run of operator characters finds an operator kind or nothing. It never finds a structural symbol. |
| Tokens.TableLookupIsExact | code/my_token.py:203-230 | A token type has a precedence exactly when some entry of the table has it as key, and that entry's value is the precedence. |
| Tokens.TableKeysDistinct | code/my_token.py:203-230 | No key appears twice in the precedence table, so reading it as a dictionary loses nothing. |
| Tokens.PrecedenceIsTableLookup | code/my_token.py:203-230 | The case-by-case `Precedence` and the lookup in the table agree on every token type. |
| Tokens.PrecedenceTableShape | code/my_token.py:202-230 | Every precedence lies between 1 and the comma's. Only `.` has 1 and only the comma has `comma_precedence`. |
| Tokens.CommaPrecedenceIsTableEntry | code/my_token.py:232 | `comma_precedence` is the comma's entry of the table. |
| Tokens.DotPrecedenceIsTableEntry | code/my_token.py:204 | The dot's entry is the tightest precedence, 1. |
| Tokens.BitNotHasNoPrecedence | code/my_token.py:199-206 | `~` has no entry, since only binary operators are supported. |
| Tokens.NotHasNoPrecedence | code/my_token.py:226 | `NOT` has no entry. |
| Tokens.TokenPrecedence | code/parser.py:263-265 | The precedence the climber gives any token lies between 1 and `comma_precedence + 1`. The default past the comma's exceeds every ceiling. |
| Tokens.PrecedenceWithinTable | code/parser.py:263-266 | A token's precedence is at most the comma's exactly when its kind has a table entry, so no ceiling admits a token without one. |
| Tokens.OnlyDotHasPrecedenceOne | code/my_token.py:203-230 | A token binds at precedence 1 or tighter exactly when it is `.`. |
| Scanner.RunEnd | code/tokenizer.py:68-73 | The end of the longest run of a character class from a position, which cannot be extended. |
| Scanner.FindChar | code/tokenizer.py:149-168 | The first index holding a character, with none before it; or no such index in the rest of the text. |
| Scanner.FindCommentClose | code/tokenizer.py:169-189 | The end of the first `*/` after a block comment's opening, with none before it; or none in the rest of the text. |
| Scanner.QuoteMatchEnd | code/tokenizer.py:104-145 | The end of the string pattern's match: after the first unescaped closing quote, or else after the last quote. There is no match exactly when no quote follows. |
| Scanner.QuoteMatchIsRegexMatch | code/tokenizer.py:104-145 | What `QuoteMatchEnd` finds is a match of `(\\q\|[^q])*q`: units of the string pattern followed by the closing quote. |
| Scanner.ScanName | code/tokenizer.py:82-91 | A name is a letter followed by the maximal run of letters, digits and underscores. Its kind is the keyword whose value is its lower-cased text, or `NonKeyword` exactly when there is none. |
| Scanner.ScanNumber | code/tokenizer.py:94-100 | A number is a digit followed by the maximal run of digits and dots. |
| Scanner.ScanString | code/tokenizer.py:104-145 | A quoted string has an end sequence exactly when a matching quote follows its opening. Without one, it runs to the end of the text. |
| Scanner.ScanLineComment | code/tokenizer.py:149-168 | A line comment runs up to, not including, the next newline (or the end of the text) and always has its end sequence. |
| Scanner.ScanBlockComment | code/tokenizer.py:169-189 | A block comment runs through the first `*/`, or, without one, to the end of the text with no end sequence. |
| Scanner.ScanPunctuation | code/tokenizer.py:192-220 | A structural symbol is one character. An operator character starts the maximal operator run, looked up as a whole, else `UnknownOperator`. Any other character is a one-character `UnknownOperator`. The result is never `-` or `~`. |
| Scanner.SearchNext | code/tokenizer.py:60-220 | Skips only blanks other than newline. At or past the end of the text it returns the end-of-text token with length 0: at the text's end when the position is within the text, and at the position itself when it lies beyond. Otherwise the token is non-empty, lies in the text and resumes where it ends. |
| Scanner.SearchNextDispatch | code/tokenizer.py:82-220 | The first character after the blanks decides which scanner runs: letter, digit, quote, `--`, `/*`, else punctuation. |
| Scanner.TokenCategories | code/tokenizer.py:82-220 | The token's kind matches the category of its first character, in both directions. |
| Scanner.RescanTokenText | code/tokenizer.py:60-220 | Scanning a token's own text from its first character gives back the same token (kind, length and end sequence) at position 0: the scan that found it read nothing past the token's end. |
| Scanner.EndOfStringIsSticky | code/tokenizer.py:74-78 | After the end-of-text token, scanning returns it again. |
| Scanner.Lex | code/tokenizer.py:29-58 | The stream of tokens repeated scanning produces tiles the text from the position: the tokens follow one another in order and none but the final marker is the end of the text. |
| TokenQueue.NewTokenizer | code/tokenizer.py:22-27 | A new tokenizer has an empty queue and no consumed token (`-1`), and is consistent with the stream from its start position. |
| TokenQueue.Consume | code/tokenizer.py:29-41 | Consuming returns the first token of the stream, takes it off the front of the queue when queued, and moves the start position and `end_idx_of_last_consumed_token` to its end. |
| TokenQueue.Peek | code/tokenizer.py:43-58 | `peek(k)` returns the `k`-th token of the stream without consuming. The queue only grows by tokens of the stream and keeps what it held. |
| TokenQueue.PeekThenConsume | code/tokenizer.py:29-58 | Peeking ahead never changes what the next `consume` returns, and `peek()` then `consume()` return the same token. |
| TokenQueue.ConsumeMany | code/tokenizer.py:29-41 | Consuming `n` tokens in turn yields exactly the first `n` tokens of the stream. |
| TokenQueue.LexIsTheScannerStream | code/tokenizer.py:29-58 | The stream the queue serves for `_search_next` is `Lex`, the stream the parser reads. |
| Ast.BoundedByDotIsDotChain | code/parser.py:201-206 | An expression bounded by the dot's precedence is a chain of operands joined by `.`. |
| Ast.BoundedOperatorsInTable | code/parser.py:263-267 | A well-formed expression built under a ceiling no looser than the comma's uses only operators that have table entries. |
| Parser.InputOf | code/parser.py:20-31 | The parser reads the token stream `Lex` produces from the start position, with the table's precedences. |
| Parser.NextStandard | code/parser.py:55-85 | `get_next_standard_token` stops at a token that is not a comment. A newline is returned only when a second newline follows. The returned token is the one at the new position. |
| Parser.NextStandardSteps | code/parser.py:76-82 | The comments skipped are recorded in the statement, exactly and in order. |
| Parser.NextStandardSkipsOnly | code/parser.py:61-85 | Only comments and single newlines are consumed. |
| Parser.StandardToken | code/parser.py:55-60 | A standard token is never a comment, and is a newline only when a newline follows it. |
| Parser.ParseLeaf | code/parser.py:277-342 | A non-binary expression is a value, a parenthesis or the placeholder, and consumes at least one token unless it is the placeholder. |
| Parser.ParseLeafKinds | code/parser.py:288-341 | The leaf is a value exactly when the next standard token is a non-keyword name, number or string. It is a parenthesis exactly when that token is `(`. The placeholder consumes only what was skipped. |
| Parser.ParseExpression | code/parser.py:243-275 | `parse_expression` never moves backwards, and consumes a token unless it returns the placeholder. |
| Parser.ParseExpressionPlaceholder | code/parser.py:252-254 | A placeholder result is the placeholder leaf: nothing beyond skipped tokens is consumed. |
| Parser.ParseExpressionSteps | code/parser.py:243-275 | An expression records exactly the comments among the tokens it consumed. |
| Parser.ParseExpressionTokens | code/parser.py:243-342 | The expression holds exactly the standard tokens it consumed, in order: no value, parenthesis or operator is dropped, duplicated or moved. |
| Parser.ParseExpressionWellFormed | code/parser.py:256-273 | Every node is well formed, and no operator outside parentheses is looser than the ceiling. |
| Parser.ParseExpressionStops | code/parser.py:256-267 | Without a placeholder, the expression ends at a standard token the ceiling does not admit: every admissible operator was absorbed. |
| Parser.ParseExpressionAssociates | code/parser.py:256-273 | Without a placeholder, equal precedences group to the left. |
| Parser.ParseExpressionShape | code/parser.py:243-275 | Left association and stopping at a token the ceiling rejects, together. |
| Parser.ParseAlias | code/parser.py:164-179 | The alias step ends at a standard token, which it returns. |
| Parser.ParseAliasIsAlias | code/parser.py:164-181 | After an optional `AS`, an alias is taken exactly when the next standard token is a non-keyword name or a double-quoted string. |
| Parser.ParseFields | code/parser.py:159-189 | A clause has at least one field and ends at a standard token that is not a comma. |
| Parser.ParseSelect | code/parser.py:152-191 | A SELECT clause consumes its keyword and has at least one field. |
| Parser.ParseSelectWellFormed | code/parser.py:159-163 | No SELECT field holds a comma outside parentheses. |
| Parser.ParseFrom | code/parser.py:193-233 | A FROM clause consumes its keyword and has at least one field. |
| Parser.ParseFromIsDotChains | code/parser.py:201-206 | Every FROM table is a dot-separated chain of operands. |
| Parser.ParseWhere | code/parser.py:235-241 | A WHERE clause consumes its keyword. |
| Parser.ParseWhereWellFormed | code/parser.py:239-240 | The WHERE condition is well formed and has no comma outside parentheses. |
| Parser.AddUnknown | code/parser.py:138-148 | After a known token, an unplaceable token opens a new unknown sequence. After an unknown one, it extends the last sequence to its own end, and the sequence keeps its start and first token. |
| Parser.PastTerminator | code/parser.py:111-133 | `;` consumes one token and a double newline two. The end of the text consumes none, and is the only terminator that does not move. |
| Parser.StatementLoop | code/parser.py:95-149 | The loop never moves backwards, keeps the statement's start, and stops without moving only at the end of the text. |
| Parser.ParseStatement | code/parser.py:87-150 | A statement starts at the first token's start, and stops without moving only at the end of the text. |
| Parser.ParseStatementComments | code/parser.py:87-150 | A statement's comments are exactly the comment tokens it consumed, in order. |
| Parser.ParseStatementSpan | code/parser.py:111-133 | A statement that does not start at a terminator consumes a token. It ends where the token just before the terminator that stopped it ends (`end_idx_of_last_consumed_token`), which in a tokenized text is no later than that terminator's start. |
| Parser.ParseStatementWellFormed | code/parser.py:87-150 | Every statement built is well formed: bounded SELECT fields and WHERE conditions, dot-chain FROM tables, aliases of the right kind, unknown sequences at standard tokens. |
| Parser.SkipNewlineSemicolons | code/parser.py:41-53 | `consume_newline_semicolons` stops at the first token that is neither a newline nor `;`, having consumed only those. |
| Parser.ParseAllComments | code/parser.py:20-31 | Every comment of the text lands in exactly one statement, in order. |
| Parser.ParseAllInOrder | code/parser.py:20-31 | The statements cover non-empty, disjoint ranges of the text, in order. |
| Parser.ParseAllWithin | code/parser.py:20-31 | Every statement lies between the start of the first token read and the end of the text. |
| Parser.ParseAllWellFormed | code/parser.py:20-31 | Every statement of the text is well formed. |
| Parser.ParseProperties | code/parser.py:20-31 | For a whole text: well-formed statements in text order, each lying between the start position and the end of the text, that share out all of the text's comments. |
| Strings.SliceBound | code/autocomplete.py:49-57 | Python's reading of a slice bound is always within the string. |
| Strings.PySliceInRange | code/formatter.py:106 | Within the string a Python slice is the subsequence. Past the end, or with crossed bounds, it is empty. |
| Strings.PySlicePrefix | code/autocomplete.py:49-57 | Moving a slice's end to the right only extends it. |
| Strings.Join | code/formatter.py:37-53 | `str.join` of no parts is empty, and of one part is that part. |
| Strings.JoinAppend | code/formatter.py:37-53 | Joining one more part appends the separator and that part. With the cases of no part and one part, this fixes `str.join` as the parts in order with the separator between neighbours. |
| Formatter.TablePrecedence | code/formatter.py:115 | `operator_to_precedence[binop.type]` succeeds exactly for operator tokens, and agrees with the parser's precedence. |
| Formatter.TablePrecedenceIsLookup | code/formatter.py:115 | The formatter's lookup is the table's entry for the token's kind. |
| Formatter.AndPrecedenceIsTableEntry | code/formatter.py:92 | The precedence WHERE compares against is AND's table entry. |
| Formatter.FormatExpression | code/formatter.py:101-120 | Formatting an expression succeeds exactly when all its operators have table entries. |
| Formatter.FormatOnlyInsertsSpaces | code/formatter.py:101-120 | For a complete expression, the formatted text with spaces removed equals its tokens' text with spaces removed: formatting only inserts spaces. |
| Formatter.FormatIsLayout | code/formatter.py:101-120 | For a complete expression, the formatted text is each of its tokens laid out in order: an operator of precedence above 2 between single spaces, parentheses as `(` and `)`, every other token as written. |
| Formatter.TightFormatsVerbatim | code/formatter.py:108-116 | An expression of values, parentheses, `.` and `::` is written exactly as its tokens' text. |
| Formatter.CommentLines | code/formatter.py:19-24 | Comment lines are written exactly when every comment is a special token, and they form whole lines. |
| Formatter.UnknownLines | code/formatter.py:25-29 | The unknown-sequence lines form whole lines. With at least one unknown sequence they start with the `-- UNKNOWN SEQUENCE` comment's `-`. |
| Formatter.FieldText | code/formatter.py:37-53 | A field is written exactly when its expression's operators have table entries. |
| Formatter.FieldTexts | code/formatter.py:37-53 | One text per field, in order, each the field's own text. |
| Formatter.ClauseLines | code/formatter.py:35-81 | The clause lines are written exactly when every field can be, and form whole lines. |
| Formatter.KeepFirstSeen | code/formatter.py:60-71 | After a FROM clause, the seen names are the earlier ones plus the clause's plain-name tables. |
| Formatter.KeepFirstFields | code/formatter.py:60-71 | Only fields of the clause are written, and a field is left out only when its table is a plain name. |
| Formatter.KeepFirstKeepsFirstOccurrences | code/formatter.py:60-71 | The written fields of a clause are exactly the first occurrences of their plain-name tables, plus every other field, in order. |
| Formatter.FromClausesWriteFirstOccurrences | code/formatter.py:54-81 | Across all FROM clauses of a statement, a field is written exactly when its table is not a plain name or that name appeared in no earlier field. |
| Formatter.FromLines | code/formatter.py:54-81 | FROM lines are written exactly when every FROM field can be, and form whole lines. |
| Formatter.TrimmedEnd | code/formatter.py:83-86 | The length left after removing the trailing run of whitespace and commas: everything after it is trimmed, and the character before it is not. |
| Formatter.LastKept | code/formatter.py:83-85 | The backwards scan with a negative index raises exactly when everything is trimmed. Otherwise it stops at the last kept character. |
| Formatter.Trim | code/formatter.py:83-86 | The trim fails exactly when only whitespace and commas are left. Otherwise it keeps the text up to its last kept character, then one newline. |
| Formatter.AllTrimmedHasNoEnd | code/formatter.py:83-85 | Nothing is kept exactly when every character is whitespace or a comma. |
| Formatter.LooserThanAnd | code/formatter.py:92 | The operators looser than AND are exactly OR and the comma. |
| Formatter.WhereLines | code/formatter.py:87-98 | WHERE lines are written exactly when every condition's operators have table entries. |
| Formatter.WhereWrapping | code/formatter.py:87-98 | The first condition follows `WHERE `. It is wrapped in parentheses exactly when it is an OR or a comma expression. |
| Formatter.Body | code/formatter.py:19-81 | The text before the trim exists exactly when comments are special tokens and SELECT and FROM fields are formattable. It forms whole lines. |
| Formatter.FormatStatement | code/formatter.py:16-99 | A formatted statement is formattable and has its body and WHERE lines. |
| Formatter.FormatStatementDefined | code/formatter.py:16-99 | Formatting succeeds exactly when the statement is formattable and something besides whitespace and commas precedes the WHERE lines. |
| Formatter.TrimCutsTrailingRun | code/formatter.py:83-86 | The text before the trim ends with a newline, so the `ret[:0]` case never arises: the trim removes only a trailing run. |
| Formatter.FormatsWithClauses | code/formatter.py:16-99 | A formattable statement with an unknown sequence, a SELECT or a FROM is always formatted. |
| Formatter.FormatStatementPieces | code/formatter.py:83-99 | The output is the trimmed body, a newline, and the WHERE lines. |
| Formatter.FormattedLayout | code/formatter.py:16-99 | Comment lines come first and WHERE lines last. With SELECT or FROM, the unknown lines follow the comments and then `SELECT`. |
| Formatter.WhereOnlyFails | code/formatter.py:83-86 | A statement of WHERE clauses alone cannot be formatted: the trim runs off an empty text. |
| Autocomplete.ColumnsOf | code/autocomplete.py:105 | `table_to_column.get(name, [])`: no columns for an unknown table, and a listed table's columns otherwise. |
| Autocomplete.WithPrefixMembers | code/autocomplete.py:100-120 | A name is suggested exactly when it is a candidate and starts with the typed text. |
| Autocomplete.ExtractName | code/autocomplete.py:42-62 | A name comes only from a non-keyword name or a double-quoted string, and, with a cursor, only when the cursor is inside or at either edge of the token. |
| Autocomplete.NameBeforeCursorIsPrefix | code/autocomplete.py:42-62 | The name up to the cursor is a prefix of the whole name. |
| Autocomplete.TableOfField | code/autocomplete.py:64-79 | Only a FROM table that is a plain value is put in play. |
| Autocomplete.TablesOfFieldsMembers | code/autocomplete.py:64-79 | A table is in play exactly when some FROM field names it, with that field's alias. |
| Autocomplete.FromFieldsOfMembers | code/autocomplete.py:31-35 | A field is among the statement's FROM fields exactly when it belongs to one of its FROM clauses. |
| Autocomplete.DotSuggestionsMembers | code/autocomplete.py:100-108 | After `x.`, a column is suggested exactly when it belongs to a table in play named or aliased `x` and starts with the typed text. |
| Autocomplete.PlainSuggestionsMembers | code/autocomplete.py:109-120 | Without a dot, the suggestions are the matching aliases, then the matching columns of tables in play. |
| Autocomplete.SuggestionsStartWithTypedName | code/autocomplete.py:81-134 | A suggestion list comes back exactly when the cursor is in a name of the expression. Every suggestion starts with the name typed so far. |
| Autocomplete.DottedColumn | code/autocomplete.py:124-133 | In `x.y` with the cursor in `y`, a name is suggested exactly when it starts with the typed part of `y` and is a column of a table in play whose name or alias is `x`. |
| Autocomplete.ChainedDotIsPlain | code/autocomplete.py:124-133 | In `x.y.z`, read as `(x.y).z`, with the cursor only in `z`: the operand before the second dot is not a single value, so `z` gets the suggestions of a name on its own, the aliases and columns of every table in play that start with the typed text. |
| Autocomplete.SuggestInFrom | code/autocomplete.py:136-152 | FROM suggestions come back exactly when the table is a value token with a name at the cursor. |
| Autocomplete.SuggestInFromMembers | code/autocomplete.py:136-152 | In FROM, a schema table is suggested exactly when its name starts with the typed text. |
| Autocomplete.SitesMembers | code/autocomplete.py:26-39 | The places searched in a statement are exactly its SELECT field expressions, its FROM tables and its WHERE conditions. |
| Autocomplete.SuggestInStatementIsFirstSite | code/autocomplete.py:26-39 | A statement's suggestions are those of the first field or condition that has any, taking SELECT, then FROM, then WHERE. |
| Autocomplete.Suggest | code/autocomplete.py:19-40 | No statement whose span holds the cursor means no suggestion. |
| Autocomplete.SuggestIsFirstHolding | code/autocomplete.py:19-40 | A suggestion comes from a statement whose span holds the cursor, and every earlier statement does not hold it or gives nothing. |
| Optional.FirstSome | code/autocomplete.py:26-39 | A first-hit loop returns something exactly when some step does. |
| Optional.FirstSomeIsFirst | code/autocomplete.py:26-39 | What the first-hit loop returns is the first step's result that is not `None`. |
| Pipeline.WellFormedIsFormattable | code/formatter.py:101-120 | Every statement the parser builds has only operators with table entries, so the formatter's lookups never raise on it. |
| Pipeline.ParsedStatementsFormat | code/formatter.py:16-99 | Every parsed statement with an unknown sequence, a SELECT or a FROM can be formatted. |

## Left out

- Unicode. `str.isspace`, `str.isalpha`, `str.isalnum` and `str.lower` are modelled on ASCII. A character outside ASCII is neither a letter, a digit nor whitespace.
- The `re` engine. Each pattern of the tokenizer is replaced by an explicit search with a contract stating what the match finds (`QuoteMatchIsRegexMatch` for the string pattern).
- The operator class `[!@#^&*-+=|<>/%.:]` is modelled as written. `*-+` is a range from `*` to `+`, so `-` is not an operator character and scans as a one-character `UnknownOperator`, as in the source.
- Exceptions are modelled as values:
  - the parser's `UnknownTokenException` becomes a placeholder expression or an unknown sequence;
  - the formatter's `KeyError` for an operator without a precedence becomes `None`;
  - its `AttributeError` for a comment that is not a special token becomes `None`;
  - the trim's `IndexError` on a blank text becomes `None`.
- The comment branches of `parse_non_binary_expression` (code/parser.py:326-333) are unreachable, because `get_next_standard_token` has already consumed every comment. The model folds them into the placeholder branch. `Parser.StandardToken` proves that no comment reaches it.
- Mutation. The tokenizer, statements and clauses are immutable records, and each operation returns the updated one. The parser's state is a position in the token stream, the end of the last consumed token and the comments collected. `TokenQueue` models the queue itself, and `LexIsTheScannerStream` proves it serves the stream the parser reads.
- The parser is stated for any precedence function with the properties the climber needs. `InputOf` instantiates it with the table's precedences, which are the ones the source uses.
- The schema dictionary `table_to_column` is a sequence of (table, columns) pairs with distinct table names. Lookup and iteration order are the dictionary's insertion order.
- The set of seen FROM tables is local to one call of `format_statement`, so it starts empty for every statement.
- Only a single `x.y` is looked through, as in the source, which assumes no `schema.table.column` chains. In `x.y.z` the cursor in `y` gets the columns of `x`, but the cursor in `z` gets the suggestions of a name on its own, since the operand before the second dot is `x.y` and not a single value.
- Printing, `__main__` blocks and `initial_parser.py` are not part of this model.
- Recursion depth. Python's recursion limit on deeply nested expressions is not modelled.
