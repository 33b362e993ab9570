# TeenyTiny to C, modelled in Dafny

MyFirstCompiler translates TeenyTiny programs into C in one pass. The model has three parts:

- **Lexer** (`src/lex.py`). It walks a source with a newline appended. It skips blanks and `#` comments. It returns one token per call: an operator, a string, a number, a keyword or identifier, a newline, or EOF. It fails on an unknown character, a bad `!`, an illegal string character and a number ending in a bare `.`.
- **Recursive-descent parser** (`src/parser.py`). It holds a two-token window over the lexer and keeps three symbol tables: variables, declared labels and GOTO targets. It emits C through the emitter as it parses. After the last statement it checks that every GOTO target is a declared label.
- **Emitter** (`src/emit.py`). It builds two strings, a header and a body, which are written out one after the other.

Each part becomes its own Dafny module:

- `Tokens` (`tokens.dfy`): token kinds, their enum values and names, keyword lookup, and the shape of a well-formed token.
- `Lexing` (`lexer.dfy`): the pure scanner `Scan(source, position)`, the predicate `LexesTo` for a run of tokens, and the class `Lexer`. Its methods change `curPos`/`curChar` as `lex.py` does, and each is proved against the pure scanner.
- `LexerProperties` (`lexer_lemmas.dfy`): what the scanner does for each first character, stated as characterisations in both directions.
- `Emitting` (`emitter.dfy`): the class `Emitter`, with `header` and `code` fields that its methods append to.
- `Syntax` (`syntax.dfy`), the abstract view of a parsed program:
  - derivation trees for expressions and comparisons;
  - the statement datatype `Stmt`, with the C text each statement translates to;
  - the names each statement assigns, declares as labels and jumps to;
  - the tokens each statement is spelled with;
  - when a statement is accepted, given the variables assigned before it.
- `ParserSpec` (`parser_spec.dfy`): a `Snapshot` of the parser's observable state, and `Steps(a, b, ss, ts)`.
  - `Steps` says that the statements `ss`, spelled by the tokens `ts`, took the parser from `a` to `b`. The spelling `Spelled` marks each place where the grammar demands one or more newlines: after every statement, and after THEN and REPEAT. `Collapse` counts each run of NEWLINE tokens in `ts` as one such mark, so the newline rule of `nl ::= NEWLINE+` is part of `Steps`.
  - Lemmas put one statement's emitted text and table updates into that form, and compose them.
- `Parsing` (`parser.dfy`): the class `Parser`, with one method per grammar rule. A Python `abort` (`sys.exit`) becomes a sticky `aborted` error field, which every method checks before it goes on.
- `Compiling` (`driver.dfy`): a whole compilation. `Compile(input)` builds the lexer, the emitter and the parser, and runs `Program`. On success it returns the emitter's header followed by its body.

The main end-to-end result is `Compiling.Compile`. Compilation succeeds only if the program is **sound**:

- every statement uses only variables assigned before it;
- no label is declared twice;
- every GOTO target is declared somewhere, before or after the GOTO.

The output then equals `Translation(prog)`: the preamble, one `float` declaration per variable in first-assignment order, each statement's C text, and the epilogue. Whenever the statements parse, whether the compilation then succeeds or not, the tokens the lexer produced from the input spell `prog` after any leading newlines: one or more newlines end every statement and follow every THEN and REPEAT. Such a parse fails exactly when some GOTO target of `prog` is undeclared, and the error names that label.

The model follows the code where the emitted C looks unintended, because that is what the program does:

- IF writes `if(` comparison `)}` (WHILE writes `){`).
- LABEL writes `name:` followed by `goto name;`.
- GOTO writes nothing.
- The epilogue's first line is `return 0` with no semicolon.

## Model

The lexer's pure scanner (`Lexing.Scan`, which dispatches through `ScanAt` to `ScanString`, `ScanNumber`, `ScanWord` and `ScanEquals`) carries no contract of its own: the `LexerProperties` lemmas below state, per first character, what it returns, and the `Lexer` methods are proved equal to it. Likewise `Syntax.Translate`, `Syntax.InputCode` and `Compiling.Translation` define the C text, and the step lemmas, `CompiledOutput` and `Compile` state that the emitter writes exactly that text. `ParserSpec.Partial` is a `Steps` of one statement without the newlines that end it.

| member | source | states |
|---|---|---|
| Tokens.FindKeyword | src/lex.py:187-193 | a kind it returns is in the list, is a keyword kind and carries the text as its name; when it returns nothing, no keyword kind of the list has that name |
| Tokens.CheckIfKeyword | src/lex.py:186-193 | a kind it returns is a keyword kind (value strictly between 100 and 200) whose name is the text |
| Tokens.CheckIfKeywordExact | src/lex.py:186-193 | the lookup returns `k` exactly when `k` is a keyword kind whose name is the text |
| Tokens.CheckIfKeywordNone | src/lex.py:186-193 | the lookup finds nothing exactly when no keyword kind has the text as its name |
| Tokens.KeywordNamesDistinct | src/lex.py:196-227 | two keyword kinds with the same name are the same kind, so the first match in enum order is the only one |
| Tokens.KeywordIffKeywordName | src/lex.py:186-193 | a text is a keyword exactly when it is one of the eleven keyword names |
| Tokens.OutsideBandIsNotKeyword | src/lex.py:190 | the name of a non-keyword kind (an operator, NUMBER, IDENT, ...) is never taken for a keyword |
| Tokens.LowerCaseIsNotKeyword | src/lex.py:190 | a word starting with a lower-case letter is never a keyword, because names are compared exactly |
| Tokens.WordKindOf | src/lex.py:163-168 | a word is IDENT exactly when the lookup fails; otherwise it is the keyword kind named by the word |
| Tokens.KeywordTokenOfKind | src/lex.py:168 | a well-formed token of keyword kind is spelled with the keyword's own name |
| Lexing.CharAt | src/lex.py:16-19 | past the end of the source the current character is `'\0'`, otherwise it is the source character |
| Lexing.SkipBlanks | src/lex.py:32-34 | it stops at the first non-blank character and passes only spaces, tabs and carriage returns |
| Lexing.SkipComment | src/lex.py:37-40 | on `#` it stops at the next newline, which it keeps, and passes no newline; otherwise it stays put |
| Lexing.Until | src/lex.py:120-124 | it returns the first position at or after `i` where `stop` holds, or the end of the source |
| Lexing.UntilUnique | src/lex.py:120-124 | any position before which nothing stops, and at which something stops or the text ends, is the one `Until` returns |
| Lexing.LexesToSnoc | src/parser.py:37-39 | lexing one more token from where a run ended extends the run by that token |
| Lexing.Lexer.constructor | src/lex.py:5-9 | the source is the input with a newline appended, and lexing starts at position 0 |
| Lexing.Lexer.NextChar | src/lex.py:13-19 | the position advances by one, and the current character is the one there or `'\0'` past the end |
| Lexing.Lexer.Peek | src/lex.py:22-25 | it returns the character after the current one, or `'\0'` past the end |
| Lexing.Lexer.SkipWhiteSpaces | src/lex.py:32-34 | the loop ends where `SkipBlanks` says |
| Lexing.Lexer.SkipComments | src/lex.py:37-40 | the loop ends where `SkipComment` says |
| Lexing.Lexer.GetToken | src/lex.py:43-177 | it returns the token `Scan` finds and moves to just past it, or fails with `Scan`'s error |
| Lexing.Lexer.LexString | src/lex.py:115-129 | it returns the string token and end position that `ScanString` gives, or its error |
| Lexing.Lexer.SkipDigits | src/lex.py:137-138 | the loop stops on the last digit of the run |
| Lexing.Lexer.LexNumber | src/lex.py:132-150 | it returns the number token and end position that `ScanNumber` gives, or its error |
| Lexing.Lexer.LexWord | src/lex.py:153-168 | it returns the word token `ScanWord` gives, and stops on its last character |
| LexerProperties.BlankIsSkipped | src/lex.py:47 | a blank before a token does not change which token is lexed |
| LexerProperties.CommentYieldsItsNewline | src/lex.py:37-40 | a comment lexes as the newline that ends it, one position past it |
| LexerProperties.ComparisonOperators | src/lex.py:76-112 | `Scan` through `ScanEquals`: `=`, `>`, `<` and `!` each give their one- or two-character token, decided by the next character; `!` without `=` fails |
| LexerProperties.StringLiteral | src/lex.py:115-129 | `Scan` through `ScanString`: a string lexes exactly when a closing quote follows with no illegal character before it; the token is the text between the quotes |
| LexerProperties.NumberFailure | src/lex.py:140-144 | `Scan` through `ScanNumber`: a number fails exactly when its digits are followed by `.` and a non-digit; the error is the illegal-number one |
| LexerProperties.NumberLiteral | src/lex.py:132-150 | `Scan` through `ScanNumber`: a number token is the source slice from its first digit: digits, optionally `.` and digits, followed by a non-digit |
| LexerProperties.WordLiteral | src/lex.py:153-168 | `Scan` through `ScanWord`: a word is the longest alphanumeric slice from a letter; it is IDENT exactly when it is not a keyword name |
| LexerProperties.UnknownCharacter | src/lex.py:171-173 | `Scan` through `ScanAt`: any other character fails with the unknown-token error naming that character |
| LexerProperties.ScanProgress | src/lex.py:175-177 | every token ends strictly after where lexing began; only EOF reaches past the end of the source |
| LexerProperties.ScanWellFormed | src/lex.py:43-177 | `Scan` and `ScanAt`: every token lexed is well-formed: its text is the operator's spelling, a string body, a number, a word, a newline or `'\0'` |
| LexerProperties.EofPastEnd | src/lex.py:71-73 | at or past the end of the source, lexing gives EOF with text `'\0'` |
| LexerProperties.EofForever | src/lex.py:71-73 | after the end, any number of calls keeps giving EOF |
| LexerProperties.LexesToWellFormed | src/lex.py:43-177 | every token in a run of lexer calls is well-formed |
| Emitting.Emitter.constructor | src/emit.py:4-7 | the header and the body start empty |
| Emitting.Emitter.Emit | src/emit.py:10-11 | the text is appended to the body, and the header is unchanged |
| Emitting.Emitter.EmitLine | src/emit.py:14-15 | the text and a newline are appended to the body, and the header is unchanged |
| Emitting.Emitter.HeaderLine | src/emit.py:18-19 | the text and a newline are appended to the header, and the body is unchanged |
| Emitting.Emitter.Output | src/emit.py:22-24 | the written text is the header, then the body, whole and in that order |
| Syntax.TargetsAreIdentifiers | src/parser.py:154-172 | every variable an accepted program assigns is an identifier |
| Syntax.NewNamesAdd | src/parser.py:154-156 | declaring names on first use keeps the declared list free of repeats, and covers exactly the names used |
| Syntax.NewNamesAppend | src/parser.py:154-156 | the names first used by two program pieces are those of the first, then the new ones of the second |
| Syntax.DeclarationLines | src/parser.py:155 | the header holds one declaration line per declared name |
| Syntax.AcceptedAllAppend | src/parser.py:58-59 | two program pieces are accepted together exactly when the second is accepted with the variables the first assigned |
| Syntax.ComparisonHasOperator | src/parser.py:190-198 | every comparison contains a comparison operator |
| Syntax.ComparisonSpelling | src/parser.py:190-204 | a comparison holds no NEWLINE token |
| Syntax.SpelledAllLast | src/parser.py:185 | the spelling of a non-empty run of statements ends in the newline mark of its last statement |
| Syntax.SpelledLast | src/parser.py:71-183 | an accepted statement's own tokens end in something other than a newline, so the newlines after it are the ones `nl` reads |
| Syntax.TranslateAllAppend | src/parser.py:58-59 | the C text of two runs of statements is the text of the first followed by that of the second: statements are translated in reading order |
| ParserSpec.StepsCompose | src/parser.py:58-59 | statements parsed one after another compose: tables, header, body and tokens are those of the concatenation |
| ParserSpec.LineStep | src/parser.py:185 | a statement followed by one or more newlines is a `Steps` of that one statement; the newlines change nothing but the tokens consumed |
| ParserSpec.RunEndsInNewline | src/parser.py:251-253 | the tokens of a legal non-empty run end in a NEWLINE: no statement is legal without the newline that ends it |
| ParserSpec.NewlinesThenSteps | src/parser.py:54-56 | leading newlines of the program change nothing but the tokens consumed |
| ParserSpec.LeadingNewlines | src/parser.py:54-58 | a program's tokens, leading newlines included, collapse to its spelling, preceded by one newline mark when there are leading newlines |
| ParserSpec.ComposeVariables | src/parser.py:153-156 | the variables and the header declarations of two pieces compose into those of the concatenation |
| ParserSpec.ComposeLabels | src/parser.py:132-146 | the declared and goto'ed labels of two pieces compose into those of the concatenation, with no label declared twice |
| ParserSpec.BlockStep | src/parser.py:93-125 | an IF or WHILE with an accepted condition and a parsed body is one statement up to the newlines after it, spelled keyword, condition, separator, newline mark, body, closing keyword |
| ParserSpec.BlockSpelling | src/parser.py:99-107 | a block's head (which ends in newlines), its body's tokens and its closing keyword collapse to the block's spelling |
| ParserSpec.InputCodeAppended | src/parser.py:174-178 | the five pieces INPUT emits make up `Syntax.InputCode` of the variable |
| ParserSpec.PrintStringStep | src/parser.py:79-83 | PRINT of a string is a `Partial` step that writes `printf("text\n");` |
| ParserSpec.PrintExpressionStep | src/parser.py:85-90 | PRINT of an expression over assigned variables is a `Partial` step that writes the `printf` of the expression as a float |
| ParserSpec.LabelStep | src/parser.py:128-139 | LABEL of a new name is a `Partial` step that declares it and writes the label and the jump to it |
| ParserSpec.GotoStep | src/parser.py:142-147 | GOTO is a `Partial` step that records its target and writes nothing |
| ParserSpec.LetStep | src/parser.py:150-163 | LET is a `Partial` step: the variable is declared on first use (so the expression may use it) and `name = expression;` is written |
| ParserSpec.InputStep | src/parser.py:166-179 | INPUT is a `Partial` step that declares the variable on first use and writes `Syntax.InputCode` of it, the `scanf` fallback block |
| Parsing.FindUndeclared | src/parser.py:66-68 | it finds a missing label exactly when some GOTO target is not declared, and what it returns is such a target |
| Parsing.FillWindow | src/parser.py:15-18 | the first two lexer calls fill the window with the first two tokens of the source |
| Parsing.EmitLabel | src/parser.py:137-138 | the body gains the label line and the jump to it |
| Parsing.EmitInput | src/parser.py:174-178 | the body gains `Syntax.InputCode` of the variable |
| Parsing.EmitPreamble | src/parser.py:51-52 | the header gains the `#include` and `int main(void){` lines |
| Parsing.EmitEpilogue | src/parser.py:62-63 | the body gains the `return 0` and `}` lines |
| Parsing.Parser.constructor | src/parser.py:7-18 | the tables start empty, and the window holds the first two tokens lexed, or the lexer's failure is recorded |
| Parsing.Parser.NextToken | src/parser.py:37-39 | the window shifts by one: the peeked token becomes current and the current one is consumed |
| Parsing.Parser.Match | src/parser.py:30-34 | a token of another kind aborts with Expected(kind, got); a match consumes the token and shifts the window, so the peeked token becomes current |
| Parsing.Parser.SkipNewlines | src/parser.py:55-56 | only newlines are consumed, and the loop stops on a token that is not a newline |
| Parsing.Parser.Nl | src/parser.py:251-257 | without a newline it aborts with Expected(NEWLINE, got); otherwise it consumes one or more newlines and stops on a token that is not a newline |
| Parsing.Parser.Primary | src/parser.py:237-248 | an unassigned identifier aborts with UndeclaredVariable, and a token that is neither number nor identifier with UnexpectedToken; a number or an assigned identifier never aborts except by a lexer failure, and is read and echoed; an UndeclaredVariable error names a variable not assigned |
| Parsing.Parser.Operator | src/parser.py:212-214 | the current token is echoed and consumed; only the lexer can fail |
| Parsing.Parser.Unary | src/parser.py:228-234 | it reads an optionally signed primary over assigned variables, echoing exactly its tokens; an UndeclaredVariable error names a variable not assigned |
| Parsing.Parser.Term | src/parser.py:218-225 | it reads unaries joined by `*` or `/`, echoing exactly the tokens read; an UndeclaredVariable error names a variable not assigned |
| Parsing.Parser.Expression | src/parser.py:207-215 | it reads terms joined by `+` or `-`, echoing exactly the tokens read; an UndeclaredVariable error names a variable not assigned |
| Parsing.Parser.ComparisonRest | src/parser.py:201-204 | a comparison operator and the expression after it are read and echoed; an UndeclaredVariable error names a variable not assigned |
| Parsing.Parser.Comparison | src/parser.py:190-204 | it reads expressions joined by at least one comparison operator, echoing exactly the tokens read; an UndeclaredVariable error names a variable not assigned |
| Parsing.Parser.Keyword | src/parser.py:75-76 | the keyword token is consumed and nothing else changes; only the lexer can fail |
| Parsing.Parser.PrintStatement | src/parser.py:75-90 | PRINT is a `Partial` step (legal and applied, up to its newlines) from the state before to the state after; an UndeclaredVariable error names a variable not assigned |
| Parsing.Parser.CondHead | src/parser.py:93-96 | a block's keyword and an accepted comparison are read; the opening C word and the comparison's text are appended to the body |
| Parsing.Parser.BlockOpen | src/parser.py:99-101 | without the separating keyword it aborts with Expected(keyword, got); otherwise the keyword and one or more newlines are consumed and the line opening the C block is written |
| Parsing.Parser.BlockHead | src/parser.py:93-101 | a block's head collapses to keyword, comparison, separator and one newline mark, and appends `Opening` to the body |
| Parsing.Parser.BlockClose | src/parser.py:107-108 | the closing keyword is consumed and the closing brace written |
| Parsing.Parser.IfStatement | src/parser.py:93-108 | IF with its body is a `Partial` step from the state before to the state after |
| Parsing.Parser.WhileStatement | src/parser.py:111-125 | WHILE with its body is a `Partial` step from the state before to the state after |
| Parsing.Parser.LabelStatement | src/parser.py:128-139 | a label already declared aborts with DuplicateLabel; otherwise LABEL is a `Partial` step |
| Parsing.Parser.GotoStatement | src/parser.py:142-147 | GOTO is a `Partial` step from the state before to the state after |
| Parsing.Parser.Declare | src/parser.py:153-156 | the variable joins the symbols; when it was not among them it is appended to the declared list and gets one `float` line in the header |
| Parsing.Parser.LetTarget | src/parser.py:153-160 | the variable is declared before `=` is read, `name = ` is written, and only an Expected error or a lexer failure can abort |
| Parsing.Parser.LetStatement | src/parser.py:150-163 | LET is a `Partial` step from the state before to the state after; the target counts as assigned in its own expression, so `LET x = x + 1` never blames `x` |
| Parsing.Parser.InputStatement | src/parser.py:166-179 | INPUT is a `Partial` step from the state before to the state after |
| Parsing.Parser.BareStatement | src/parser.py:71-183 | a token that starts no statement aborts with InvalidStatement; otherwise the statement it starts is a `Partial` step |
| Parsing.Parser.Statement | src/parser.py:71-185 | a token that starts no statement aborts with InvalidStatement; otherwise one statement and the one or more newlines after it are a `Steps`, whose tokens end in a NEWLINE, stopping on a token that is not a newline |
| Parsing.Parser.Statements | src/parser.py:104-105 | statements are parsed up to the closing keyword, and together are a `Steps` |
| Parsing.Parser.ProgramBody | src/parser.py:49-63 | after the preamble and leading newlines, the statements up to EOF are legal, and the state is `Compiled`: their effects, followed by the epilogue |
| Parsing.Parser.Program | src/parser.py:49-68 | when the statements parse, the tokens consumed and the window are what the lexer produced from the start, also after the final abort; it aborts exactly when some GOTO target is undeclared, and the error names such a target |
| Compiling.HeaderDeclaresEachOnce | src/parser.py:153-172 | the header holds one declaration per distinct assigned variable |
| Compiling.CompiledOutput | src/emit.py:22-24 | from a fresh parser, header plus body is `Translation(prog)`; the label tables are the program's labels and GOTO targets |
| Compiling.Compile | src/parser.py:49-68 | when the statements parse, `prog` is the program whose spelling the tokens lexed from the input collapse to before EOF, after at most one leading newline mark, and compilation fails exactly when a GOTO target of `prog` is undeclared, with an error naming one; a successful output is `Translation(prog)` of that sound program |

## Left out

- The code generation is modelled as written, although the emitted C cannot run as intended. IF closes its condition with `)}`, LABEL writes a jump to itself, GOTO writes no jump, and `return 0` has no semicolon. These are the program's behaviour as written, so none is corrected.
- GOTO's debug line `print("STATEMENT-GOTO")` is console output and is not modelled.
- `checkToken`, `checkPeek` and `isComparisonOperator` are inlined as comparisons of `curToken.kind`. `checkPeek` is never called.
- `Parsing.Parser.Statement` splits Python's single `statement()` into one method per statement kind. IF and WHILE share `BlockHead` and `BlockClose`, which take the block keywords and the emitted words as parameters. The order of reads, checks and emissions is unchanged.
- Parsing.Parser.Match: it requires `kind != EOF`, because the parser never matches EOF. `NextToken` is never called while `curToken` is EOF, and requires a current token that is not EOF. The lexer is still called once more after EOF is first peeked. At the end of the source that call returns EOF again; after a NUL inside the source, which also lexes as EOF, it lexes what follows, which may fail. In Python, `statement()` aborts on EOF before any such call.
- `abort` and `sys.exit` end the process with a message. The model records the reason in the `aborted` field instead; messages are modelled as error values with their data, not as strings.
- Parsing.Parser.Statement: after an abort, the contract says only how the failure arose where it is stated. Some abort paths are not named: an Expected error from `Match`, a lexer failure. Those say only that `aborted` is set.
- Parsing.Parser.LabelStatement: its duplicate-label rule allows for a lexer failure when the keyword is shifted, which comes before the check, as in the source.
- Parsing.Parser.Program: the UndeclaredLabel abort comes after the epilogue is emitted. The emitter text is then not written anywhere, as in the source.
- Parsing.FindUndeclared: the label it reports is any undeclared one. Python reports the first in set iteration order, which is not specified.
- Lexing: character classes are ASCII. Python's `isdigit`, `isalpha` and `isalnum` also accept other Unicode digits and letters.
- Compiling.Compile: `__main__.py` (argument handling, reading the source file, `writeFile`'s `open`/`write`) is I/O and is not part of this model. `Compile` takes the source text and returns the text `writeFile` would write.
- Compiling.Compile: only one direction is proved — if compilation succeeds, the program is sound. That every sound program spelled by the lexed tokens compiles is not proved. Neither is the uniqueness of the parse. A compilation that stops before the statements parse (a lexer failure, an unexpected token, an undeclared variable, a duplicate label) is promised only to fail; the parser methods state each such abort where it arises, but `Compile` does not relate it to the input. The parser is specified by what it returns: a derivation and a `Steps` relation along the tokens it read. Completeness would need a second, grammar-level description of the token stream and a proof that the parser's choices (such as "PRINT then STRING") follow it step by step. That is a separate specification of the whole grammar, and it is not part of this model. Within an expression, the converse is proved locally: `Primary` never fails on a number or an assigned variable except by a lexer failure, and no UndeclaredVariable error names an assigned variable.
- Lexer string tokens: no escape handling. The source accepts none, and the model rejects the same characters the source rejects.
