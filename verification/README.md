# Curriculum DSL front end, modelled in Dafny

The system is a small editor for a curriculum language ("Carrera / Semestre /
Curso"): a back end that lexes the text and parses it, and a browser front
end that extracts a curriculum view from the same text, colours the editor's
text and keeps the application state in a reducer. Everything modelled here
is sequential and pure. Each piece of the core is a Dafny module of pure
functions that threads an explicit cursor, stack or accumulator.

- **Tokens** (`tokens.dfy`): the 26 token kinds, tokens and lexer errors.
- **Lexer** (`lexer.dfy`, `lexer_steps.dfy`, `lexer_brackets.dfy`): the
  one-pass scanner with line and column tracking and a bracket stack.
  - `LexerSteps` states what each character class does and where tokens sit.
  - `LexerBrackets` proves the bracket-stack invariants and the single
    end-of-pass report.
  - No EOF token is ever emitted.
  - Only the innermost unclosed opener is reported.
  - A string's column is the column after its closing quote minus the length
    of its content, so a newline inside a string leaves the column one too
    far.
  - An empty string `""` keeps its quotes as its lexeme.
- **Parser** (`parser.dfy`): the recursive-descent parser that builds the
  `Pensum` maps.
  - The parser's double advance is reproduced: after `[`, `]`, `}`, `)` and
    after an unknown identifier inside a course, one more token is skipped.
  - `ParserExamples` proves that `Carrera: "X" [ Semestre: 1 {...} ]` loses
    its semester and yields empty maps, while a flat `Semestre` block parses
    its course.
- **Generator** (`generator.dfy`): the second reader, over `KEY = value`
  syntax.
  - It is defined only on EOF-terminated token lists.
  - The lexer never produces such a list, and this is proved.
- **Grouping** (`grouping.dfy`): the generator's grouping of courses by
  semester, each group sorted by code.
- **Sorting** (`sorting.dfy`): the stable sort that `Array.prototype.sort`
  is.
- **PensumView** (`pensum_view.dfy`): the line-based curriculum extractor of
  the view.
  - It is a state machine over trimmed lines.
  - Its line matchers are in `LinePatterns` (`line_patterns.dfy`).
- **Prerequisites** (`prereqs.dfy`): the transitive prerequisite lookup and
  the highlight predicate.
- **PensumDownload** (`pensum_download.dfy`): the semester sort and the CSV
  text.
- **SyntaxHighlighter** (`highlighter.dfy`): the colour table, the class
  table and the sort, filter and assembly of `highlightText`.
- **AppState** (`app_state.dfy`): the reducer and its reachable-state
  invariant.
- **JsText** (`js_text.dfy`): the JavaScript string builtins the code relies
  on:
  - `trim` with ECMAScript's white-space set;
  - case mapping;
  - `split` and `join`;
  - `parseInt`, with its NaN result as a `JsNum` value;
  - number-to-text conversion.

Regular expressions are not interpreted. In the view, each `line.match(...)`
is a small deterministic matcher for its one pattern. In the highlighter,
the regex matches are an input list of `(start, end, colour)` triples.

## Model

| member | source | states |
|---|---|---|
| Tokens.TypesClosed | backend/src/lexer/types.ts:1-37 | every token kind is one of the 26 listed kinds |
| Tokens.NameRoundTrip | backend/src/lexer/types.ts:3-36 | each kind's string value reads back to that kind, so the string values name the kinds |
| Tokens.NameInjective | backend/src/lexer/types.ts:3-36 | two kinds with the same string value are the same kind |
| Tokens.FromName | backend/src/lexer/types.ts:3-36 | a string that names a kind names exactly the kind returned |
| Lexer.Classify | backend/src/lexer/Lexer.ts:164-182 | the reserved-word switch yields a kind the lexer may emit, never punctuation, CADENA or NUMERO |
| Lexer.AddToken | backend/src/lexer/Lexer.ts:230-238 | exactly one token is appended, of the given kind on the current line; nothing else in the state changes |
| Lexer.HandleClosing | backend/src/lexer/Lexer.ts:103-126 | a closer never moves the cursor or adds a token; it adds at most one error, and never an unclosed-opener one |
| Lexer.StringLoop | backend/src/lexer/Lexer.ts:129-135 | the loop stops at the first later matching quote or at the end, and consumes no matching quote on the way |
| Lexer.ScanString | backend/src/lexer/Lexer.ts:128-148 | a string scan adds either one CADENA token or one unterminated-string error, and leaves the stack alone |
| Lexer.SkipWhile | backend/src/lexer/Lexer.ts:151-153 | the digit and identifier loops consume a maximal run of accepted characters and only move the cursor and column |
| Lexer.ScanNumber | backend/src/lexer/Lexer.ts:150-156 | a number adds exactly one NUMERO token and no error |
| Lexer.ScanIdentifier | backend/src/lexer/Lexer.ts:158-185 | an identifier adds exactly one non-punctuation token that the lexer may emit, and no error |
| Lexer.Open | backend/src/lexer/Lexer.ts:46-49 | an opener adds one emittable token and at most one error |
| Lexer.Close | backend/src/lexer/Lexer.ts:50-53 | a closer adds one emittable token and at most one error |
| Lexer.Step | backend/src/lexer/Lexer.ts:41-101 | each step consumes at least one character, appends at most one emittable token and at most one error, and never reports an unclosed opener |
| Lexer.Run | backend/src/lexer/Lexer.ts:25-28 | the main loop reaches the end of the source and only extends the token and error lists |
| LexerSteps.SymbolKindsArePunctuation | backend/src/lexer/Lexer.ts:46-73 | exactly the ten symbol characters have a kind, and it is a punctuation kind |
| LexerSteps.StepWhitespace | backend/src/lexer/Lexer.ts:76-83 | space, `\r` and `\t` only advance; a newline produces nothing, bumps the line and resets the column to 1 |
| LexerSteps.StepSeparator | backend/src/lexer/Lexer.ts:70-73 | a separator adds one token whose lexeme is the character, at the character's own column |
| LexerSteps.StepOpen | backend/src/lexer/Lexer.ts:46-49 | an opener adds its token at its own column and pushes itself with that line and column |
| LexerSteps.StepClose | backend/src/lexer/Lexer.ts:103-117 | a closer always adds its token; with an empty stack it adds an unexpected-closer error, on a mismatch it adds a mismatch error and keeps the stack, on a match it pops |
| LexerSteps.StepIdentifier | backend/src/lexer/Lexer.ts:158-185 | a letter or `_` starts the maximal run of letters, digits and `_`; its token is classified by the upper-cased text and sits at the run's first column |
| LexerSteps.StepNumber | backend/src/lexer/Lexer.ts:150-156 | a digit starts the maximal digit run; its NUMERO token holds only digits and sits at the run's first column |
| LexerSteps.ScanUnterminated | backend/src/lexer/Lexer.ts:137-140 | with no later matching quote, a string gives exactly one error and no token, and the pass ends |
| LexerSteps.StringLoopStops | backend/src/lexer/Lexer.ts:129-135 | the string loop stops at the first later occurrence of the same quote |
| LexerSteps.ScanTerminated | backend/src/lexer/Lexer.ts:143-147 | a closed string adds one CADENA token holding the text strictly between the quotes, or the quotes themselves when that text is empty |
| LexerSteps.ScanStringOutcome | backend/src/lexer/Lexer.ts:128-148 | every string scan has one of the two outcomes above |
| LexerSteps.StepString | backend/src/lexer/Lexer.ts:86-89 | a quote starts a string that ends only at the same quote character |
| LexerSteps.StepUnexpected | backend/src/lexer/Lexer.ts:91-98 | any other character adds one unexpected-character error and no token |
| LexerSteps.StepPosInv | backend/src/lexer/Lexer.ts:187-191 | each step keeps the scanner's line equal to the true line and, in a quote-free source, its column equal to the true column; the tokens so far keep increasing start offsets, all before the cursor |
| LexerSteps.TokenPositions | backend/src/lexer/Lexer.ts:230-238 | the tokens start at strictly increasing offsets: a string token at its opening quote, with its lexeme the text up to the same quote or the two quotes themselves; any other token at an occurrence of its lexeme, on the true line of that offset and, when the source has no quotes, at its true column |
| LexerSteps.ClassifyTable | backend/src/lexer/Lexer.ts:164-182 | a reserved kind comes only from its own name, BOOLEANO only from TRUE or FALSE, and all other text is IDENTIFICADOR |
| LexerSteps.ReservedWordsRecognised | backend/src/lexer/Lexer.ts:167-177 | each reserved word is recognised in any letter case |
| LexerSteps.NotReservedExamples | backend/src/lexer/Lexer.ts:164-182 | `Prerrequisitos` and `Area` stay identifiers; `true` is a boolean |
| LexerBrackets.StepNonBracket | backend/src/lexer/Lexer.ts:70-99 | a non-bracket character leaves the stack alone and adds no bracket token and no bracket error |
| LexerBrackets.StepOpening | backend/src/lexer/Lexer.ts:46-65 | an opener pushes itself and adds its bracket token and no error |
| LexerBrackets.HandleClosingFeeds | backend/src/lexer/Lexer.ts:103-117 | the closing-bracket handler agrees with one step of a reference bracket matcher |
| LexerBrackets.StepBracketInv | backend/src/lexer/Lexer.ts:41-117 | each step keeps the stack equal to what the reference matcher has left open, until the first bracket error |
| LexerBrackets.StepConservation | backend/src/lexer/Lexer.ts:41-117 | each step keeps stack size plus closers equal to openers plus unexpected-closer and mismatch errors |
| LexerBrackets.RunInvariants | backend/src/lexer/Lexer.ts:25-28 | the main loop keeps both invariants and reports no unclosed opener |
| LexerBrackets.FinishReport | backend/src/lexer/Lexer.ts:30-33 | the end-of-pass check adds nothing for an empty stack, else exactly one unclosed-opener error naming the top entry |
| LexerBrackets.BalancedIffNoBracketErrors | backend/src/lexer/Lexer.ts:24-39 | the emitted brackets are correctly nested and closed exactly when no bracket error is reported |
| LexerBrackets.UnclosedIffOpenersOutnumberMatched | backend/src/lexer/Lexer.ts:24-39 | an unclosed-opener error is reported, once, exactly when more openers were emitted than closers that found their partner |
| LexerBrackets.UnclosedReportedOnce | backend/src/lexer/Lexer.ts:30-33 | at most one unclosed-opener error is reported; it is the last error and names the innermost opener left open |
| LexerBrackets.AnalyzeNeverEmitsEofOrError | backend/src/lexer/Lexer.ts:24-39 | no EOF or ERROR token is ever emitted |
| Parser.ParseField | backend/src/lexer/Parser.ts:172-177 | a field tail succeeds exactly when `:`, a value of the right kind and `;` follow, and yields the value's lexeme |
| Parser.FieldItem | backend/src/lexer/Parser.ts:206-236 | a field keyword succeeds exactly with `: value ;` and changes only its own field; `obligatorio` follows the lower-cased lexeme, and a `Codigo` field leaves the course unchanged |
| Parser.PrereqItemsSpec | backend/src/lexer/Parser.ts:184-194 | the prerequisite loop stops at the first `)` or the end, and appends exactly the NUMERO lexemes met, in order |
| Parser.PrereqItemsClose | backend/src/lexer/Parser.ts:184-194 | the loop stops on a `)` exactly when one comes before the end, and then on the first one |
| Parser.ParsePrerrequisitos | backend/src/lexer/Parser.ts:179-204 | the list succeeds exactly when `:` and `(` follow and a `)` comes later; it then adds the NUMERO lexemes before the first `)` to the earlier entries and leaves the cursor past that `)` and one more token; a missing `:` or `(` fails with its own message, and a missing `)` with the closing-parenthesis one |
| Parser.CursoItem | backend/src/lexer/Parser.ts:121-155 | one body step moves the cursor forward and never changes the course's code or semester |
| Parser.NamedItemBranches | backend/src/lexer/Parser.ts:137-150 | inside a course, `prerrequisitos` or `prerequisito` (any case) stores the list the prerequisite parser reads and fails as it fails; `area` succeeds exactly when `: "x" ;` follows and sets the area to x without quotes; any other identifier is skipped together with the token after it |
| Parser.CursoBody | backend/src/lexer/Parser.ts:121-155 | the course body loop stops at `}` or the end, with code and semester unchanged |
| Parser.AddCurso | backend/src/lexer/Parser.ts:164-169 | a finished course replaces any course with its code and is appended to its semester's list; every other entry is unchanged |
| Parser.CursosKeysAreListedCodes | backend/src/lexer/Parser.ts:164-169 | under the invariant, a code is a key of `cursos` exactly when some semester list holds a course with that code |
| Parser.AddCursoKeepsInv | backend/src/lexer/Parser.ts:164-169 | recording a course keeps the invariant: every semester list is non-empty, each listed course sits under its own semester with its code a key of `cursos`, and each `cursos` entry carries its own code and is listed under its semester |
| Parser.ParseCursoBlock | backend/src/lexer/Parser.ts:104-119 | a course takes the code after `:` and the enclosing semester's number; without `:` the parse fails |
| Parser.ParseCurso | backend/src/lexer/Parser.ts:104-170 | a parsed course is recorded as by `AddCurso`, and the invariant is kept |
| Parser.SemestreBody | backend/src/lexer/Parser.ts:87-95 | the semester body loop stops at `}` or the end, and adds at most its own semester key |
| Parser.SemestreBlock | backend/src/lexer/Parser.ts:87-99 | a semester block keeps the career name and the invariant |
| Parser.ParseSemestre | backend/src/lexer/Parser.ts:78-102 | a semester consumes its number token, keeps the career name and keeps the invariant |
| Parser.SemestreKeys | backend/src/lexer/Parser.ts:78-102 | a semester adds at most the key `parseInt` gives for its number and drops none |
| Parser.CarreraBody | backend/src/lexer/Parser.ts:65-71 | the career body loop stops at `]` or the end and keeps the name |
| Parser.CarreraList | backend/src/lexer/Parser.ts:63-75 | the bracketed part keeps the career name and the invariant |
| Parser.CarreraBodySkips | backend/src/lexer/Parser.ts:65-71 | inside `[ ... ]`, every token other than SEMESTRE and `]` is stepped over without effect |
| Parser.ParseCarrera | backend/src/lexer/Parser.ts:58-76 | a career needs `: "name"`; the name has its quotes removed and replaces an earlier one |
| Parser.ParsePensum | backend/src/lexer/Parser.ts:40-56 | the top-level loop keeps the invariant |
| Parser.Parse | backend/src/lexer/Parser.ts:35-38 | every successful parse satisfies the invariant |
| Parser.PensumCarreraStep | backend/src/lexer/Parser.ts:44-46 | at top level a CARRERA keyword hands over to the career parser |
| Parser.PensumSemestreStep | backend/src/lexer/Parser.ts:47-49 | at top level a SEMESTRE keyword hands over to the semester parser: its error is the parse's error, and on success the loop resumes where the semester ended |
| Parser.ParseSingleSemestre | backend/src/lexer/Parser.ts:40-56 | a token list that is exactly one top-level semester parses to what that semester built |
| Parser.CarreraBracketStep | backend/src/lexer/Parser.ts:63-74 | after `[` one more token is skipped before the body, and after `]` one more too |
| Parser.SemestreCloseStep | backend/src/lexer/Parser.ts:97-98 | a semester's `}` is taken with the token after it |
| Parser.CursoCloseStep | backend/src/lexer/Parser.ts:157-158 | a course's `}` is taken with the token after it |
| Parser.CursoHeader | backend/src/lexer/Parser.ts:105-119 | `: n {` starts a fresh course with code n, empty name, zero credits, no prerequisites and the enclosing semester |
| Parser.NombreStep | backend/src/lexer/Parser.ts:172-177 | `Nombre : "x" ;` sets the name to x without its quotes |
| ParserExamples.NestedLosesSemester | backend/src/lexer/Parser.ts:63-64 | `Carrera : "name" [ Semestre ... ]` loses the semester, because the keyword after `[` is skipped, and yields empty maps |
| ParserExamples.NestedExample | backend/src/lexer/Parser.ts:58-76 | the concrete nested input `Carrera: "X" [ Semestre: 1 { Curso: 100 { Nombre: "Y"; } } ]` parses to the name X and empty maps |
| ParserExamples.FlatParses | backend/src/lexer/Parser.ts:78-170 | a flat `Semestre : n { Curso : c { Nombre : "y" ; } }` parses to one course, filed under n and c |
| ParserExamples.FlatExample | backend/src/lexer/Parser.ts:78-170 | the concrete flat input `Semestre: 1 { Curso: 100 { Nombre: "Y"; } }` parses to course 100 named Y under semester 1 |
| Generator.FieldOf | backend/src/generators/PensumGenerator.ts:78-95 | exactly the six field keywords introduce a field, and each introduces its own |
| Generator.Advance | backend/src/generators/PensumGenerator.ts:264-267 | the cursor never moves past the EOF token |
| Generator.FieldValue | backend/src/generators/PensumGenerator.ts:78-95 | a field value needs `=` and a value of the field's kind; each missing part fails with its own message |
| Generator.SetFieldLaws | backend/src/generators/PensumGenerator.ts:78-95 | each field is its own slot: writes to different fields commute, a second write to a field overrides the first, and no write touches the prerequisite list |
| Generator.ObligatorioIsCaseSensitive | backend/src/generators/PensumGenerator.ts:95 | only the exact lexeme `TRUE` makes a course compulsory; `true` does not |
| Generator.PrereqItems | backend/src/generators/PensumGenerator.ts:100-105 | the prerequisite loop stops at `]` or EOF, and a failure is the string-item one |
| Generator.PrereqItemsSpec | backend/src/generators/PensumGenerator.ts:100-105 | a successful list holds only strings and single commas between them, and appends the strings in order |
| Generator.NonStringPrereqFails | backend/src/generators/PensumGenerator.ts:101 | an item that is not a string fails the parse |
| Generator.PrereqList | backend/src/generators/PensumGenerator.ts:96-107 | `= [ … ]` after the keyword: on success the list sits between `[` and `]` and the course gains exactly its string items, in order, nothing else changing; a missing `=`, a missing `[`, a non-string item and a missing `]` each fail with their own message |
| Generator.CursoItem | backend/src/generators/PensumGenerator.ts:77-111 | a token that is neither a field keyword nor PREREQUISITO is stepped over without effect |
| Generator.CursoItemFields | backend/src/generators/PensumGenerator.ts:78-96 | a field keyword succeeds exactly when `=` and a value of the field's kind follow, and then stores that value through the field's setter (so `OBLIGATORIO = TRUE` makes the course compulsory); a missing `=` or value fails with its message; `PREREQUISITO` hands over to the list |
| Generator.CursoBody | backend/src/generators/PensumGenerator.ts:77-111 | the course body loop stops at `}` or EOF and never loses prerequisites |
| Generator.CursoItemPrereqs | backend/src/generators/PensumGenerator.ts:77-111 | one body step never removes prerequisites already collected |
| Generator.CursoBlock | backend/src/generators/PensumGenerator.ts:64-115 | a course block ends just after its `}`; without `{` it fails with that message |
| Generator.CarreraBody | backend/src/generators/PensumGenerator.ts:52-59 | the career body loop stops at `}` or EOF |
| Generator.CarreraBodyLastNombre | backend/src/generators/PensumGenerator.ts:52-59 | the resulting name is the string after the last `NOMBRE =`, or the previous name when there is none |
| Generator.CarreraDefinition | backend/src/generators/PensumGenerator.ts:49-62 | a career block changes only the name; without `{` it fails with that message |
| Generator.UnclosedCareerFails | backend/src/generators/PensumGenerator.ts:61 | a career block that reaches EOF before `}` fails with that message and nothing else |
| Generator.ParseLoop | backend/src/generators/PensumGenerator.ts:37-47 | the top-level loop only appends courses |
| Generator.CursoAppends | backend/src/generators/PensumGenerator.ts:41-42 | each course block appends exactly its course, at the end |
| Generator.NoCursoNoAppend | backend/src/generators/PensumGenerator.ts:37-47 | without a CURSO keyword, no course is appended |
| Generator.LexerOutputNotEofTerminated | backend/src/generators/PensumGenerator.ts:282-284 | the lexer's output never ends in EOF, so the reader's precondition never holds for it |
| Generator.OneCourseParses | backend/src/generators/PensumGenerator.ts:64-115 | `CURSO { CODIGO = "c" SEMESTRE = n }` then EOF yields one course with that code and semester and defaults elsewhere |
| Grouping.SortByCodigo | backend/src/generators/PensumGenerator.ts:245 | sorting a group is a permutation in code order |
| Grouping.SortByCodigoStable | backend/src/generators/PensumGenerator.ts:245 | courses with codes that compare equal keep their order |
| Grouping.BucketSpec | backend/src/generators/PensumGenerator.ts:236-241 | there is a bucket for each semester number that occurs, holding that semester's courses in list order |
| Grouping.Agrupar | backend/src/generators/PensumGenerator.ts:233-249 | a group is a permutation of its semester's courses, sorted by code |
| Grouping.EachCourseInItsGroup | backend/src/generators/PensumGenerator.ts:233-249 | every course is in the group of its semester, and a group holds only courses of its semester |
| Grouping.GroupMembers | backend/src/generators/PensumGenerator.ts:233-249 | a group holds exactly the courses of its semester |
| Grouping.GroupSizes | backend/src/generators/PensumGenerator.ts:233-249 | a group has as many courses as the list has for that semester |
| Sorting.SortBy | frontend/src/components/PensumView.tsx:149 | the sort is a permutation, in order whenever the comparison is a total preorder |
| Sorting.SortSortedUnchanged | frontend/src/components/PensumView.tsx:149 | an input already in order comes back unchanged |
| Sorting.SortStable | frontend/src/components/PensumView.tsx:149 | elements that compare equal keep their relative order |
| LinePatterns.KeyEnd | frontend/src/components/PensumView.tsx:49 | the key that occurs at a position is returned with its end, or none occurs |
| LinePatterns.Find | frontend/src/components/PensumView.tsx:49 | the leftmost position where the pattern matches, or no position matches |
| LinePatterns.Match | frontend/src/components/PensumView.tsx:49 | the captured group has the value's shape and only characters of the line |
| LinePatterns.MatchWritten | frontend/src/components/PensumView.tsx:49 | a line written as key, white space and value is matched with exactly that value captured |
| LinePatterns.PatternsPrefixFree | frontend/src/components/PensumView.tsx:91 | no key of a pattern is a prefix of another of its keys |
| PensumView.Number | frontend/src/components/PensumView.tsx:59 | the number is what `parseInt` reads from the captured digits |
| PensumView.FindSemestre | frontend/src/components/PensumView.tsx:108 | the first entry with the current number, or none has it |
| PensumView.CursoLine | frontend/src/components/PensumView.tsx:68-79 | a `Curso:` line with a digit code, under a current semester, opens a fresh course with that code and semester, empty name, zero credits and no prerequisites; otherwise nothing changes |
| PensumView.NombreLine | frontend/src/components/PensumView.tsx:82-87 | a `Nombre:` line with a quoted name sets the open course's name to the text between the quotes; otherwise nothing changes |
| PensumView.CreditosLine | frontend/src/components/PensumView.tsx:90-95 | an `Area:` or `Creditos:` line with digits sets the open course's credits to the number they spell; otherwise nothing changes |
| PensumView.PrereqItemsPieces | frontend/src/components/PensumView.tsx:101 | a list is the prerequisite list of a text exactly when it holds the trimmed comma-separated pieces that are not blank, in their order |
| PensumView.PrereqItems | frontend/src/components/PensumView.tsx:101 | the list items are non-empty, free of commas, and made of the line's characters |
| PensumView.ItemsTight | frontend/src/components/PensumView.tsx:101 | no list item begins or ends with white space |
| PensumView.PrerrequisitosLine | frontend/src/components/PensumView.tsx:98-103 | a `Prerrequisitos: (...)` line with non-blank text between the parentheses replaces the open course's list with the items of that text; a blank list or any other line changes nothing |
| PensumView.CloseLine | frontend/src/components/PensumView.tsx:106-113 | a line exactly `}` commits the open course to the course list and resets it; other lines change nothing |
| PensumView.CloseLineInv | frontend/src/components/PensumView.tsx:106-113 | the committed course is filed under the first entry with the current number |
| PensumView.CommittedCourse | frontend/src/components/PensumView.tsx:44-114 | a `}` closing a course opened by a `Curso:` line commits that course with its code, the semester current at the opening, and the name, credits and prerequisites of the last lines in between that declare each |
| PensumView.OpenFilled | frontend/src/components/PensumView.tsx:44-104 | lines after a `Curso:` line that neither open nor close a course leave it open, holding the fields the latest of them declare |
| PensumView.StepInv | frontend/src/components/PensumView.tsx:44-114 | each line keeps the invariant: an open course has a current semester that has an entry, later duplicate entries stay empty, and the entries hold exactly the committed courses |
| PensumView.ExtractedFiling | frontend/src/components/PensumView.tsx:32-121 | in an extracted curriculum the entries hold exactly the course list, and a repeated semester number's later entries are empty |
| PensumView.ScanNumbersAndName | frontend/src/components/PensumView.tsx:44-114 | the entries are one per `Semestre:` line, in order, and the name is the last one declared |
| PensumView.ExtractIff | frontend/src/components/PensumView.tsx:116 | a curriculum is returned exactly when some line names a career and some line declares a semester |
| PensumView.ExtractedSingleLine | frontend/src/components/PensumView.tsx:34 | no extracted field contains a line feed |
| Prerequisites.ClosureSound | frontend/src/components/PensumView.tsx:161-176 | everything the lookup returns is reachable by a chain of prerequisites |
| Prerequisites.ClosureComplete | frontend/src/components/PensumView.tsx:161-176 | along a chain of unvisited, distinct codes, the lookup reaches the chain's end |
| Prerequisites.AllPrerequisitesReachable | frontend/src/components/PensumView.tsx:161-176 | the lookup returns exactly the codes reachable by a non-empty chain, cycles included |
| Prerequisites.PrereqMap | frontend/src/components/PensumView.tsx:155-158 | the map's keys are exactly the course codes |
| Prerequisites.PrereqMapLast | frontend/src/components/PensumView.tsx:155-158 | a code's entry is the list of the last course with that code |
| Prerequisites.HighlightedIff | frontend/src/components/PensumView.tsx:179-185 | a course is highlighted exactly when it is the selection or reachable from it |
| Prerequisites.HighlightedIsListed | frontend/src/components/PensumView.tsx:179-185 | a highlighted course other than the selection is a listed prerequisite of some course |
| Prerequisites.CycleExample | frontend/src/components/PensumView.tsx:161-176 | on a two-course cycle the lookup stops, and each course is among its own prerequisites |
| PensumDownload.SortSemestres | frontend/src/components/PensumView.tsx:149 | the entries are permuted into ascending semester order |
| PensumDownload.SortSemestresStable | frontend/src/components/PensumView.tsx:149 | entries with the same number keep their order, so the one holding the courses stays first |
| PensumDownload.FlattenPermutation | frontend/src/components/PensumView.tsx:191-192 | reordering entries reorders the courses the CSV lists, without losing any |
| PensumDownload.CsvRows | frontend/src/components/PensumView.tsx:191-197 | one row per course filed under the entries |
| PensumDownload.CsvLines | frontend/src/components/PensumView.tsx:189-197 | split on line feeds, the CSV is the header, one line per course and the empty text after the last line feed |
| PensumDownload.DownloadLines | frontend/src/components/PensumView.tsx:149-198 | the CSV of an extracted curriculum has exactly one line per committed course |
| PensumDownload.PrereqCellReadBack | frontend/src/components/PensumView.tsx:193-195 | a non-empty prerequisite cell reads back, by the extractor's own list splitter, to the list |
| SyntaxHighlighter.ColorOfKindName | frontend/src/services/syntaxHighlighter.ts:37-81 | reserved kinds are blue, CADENA orange, NUMERO and BOOLEANO purple, punctuation green, and every other kind uncoloured |
| SyntaxHighlighter.ColorIgnoresCase | frontend/src/services/syntaxHighlighter.ts:39 | names that upper-case alike get the same colour |
| SyntaxHighlighter.ColorOfLowerName | frontend/src/services/syntaxHighlighter.ts:39 | a kind's lower-cased name gets the kind's colour |
| SyntaxHighlighter.ColorClass | frontend/src/services/syntaxHighlighter.ts:20-25 | each colour's class is `token-` followed by the colour's name |
| SyntaxHighlighter.ColorClassInjective | frontend/src/services/syntaxHighlighter.ts:20-25 | different colours get different classes |
| SyntaxHighlighter.SortMatches | frontend/src/services/syntaxHighlighter.ts:130 | the matches are permuted into start order |
| SyntaxHighlighter.Keep | frontend/src/services/syntaxHighlighter.ts:135-142 | the filter keeps only input matches, the first starting at or after `lastEnd` |
| SyntaxHighlighter.KeepDisjoint | frontend/src/services/syntaxHighlighter.ts:135-142 | the kept matches do not overlap, each ending before the next starts |
| SyntaxHighlighter.KeepCovers | frontend/src/services/syntaxHighlighter.ts:135-142 | a dropped match starts inside a kept one, or before `lastEnd` |
| SyntaxHighlighter.Substring | frontend/src/services/syntaxHighlighter.ts:149 | within bounds, `substring` is the slice |
| SyntaxHighlighter.HighlightText | frontend/src/services/syntaxHighlighter.ts:95 | empty or all-white-space text comes back unchanged |
| SyntaxHighlighter.PiecesUnwrap | frontend/src/services/syntaxHighlighter.ts:145-157 | the assembled pieces cover the text from the start index exactly |
| SyntaxHighlighter.PiecesSpans | frontend/src/services/syntaxHighlighter.ts:147-154 | the assembly puts one span per kept match, in order |
| SyntaxHighlighter.MarkupReadBack | frontend/src/services/syntaxHighlighter.ts:128-157 | removing the span wrappers gives the text back; the kept matches do not overlap, and each gets one span with its class and exactly its text |
| SyntaxHighlighter.FilterDropsOnlyOverlaps | frontend/src/services/syntaxHighlighter.ts:130-142 | every match is kept or starts inside a kept one |
| AppState.Reduce | frontend/src/context/AppContext.tsx:60-121 | every action keeps tokens and lexer errors from both being non-empty, and changes only the fields it names |
| AppState.AnalysisResults | frontend/src/context/AppContext.tsx:68-80 | `SET_TOKENS` and `SET_LEXER_ERRORS` store their payload and clear the other list |
| AppState.ApiErrorList | frontend/src/context/AppContext.tsx:88-98 | `ADD_API_ERROR` keeps the earlier messages and adds one at the end; `CLEAR_API_ERRORS` empties the list |
| AppState.ClearEditorEmpties | frontend/src/context/AppContext.tsx:106-113 | `CLEAR_EDITOR` empties the text and the three lists and keeps both flags |
| AppState.ResetForgets | frontend/src/context/AppContext.tsx:115-119 | `RESET_STATE` gives the initial state from any state, so it is idempotent; an unknown action changes nothing |
| AppState.ReachableConsistent | frontend/src/context/AppContext.tsx:37-121 | no state reachable from the initial one holds both tokens and lexer errors |
| AppState.RunFromInitial | frontend/src/context/AppContext.tsx:37-121 | after a history, the tokens and errors are what the last analysis action left, and the API errors are those added since the last clear |
| JsText.Trim | frontend/src/components/PensumView.tsx:45 | the trim has no white space at either end, and is empty exactly when the line is all white space |
| JsText.ToUpper | backend/src/lexer/Lexer.ts:167 | each character is upper-cased in place |
| JsText.ToUpperIdempotent | frontend/src/services/syntaxHighlighter.ts:39 | upper-casing twice is upper-casing once |
| JsText.Split | frontend/src/components/PensumView.tsx:34 | there is at least one piece, and no piece contains the separator |
| JsText.JoinSplit | frontend/src/components/PensumView.tsx:34 | joining the pieces with the separator gives the text back |
| JsText.SplitJoin | frontend/src/components/PensumView.tsx:194 | splitting a join of separator-free parts gives the parts back |
| JsText.StripDoubleQuotes | backend/src/lexer/Parser.ts:61 | the result has no `"`, and text without `"` is unchanged |
| JsText.StripDoubleQuotesAppend | backend/src/lexer/Parser.ts:61 | stripping distributes over concatenation, removes a lone `"` and keeps any other character |
| JsText.StripQuoted | backend/src/lexer/Parser.ts:61 | a quoted text free of `"` loses exactly its two quotes |
| JsText.NatToString | frontend/src/components/PensumView.tsx:196 | the rendering is a non-empty digit string with no leading zero |
| JsText.ParseIntNatToString | frontend/src/components/PensumView.tsx:196 | `parseInt` reads back the decimal rendering of every natural number |
| JsText.ParseIntDigits | backend/src/lexer/Parser.ts:81 | a non-empty digit run parses to its decimal value |

## Left out

- Regular expressions are not interpreted. Each extractor pattern in the
  view is a deterministic matcher for that one pattern. The highlighter
  takes its regex matches as an input list.
- The lexer records an error kind and its position. The Spanish message
  is rendered from the kind by `Message()`, and the source stores only that
  text.
- The application state has no `selectedCourse` field, although the view
  reads one. The highlight predicate therefore takes the selection as an
  `Option` parameter.
- JavaScript `Map` and object key order are not modelled. The parser's maps
  and the generator's buckets are Dafny maps.
- `localeCompare` depends on the locale. It is an abstract total preorder
  on codes, given as a parameter.
- `JsText.ToUpper`: only ASCII letters change case. This suffices for the
  lexer's ASCII identifiers and the colour table's ASCII names.
- `JsText.ToLower`: only ASCII letters change case, for the same reason.
- `JsText.ParseInt`: results are unbounded integers. Precision loss above
  2^53 and `Infinity` are not modelled.
- Generator members require an EOF-terminated token list. On any other
  list the source reads past the end and throws a `TypeError`, and that
  error path is not modelled.
- `LexerSteps.TokenPositions`: the column claim is made only for sources
  without quotes. A newline inside a string shifts every later column on
  that line by one, so the claim fails there. A string token's line and
  column are not stated: the scanner stamps them after the closing quote.
- Strings are sequences of Dafny characters. JavaScript strings are UTF-16
  code units, so on characters outside the Basic Multilingual Plane the
  source's lengths, substring bounds and columns count two units where the
  model counts one.
- `JsText.NatToString`: renders every natural number in plain decimal.
  JavaScript writes numbers of 1e21 and above in exponent form, so the
  CSV's semester and credit cells differ for such numbers.
- `Lexer.Finish` and `Lexer.Analyze` have no contract of their own. Their
  results are stated by `LexerBrackets.FinishReport` and the lemmas after
  it.
- `Parser.CursoItem`: its own contract covers only progress and the fixed
  code and semester. The effects of the five keyword fields are in
  `Parser.FieldItem` and `Parser.NombreStep`. The area field, the
  prerequisite list and the skip of an unknown identifier are in
  `Parser.NamedItemBranches`.
- `Parser.Parse`: the two thrown errors of `peek` and `previous` cannot
  occur, so they have no error value.
  - `isAtEnd` guards every `peek`.
  - `previous` always follows a successful `consume` or `advance`.
- `console.log` and `console.warn` calls are not modelled. The warning for a
  mismatched `Codigo` field changes nothing.
- The view's `try`/`catch` is not modelled, because nothing in the
  extractor can throw on a string.
- In the CSV, `creditos || 0` is the credits themselves, because the
  extractor's credits are always numbers.
- `maxCursosPorSemestre` only sizes the table layout.
- The Blob and DOM download and the download's file name are left out.
- All JSX rendering is left out.
- `generateHTML` is left out. It is string templating over the grouping.
- The HTTP controller, routes and API client are left out. So are the
  other components and the manuals.
- The initial editor text is not lexed or parsed. It is a constant of the
  application state.
