# A verified model of the OData expression parser and the certification tools' stateful cores

This Dafny project models two parts of the RESO tools repository and proves what they promise.

The first is the OData `$filter` and `$expand` package (OData 4.01 Part 2: URL Conventions, sections 5.1.2 and 5.1.3): a
lexer whose reading of a word or a minus sign depends on the token before it, a six-level recursive-descent parser over a
cursor, the printer documented as the parser's inverse, and the parser of nested `$expand` clauses. The second is the
certification command line's stateful code: secret masking, the streamed reading of RCF payload files and their batched
validation, the restore's worker pool and ledger, the planning, running and cleaning up of Add/Edit tests, the replication of
the Lookup resource, and the metadata index with the lookups synthesized for it.

Code that changes things in place is modelled by classes and methods with loops (`Tokenizer`, `ParserState`, `Registry`,
`MemberTaker`, `Drain`, `Connection`, and the methods of the `$expand` parser, the index and the paging loop). Each is proved to
compute a function of its input, or of its old state, and the laws are then lemmas about that function. Servers, validators,
files and interleavings are arbitrary: a server is any function of all it was asked before, a validator any fold, a file any
row of members, a run any enabled sequence of worker steps.

`dafny verify dfyconfig.toml` checks the whole project.

## What the proofs found

- The printer is not the inverse its comment calls it (`odata-expression-parser/src/serializer.ts:4-5`): it writes no
  parentheses except after `not`, so `(a or b) and c` comes back as `a or (b and c)`. `FilterExact.RoundTripExactly` says
  exactly which trees come back, over every tree that can be printed; `FilterRegroup.RegroupedReturns` says what the others
  come back as.
- A lambda condition that starts with a negative number prints as text that the lexer refuses: a colon is not among the tokens
  after which a minus sign starts a number (`odata-expression-parser/src/lexer.ts:392-399`). `FilterPrinting.LexPrinted` says
  that this is the only case.
- A guid is read only where it starts with a digit: one that starts with a letter is read as a word.
- Masking a registered secret leaves none of it in any text exactly when the secret, laid over its own mask, agrees with it at
  no overlapping shift (`Secrets.MaskedForGoodExactly`). Without stars, that is to have no border of up to four characters:
  `aaaaaaaa` in twelve `a`s survives. With stars, borders are not all: `secret****` survives in `secretsecret****`.
- Masking keeps the text around the secrets (`SecretsInText.MaskingKeepsTheRest`), but where a registered value holds stars a
  mask can itself be masked: with `abcdefgh12345678` and `xyz ****5678` registered, `xyz abcdefgh12345678` comes out as
  `****5678` (`SecretsInText.AMaskCanBeMasked`).
- Streaming a payload file equals reading it whole but for one kind of file: a null `@reso.context` before the records, with
  an `@odata.context` that resolves after them.
- A ledger key that is empty or holds a line break is not remembered.
- A document that does not read stops the worker that took it, so a pool of `n` workers comes no further than the `n`-th such
  document: of `["a", "b"]` with one worker, where `a` does not read, `b` is never sent (`RestoreOutcome.AnItemCanBeStranded`).
  `RestoreOutcome.EndedExactly` says what every ended run has answered, and what it has left waiting.
- A create that stops once its record is made, because reading it back or a check of an answer throws, leaves its record
  unaccounted for, although the comment at `reso-certification/src/add-edit/test-runner.ts:120-121` promises that a run that
  ends early leaves nothing that a run that finishes would have removed: the key goes with the exception. No request need
  throw: a create that should fail, answered 201 with a null among `error.details`, is lost to the check of that error
  (`reso-certification/src/test-runner/validators.ts:343-344`). `AddEditAccount.EveryRecordIsAccountedFor` says that there is
  no other such record.
- A delete payload can pass the check that it names a record and have its DELETE go to the collection's URL: one whose `url` is
  0 or false beside an `id` that is missing, false as a condition, or writes nothing; and, for the delete that should fail, also
  one whose `id` is 0 or false beside such a `url`, or whose `url` is an array that writes nothing beside an `id` that gives a
  key. No other payload does (`AddEditAccount.AllWritesToRecordsExactly`), and so none of the type's own shape.
- The URL the client builds for a record doubles no quote in the key (`reso-client/src/uri/builder.ts:106-107`), while the reader
  of entity URLs takes quotes as doubled: `Property('O'Brien')` names no key to it. `EntityKeys.BuiltUrlReadsBackExactly` says
  that a quote in the key is all that stands in the way.
- An `$expand` whose property names are clean comes back from its written form exactly when its texts are trimmed, matched and
  cut nowhere, and its levels are no fewer than one (`ExpandExact.ExpandRoundTripsExactly`); every text the parser gives is such.
- The comment at `reso-certification/src/add-edit/test-runner.ts:91` says that all eight scenarios run when none are chosen; the
  code refuses to plan them (`AddEditPlan.PlannedExactly`), and the model follows the code.

## Model

| member | source | states |
|---|---|---|
| FilterLexer.ReadString | odata-expression-parser/src/lexer.ts:83-104 | reading a string literal ends past where it started and within the input |
| FilterLexer.ReadToken | odata-expression-parser/src/lexer.ts:338-411 | every token read moves the position forward, within the input |
| FilterLexerSound.TokenSound | odata-expression-parser/src/lexer.ts:73-414 | one reading spells its token by the span it takes, skips only white space after it, and yields a token well formed where it stands |
| FilterLexerSound.LexSound | odata-expression-parser/src/lexer.ts:73-414 | the tokens of any accepted input are spelled by disjoint, increasing spans with only white space between and around them, and each is well formed after the one before it |
| FilterLexerSound.GuidNeedsDigit | odata-expression-parser/src/lexer.ts:345-351 | whatever is read as a guid has a guid's shape and starts with a digit |
| FilterLexerSound.LexErrorExplains | odata-expression-parser/src/lexer.ts:83-411 | whatever text is refused, the error says truly where and why: a character that no token starts with, or a minus sign out of place; the quotation mark that opens a string; or the word of an enum literal whose quotation mark is never closed |
| FilterRendering.PieceReads | odata-expression-parser/src/lexer.ts:338-411 | one written token reads back as itself, unless a minus sign stands where none is allowed, and then it is refused |
| FilterRendering.LexRendered | odata-expression-parser/src/lexer.ts:338-411 | tokenizing the rendering of any token list that respects the context rules gives the same kinds and values, or refuses a minus sign out of place |
| FilterRendering.NumberReads | odata-expression-parser/src/lexer.ts:106-126 | a plain decimal numeral is read whole, and no further |
| FilterRendering.StringReads | odata-expression-parser/src/lexer.ts:83-104 | a string with every quote doubled reads back as the string |
| FilterRendering.DateTimeOffsetReads | odata-expression-parser/src/lexer.ts:132-158 | a date, time, optional fraction and zone are read whole, as that and nothing else |
| FilterRendering.TimeOfDayReads | odata-expression-parser/src/lexer.ts:176-190 | a time of day is read as one and not as a number |
| FilterRendering.GuidReads | odata-expression-parser/src/lexer.ts:160-174 | a guid that starts with a digit is read as one |
| FilterRendering.DurationReads | odata-expression-parser/src/lexer.ts:192-204 | a quoted duration is read as one, without its quotes |
| FilterRendering.EnumReads | odata-expression-parser/src/lexer.ts:211-228 | a qualified type and quoted member are read whole as one enum literal |
| FilterRendering.InReads | odata-expression-parser/src/lexer.ts:272-300 | `in` after a token that ends a value is read as an operator |
| FilterRendering.NameReads | odata-expression-parser/src/lexer.ts:230-336 | a name is read as a property or, before a parenthesis, as a function |
| FilterNumerals.NumeralSettled | odata-expression-parser/src/lexer.ts:106-126 | the numeral a number prints as is a number token that denotes itself |
| FilterValues.PrintedValue | odata-expression-parser/src/parser.ts:182-278 | a number is worth as much as the numeral it is printed as, by the decimal value of their digits |
| FilterValues.NumeralKeepsValue | odata-expression-parser/src/parser.ts:182-278 | and that numeral is plain: no zero that carries no value, no sign before zero |
| FilterShapes.ShapesExactly | odata-expression-parser/src/lexer.ts:54-58 | what a date, a time, an instant, a guid, an enum member, a number and a name may hold, each said part by part as a concatenation of digits, letters and signs, if and only if |
| FilterShapes.LiteralsParse | odata-expression-parser/src/lexer.ts:132-228 | each such text alone is a filter, and parses to its literal |
| FilterShapes.NumbersParse | odata-expression-parser/src/lexer.ts:106-126 | every number as it is written parses to the numeral it denotes |
| FilterShapes.SpacesExactly | odata-expression-parser/src/lexer.ts:78-82 | the white space that separates tokens, character by character |
| FilterTokenizer.Tokenizer.ReadString | odata-expression-parser/src/lexer.ts:83-104 | the in-place reader agrees with the specification, and moves the position to where it says |
| FilterTokenizer.Tokenizer.ReadNumber | odata-expression-parser/src/lexer.ts:106-126 | the same, of a number |
| FilterTokenizer.Tokenizer.ReadDigits | odata-expression-parser/src/lexer.ts:132-190 | the same, of the patterns that start with a digit, in their order |
| FilterTokenizer.Tokenizer.TryReadDuration | odata-expression-parser/src/lexer.ts:192-204 | a duration where there is one, and otherwise the position is left where it was |
| FilterTokenizer.Tokenizer.ReadEnum | odata-expression-parser/src/lexer.ts:211-228 | an enum literal, or the error that it does not end |
| FilterTokenizer.Tokenizer.ReadWord | odata-expression-parser/src/lexer.ts:230-336 | the reader of words agrees with the specification, last-token rules included |
| FilterTokenizer.Tokenizer.Tokenize | odata-expression-parser/src/lexer.ts:73-414 | the main loop ends with the specification's tokens or its error |
| FilterParser.ParseOr | odata-expression-parser/src/parser.ts:94-102 | a success takes at least one token and stays within them |
| FilterParser.ParseComparison | odata-expression-parser/src/parser.ts:134-164 | the same, of the comparison level |
| FilterParser.ParsePrimary | odata-expression-parser/src/parser.ts:182-278 | the same, of the primary level |
| FilterParser.ParseLambda | odata-expression-parser/src/parser.ts:293-327 | the same, of a lambda |
| FilterParserState.ParserState.Step | odata-expression-parser/src/parser.ts:35-43 | the token at the cursor, which moves by one |
| FilterParserState.ParserState.Advance | odata-expression-parser/src/parser.ts:35-43 | the same, or the error at the end of the input |
| FilterParserState.ParserState.Expect | odata-expression-parser/src/parser.ts:45-51 | the token of the kind asked for, or the error that names what stands there |
| FilterParserState.ParserState.ParseOrExpr | odata-expression-parser/src/parser.ts:94-102 | the cursor parser agrees with the pure one: the same tree and the same next position, or the same error |
| FilterParserState.ParserState.ParseAndExpr | odata-expression-parser/src/parser.ts:107-115 | the same |
| FilterParserState.ParserState.ParseNotExpr | odata-expression-parser/src/parser.ts:120-127 | the same |
| FilterParserState.ParserState.ParseComparisonExpr | odata-expression-parser/src/parser.ts:134-164 | the same |
| FilterParserState.ParserState.ParseArithmeticExpr | odata-expression-parser/src/parser.ts:169-177 | the same |
| FilterParserState.ParserState.ParsePrimaryExpr | odata-expression-parser/src/parser.ts:182-278 | the same |
| FilterParserState.ParserState.ParsePath | odata-expression-parser/src/parser.ts:250-273 | the same, of the loop over a path's slashes and chained lambdas |
| FilterParserState.ParserState.ParseLambda | odata-expression-parser/src/parser.ts:293-327 | the same |
| FilterParserState.ParserState.ParseFunctionCall | odata-expression-parser/src/parser.ts:335-352 | the same |
| FilterParserState.ParserState.ParseGrouping | odata-expression-parser/src/parser.ts:357-362 | the same |
| FilterParserState.ParseFilterString | odata-expression-parser/src/parser.ts:380-396 | the whole imperative pipeline computes `ParseFilter`, for every string |
| FilterWriting.ParsesExactly | odata-expression-parser/src/parser.ts:90-396 | the parser is the grammar: for every row of tokens and every tree, the row parses to the tree if and only if it writes the tree by the grammar's productions, each operand at its own level, parentheses wherever something looser stands, and wherever else they are put |
| FilterWriting.WritesOneTree | odata-expression-parser/src/parser.ts:90-396 | the grammar is unambiguous: no row of tokens writes two trees |
| FilterSpelling.WrittenFilterParsesExactly | odata-expression-parser/src/lexer.ts:73-414 | the same of texts: tokens spelled one after another, words in any case and any white space between, parse to a tree if and only if their row writes it |
| FilterWords.ComparisonWords | odata-expression-parser/src/lexer.ts:12-12 | a name, one of `eq ne gt ge lt le has` in any case, and any literal, is that comparison |
| FilterWords.InWords | odata-expression-parser/src/lexer.ts:272-300 | a name, `in` in any case, and any list of literals in parentheses, is that comparison |
| FilterWords.LogicalWords | odata-expression-parser/src/lexer.ts:13-13 | two names with `and` or `or` between, in any case |
| FilterWords.ArithmeticWords | odata-expression-parser/src/lexer.ts:14-14 | two names with one of the six arithmetic words between, in any case |
| FilterWords.NotWords | odata-expression-parser/src/lexer.ts:268-270 | `not` in any case, before a name |
| FilterWords.ConstantWords | odata-expression-parser/src/lexer.ts:262-267 | `true`, `false` and `null` in any case, alone |
| FilterWords.LambdaWords | odata-expression-parser/src/lexer.ts:312-318 | `any` and `all` in any case, after a slash |
| FilterWords.FunctionWords | odata-expression-parser/src/lexer.ts:15-50 | the functions' names in any case before a parenthesis are read in lower case, and every other name there as it stands |
| FilterParserSound.ParseTokensSound | odata-expression-parser/src/parser.ts:94-396 | a parse loses nothing: the tree is well formed, its tokens in order, commas, colons and slashes included, are the input's but for its parentheses, and those balance |
| FilterExact.ParsedIsWellFormed | odata-expression-parser/src/parser.ts:380-396 | whatever string parses gives a well-formed tree |
| FilterPrinting.RenderPieces | odata-expression-parser/src/serializer.ts:11-49 | the printed string is the rendering of the tree's tokens |
| FilterPrinting.FlowsPieces | odata-expression-parser/src/serializer.ts:11-49 | a well-formed tree's printed tokens respect the lexer's context rules wherever an expression can stand |
| FilterPrinting.SignsPieces | odata-expression-parser/src/lexer.ts:389-405 | the printed minus signs stand where the lexer takes them exactly when no lambda condition starts with one, nor the whole where none may |
| FilterPrinting.LexPrinted | odata-expression-parser/src/serializer.ts:11-49 | a printed tree tokenizes into its tokens, or is refused, exactly as its lambda conditions start |
| FilterRoundTrip.TokensReadBack | odata-expression-parser/src/parser.ts:94-396 | a canonical tree's tokens parse to the tree |
| FilterExact.RoundTripExactly | odata-expression-parser/src/serializer.ts:4-49 | for every tree that can be printed: parsing its printed string gives the tree back if and only if it is canonical |
| FilterGrouping.FullTextParses | odata-expression-parser/src/parser.ts:357-362 | for every well-formed tree, canonical or not, its fully parenthesized string parses to exactly that tree |
| FilterGrouping.WellFormedIffParsed | odata-expression-parser/src/parser.ts:380-396 | the parser's image: a tree is well formed if and only if some string parses to it |
| FilterRegroup.RegroupedReturns | odata-expression-parser/src/serializer.ts:21-22 | an and/or tree printed and parsed is its operands in order, and before or, left to right; that tree is canonical, prints the same, and is the tree exactly when it was canonical |
| FilterRegroup.ParsedSurvivesPrinting | odata-expression-parser/src/serializer.ts:4-49 | a filter that parses survives printing exactly when its tree is grouped as the grammar groups it and no lambda condition starts with a negative number |
| FilterRegroup.PrintingLosesGrouping | odata-expression-parser/src/serializer.ts:21-22 | a filter that parses, and whose printed tree parses to another: `(a or b) and c` |
| ExpandSplit.SplitAtDepthZero | odata-expression-parser/src/expand-parser.ts:33-47 | the loop over depth and start computes the specification's pieces, trimmed, the empty ones dropped |
| ExpandSplit.SplitIsTheOnlyCut | odata-expression-parser/src/expand-parser.ts:33-47 | a string's pieces are the only ones that join to it, cut at depth zero and nowhere else |
| ExpandSplit.SplitInvertsJoin | odata-expression-parser/src/expand-parser.ts:33-47 | splitting inverts joining, on trimmed, non-empty, balanced segments with no delimiter at depth zero |
| ExpandSplit.SplitLength | odata-expression-parser/src/expand-parser.ts:33-47 | no piece is longer than the string: what the recursion of clauses and options ends by |
| ExpandParser.FindClose | odata-expression-parser/src/expand-parser.ts:140-178 | the loop finds the parenthesis that closes the clause's first, or none |
| ExpandParser.ParseExpandOptions | odata-expression-parser/src/expand-parser.ts:57-129 | the loop over segments computes the specification's options or its first error |
| ExpandParser.ParseExpandClause | odata-expression-parser/src/expand-parser.ts:140-178 | one clause, as specified |
| ExpandParser.ParseExpandClauses | odata-expression-parser/src/expand-parser.ts:186-189 | a list of clauses, as specified |
| ExpandParser.ParseExpandString | odata-expression-parser/src/expand-parser.ts:209-213 | the whole string, as specified |
| ExpandReading.ExpandParsesExactly | odata-expression-parser/src/expand-parser.ts:57-213 | a text parses to a list of clauses if and only if each of its clauses has a name and a parenthesis that is closed if it has one, each segment an `=`, a key among the eight and a value the key takes, and every option is what the last segment with its key says, or is left out |
| ExpandReading.GivenExactly | odata-expression-parser/src/expand-parser.ts:69-128 | each of the eight options is given if and only if some segment has its key |
| Strings.NatReadsBack | odata-expression-parser/src/expand-parser.ts:57-129 | a count written in decimal reads back |
| ExpandRoundTrip.NumbersReadBack | odata-expression-parser/src/expand-parser.ts:82-98 | a count with a sign, or with an exponent, reads as the number it writes |
| ExpandNumbers.NumbersExactly | odata-expression-parser/src/expand-parser.ts:82-121 | a text is read as a whole number, and as which, if and only if it is nothing, for zero; or an optional sign, digits with a point among or about them or none, and an optional exponent, that come to a whole number; or a number in base 16, 8 or 2 after its prefix |
| ExpandNumbers.BaseReadsBack | odata-expression-parser/src/expand-parser.ts:82-121 | a number written in a base reads as the number |
| ExpandNumbers.DigitsExactly | odata-expression-parser/src/expand-parser.ts:82-121 | the characters that are digits of a base, in either case |
| ExpandRoundTrip.OptionsRead | odata-expression-parser/src/expand-parser.ts:57-129 | the written options of a well-formed clause, nested `$expand` included, read back |
| ExpandRoundTrip.ExpandRoundTrips | odata-expression-parser/src/expand-parser.ts:209-213 | every well-formed list of clauses, of any nesting, parses back from its written form |
| ExpandExact.ParsedTextsFit | odata-expression-parser/src/expand-parser.ts:33-178 | every text in a parsed `$expand`, at any depth, is trimmed, matched and holds no semicolon at depth zero, and every count of levels is one or more |
| ExpandExact.ExpandRoundTripsExactly | odata-expression-parser/src/expand-parser.ts:209-213 | over clean property names and any option texts whatever: a list of clauses parses back from its written form if and only if its texts are of that kind |
| Secrets.Registry.RegisterSecret | reso-certification/src/cli/secrets.ts:67-70 | a value of eight characters or more is kept once, a shorter one or none is not, and the value is handed back |
| Secrets.Registry.MaskSecrets | reso-certification/src/cli/secrets.ts:82-83 | the reduce masks each kept value in turn, longest first, and keeps the set |
| Secrets.SortKeeps | reso-certification/src/cli/secrets.ts:73-83 | the order is by length, and neither drops nor adds a value |
| Secrets.NothingNew | reso-certification/src/cli/secrets.ts:52-55 | masking makes no text: what occurs in the output, and agrees with the mask nowhere over its stars, occurred in the input; no star-free text does agree there |
| Secrets.MaskingLeavesNothing | reso-certification/src/cli/secrets.ts:82-83 | no registered value occurs in any masked text that meets its own mask nowhere and no other's over its stars; in particular none that is star-free and borderless |
| SecretsInText.MaskingKeepsTheRest | reso-certification/src/cli/secrets.ts:82-83 | pieces of text with registered secrets between them, in which registered values occur nowhere else, come out as the same pieces with four stars and the last four characters of each secret between, where no registered value agrees with the stars of the mask of one no shorter; none without a star can |
| SecretsInText.AMaskCanBeMasked | reso-certification/src/cli/secrets.ts:82-83 | with stars one can: a mask and the text before it that are another registered value are masked again |
| Secrets.MaskedForGoodExactly | reso-certification/src/cli/secrets.ts:32-55 | over every secret that can be registered: masking it leaves none of it in any text if and only if it agrees with its own mask at no overlapping shift; without stars, if and only if it has no border of up to four characters |
| Secrets.BorderSurvives | reso-certification/src/cli/secrets.ts:32-55 | for every bordered secret, a text in which it survives |
| Secrets.SurvivesAtShift | reso-certification/src/cli/secrets.ts:52-83 | for every shift at which a secret agrees with its mask, a text in which it survives there |
| Secrets.StarsCanSurvive | reso-certification/src/cli/secrets.ts:52-83 | a registrable secret without a border that survives: `secret****` in `secretsecret****` |
| Secrets.StarredSecretIsKept | reso-certification/src/cli/secrets.ts:52-55 | masking a secret leaves every text as it is if and only if the secret is the stars and four characters |
| Secrets.UnregisteredIsKept | reso-certification/src/cli/secrets.ts:82-83 | a text that holds no registered value is left as it is |
| Secrets.MaskingSettles | reso-certification/src/cli/secrets.ts:82-83 | masking twice is masking once, where the values meet no masks as above |
| Secrets.LongestFirstMasksWhole | reso-certification/src/cli/secrets.ts:73-83 | a registered value, of any characters, is masked whole even where it contains another |
| RestorePool.NothingIsLost | reso-certification/src/cli/restore-command.ts:145-151 | in every interleaving, waiting, in flight, answered and unreadable are together the items, as often as given; and no more are in flight than the pool's size |
| RestoreAnswers.AnsweredExactly | reso-certification/src/cli/restore-command.ts:209-218 | in every run the keys accepted are those that the run's answers from 200 to 299 answer, in order, and counted; the failures are those of every other answer; the unread are those whose documents did not read; an answer's key is told from the events alone |
| RestoreAnswers.LedgerGainsExactly | reso-certification/src/cli/restore-command.ts:209-214 | the lines a run adds to the ledger are exactly those accepted keys, in order |
| RestoreAnswers.SelectedExactly | reso-certification/src/cli/restore-command.ts:165-168 | a run sends the first of the pending reports, as many as its limit says, or all |
| RestoreAnswers.PendingInOrder | reso-certification/src/cli/restore-command.ts:165-168 | the pending reports are those not in the ledger, each as often and in the order found |
| RestoreAnswers.PoolSizeIs | reso-certification/src/cli/restore-command.ts:145-151 | as many workers as are allowed and there are items for, and always one |
| RestorePool.EveryRunEnds | reso-certification/src/cli/restore-command.ts:209-229 | every run ends within two steps an item and one a worker; ended with fewer documents that do not read than workers, it has dealt with every item once: accepted, failed or unreadable, and the counts add up to what was selected |
| RestorePool.NeverStuck | reso-certification/src/cli/restore-command.ts:145-151 | a run has ended exactly when each worker has finished or stopped: no worker waits for another |
| RestoreOutcome.EndedExactly | reso-certification/src/cli/restore-command.ts:145-151 | for any readability of documents, every ended run of `n` workers has answered exactly the readable items up to the `n`-th that does not read, or to the end, each as often as given; the rest are still waiting, in order |
| RestoreOutcome.AllAnsweredExactly | reso-certification/src/cli/restore-command.ts:209-218 | an ended run has answered every readable item if and only if none stands after the `n`-th that does not read |
| RestoreOutcome.AnItemCanBeStranded | reso-certification/src/cli/restore-command.ts:145-151 | one worker and a first document that does not read: the run has ended, and the second was never sent |
| RestorePool.LedgerRemembersExactly | reso-certification/src/cli/restore-command.ts:96-97 | an appended key is read again exactly when it is a line; then it is the only line added |
| RestorePool.LedgerGrows | reso-certification/src/cli/restore-command.ts:209-218 | the ledger grows by exactly the keys appended, in order |
| RestorePool.NeverAcceptedTwice | reso-certification/src/cli/restore-command.ts:165-218 | over any number of runs with one ledger, cut off anywhere and whatever the other keys, a key that is a line is accepted at most once, and never where the ledger held it |
| RestorePool.LinesAreAcceptedOnce | reso-certification/src/cli/restore-command.ts:165-218 | where every key is a line, no key is accepted twice, nor one the ledger held |
| RestorePool.NeverSentAgain | reso-certification/src/cli/restore-command.ts:165-218 | a key that an attempt has accepted is left out of what is pending at every later attempt if and only if it is a line, whatever the other keys; and only what is pending is sent |
| RcfInput.MemberTaker.Take | reso-certification/src/cli/rcf-input.ts:217-225 | members are kept in order, and a payload key given again is refused |
| RcfInput.TakeRest | reso-certification/src/cli/rcf-input.ts:195-205 | the rest of a reading: its records in order, its members taken |
| RcfInput.StreamedPayload | reso-certification/src/cli/rcf-input.ts:217-257 | the one- or two-pass reading computes what `Streamed` says, for every row of events |
| RcfInput.HeaderExactly | reso-certification/src/cli/rcf-input.ts:70-82 | what each pair of contexts makes of a payload: its resource, version and kept context, an invalid context, or no payload |
| RcfInput.ToPayloadExactly | reso-certification/src/cli/rcf-input.ts:85-92 | a file is the payload of its `value` array's records, or of itself alone where it has no array, and none where the array is empty or no context says what it is |
| RcfInput.LastMemberCounts | reso-certification/src/cli/rcf-input.ts:85-92 | of a key given again, the last value counts |
| RcfInput.StreamingReadsTheFile | reso-certification/src/cli/rcf-input.ts:70-91 | for every order of members without a repeated payload key, streaming gives the header and records of reading the file whole, if and only if no null `@reso.context` stands before the records and a resolving `@odata.context` after them |
| RcfInput.ReadOnceOrTwice | reso-certification/src/cli/rcf-input.ts:212-257 | the file is read once where `@reso.context` precedes the records or there are none, and twice otherwise |
| RcfInput.RepeatedKeyIsRefused | reso-certification/src/cli/rcf-input.ts:167-225 | a file is refused if and only if it repeats a payload key |
| RcfBatches.BatchesHoldTheRecords | reso-certification/src/cli/rcf-command.ts:116-154 | the batches are the records in order, each full but the last, at most 1000 each, an empty one only for an empty payload |
| RcfBatches.BatchingChangesNothing | reso-certification/src/cli/rcf-command.ts:46-48 | for a validator that checks record by record and the context once, validating in batches, all but the first with the context checked, equals one call |
| RcfBatches.FoldingChecksRecordByRecord | reso-certification/src/cli/rcf-command.ts:46-48 | every validator that is a step for the context and one for each record checks record by record, so the law is met by what it is meant for |
| RcfBatches.StreamingChangesNothing | reso-certification/src/cli/rcf-command.ts:91-159 | the same over a whole stream, the errors threaded from payload to payload |
| RcfBatches.TheRunsVersionIsUsed | reso-certification/src/cli/rcf-command.ts:107-125 | where the run has a version, what the payloads say theirs is changes no error |
| RcfBatches.ThePayloadsVersionStandsIn | reso-certification/src/cli/rcf-command.ts:107-125 | where it has none, the payloads' own stands in for it |
| RcfBatches.TheCanonicalNameIsUsed | reso-certification/src/cli/rcf-command.ts:91-101 | only the name a resource resolves to reaches the errors and the counts |
| RcfBatches.CallExactly | reso-certification/src/cli/rcf-command.ts:116-129 | what the validator is given of a payload: its raw context, records, and the resource and version resolved |
| RcfBatches.FirstVersionExactly | reso-certification/src/cli/rcf-command.ts:92-92 | the version found is that of the first payload that has one |
| RcfBatches.HasValueExactly | reso-certification/src/cli/rcf-command.ts:144-149 | which fields of a record count |
| RcfBatches.EveryRecordIsCounted | reso-certification/src/cli/rcf-command.ts:133-159 | every record of a stream is counted under a resource or is a record of an invalid payload, and none is both |
| RcfBatches.InvalidExactly | reso-certification/src/cli/rcf-command.ts:159-162 | a payload adds to the invalid files, and its records to theirs, if and only if its context is invalid |
| RcfBatches.CountFields | reso-certification/src/cli/rcf-command.ts:144-149 | a record adds one to exactly the fields it gives a value |
| RcfBatches.Drain.Push | reso-certification/src/cli/rcf-command.ts:136-141 | a record joins the open batch, which is validated when it is full |
| RcfBatches.Drain.Finish | reso-certification/src/cli/rcf-command.ts:154-154 | at a payload's end its errors are those of all its batches, an empty payload validated once |
| RcfBatches.Drain.Read | reso-certification/src/cli/rcf-command.ts:93-159 | one payload's records counted under its resource and its batches validated |
| RcfBatches.ProcessRcfStream | reso-certification/src/cli/rcf-command.ts:77-174 | strict fails at exactly the first payload after which there are errors; otherwise the counts are the true counts of records and of non-empty fields, per resource named, with the totals, version and errors of the whole stream |
| RcfBatches.TotalIsTheSum | reso-certification/src/cli/rcf-command.ts:143-144 | the total of records is the sum of the resources' |
| AddEditPlan.PlannedScenarios | reso-certification/src/add-edit/plan.ts:94-103 | a plan holds exactly the chosen scenarios, once each: creates, updates, deletes, success before failure |
| AddEditPlan.SameChoiceSamePlan | reso-certification/src/add-edit/plan.ts:132-175 | two selections are planned alike if and only if they choose the same scenarios, whatever their order or repetition |
| AddEditPlan.PlannedExactly | reso-certification/src/add-edit/plan.ts:104-175 | a selection is planned if and only if its actions are known and not empty, and each create or update among them, and nothing else, has known formats |
| AddEditPlan.ProblemsExactly | reso-certification/src/add-edit/plan.ts:84-175 | which of its problems a selection that is not planned is refused for, in their order |
| AddEditPlan.NamesExactly | reso-certification/src/add-edit/plan.ts:16-21 | the names of the actions and the formats |
| AddEditPlan.SelectedScenarios | reso-certification/src/add-edit/plan.ts:127-148 | a partial selection is read as exactly the scenarios of the actions it gives, or of all, in the formats it gives for them, or in both, in order and once each |
| AddEditPlan.PayloadsSuffice | reso-certification/src/add-edit/plan.ts:177-179 | a payload is loaded for a plan if and only if one of its scenarios needs it |
| AddEditPlan.PayloadsExactly | reso-certification/src/add-edit/plan.ts:35-40 | which payload each scenario sends |
| EntityKeys.KeyIsTruthExactly | reso-certification/src/add-edit/test-runner.ts:220-222 | a key exists where a condition is true, but for 0, false, what writes as nothing and what cannot be written |
| EntityKeys.KeyIsTheText | reso-certification/src/add-edit/test-runner.ts:220-222 | a JSON value's key is the text `String` writes, arrays and objects included, unless that is empty |
| EntityKeys.UrlKeyReadsBack | reso-certification/src/add-edit/test-runner.ts:176-201 | an entity URL, at any address, names the key it was made with, quotes, parentheses and slashes in either included |
| EntityKeys.BuiltUrlReadsBackExactly | reso-client/src/uri/builder.ts:98-108 | the URL the client builds of a key, at any address, is read back as the key where it has no quote, and, at an address without a parenthesis, only there |
| EntityKeys.BareKeyReadsBack | reso-certification/src/add-edit/test-runner.ts:187-201 | a bare key, in quotation marks or not, is itself |
| EntityKeys.KeyAfterExactly | reso-certification/src/add-edit/test-runner.ts:176-201 | what follows a parenthesis names a key if and only if it is the key in quotes, doubled inside, or bare without quotes or a closing parenthesis, and the parenthesis that ends the text |
| EntityKeys.BareUrlReadsBack | reso-certification/src/add-edit/test-runner.ts:176-201 | a URL with a bare key names it, at an address without a parenthesis |
| EntityKeys.UnwrappedExactly | reso-certification/src/add-edit/test-runner.ts:199-200 | quotation marks about a text on one line are taken off, and nothing else |
| EntityKeys.CreatedKeyExactly | reso-certification/src/add-edit/test-runner.ts:207-218 | a create has made a record if and only if it is answered 201 or 204, and its key is then the first of the body's, `EntityId`'s, `OData-EntityId`'s and `Location`'s |
| JsonValues.NumberText | reso-certification/src/add-edit/test-runner.ts:220-222 | a number is written as the numeral that reads as it |
| JsonValues.ArrayText | reso-certification/src/add-edit/test-runner.ts:220-222 | an array is written as its items with commas between, nulls as nothing, and not at all where one of them is not |
| JsonValues.OtherText | reso-certification/src/add-edit/test-runner.ts:220-222 | null, true and false, texts and objects, as `String` writes them |
| EntityKeys.CreatedKeysAreNotEmpty | reso-certification/src/add-edit/test-runner.ts:203-218 | no create's key is empty, from a body or a header |
| AddEditRun.Connection.Run | reso-certification/src/add-edit/test-runner.ts:236-316 | one scenario sends what the specification says, in order, and ends as it says, stopped by whatever throws: a payload, a request or a check |
| AddEditRun.Connection.RunPlan | reso-certification/src/add-edit/test-runner.ts:328-346 | the loop runs the plan as specified, up to the first scenario that throws |
| AddEditRun.Connection.CleanUp | reso-certification/src/add-edit/test-runner.ts:353-373 | the cleanup deletes and answers as specified |
| AddEditSends.StopsFirstExactly | reso-certification/src/add-edit/test-runner.ts:236-316 | a scenario sends nothing and stops if and only if its payload was not loaded, its first checks throw, or a field it names its record by cannot be written |
| AddEditSends.NamedRecords | reso-certification/src/add-edit/test-runner.ts:236-316 | a create posts to the collection; an update or a delete whose payload names its record sends there |
| AddEditSends.FollowsExactly | reso-certification/src/add-edit/test-runner.ts:391-700 | after its write a scenario reads once, and of what, if and only if the write was answered, no check of it threw and there is something to read; it is stopped if and only if a request or a check threw |
| AddEditSends.CleanupSortsExactly | reso-certification/src/add-edit/test-runner.ts:362-373 | a finished cleanup counts as removed exactly the records whose delete is answered from 200 to 299 or 404, and gives every other with its status |
| AddEditAccount.RunAccounts | reso-certification/src/add-edit/test-runner.ts:328-346 | the records a server says were made are the ones the run hands on, and what the scenario that stopped it had made; what was removed was created |
| AddEditAccount.LostExactly | reso-certification/src/add-edit/test-runner.ts:328-346 | every record made is handed on if and only if no create stopped the run once its record was made |
| AddEditAccount.CleanupPartsExactly | reso-certification/src/add-edit/test-runner.ts:348-373 | removed, not removed and left are together what was created if and only if each removed key was created as often as removed |
| AddEditAccount.EveryRecordIsAccountedFor | reso-certification/src/add-edit/test-runner.ts:113-127 | for any server and any planned run, whatever throws and wherever it stops, with distinct keys: a finished cleanup accounts for every record made if and only if no create stopped the run once its record was made, and then for every other |
| AddEditAccount.ARecordCanBeLost | reso-certification/src/add-edit/test-runner.ts:116-127 | a server that makes a record and hangs up: it is made, not created, and the run has stopped |
| AddEditAccount.ACheckCanLoseARecord | reso-certification/src/add-edit/test-runner.ts:489-503 | a create that should fail, answered 201 with a null error detail: all is answered, the check throws, and the record is lost |
| AddEditAccount.UnnamedRecords | reso-certification/src/add-edit/test-runner.ts:93-96 | a payload that names no record stands for one a create made: the first for an update, the last for a delete, which counts as removed when its read-back finds none |
| AddEditAccount.NothingWithoutARecord | reso-certification/src/add-edit/test-runner.ts:246-305 | with no record named and none created, nothing is sent |
| AddEditAccount.PlanWithoutDelete | reso-certification/src/add-edit/test-runner.ts:348-361 | a plan without delete sends no DELETE, in its run or its cleanup |
| AddEditAccount.CleanupDeletesItsOwn | reso-certification/src/add-edit/test-runner.ts:360-365 | a cleanup's every request deletes, by its key, a record the run created and its test did not remove |
| AddEditAccount.RunWritesToRecordsExactly | reso-certification/src/add-edit/test-runner.ts:236-316 | every PATCH and DELETE of a run names a record if and only if no scenario it came to has a payload that passes the check and names nothing |
| AddEditAccount.AllWritesToRecordsExactly | reso-certification/src/add-edit/test-runner.ts:203-373 | the same of a whole run, its cleanup included, with the keys of creates read as the program reads them |
| AddEditAccount.TypedPayloadsWriteToRecords | reso-certification/src/add-edit/types.ts:27-32 | payloads of the promised type keep every PATCH and DELETE, the cleanup's included, off the collection |
| LookupPaging.FetchLookupResource | reso-certification/src/metadata/lookup-resource.ts:69-135 | for any server with finitely many records, a request that throws included, the loop ends, with the walk's outcome |
| LookupPaging.IdentityExactly | reso-certification/src/metadata/lookup-resource.ts:50-51 | two records are the same if and only if they have one key, or neither has a key and they are serialized alike |
| LookupPaging.FetchedExactly | reso-certification/src/metadata/lookup-resource.ts:76-134 | records are fetched if and only if they are the server's pages end to end, each at the cursor of those before it and new in part, and an empty page after them |
| LookupPaging.FailedExactly | reso-certification/src/metadata/lookup-resource.ts:76-134 | the walk fails with an error if and only if some pages are taken and the next answer is wrong by it: a throw, another status, a value that is no array, or records all seen before |
| LookupPaging.PagesAreBounded | reso-certification/src/metadata/lookup-resource.ts:104-128 | no more pages are accepted than there are identities |
| LookupPaging.AbsentExactly | reso-certification/src/metadata/lookup-resource.ts:88-90 | the answer is absent if and only if the first request is answered 404 |
| LookupPaging.CollectionIsReplicated | reso-certification/src/replication/replication-iterator.ts:23-40 | from a server that honours `$skip`, whatever its page sizes, exactly the collection is fetched |
| LookupPaging.IgnoredSkipIsRefused | reso-certification/src/metadata/lookup-resource.ts:104-128 | a server that ignores `$skip` is refused at its second page |
| MetadataIndex.MapLookups | reso-certification/src/legacy/common.js:329-365 | every named lookup has an entry, with its values that are no samples, in order, and their count |
| MetadataIndex.IndexValues | reso-certification/src/legacy/common.js:400-442 | the values and the legacy values of a type, keyed, the last of each key |
| MetadataIndex.BuildMetadataMap | reso-certification/src/legacy/common.js:320-458 | the index has an entry for exactly the report's fields, each of the last such field and agreeing with the lookup list, and the statistics are the true counts |
| MetadataIndex.ValuesExactly | reso-certification/src/legacy/common.js:329-442 | a field's indexed values are exactly those of the lookups of its type that are no samples: string enumerations under their own value, others under their standard name, and their own among the legacy values |
| MetadataIndex.LastWithExactly | reso-certification/src/legacy/common.js:400-442 | what an entry holds under a value is the last of the list's lookups with it |
| MetadataIndex.KeptExactly | reso-certification/src/legacy/common.js:333-358 | a lookup is a string enumeration's if and only if its type holds `Edm.String`, and what it is then kept under |
| MetadataIndex.IndexedExactly | reso-certification/src/legacy/common.js:405-438 | what an entry keeps of a lookup under a value |
| MetadataIndex.SamplesExactly | reso-certification/src/legacy/common.js:346-351 | a sample is a name between `Sample` and `EnumValue` |
| MetadataIndex.LastAnnotated | reso-certification/src/legacy/common.js:334-344 | an annotation's value is that of the last with its term |
| MetadataIndex.ComplexExactly | reso-certification/src/legacy/common.js:396-396 | which fields are complex |
| MetadataIndex.LookupsCounted | reso-certification/src/legacy/common.js:362-362 | the lookups counted are those that are no samples, each once |
| MetadataIndex.FieldsCounted | reso-certification/src/legacy/common.js:442-450 | the expansions and complex types counted are the fields that are, each once |
| LookupMerge.OpenEnumsAre | reso-certification/src/metadata/lookup-resource.ts:246-251 | samples stand for exactly the enumerations that fields refer to and no lookup has, once each |
| LookupMerge.FieldExactly | reso-certification/src/metadata/lookup-resource.ts:176-184 | a field is of the first lookup it names, and is otherwise as it was |
| LookupMerge.ReferenceExactly | reso-certification/src/metadata/lookup-resource.ts:205-220 | which enumeration a field refers to, and which values stand for one |
| LookupMerge.CollectionUnwrapped | reso-certification/src/metadata/lookup-resource.ts:205-206 | a collection's type is that of its items, and any other its own |
| MetadataIndex.ShortNameIs | reso-certification/src/metadata/lookup-resource.ts:202-203 | a short name is what stands after the last period |
| LookupMerge.SelfMergedNames | reso-certification/src/metadata/lookup-resource.ts:195-254 | a report merged with its own records names exactly its lookups, their short names, and every enumeration a field refers to |
| LookupMerge.EnumerationsResolve | reso-certification/src/metadata/lookup-resource.ts:176-254 | every enumeration field that names its lookup is then of a type that is one, and the index marks it a lookup field |
| LookupMerge.NoSampleIsIndexed | reso-certification/src/legacy/common.js:346-351 | no sample value is among the values or the legacy values of any report's index |
| LookupMerge.OpenEnumerationsAreEmpty | reso-certification/src/metadata/lookup-resource.ts:226-254 | an enumeration without lookups resolves, and to no value |
| LookupMerge.RecordsReadBackExactly | reso-certification/src/metadata/lookup-resource.ts:153-170 | a record comes back from the lookup it is merged as if and only if its name is short and what it gives has text |
| LookupMerge.LookupsComeBack | reso-certification/src/metadata/lookup-resource.ts:215-244 | each of a report's lookups comes back under its short name with its value and its two annotations' texts |

## Left out

- HTTP, files, zip reading, timers, concurrency below the worker's step, console rendering, credentials, exit codes and report wording: a server is a function, a file a row of events.
- JavaScript numbers: a number literal is a plain decimal numeral, printed without superfluous zeros; no exponent, no -0, no precision.
- Strings are sequences of characters, not of UTF-16 code units, and lower-casing is that of ASCII letters, which words are made of.
- The wording of errors; their kinds and positions are modelled, and for the lexer's proved to be where they say.
- FilterSpelling.WrittenFilterParsesExactly: is of tokens set apart as `FitsBefore` says, a number from a name by white space, say; what the lexer makes of texts like `12abc` is in `FilterLexer` alone.
- SecretsInText.MaskingKeepsTheRest: goes one way: values with stars whose masks happen not to be masked again are outside it.
- Printing a tree whose `in` has no list on its right throws in the program; such trees are outside `Printable`.
- Inherited property names such as `constructor` as keys of JavaScript objects: a map has the keys it was given.
- The meaning of a filter (its translation to SQL or MongoDB) is not in these files.
- ExpandParser.ParseExpandOptions: `Number()` of a count is exact, in every form it reads: a double's rounding and its overflow to infinity are not modelled.
- ExpandExact.ExpandRoundTripsExactly: is of property names without separators, parentheses or white space around them, and of the one written form the model gives a tree; text after a clause's closing parenthesis is dropped by the program, so that other strings parse to the same tree.
- RcfInput.StreamedPayload: is read to the end; the generator protocol (`readOnce`, a consumer that leaves early) is not modelled, nor `@streamparser/json`, whose events are the input.
- RcfInput.HeaderOf: the two context patterns are a parameter.
- RcfBatches.ProcessRcfStream: does not model the inference that records are folded into, and takes a payload's records as a list.
- RestorePool.NothingIsLost: `deriveReportType` and the choice of endpoint are not modelled, and the reading of a document is a predicate of its key; a document that does not read stops its worker.
- RestorePool.NeverAcceptedTwice: the ledger is one that ends in a line, as every appended one does.
- AddEditRun.Connection.Run: what a scenario's assertions report, and the payload bodies it sends, are not modelled; that its checks may throw is, as any function of the scenario and its exchanges. `decodeURIComponent` is a parameter that empties no text. A record whose key in the body cannot be written as text, or that no header names, has no key to be accounted for by.
- AddEditAccount.CleanupDeletesItsOwn: a request's target (`AddEditRun.TargetOf`) is the record its key names and not the URL written for it; `EntityKeys.BuiltUrlReadsBackExactly` says which keys such a URL names.
- EntityKeys.BuiltUrlReadsBackExactly: `encodeURIComponent` is any encoding that leaves unreserved characters as they are and writes no quote or parenthesis for the others, and that decoding takes back.
- AddEditPlan.ReadAddEditSelection: names that are not texts are taken as unknown names, and problems by their kind, not their words.
- LookupPaging.FetchLookupResource: terminates because the server has finitely many records; the program has no other bound.
- MetadataIndex.BuildMetadataMap: a field or lookup without a type or a value, and the flags' default values, are not modelled.
- LookupMerge: the report's other properties and the records' other columns are not modelled.
- Masking: `maskSecret` of a value too short to register, and where masked text is written.
