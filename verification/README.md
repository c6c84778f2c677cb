# Verified models of DeciDB algorithms

A Dafny 4.11 project that models the self-contained algorithms of DeciDB's extensions and build
scripts and proves what they are for. `dafny verify dfyconfig.toml` checks everything.

## What is modelled

**PEG engine of the autocomplete extension** (`Tokenizer*.dfy`, `Peg*.dfy`). SQL text is cut into
tokens and statements; grammar text is read into rules; the rules are compiled by a stack machine
into a graph of matchers, with a cache that makes recursive rules cyclic and with one-parameter
macros; `Match` recognises a statement and collects suggestions when the tokens run out. The
imperative code is proved against specification functions (`Lex`, `Parse`, `Elaborate`, `Run`,
`Suggest`), and those against independent definitions: the shapes of tokens, which leave one way to
cut a script (`TokenShapes`); the spellings of a grammar, which are exactly the texts the reader
accepts (`PegGrammarSpelling`, `PegGrammarReading`); claims about matchers and their children, which
are exactly the verdicts of a match (`PegMeaning`); and parse trees. The results compose: a statement
accepted by the matcher graph compiled from a rule set is generated by that rule set, and where the
next token decides every choice, the statements generated are those accepted (`PegCompleteness`).

**Vectorised lambda execution** (`LambdaExecution.dfy`). `list_filter` and `list_transform`
flatten all lists into chunks of a fixed size, run the lambda chunk by chunk and rebuild the
lists; for `list_filter` a cursor does this across chunk boundaries. For every chunk size each row
finds in its slice of the result the lambda values of its elements, in order, or its elements at
exactly the places whose lambda value holds.

**Serialization code generator** (`Serialization*.dfy`). The generator turns class schemas into a
writer and a reader. The emitted code is a list of instructions with a meaning over a stream of
fields. The reader undoes the writer through inheritance, enum dispatch, constructor arguments,
context parameters, defaults, deleted members and version gates. Members behind a closed gate are
the exact exception. What stands in the stream, and what the reader makes of a member that is not
there, is also said of the schema entries alone (`SerializationStream`).

**Timestamps with time zone** (`Icu*.dfy`). The calendar is a clock of milliseconds in a double,
with days of fixed length. Modelled are adding and subtracting intervals, the difference of
timestamps, ranges as lists and as a streaming table function, and time buckets of microseconds,
days and months.

**Build scripts** (`Amalgamation.dfy`, `ExtensionFunctions.dfy`). Include inlining and the
splitting of the source, and the registry of extension functions.

## Where the code does not do what is expected of it

* A member added in a newer storage version is not written for an older target. It comes back only
  if it has its default value; a member without a default makes the reader fail
  (`RestoredIffKept`, `NewerMemberIsLost`).
* The difference of two timestamps is one millisecond too large exactly if the end lies in the
  first millisecond after the start of 1970 and has fewer microseconds than the start
  (`DifferenceRecombines`; `DifferenceAcrossZero` has two microseconds come out as 1002). Its time
  part is negative exactly if the end lies before 1970 and is rounded up past a whole day
  (`TimeOfDifference`; `DifferenceWithNegativeTime` has a day less a microsecond come out as one
  day and minus one microsecond).
* The calendar clock is a double. Timestamps above 2^53 milliseconds are accepted but rounded
  (`LargeTimestampIsRounded`, `ClockIsRightIff`).
* The day bucket of a timestamp before its origin is the next bucket, which begins after the
  timestamp, exactly if the clock is in the first millisecond of a bucket and more than a
  millisecond has been left out of origin and timestamp (`GuessAndCorrection`, `MissesBucket`;
  `FractionalOriginMissesBucket` has an input). The same lemma says exactly when the two conditions
  asserted on the way fail. With an origin in whole milliseconds the result is always the bucket
  and the second condition always holds; the first fails exactly for a timestamp before 1970 that
  is less than a millisecond before the end of a bucket and not before the origin
  (`WholeMillisecondOrigin`, `EarlyOriginCountsADayTooMuch`). With a fractional origin it also fails
  after 1970 (`FractionalOriginCountsADayTooMuch`).
* From 2^53 milliseconds on, adding a millisecond gives the timestamp back exactly if the clock is at a
  multiple of four and its neighbour is not a double (`MovesIff`). A range that starts there never
  ends: the table function repeats its start, the list function gives up after 2^32 elements
  (`RangeWithoutEnd`). `FixedMovesIff` says which ranges without months the addition moves through.
* A statement that the grammar derives is rejected if its tokens run out before children that are all
  optional, and one of these is met twice or has been expanded already (`SkippedIff`;
  `RepeatedOptionalIsRejected` has an input). Where the children of optionals do not lead back,
  distinct children are always skipped (`DistinctWalkIsSkipped`).
* A choice keeps its first alternative that does not fail, so a statement that the grammar derives can be
  rejected (`FirstAlternativeIsKept`). It is accepted if the next token decides between alternatives, whether
  an optional is there and whether a repetition goes on, and the ends of lists are skipped (`AcceptedIffDerived`).
* The error for a rejected statement names the token at the token index. That is past the tokens
  exactly if the root is a list that fails after its children have used them up (`CheckStatements`,
  `TwoChildrenFailAtEnd`). A root with one child does not do that (`OneChildStaysInside`).
* An enum value behind a closed version gate makes the reader fail or read an object of another class
  (`LostEnumValue`).
* There are no ranks for macros that call themselves, directly or through others, if the root reaches
  them (`RanksIffNoCircle`, `RecursiveMacroHasNoRank`). Compiling is modelled for all other roots.
* A bracket that closes right after `/` adds the one-armed choice to its list twice (`CloseLoneChoice`,
  `LoneChoiceIsDoubled`). In rules read from text an unclosed bracket is left over, which is an error
  (`RulesHaveNoLoneChoice`).
* The grammar reader steps past the end of the text exactly if a literal without closing quote ends
  in an escape or a regular expression lacks its closing character (`ReadsPastTheEndIff`;
  `GrammarsReadPastTheEnd` has two inputs). The model gives this case an error of its own.

## Conventions

* C++ integer division and remainder truncate and are written out (`TruncDiv`, `TruncMod`), as are
  the conversions to unsigned 64 and signed 32 bits where they matter.
* A copy of the match state starts with an empty set of expanded matchers, as its copy constructor does.
* Exceptions are `Err` results. The text of a message is only indicated.
* `Run` takes a fuel that bounds the depth of the recursion and is `Stuck` if it does not suffice.
  The methods require that some fuel suffices, which says that the run ends. `MatchTerminates`
  proves it for graphs with a rank, and `MoreFuel` that the result does not depend on the amount.
* The constructors of the C++ classes that the serializers create are not in the schemas. They are
  taken to store their arguments under the name of the member and, for members of base classes they
  are not given, fixed values.

## Model

| member | source | states |
|---|---|---|
| PegMatcher.AddSuggestion | extension/autocomplete/matcher.cpp:22-29 | the call changes the state exactly as `Suggest` says; it ends on cyclic graphs because each expansion enlarges the set of expanded matchers |
| PegMatcher.AddSuggestionInternal | extension/autocomplete/matcher.cpp:125-135 | list, optional, choice and repeat collect the suggestions of their children in order and report optional only as their kind says |
| PegMatcher.Match | extension/autocomplete/matcher.cpp:93-123 | verdict, token index and suggestions are those of `Run`; leaves are only called with a token left |
| PegMatcher.MatchList | extension/autocomplete/matcher.cpp:93-123 | the list succeeds with all children, or when the tokens run out and the remaining children are skipped (`SkippedIff` says when); when it fails, the token index is left at the end iff the tokens ran out |
| PegMatcher.MatchOptional | extension/autocomplete/matcher.cpp:160-170 | always succeeds, moving only if the child matched |
| PegMatcher.MatchChoice | extension/autocomplete/matcher.cpp:195-206 | first child that does not fail, each tried from the same index |
| PegMatcher.MatchRepeat | extension/autocomplete/matcher.cpp:238-267 | one match, then as many as succeed while tokens are left |
| PegMatcher.CheckStatements | extension/autocomplete/autocomplete_extension.cpp:439-464 | reports the first non-empty statement that is not matched completely, if there is one, and when the token index in the error is past the tokens |
| PegSoundness.RunIsSound | extension/autocomplete/matcher.cpp:93-123 | a match from one index to another has a parse tree of the matcher whose leaves are the tokens between, also when the rest of a list was only suggested |
| PegSoundness.ListIsSound | extension/autocomplete/matcher.cpp:93-123 | the children of a matched list have trees that concatenate to its tokens |
| PegSoundness.RepeatIsSound | extension/autocomplete/matcher.cpp:238-267 | the rounds of a repeat have trees that concatenate to its tokens |
| PegSoundness.OptionalIsNullable | extension/autocomplete/matcher.cpp:125-135 | a matcher that reports optional derives the empty sequence |
| PegSoundness.SuggestExpandsOnce | extension/autocomplete/matcher.cpp:22-29 | every expanded matcher is expanded once and was not expanded before, and suggestions are only appended, in that order |
| PegSoundness.MatchTerminates | extension/autocomplete/matcher.cpp:93-123 | without left recursion and with repeats that consume, tokens left and rank bound every run |
| PegSoundness.RunProgresses | extension/autocomplete/matcher.cpp:238-267 | the index stays in bounds and a match that does not move is of a nullable matcher |
| PegSoundness.MoreFuel | extension/autocomplete/matcher.cpp:93-123 | a run that ends has one result, whatever bound it is given |
| PegSoundness.MatchIgnoresBookkeeping | extension/autocomplete/matcher.cpp:195-206 | verdict and index depend on the graph, the tokens and the index alone, not on suggestions made in attempts that failed |
| PegSoundness.ListDependsOnExpansions | extension/autocomplete/matcher.cpp:93-123 | the verdict of a list does depend on the expansions of the state it starts from |
| PegSoundness.SkippedIff | extension/autocomplete/matcher.cpp:99-117 | at the end of the tokens the remaining children are skipped iff walking through them, with children in place of lists, meets only optionals and lists, none of them met or expanded before |
| PegSoundness.SkippedOnce | extension/autocomplete/matcher.cpp:22-29 | so no matcher is met twice on a walk that is skipped |
| PegSoundness.DistinctWalkIsSkipped | extension/autocomplete/matcher.cpp:22-29 | and if the children of the optionals do not lead back to the walk, that is enough |
| PegSoundness.RepeatedOptionalIsRejected | extension/autocomplete/matcher.cpp:99-117 | a statement that is derived and rejected, because an optional occurs twice at its end |
| PegSoundness.OneChildStaysInside | extension/autocomplete/autocomplete_extension.cpp:449-464 | a root with one child, like the one of the shipped grammar, never leaves the token index at the end of a rejected statement |
| PegSoundness.TwoChildrenFailAtEnd | extension/autocomplete/autocomplete_extension.cpp:449-464 | a root with two children that does |
| PegSoundness.SuggestIgnoresEmitted | extension/autocomplete/matcher.cpp:22-29 | what is expanded and reported does not depend on the suggestions collected before |
| PegSoundness.AcceptedIsDerived | extension/autocomplete/autocomplete_extension.cpp:439-464 | an accepted statement is derived by the root matcher |
| PegMeaning.RunIffShown | extension/autocomplete/matcher.cpp:93-267 | a run ends with a verdict exactly if it can be shown from verdicts of children: a list fails at a child that fails or where the rest is not skipped, a choice only if all alternatives fail, an optional never, and a repeat stops only where its element fails or the tokens end |
| PegMeaning.OneVerdict | extension/autocomplete/matcher.cpp:93-267 | only one verdict can be shown of a matcher at an index |
| PegMeaning.ChoiceFailsIff | extension/autocomplete/matcher.cpp:195-206 | a choice fails iff every alternative fails from the same index |
| PegMeaning.ChoiceStopsIff | extension/autocomplete/matcher.cpp:195-206 | it stops where its first alternative that does not fail stops |
| PegMeaning.OptionalStopsIff | extension/autocomplete/matcher.cpp:160-170 | an optional never fails, and stays in place iff its child fails or matches in place |
| PegMeaning.ExpandedAfter | extension/autocomplete/matcher.cpp:238-267 | what a match leaves expanded: nothing new, except that a repetition that takes the last token expands its element |
| PegMeaning.KeywordIgnoresCase | extension/autocomplete/matcher.cpp:55-64 | a keyword matches the tokens that differ from it in the case of letters at most |
| PegMeaning.RunAppends | extension/autocomplete/matcher.cpp:93-267 | a run only appends suggestions, also when it fails |
| PegMeaning.ExpansionsAreClosed | extension/autocomplete/matcher.cpp:125-135 | with a matcher the child of an optional or repeat, all alternatives of a choice and the first child of a list are expanded |
| PegCompleteness.DerivedIsMatched | extension/autocomplete/matcher.cpp:93-267 | where the next token decides, whatever a matcher derives is matched in front of what may follow it |
| PegCompleteness.AcceptedIffDerived | extension/autocomplete/autocomplete_extension.cpp:439-464 | there the accepted statements are exactly those derived |
| PegCompleteness.TwoWordsArePredictive | extension/autocomplete/matcher.cpp:93-267 | a grammar with a choice and an optional where the next token decides |
| PegCompleteness.FirstAlternativeIsKept | extension/autocomplete/matcher.cpp:195-206 | a grammar where it does not, and a statement that is derived and rejected |
| PegPattern.BodyOfPrint | extension/autocomplete/matcher.cpp:984-1083 | reading the printed tokens of any items gives back the items: postfix operators wrap the last item, a slash joins two, a bracket or call is one |
| PegPattern.BodyPrints | extension/autocomplete/matcher.cpp:984-1083 | what a complete token list is read as prints to these tokens, without the ignored ones |
| PegPattern.BodyIffPrinted | extension/autocomplete/matcher.cpp:984-1083 | for complete token lists the two are equivalent, so the reading is the only one |
| PegPattern.ElaboratePrints | extension/autocomplete/matcher.cpp:984-1083 | at every point of the reading the open brackets print to the tokens read |
| PegExpansion.BindingIsSubstitution | extension/autocomplete/matcher.cpp:991-1002 | expanding with a bound parameter is expanding the body with the argument in its place; rules referenced in the body do not see it |
| PegExpansion.CallIsSubstitution | extension/autocomplete/matcher.cpp:926-942 | a call generates the same token sequences as the body of the macro with the parameter replaced by the bracketed argument |
| PegExpansion.Rebind | extension/autocomplete/matcher.cpp:991-1002 | a body generates what it did when the argument is replaced by one that generates as much |
| PegCompiler.StillRepresents | extension/autocomplete/matcher.cpp:966-971 | a finished matcher keeps its meaning while others are under construction |
| PegCompiler.AddItemHolds | extension/autocomplete/matcher.cpp:881-900 | in every reachable state an item can be added, so that neither internal error occurs, and the stack then stands for the tokens read |
| PegCompiler.OpenListHolds | extension/autocomplete/matcher.cpp:910-913 | a call or bracket opens an empty list on top |
| PegCompiler.MakeOptionalHolds | extension/autocomplete/matcher.cpp:1012-1032 | `?` and `*` wrap the last item of the list on top, `*` as an optional repeat |
| PegCompiler.BeginChoiceHolds | extension/autocomplete/matcher.cpp:1033-1055 | `/` replaces the last item by a choice that starts with it and waits for the next |
| PegCompiler.CloseList | extension/autocomplete/matcher.cpp:914-925 | a closed bracket represents the list of its items |
| PegCompiler.CloseLoneChoice | extension/autocomplete/matcher.cpp:914-925 | a bracket closed while a choice waits adds the choice to its list once more |
| PegFactory.MatcherList.AddMatcher | extension/autocomplete/matcher.cpp:881-900 | appends to the list on top, or completes the choice on top and takes it off |
| PegFactory.MatcherList.MakeLastOptional | extension/autocomplete/matcher.cpp:1012-1032 | the exact edit of the list on top, or the error |
| PegFactory.MatcherList.MakeLastChoice | extension/autocomplete/matcher.cpp:1033-1055 | the exact edit of the list on top and of the stack, or the error |
| PegFactory.MatcherList.CloseBracket | extension/autocomplete/matcher.cpp:914-943 | closing a bracket or a call keeps the stack in step with the tokens read |
| PegFactory.MatcherList.CloseCall | extension/autocomplete/matcher.cpp:926-942 | a call becomes one item that represents the macro body with the argument |
| PegFactory.MatcherFactory.CompileToken | extension/autocomplete/matcher.cpp:984-1083 | every kind of token keeps graph, cache and stack in step with the reading, or the grammar is faulty |
| PegFactory.MatcherFactory.CompileReference | extension/autocomplete/matcher.cpp:991-1002 | the parameter is used directly, another rule is compiled without the caller's parameter |
| PegFactory.MatcherFactory.CompileTokens | extension/autocomplete/matcher.cpp:984-1086 | after all tokens the list at the bottom stands for the rule; an unclosed bracket is an error |
| PegFactory.MatcherFactory.CreateMatcher | extension/autocomplete/matcher.cpp:951-1089 | the matcher represents the rule, or the called body; matchers made before keep their meaning, the cache is consistent in spite of recursion, and an error means that a ranked rule is faulty |
| PegFactory.RuleCompiled | extension/autocomplete/matcher.cpp:1084-1088 | with all brackets closed the list of a rule is finished and its cache entry right |
| PegGrammarCompiler.SameTrees | extension/autocomplete/matcher.cpp:951-1089 | a matcher that represents a pattern has the same parse trees, through all cycles |
| PegGrammarCompiler.CreateRootMatcher | extension/autocomplete/matcher.cpp:1100-1112 | the compiled graph has exactly the parse trees of the root rule; there is no error if the rules that are reached are sound |
| PegCalls.RanksIffNoCircle | extension/autocomplete/matcher.cpp:907-959 | a root has the ranks that compiling needs iff no macro that it reaches, through references and calls, calls itself, directly or through others |
| PegCalls.RecursiveMacroHasNoRank | extension/autocomplete/matcher.cpp:907-959 | a macro that passes its parameter to itself: there are no ranks if the root calls it, and there are if the root does not reach it |
| PegGrammarCompiler.AddKeywordOverrides | extension/autocomplete/matcher.cpp:1091-1094 | every special keyword gets a matcher, and of keywords that differ only in case the first one is used |
| PegGrammarCompiler.AcceptedIsGenerated | extension/autocomplete/autocomplete_extension.cpp:439-464 | a statement accepted by the compiled graph is generated by the grammar |
| PegGrammarCompiler.AcceptedIffGenerated | extension/autocomplete/autocomplete_extension.cpp:439-464 | where the next token decides, the accepted statements are exactly those the grammar generates |
| PegGrammarText.PEGParser.ParseRules | extension/autocomplete/matcher.cpp:675-859 | the cursor loop reads the rules that `Parse` says, or fails as it does |
| PegGrammarText.PEGParser.Insert | extension/autocomplete/matcher.cpp:644-650 | a rule is added unless its name is taken |
| PegGrammarText.ReadsPastTheEndIff | extension/autocomplete/matcher.cpp:762-815 | reading a token runs past the end of the text iff a literal without unescaped quote ends in an escape, or a regular expression has no unescaped closing character |
| PegGrammarText.GrammarsReadPastTheEnd | extension/autocomplete/matcher.cpp:762-815 | one grammar of either kind |
| PegGrammarText.ReadToken | extension/autocomplete/matcher.cpp:755-842 | the token that `ScanToken` finds at the cursor, and where it ends |
| PegGrammarSpelling.TokenScan | extension/autocomplete/matcher.cpp:755-842 | a token spelled at the cursor, a literal with or without its marker, is scanned as that token with its marker |
| PegGrammarSpelling.ScannedIffSpelled | extension/autocomplete/matcher.cpp:755-842 | and a token is scanned only if it is spelled there and the next character does not belong to it |
| PegGrammarSpelling.LineIsSpelled | extension/autocomplete/matcher.cpp:675-859 | every well-formed rule has a spelling |
| PegGrammarRoundTrip.RoundTrip | extension/autocomplete/matcher.cpp:675-859 | however rules are spelled (markers of literals, white space, newlines in brackets, after a slash and around names and arrows, blank lines, comments, a last rule without newline), they are read back, and two rules of one name are an error |
| PegGrammarReading.ReadsExactlySpellings | extension/autocomplete/matcher.cpp:675-859 | conversely every text that is read is such a spelling of the rules read: the reader accepts exactly the spellings of grammars without duplicate names |
| PegGrammarReading.StepDrafted | extension/autocomplete/matcher.cpp:675-859 | at every point of the reading the text read so far is that of a draft of the grammar, and state, brackets and open choice are those of the draft |
| PegGrammarRoundTrip.TextMeansPatterns | extension/autocomplete/matcher.cpp:675-859 | the tokens of patterns, however they are spelled, are read and compiled to items that are the patterns |
| PegGrammarRoundTrip.RulesAreClosable | extension/autocomplete/matcher.cpp:691-701 | in every rule but the one that the end of the text closes, brackets are balanced and no `/` is last |
| PegGrammarRoundTrip.PrintAllBalanced | extension/autocomplete/matcher.cpp:820-837 | printed items have balanced brackets and do not end in a slash |
| PegGrammarRoundTrip.LoneChoiceIsDoubled | extension/autocomplete/matcher.cpp:914-925 | tokens whose one-armed choice is compiled twice |
| PegGrammarRoundTrip.RulesHaveNoLoneChoice | extension/autocomplete/matcher.cpp:691-701 | in a rule read from text, where no bracket closes too much, it leaves a bracket unclosed, so that the rule does not compile |
| Tokenizer.ParserTokenizer.PushToken | extension/autocomplete/tokenizer.cpp:130-136 | pushes the slice unless it is empty |
| Tokenizer.ParserTokenizer.OnStatementEnd | extension/autocomplete/autocomplete_extension.cpp:406-409 | the tokens become a statement and the buffer is cleared |
| Tokenizer.ParserTokenizer.BeginLexeme | extension/autocomplete/tokenizer.cpp:145-204 | the standard state starts the lexeme that `Scan` finds |
| Tokenizer.ParserTokenizer.ContinueWord | extension/autocomplete/tokenizer.cpp:205-240 | numbers, operators and keywords end where `Scan` says, numbers after going back to a digit or point |
| Tokenizer.ParserTokenizer.ContinueQuoted | extension/autocomplete/tokenizer.cpp:241-264 | strings and quoted identifiers end where `Scan` says |
| Tokenizer.ParserTokenizer.TokenizeInput | extension/autocomplete/tokenizer.cpp:138-298 | the loop ends although numbers go back, and gives the tokens and statements of `Lex`, or reports an open comment |
| TokenizerProperties.PiecesAreTheInput | extension/autocomplete/tokenizer.cpp:138-298 | the pieces the lexer passes over are, in order and without gaps, the input |
| TokenizerProperties.PiecesAreWellShaped | extension/autocomplete/tokenizer.cpp:138-298 | words are not empty and all other pieces are a blank, a semicolon or a comment |
| TokenizerProperties.LexIsSplit | extension/autocomplete/autocomplete_extension.cpp:402-418 | tokens are the words between semicolons, statement by statement |
| TokenShapes.CharacterClasses | extension/autocomplete/tokenizer.cpp:45-128 | which characters are single-byte operators and belong to operators, numbers and keywords |
| TokenShapes.ScanHasShape | extension/autocomplete/tokenizer.cpp:138-298 | what is scanned has its shape: a quoted token runs from quote to quote with the quotes inside in pairs, keywords and operators are maximal runs, numbers the longest part of a run that ends in a digit or point |
| TokenShapes.PieceIsUnique | extension/autocomplete/tokenizer.cpp:138-298 | the shape decides where a piece ends and what it is |
| TokenShapes.PiecesAreACut | extension/autocomplete/tokenizer.cpp:138-298 | the pieces the lexer passes over lie one behind the other to the end of the input, each of its shape |
| TokenShapes.CutIsUnique | extension/autocomplete/tokenizer.cpp:138-298 | there is only one way to cut a script into such pieces |
| TokenShapes.LexOfCut | extension/autocomplete/autocomplete_extension.cpp:402-418 | reading fails iff the cut ends in an open comment; otherwise tokens and statements are those of the cut |
| TokenizerProperties.NormalForm | extension/autocomplete/tokenizer.cpp:138-298 | the tokens of a single statement that does not end in a string literal, joined by single spaces, lex to the same tokens |
| TokenizerProperties.WordRelexes | extension/autocomplete/tokenizer.cpp:205-240 | a word copied in front of a space or the end is read as the same word |
| TokenizerProperties.RestRelexes | extension/autocomplete/tokenizer.cpp:282-298 | the unfinished word at the end of the input is read again as it is |
| LambdaExecution.ListFilterInfo.SkipEmpty | extension/core_functions/lambda_functions.cpp:119-124 | entries of empty lists are set without leaving the given lengths |
| LambdaExecution.ListFilterInfo.Take | extension/core_functions/lambda_functions.cpp:115-146 | one element moves the cursor; it never reads past the given lengths, and finished entries stay right |
| LambdaExecution.Finishes | extension/core_functions/lambda_functions.cpp:134-145 | the last element of a list completes its entry: offset and length are its share of the results so far |
| LambdaExecution.StaysInside | extension/core_functions/lambda_functions.cpp:126-132 | an element inside a list changes no entry |
| LambdaExecution.CursorAtEnd | extension/core_functions/lambda_functions.cpp:148-153 | when every element has been seen the cursor is past the last list and every entry final |
| LambdaExecution.LambdaExecuteInfo.SelectKept | extension/core_functions/lambda_functions.cpp:104-146 | the selection vector picks exactly the elements of the chunk whose lambda value is valid and true |
| LambdaExecution.LambdaExecuteInfo.AppendFiltered | extension/core_functions/lambda_functions.cpp:104-160 | the chunk adds its filtered elements to the result and the cursor passes over it |
| LambdaExecution.LambdaExecuteInfo.AppendTransformed | extension/core_functions/lambda_functions.cpp:82-85 | the chunk adds its lambda values to the result |
| LambdaExecution.LambdaExecuteInfo.BeginRow | extension/core_functions/lambda_functions.cpp:300-312 | NULL rows are marked and count as empty; list_transform sets the entry at once |
| LambdaExecution.LambdaExecuteInfo.ExecuteRow | extension/core_functions/lambda_functions.cpp:319-347 | the elements of a row are run in chunks, across rows, in order |
| LambdaExecution.LambdaExecuteInfo.ExecuteRows | extension/core_functions/lambda_functions.cpp:297-354 | all elements are run, the last chunk even if it is empty |
| LambdaExecution.TransformIsMap | extension/core_functions/lambda_functions.cpp:82-85 | the lambda values of elements are their list_transform result |
| LambdaExecution.ResultsInOrder | extension/core_functions/lambda_functions.cpp:134-145 | the slice of the result from the results before a row, as long as its own, is the filtered or transformed list of the row |
| LambdaExecution.TransformedRow | extension/core_functions/lambda_functions.cpp:319-347 | element by element: the lambda is given the element at its offset, its index in the list from one if it asks for it, and its row |
| LambdaExecution.FilteredRow | extension/core_functions/lambda_functions.cpp:104-146 | the elements kept of a row are those at exactly the increasing places whose lambda value is valid and true |
| LambdaExecution.ResultIsLaidOut | extension/core_functions/lambda_functions.cpp:134-145 | the lists of the rows lie one behind the other in the result, and nothing else does |
| LambdaExecution.ExecuteLambda | extension/core_functions/lambda_functions.cpp:270-359 | for every chunk size, rows, lambda and predicate: each row finds in the slice of its entry the lambda values of its elements in order, or its elements at exactly the places whose value holds; the slices tile the result, and a row is NULL iff its list is |
| SerializationCode.MakeMember | scripts/generate_serialization.py:364-395 | an explicit default always counts as a default, so that writer and reader treat a member alike |
| SerializationCode.WriteOfMember | scripts/generate_serialization.py:210-245 | a member is written iff it is not deleted, its version is known to the target, and its value is not its explicit default or the default of a type that has one, unless defaults are asked for |
| SerializationCode.ReadOfMember | scripts/generate_serialization.py:248-280 | a field with the id of the member is taken, and dropped if it is deleted; without it a deleted member has no value, the others their explicit default, the default of their type, or an error |
| SerializationStream.TypesWithDefault | scripts/generate_serialization.py:348-361 | strings, booleans and pointers have a default of their own |
| SerializationStream.ContainersHaveDefault | scripts/generate_serialization.py:348-361 | and so do containers |
| SerializationStream.TypesWithoutDefault | scripts/generate_serialization.py:348-361 | other types do not |
| SerializationStream.OptionsHaveNoDefault | scripts/generate_serialization.py:348-361 | nor do CSV options, although they look like containers |
| SerializationGenerator.CheckChildrenForDuplicateMembers | scripts/generate_serialization.py:745-763 | accepts exactly the trees in which no name and no id is met twice on the way down |
| SerializationGenerator.CheckIsPathwise | scripts/generate_serialization.py:745-763 | that is: along every inheritance path names and ids are distinct, siblings may share them |
| SerializationGenerator.GenerateBaseClassCode | scripts/generate_serialization.py:481-586 | the emitted writer and reader of a base class; the writer writes the stream of the members |
| SerializationGenerator.CollectConstructor | scripts/generate_serialization.py:595-650 | the constructor arguments in order, an error if one is not found, and the members up to the last one taken |
| SerializationGenerator.EmitMembers | scripts/generate_serialization.py:666-711 | writes of all members, and after the constructor call reads, assignments and parameters |
| SerializationGenerator.GenerateClassCode | scripts/generate_serialization.py:589-720 | the emitted writer and reader of a class, or the generator's error; the writer writes the stream of the members |
| SerializationRoundTrip.RunReads | src/include/duckdb/common/serializer/deserializer.hpp:62-115 | read instructions read the members in order, into locals or members alike |
| SerializationRoundTrip.MemberReadBack | scripts/generate_serialization.py:210-280 | what one member's writer leaves in the stream is what its reader takes, and the value is right iff the member is written or has its default |
| SerializationRoundTrip.LevelReadBack | scripts/generate_serialization.py:210-280 | the same for all members of a class, with distinct ids: a value that is not written is never taken from the next member |
| SerializationRoundTrip.UnsetsUndoSets | scripts/generate_serialization.py:518-562 | parameters set around nested reads are gone afterwards, whatever ran between |
| SerializationRoundTrip.BaseRun | scripts/generate_serialization.py:481-586 | the reader of a base class reads its members, calls the class of the enum value read, and assigns over its result |
| SerializationRoundTrip.ClassRun | scripts/generate_serialization.py:652-720 | the reader of a class reads all members in member order, in spite of the constructor call between them |
| SerializationRoundTrip.LiveField | scripts/generate_serialization.py:687-707 | every member that is not deleted has the value read, through a constructor argument, an assignment or a direct read |
| SerializationRoundTrip.OtherField | scripts/generate_serialization.py:637-644 | a parameter of the base class taken by the constructor is the one set |
| SerializationRoundTrip.SerializeInOrder | scripts/generate_serialization.py:652-653 | calling the base writer first writes the members of the path from the root down |
| SerializationStream.StreamOfObject | scripts/generate_serialization.py:210-245 | the stream of an object is the fields of the members of its path, in order, that are written |
| SerializationStream.ReadMembersIsReading | src/include/duckdb/common/serializer/deserializer.hpp:62-115 | reading members takes the fields that are there and gives the others their defaults, or fails |
| SerializationRoundTrip.RestoredIffKept | scripts/generate_serialization.py:481-720 | for every object: all members that are not deleted come back iff each is written for the target version or has its default; context and stream position are right in any case |
| SerializationRoundTrip.RoundTrip | scripts/generate_serialization.py:481-720 | written for a version that has all members, every object comes back |
| SerializationExample.ParsedExpressionIsWellFormed | src/include/duckdb/storage/serialization/parsed_expression.json:1-35 | the conditions of the round trip hold for the schema of expressions cut down to two children, with all members of the base class and `class` under the name of its property |
| SerializationExample.ComparisonsRoundTrip | src/include/duckdb/storage/serialization/parsed_expression.json:144-161 | in that schema every comparison comes back, its type through the parameter its base class sets |
| SerializationRoundTrip.NewerMemberIsLost | scripts/generate_serialization.py:236-245 | a member behind a closed version gate is lost |
| SerializationRoundTrip.LostEnumValue | scripts/generate_serialization.py:518-562 | if the enum value itself is lost, the reader fails or reads an object of another child |
| IcuCalendar.Calendar.SetTime | extension/icu/icu-datefunc.cpp:132-147 | the clock is the timestamp rounded down, the microseconds the rest, also before 1970 |
| IcuCalendar.Calendar.TryGetTime | extension/icu/icu-datefunc.cpp:100-122 | exact on an exact clock; a result is in range |
| IcuCalendar.Calendar.SubtractField | extension/icu/icu-datefunc.cpp:158-167 | the truncated quotient, by which the clock moves |
| IcuDateAdd.CalendarAddHour | extension/icu/icu-dateadd.cpp:35-53 | the clock is moved by the pieces of 32 bits, rounded after each |
| IcuDateAdd.HoursAreExact | extension/icu/icu-dateadd.cpp:35-53 | between exact ends the pieces add all hours |
| IcuDateAdd.AddTimeUp | extension/icu/icu-dateadd.cpp:98-102 | the clock is moved by milliseconds, seconds, minutes and hours, rounded after each |
| IcuDateAdd.AddTimeDown | extension/icu/icu-dateadd.cpp:112-117 | the same in the other order |
| IcuDateAdd.TimeIsExact | extension/icu/icu-dateadd.cpp:98-117 | between exact ends both orders add up to the time |
| IcuDateAdd.Add | extension/icu/icu-dateadd.cpp:55-120 | for all timestamps and intervals the result is that of the rounded clock, with its range checks; while the clock is exact it is where the clock stops plus the microseconds |
| IcuDateAdd.ClockIsExact | extension/icu/icu-dateadd.cpp:55-120 | without rounding the clock stops where the parts add up, and nothing is out of range |
| IcuDateAdd.PartsInOrder | extension/icu/icu-dateadd.cpp:98-117 | in whole milliseconds adding an interval is adding its months, then its days, then its time |
| IcuDateAdd.NegativePartsInOrder | extension/icu/icu-dateadd.cpp:98-117 | and with a negative part its time, then its months, then its days |
| IcuRounding.UDateInReach | extension/icu/icu-datefunc.cpp:140-142 | how the clock rounds, as far as timestamps reach |
| IcuRounding.MovesIff | extension/icu/icu-dateadd.cpp:55-120 | without months: exactly when adding an interval moves a timestamp in its direction, and when it gives the timestamp back |
| IcuDateAdd.StopsAddUp | extension/icu/icu-dateadd.cpp:60-72 | without months that is the sum, for all timestamps and intervals, although the microseconds may stay negative |
| IcuDateAdd.AddFixed | extension/icu/icu-dateadd.cpp:55-120 | timestamp plus days and microseconds is exact whenever the clock is exact where it stops |
| IcuDateAdd.DaysAreOnClock | extension/icu/icu-dateadd.cpp:55-120 | for days that is the case iff both ends can be shown exactly |
| IcuDateAdd.Sub | extension/icu/icu-dateadd.cpp:127-131 | subtracting is adding the negated interval |
| IcuDateAdd.AddThenSub | extension/icu/icu-dateadd.cpp:127-131 | subtracting what was added gives the timestamp back |
| IcuDateAdd.LargeTimestampIsRounded | extension/icu/icu-datefunc.cpp:140-142 | a finite timestamp in the range of dates that the clock cannot show |
| IcuDateAdd.ClockIsRightIff | extension/icu/icu-datefunc.cpp:140-142 | which milliseconds the clock shows exactly |
| IcuDateAdd.SubtractFields | extension/icu/icu-dateadd.cpp:156-161 | five successive differences recombine to the whole, each below its unit |
| IcuDateAdd.GapsAddUp | extension/icu/icu-dateadd.cpp:144-152 | end and start in milliseconds and microseconds: the borrow keeps their distance, but across zero |
| IcuDateAdd.DifferenceRecombines | extension/icu/icu-dateadd.cpp:144-166 | days and time recombine to the difference iff the borrow does not cross zero, and are a millisecond too large otherwise |
| IcuDateAdd.TimeOfDifference | extension/icu/icu-dateadd.cpp:154-166 | the time is less than a day, and negative iff the end lies before 1970 and is rounded past a day |
| IcuDateAdd.DifferenceAcrossZero | extension/icu/icu-dateadd.cpp:144-152 | the microsecond before and the microsecond after the start of 1970 are 1002 microseconds apart |
| IcuDateAdd.DifferenceWithNegativeTime | extension/icu/icu-dateadd.cpp:154-166 | a day less a microsecond comes out as a day and minus one microsecond |
| IcuDateAdd.Difference | extension/icu/icu-dateadd.cpp:144-166 | the borrow, the five differences and the conversions give the specified days and time |
| IcuDateAdd.SubTimestamps | extension/icu/icu-dateadd.cpp:133-166 | in either order, with the exact conditions for a wrong difference and for a time of the wrong sign; an error for infinite timestamps |
| IcuRange.RangeIsUnique | extension/icu/icu-list-range.cpp:79-123 | there is at most one range of elements that start at the start, follow one another by the increment and lie within the bound, such that the next one would not, and none if the addition overflows |
| IcuRange.RangeOrMore | extension/icu/icu-list-range.cpp:79-123 | up to any number of elements there is the range, an overflow, or as many first elements |
| IcuRange.EndOfRange | extension/icu/icu-list-range.cpp:79-123 | upwards and downwards: no element lies beyond the end, and an end that is hit is an element iff the range is inclusive |
| IcuRange.ListLength | extension/icu/icu-list-range.cpp:79-123 | for every addition the counting loop gives the number of elements of the list, zero for a zero interval or the wrong direction, and fails iff there is no list |
| IcuRange.ListIsUnique | extension/icu/icu-list-range.cpp:79-123 | a row has at most one list |
| IcuRange.FillList | extension/icu/icu-list-range.cpp:165-176 | the elements counted out are the list |
| IcuRange.TableAccepts | extension/icu/icu-table-range.cpp:95-127 | a row of the table is accepted iff its bounds are finite, its interval is not zero and has one sign, and it does not lead away from the end |
| IcuRange.ICUListRangeFunction | extension/icu/icu-list-range.cpp:126-183 | for every addition the call succeeds iff every row has a list, and then the child is the lists, one behind the other, every entry is the slice of its list, and NULL rows are empty |
| IcuRange.ListAndTableAgree | extension/icu/icu-table-range.cpp:83-127 | list and table give the same elements for all arguments the table accepts, and where exactly they differ otherwise |
| IcuRange.ICURangeLocalState.FillOutput | extension/icu/icu-table-range.cpp:168-179 | for every addition one vector is the next elements of the row, never more than the vector size, and fewer only at the end of the row |
| IcuRange.ICURangeLocalState.ICUTableRangeFunction | extension/icu/icu-table-range.cpp:149-190 | for every addition a call ends; it gives a non-empty vector of one row that follows what was put out before, or all rows are complete and the state is as at the start |
| IcuRange.RunTable | extension/icu/icu-table-range.cpp:149-190 | if every row ends, so do the calls, and for every vector size they give row by row exactly the elements the list function gives |
| IcuRangeEnds.MovingRowEnds | extension/icu/icu-table-range.cpp:149-190 | a row ends if the addition moves towards its end at every timestamp between its bounds |
| IcuRangeEnds.FixedMovesIff | extension/icu/icu-table-range.cpp:149-190 | without months the calendar moves there exactly if no timestamp between the bounds stands still or is rounded back |
| IcuRangeEnds.FixedRowEnds | extension/icu/icu-table-range.cpp:149-190 | so every row without months ends whose bounds the clock shows exactly, with the milliseconds next to them |
| IcuRangeEnds.StandsStillForEver | extension/icu/icu-table-range.cpp:149-190 | if the addition gives the start back, the elements are the start for ever, without end and without overflow |
| IcuRangeEnds.RangeWithoutEnd | extension/icu/icu-table-range.cpp:149-190 | from 2^53 milliseconds by one millisecond: the table never ends and never fails, and there is no list |
| IcuTimeBucket.BucketIsUnique | extension/icu/icu-timebucket.cpp:64-78 | bounds and congruence determine the bucket |
| IcuTimeBucket.BucketIsIdempotent | extension/icu/icu-timebucket.cpp:64-78 | a bucket is its own bucket |
| IcuTimeBucket.BucketIsMonotone | extension/icu/icu-timebucket.cpp:64-78 | later timestamps have later buckets, across the origin |
| IcuTimeBucket.CorrectedTruncation | extension/icu/icu-timebucket.cpp:70-75 | truncation with its correction is the floor |
| IcuTimeBucket.WidthConvertibleToMicrosCommon | extension/icu/icu-timebucket.cpp:64-78 | the result is the bucket of the timestamp, on both sides of the origin |
| IcuTimeBucket.GuessAndCorrection | extension/icu/icu-timebucket.cpp:85-98 | for every origin: truncated clock days and one correction give the day bucket, or exactly in one case the next one; either asserted condition fails exactly in a case of its own |
| IcuTimeBucket.WidthConvertibleToDaysCommon | extension/icu/icu-timebucket.cpp:80-100 | for every origin the result is the day bucket iff it is not missed, and when either asserted condition holds |
| IcuTimeBucket.WholeMillisecondOrigin | extension/icu/icu-timebucket.cpp:85-98 | with an origin in whole milliseconds the bucket is never missed and the second condition holds; when the first one fails |
| IcuTimeBucket.EarlyOriginCountsADayTooMuch | extension/icu/icu-timebucket.cpp:93-97 | an origin before 1970 for which the first condition fails |
| IcuTimeBucket.FractionalOriginCountsADayTooMuch | extension/icu/icu-timebucket.cpp:93-97 | an origin after 1970 for which it fails |
| IcuTimeBucket.FractionalOriginMissesBucket | extension/icu/icu-timebucket.cpp:93-97 | an origin and a timestamp for which the result begins after the timestamp |
| IcuTimeBucket.MonthBucketIsUnique | extension/icu/icu-timebucket.cpp:102-134 | a month bucket is determined by its bounds and its distance from the month of the origin |
| IcuTimeBucket.WidthConvertibleToMonthsCommon | extension/icu/icu-timebucket.cpp:102-134 | truncating to months, the months between and their truncation with its correction give the month bucket |
| IcuTimeBucket.EqualMonthsAreValid | extension/icu/icu-timebucket.cpp:102-134 | months of thirty days are months as they are taken to be |
| IcuTimeBucket.ClassifyBucketWidthErrorThrow | extension/icu/icu-timebucket.cpp:41-62 | exactly the pure positive widths are accepted |
| IcuTimeBucket.BinaryOperator | extension/icu/icu-timebucket.cpp:159-203 | the bucket of the kind of the width, from the default origin of that kind; infinite timestamps are returned as they are |
| IcuTimeBucket.DefaultOrigins | extension/icu/icu-timebucket.cpp:20-25 | the default origin is the first of January 2000 for months and otherwise the third, which is a Monday |
| IcuTimeBucket.DefaultOriginNeverMisses | extension/icu/icu-timebucket.cpp:159-203 | from the default origin no day bucket is missed, and neither asserted condition fails |
| IcuTimeBucket.OriginTernaryOperator | extension/icu/icu-timebucket.cpp:261-310 | NULL for an infinite origin; otherwise the bucket from that origin iff it is not missed, and where it lies if it is |
| IcuTimeBucket.OffsetTernaryOperator | extension/icu/icu-timebucket.cpp:205-259 | the bucket of the timestamp moved back by the offset, moved forward by it |
| IcuTimeBucket.OffsetMovesOrigin | extension/icu/icu-timebucket.cpp:205-259 | without months that is the bucket from the origin moved by the offset |
| Amalgamation.Amalgamator.WriteFile | scripts/amalgamation.py:194-233 | every file the call adds is emitted once, as a whole; all it includes is written or excluded, and no excluded file is written but one asked for; over an acyclic include graph text follows the text included before it |
| Amalgamation.Amalgamator.WriteFiles | scripts/amalgamation.py:310-311 | the same for a list of files |
| Amalgamation.AddIncludeInOrder | scripts/amalgamation.py:221-226 | inlining an include keeps the order of the text |
| Amalgamation.InOrderAppend | scripts/amalgamation.py:221-226 | text in order put behind text in order stays in order |
| Amalgamation.GenerateSplits | scripts/amalgamation.py:475-501 | all files in order in non-empty parts, each but the last reaching its share only with its last file, at most `nsplits` if the last file is not empty |
| Amalgamation.CountParts | scripts/amalgamation.py:480-501 | why there are not too many parts |
| ExtensionFunctions.GetFunctions | scripts/generate_extensions_function.py:310-339 | rows grouped by function, in order |
| ExtensionFunctions.EntryMoves | scripts/generate_extensions_function.py:435-457 | adding an extension moves a function from one map to the other when its second provider appears |
| ExtensionFunctions.ExtensionData.AddFunctions | scripts/generate_extensions_function.py:435-457 | after any sequence of additions a function that is not a base function is in the one map iff exactly one addition provides it, and in the other with all overloads in order iff several do |

## Left out

* Leaf matchers (keyword categories, identifier quoting, operators) are predicates on one token; scoring, catalog lookups and the text of suggestions are not part of this model.
- CreateRootMatcher: requires that no macro reached from the root calls itself, directly or through others, given as ranks; nothing is stated about other roots.
- Match: requires a bound on the depth of the recursion that suffices; `MatchTerminates` gives one for graphs without left recursion.
- AcceptedIffDerived: the sets of first and following tokens are given; it is not stated that the shipped grammar has such sets.
- TokenizeInput: positions of tokens in the input are not kept, as in the statement tokenizer; the tokenizer for completion, which keeps the last position, is not modelled.
- NormalForm: says nothing about input that ends inside a string literal, which the tokenizer accepts and drops.
* Vector formats, validity masks of the lambda values and constant folding in the lambda functions; a lambda value is valid and true or it is not. The values of elements and of the lambda have one type.
- ExecuteLambda: the entry of a NULL row is not stated for list_transform, because the original leaves it as it was.
- SetTime: ICU's limit on its clock and its time zones are not modelled; the clock is that of a fixed offset.
- Add: months are an unspecified function of the clock, because their length is ICU's.
- WidthConvertibleToMonthsCommon: the months of ICU are functions that follow one another without gaps and count and add whole months from the start of one; their lengths are not modelled.
* Time buckets with a time zone of their own.
- ListLength: the addition is a parameter, `IcuRangeEnds.AdderOf` for the calendar; with months it is not known when it moves, since their length is ICU's.
* The age of timestamps in months, date parts, truncation, parsing and printing of timestamps.
* The C++ text of the generated serializers, custom switch code and custom implementations, return types and pointer kinds; accessor names that differ from the member name.
- GenerateBaseClassCode: the children are given in the order of their enum entries; the sorting is not modelled.
- RestoredIffKept: values are opaque and equal to the default iff the serializer takes them for it; objects inside objects are values; the enum value and the set parameters are taken to survive. `LostEnumValue` is what holds without the enum value; a lost set parameter is not covered.
- RoundTrip: leaf classes that set parameters list them in member order and read them before their constructor call, since the generated code refers to local variables.
- WriteFile: include statements are segments of a file, so that the text of one statement inside another file is not confused with it; line directives and licence banners are not modelled.
- GenerateSplits: the share of bytes is compared exactly, the original divides floating point numbers.
- AddFunctions: extension names are taken to be in lower case; settings are not modelled.
- ParsedExpressionIsWellFormed: members go by their property, so that the member the schema names `class` is `expression_class`; most child classes are not part of the example.
- AddKeywordOverrides: the scores of the special keywords are not modelled.
* Benchmark runners, packaging, formatting, upload and release scripts, jemalloc and the demo extensions.
