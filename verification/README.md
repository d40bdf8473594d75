# JobSafe contract-structure validator, modelled in Dafny

JobSafe checks whether an employment contract has its sections in the expected order.
It works in two stages.

1. **The line classifier.** `SymbolMapper.get_symbol` maps one line of contract text to
   one of nine section symbols, or to nothing:
   H header, R role, D duration, S scope/duties, C compensation, B benefits,
   F confidentiality, T termination, X signatures.
   - The line is stripped and lower-cased.
   - A line of 20 or more words is cut to its first 15 words.
   - The rule table is tried symbol by symbol, pattern by pattern. The first symbol with a
     pattern found in the text wins.
2. **The validator.** `PDAValidator` is a deterministic pushdown automaton over those
   symbols. It has ten states and a stack of block markers (`role_marker`, `pay_marker`).
   Its log records every push, every pop and every rejection.

The glue in the app joins the two stages. It strips the uploaded text, splits it into
lines and keeps the symbol of every line that has one.

## The Dafny modules

| file | module | what it holds |
|---|---|---|
| `symbols.dfy` | `Symbols` | the symbol alphabet, `Option`, and the canonical order (`Rank`) |
| `text.dfy` | `Text` | the Python string built-ins the classifier uses: `isspace`, `strip`, `lower`, `split()`, `" ".join`, `split('\n')` |
| `symbol_mapper.dfy` | `SymbolMapper` | the rule table, pattern search, `get_symbol` (as `GetSymbol`) and its properties |
| `mapper_examples.dfy` | `MapperExamples` | concrete lines worked through `GetSymbol` |
| `pda_validator.dfy` | `PDA` | the transition table, one step and a whole run as functions, and the `PDAValidator` class whose methods update `stack`, `currentState` and `log` in place |
| `pda_language.dfy` | `PDALanguage` | the stack invariant, the accepted language, and properties of repeated tokens |
| `pipeline.dfy` | `Pipeline` | from raw text to the token stream |

The classifier is pure in the source, so it is modelled as functions and lemmas.

The validator changes its fields step by step, so it is modelled as a class:
- `PDA.PDAValidator.ProcessToken` is proved against the function `PDA.Step`.
- `PDA.PDAValidator.Validate` is proved against `PDA.Process` and `PDA.Validation`.
- Everything the source promises about acceptance is proved about those functions.

The self-test block of `symbol_mapper.py` writes, at line 49, that "We need strictly
confidential treatment." should give F. Under the code it gives None: no pattern of the
table occurs in that line, because the confidentiality rule needs the full string
"confidentiality", of which "confidential" is only a prefix. The model follows the code
(`MapperExamples.ConfidentialHasNoSymbol`).

## Model

| member | source | states |
|---|---|---|
| Symbols.Rank | symbol_mapper.py:7-17 | each of the nine symbols has a position below 9 in the order the rule table lists them, H R D S C B F T X |
| Symbols.SymbolOfRank | symbol_mapper.py:7-17 | every position below 9 belongs to exactly the symbol whose rank it is (the inverse of `Rank`) |
| SymbolMapper.RulesInCanonicalOrder | symbol_mapper.py:7-17 | the rule table `Rules` and its nine pattern constants (`HeaderPatterns` … `SignaturePatterns`) transcribe lines 7-17; the rule table lists the nine symbols once each in canonical order, so the rule for s sits at `Rank(s)` |
| SymbolMapper.FirstMatchFrom | symbol_mapper.py:31-38 | no ensures of its own; the outer loop over the rules, characterised by `FirstMatchFromSpec`, `FirstMatchByRank` and `FirstMatchNone` |
| SymbolMapper.SearchFrom | symbol_mapper.py:35 | scanning from position i finds the pattern exactly when it occurs at some position j >= i, with a non-word character or the text's edge on both sides for a `\b` pattern |
| SymbolMapper.Search | symbol_mapper.py:35 | `re.search` finds a pattern exactly when it occurs somewhere in the text, respecting the word boundaries of `\brank\b`, `\bduration\b` and `\bsalary\b` |
| SymbolMapper.AnyPatternFrom | symbol_mapper.py:32-36 | the inner loop over one symbol's patterns succeeds exactly when one of the patterns from position m on is found |
| SymbolMapper.FirstMatchFromSpec | symbol_mapper.py:31-38 | the outer loop returns None exactly when no rule from k on matches; otherwise it returns the symbol of a matching rule with no matching rule before it |
| SymbolMapper.SearchText | symbol_mapper.py:26-29 | a line of 20 or more words is searched in a text whose words are exactly its first 15, separated by single plain spaces with no space at either end; a shorter line is searched whole |
| Text.JoinSingleSpaced | symbol_mapper.py:29 | `" ".join` of words leaves no whitespace except single plain spaces between two non-whitespace characters |
| SymbolMapper.FirstMatchByRank | symbol_mapper.py:31-36 | over a canonical table the loop returns s exactly when s's rule matches and no rule of lower rank does |
| SymbolMapper.FirstMatchNone | symbol_mapper.py:31-38 | over a canonical table the loop returns None exactly when no symbol's rule matches |
| SymbolMapper.GetSymbolIsFirstMatch | symbol_mapper.py:19-36 | `get_symbol` returns s exactly when the normalized line is not blank, s's rule matches the searched text, and no symbol tried before s matches (priority H R D S C B F T X) |
| SymbolMapper.GetSymbolNone | symbol_mapper.py:19-38 | `get_symbol` returns None exactly when the line is blank after stripping or no symbol's rule matches the searched text |
| SymbolMapper.GetSymbol | symbol_mapper.py:19-38 | no ensures of its own; `get_symbol`, characterised by `GetSymbolIsFirstMatch`, `GetSymbolNone`, `BlankLineHasNoSymbol`, `CaseInsensitive`, `PaddingIrrelevant` and `LongLineFirstFifteenWords` |
| SymbolMapper.BlankLineHasNoSymbol | symbol_mapper.py:20-22 | an empty or whitespace-only line has no symbol |
| SymbolMapper.CaseInsensitive | symbol_mapper.py:20 | two lines that lower-case to the same text get the same symbol |
| SymbolMapper.PaddingIrrelevant | symbol_mapper.py:20 | whitespace added before or after a line does not change its symbol |
| SymbolMapper.Normalize | symbol_mapper.py:20 | no ensures of its own; `line.strip().lower()`, characterised by `CaseInsensitive`, `PaddingIrrelevant` and `LowerStripCommute` |
| SymbolMapper.LongLineFirstFifteenWords | symbol_mapper.py:26-29 | two lines of 20 or more words whose first 15 words agree get the same symbol: later words are never searched |
| Text.StripRemovesPadding | symbol_mapper.py:20 | `strip()` leaves a part of the line that neither starts nor ends with whitespace, and only whitespace stands before and after it |
| Text.StripPadding | symbol_mapper.py:20 | whitespace added on either side of a line does not change what `strip()` leaves |
| Text.Strip | symbol_mapper.py:20 | no ensures of its own; `str.strip()`, characterised by `StripRemovesPadding` and `StripPadding` |
| Text.Lower | symbol_mapper.py:20 | `lower()` keeps the length and lower-cases each character in place |
| Text.LowerIdempotent | symbol_mapper.py:20 | lower-casing twice is lower-casing once |
| Text.LowerStripCommute | symbol_mapper.py:20 | lower-casing and stripping can be done in either order |
| Text.WordsAreWords | symbol_mapper.py:27 | every piece `split()` returns is non-empty and holds no whitespace |
| Text.WordsSplit | symbol_mapper.py:27 | a whitespace character separates the words on its two sides |
| Text.WordsBound | symbol_mapper.py:27 | a text of n characters has at most (n + 1) / 2 words |
| Text.Words | symbol_mapper.py:27 | no ensures of its own; `str.split()` with no argument, characterised by `WordsAreWords`, `WordsSplit`, `WordsBound` and `WordsJoin` |
| Text.WordsJoin | symbol_mapper.py:29 | splitting `" ".join(ws)` gives back the words ws |
| Text.Join | symbol_mapper.py:29 | no ensures of its own; `" ".join`, characterised by `WordsJoin` (splitting the join gives the words back) and `JoinSingleSpaced` |
| Text.SplitOn | app.py:72 | `split('\n')` returns at least one piece and no piece contains a newline |
| Text.JoinSplitOn | app.py:72 | joining the pieces of `split(sep)` with sep gives back the text |
| MapperExamples.FranklyHasNoSymbol | symbol_mapper.py:46 | "Frankly, I think this is a good idea." has no symbol |
| MapperExamples.RankInsideFrankly | symbol_mapper.py:9 | "rank" does occur inside that line as a substring, so only the word boundary keeps R out |
| MapperExamples.PositionIsRole | symbol_mapper.py:47 | "The Position is Junior Dev" gives R |
| MapperExamples.TermIsDuration | symbol_mapper.py:48 | "This contract has a long term duration." gives D |
| MapperExamples.RankIsRole | symbol_mapper.py:9 | "He holds the rank of supervisor." gives R through the whole word "rank" |
| MapperExamples.PriorityIsHeader | symbol_mapper.py:31-36 | a line with both "employment agreement" and "salary" matches the pay rule too, yet gives H |
| MapperExamples.ConfidentialHasNoSymbol | symbol_mapper.py:49 | "We need strictly confidential treatment." gives None, not the F the comment expects |
| PDA.Expected | pda_validator.py:53 | the tokens a rejection lists as expected are exactly those with a transition from the state |
| PDA.Transition | pda_validator.py:9-48 | no ensures of its own; the transition table, characterised by `Expected`, `StackFor`, `TableKeepsStack`, `TableExtendsLog`, `TableFollowsRanks`, `StartNeedsHeader` and `SelfLoopChangesNothing` |
| PDA.Step | pda_validator.py:50-71 | a token without a transition is rejected with one entry, leaving state and stack alone; a push puts its marker on top and logs it; a pop succeeds exactly when its marker is on top and then removes only it, otherwise it logs a dependency error and changes nothing; an accepted token moves to the table's target |
| PDA.Validation | pda_validator.py:73-94 | the empty stream gives (False, [EmptyStream]); the verdict is True exactly when the run of a non-empty stream ends in q_accept with an empty stack, and the log is then the run's log |
| PDA.Process | pda_validator.py:82-84 | no ensures of its own; the loop over the tokens, characterised by `RejectionStops`, `RejectedPrefix`, `RunFollowsTable`, `ProcessExtends` and `ProcessSnoc` |
| PDA.RejectionStops | pda_validator.py:82-84 | once a token is rejected, the tokens after it are never looked at |
| PDA.RejectedPrefix | pda_validator.py:82-84 | a stream with a rejected prefix is rejected with that prefix's log |
| PDA.PDAValidator.constructor | pda_validator.py:2-5 | a new validator has an empty stack, state q_start and an empty log |
| PDA.PDAValidator.ProcessToken | pda_validator.py:50-71 | the verdict, the new state and stack, and the entries appended to the log are those of `Step` on the old state and stack |
| PDA.PDAValidator.Validate | pda_validator.py:73-94 | the verdict and the returned log are `Validation(tokens)`, a function of the stream alone (the reset at lines 74-76); afterwards the fields hold the run's configuration and the returned log (for the empty stream the log field stays empty while `[EmptyStream]` is returned, lines 76 and 80) |
| PDALanguage.StackFor | pda_validator.py:9-48 | the stack each state calls for holds at most one marker, and is non-empty only in q_role, q_term and q_pay_base |
| PDALanguage.TableKeepsStack | pda_validator.py:9-48 | along every transition of the table the source state's stack becomes the target state's stack under the action, and every pop finds its marker on top |
| PDALanguage.StepKeepsStack | pda_validator.py:50-71 | from a configuration whose stack matches its state, a token is accepted exactly when it has a transition; the stack again matches the new state; no stack error is logged |
| PDALanguage.TableExtendsLog | pda_validator.py:59-67 | along every transition the log of the source state followed by the action's entries is the log of the target state |
| PDALanguage.StepExtendsLog | pda_validator.py:59-67 | an accepted token extends the log of the old state to the log of the new one |
| PDALanguage.StepFollowsTable | pda_validator.py:50-71 | one token keeps a run that follows the table on the table |
| PDALanguage.RunFollowsTable | pda_validator.py:82-84 | the stack invariant: along every run from q_start the stack is exactly the one the state calls for, the run is still going exactly when every token had a transition, and no stack error is ever logged |
| PDALanguage.AcceptsWhenTableAccepts | pda_validator.py:82-88 | validate accepts exactly when the stream is non-empty, every token has a transition and the table ends in q_accept |
| PDALanguage.NoStackErrorsReported | pda_validator.py:92-94 | no log validate returns contains a dependency error or an unresolved-dependencies entry: those branches are unreachable |
| PDALanguage.TableFollowsRanks | pda_validator.py:9-48 | after a token of section a the table accepts b exactly when b is of the same section or the next one, and then moves to b's state |
| PDALanguage.StartNeedsHeader | pda_validator.py:10-12 | from q_start only H is accepted |
| PDALanguage.SelfLoopChangesNothing | pda_validator.py:9-48 | a token of the section the automaton is in is accepted and changes neither state, stack nor log |
| PDALanguage.ReachChain | pda_validator.py:9-48 | the table runs a non-empty stream through exactly when it starts with H and each token stays in its predecessor's section or moves to the next, and it then ends in the last token's state |
| PDALanguage.AcceptsExactlyLanguage | pda_validator.py:82-88 | validate accepts exactly the streams that start with H, end with X and advance at most one section per token |
| PDALanguage.LanguageIsSectionOrder | pda_validator.py:7-8 | that language is H+ R+ D+ S+ C+ B+ F+ T+ X+: ranks never decrease and every section occurs |
| PDALanguage.AcceptsExactlySectionOrder | pda_validator.py:9-48 | validate accepts exactly the streams H+ R+ D+ S+ C+ B+ F+ T+ X+ |
| PDALanguage.ProcessExtends | pda_validator.py:82-84 | two streams that leave the loop in the same run still do after the same continuation |
| PDALanguage.RepeatLast | pda_validator.py:82-84 | repeating the last token of a stream changes nothing |
| PDALanguage.DuplicateToken | pda_validator.py:73-94 | writing any token of a stream twice in a row changes neither the verdict nor the log |
| PDALanguage.ProcessSnoc | pda_validator.py:82-84 | one more token either finds the run stopped or takes one step from where it was |
| PDALanguage.AcceptedLog | pda_validator.py:87-88 | every accepted stream logs the role block pushed and popped, then the pay block pushed and popped |
| PDALanguage.OneOfEachAccepted | pda_validator.py:9-48 | H R D S C B F T X is accepted with those four log entries |
| PDALanguage.IncompleteLog | pda_validator.py:89-91 | a stream that the table runs through to a state short of q_accept is rejected as incomplete in that state, after that state's log |
| PDALanguage.HeaderThenRole | pda_validator.py:15 | after H R the role block is open: state q_role, stack [role_marker], one push logged |
| PDALanguage.PayAfterRoleRejected | pda_validator.py:52-54 | H R C B F T X is rejected at C, which has no transition from q_role, and the rest is never read |
| PDALanguage.StopInPayIncomplete | pda_validator.py:89-91 | H R D S C is rejected as incomplete in q_pay_base |
| Pipeline.TokensStep | app.py:89-91 | one more line adds its symbol, if it has one, to the end of the stream |
| Pipeline.TokenStream | app.py:72-91 | the loop over the lines of the stripped text builds exactly the symbols of the lines that have one, in order |
| Pipeline.Positions | app.py:84-91 | the positions of the lines with a symbol are in range and strictly increasing |
| Pipeline.PositionsPickTokens | app.py:84-91 | the k-th token is the symbol of the k-th line that has one, and every line with a symbol contributes a token |
| Pipeline.TokensAppend | app.py:84-91 | the stream of two blocks of lines is the stream of the first followed by that of the second |
| Pipeline.BlankLineSkipped | app.py:89-90 | a blank line adds nothing to the stream, wherever it stands |

## Left out

- The Streamlit user interface is not modelled. This covers the page set-up, the upload and UTF-8 decoding, the progress bar, the pauses, the coloured messages and the choice of which log line to show. Only the glue at app.py:72-91 is modelled.
- The `__main__` block of symbol_mapper.py is not modelled as a program. Its four lines appear as lemmas in `MapperExamples`.
- Pattern search is not Python's `re` engine. Every pattern in the table is a lower-case literal, and three also have `\b` on both sides. The model searches for the literal and checks the `\b` condition against the ASCII word characters `[A-Za-z0-9_]`. For a non-ASCII letter or digit (any character Python's `str.isalnum()` accepts, such as '²', '٣' or '½') next to "rank", "duration" or "salary", Python's Unicode `\b` answers differently: in "salary²" Python's `\bsalary\b` finds no match, while the model's `WholeWord("salary")` does.
- `re.IGNORECASE` is left out: the model compares the lower-cased text with the pattern character for character. Python's case-insensitive matching also treats some non-ASCII letters as equal to ASCII ones that `lower()` leaves alone. For example, the dotless 'ı' (U+0131) matches 'i' and the long 'ſ' (U+017F) matches 's'. So Python gives R for the line "poſition", and `SymbolMapper.GetSymbol` gives None.
- `lower()` lower-cases only the ASCII letters A-Z. Python also lower-cases other letters, and some of them become ASCII letters. For example, the Kelvin sign U+212A becomes 'k', so Python gives R for "ran" followed by a Kelvin sign, and the model gives None. Differences of this kind, and the Unicode `\b` above, arise only from lines with non-ASCII letters or digits.
- Whitespace for `strip()` and `split()` is the set of characters that `str.isspace()` accepts.
- Tokens are typed as symbols. Python's `process_token` accepts any hashable value; an unhashable one raises `TypeError` at the membership test of pda_validator.py:52. A token outside the alphabet would always be rejected as unexpected, and the app only feeds it symbols.
- Log messages are datatype values, not the f-string texts. The expected tokens in a rejection are a set, not Python's list of dictionary keys.
- The transition table is a function, not a dictionary. The `.get(state, {})` default in process_token is never used, because every state has an entry.
- `validate` returns `self.log` itself, except for the empty stream, where it returns a new one-entry list; so the caller usually holds an alias of the validator's field. For a non-empty stream the model returns a value equal to the field. A later change through that alias is not modelled.
- The app tests `if symbol:`. A symbol is a non-empty string, so this is the same as testing for `Some`.
- Pipeline.Tokens: its own contract only bounds the length. What the stream holds is stated by Pipeline.PositionsPickTokens and Pipeline.TokenStream.
