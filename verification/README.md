# autosuggest-core: a verified model

This project models the pure engine of autosuggest-core and its cached generator
runner in Dafny, and proves what the engine promises about them:

- the edit distance is the cost of a cheapest edit script, and a metric;
- the tokenizer's two scanners agree, its tokens tile the line at UTF-8 boundaries
  (section 3 of RFC 3629), it undoes quoting, and text after the cursor matters only
  where the model says exactly when;
- the parser keeps its invariants over every run, and a flag cluster means its flags
  exactly under a stated condition;
- what completion offers follows from what was consumed, end to end;
- ranking, history suggestion and correction each equal a short specification that does
  not mention sorting or deduplication, whatever the order of rules, PATH listings and
  hash maps;
- under any interleaving of runner calls, warm values are fresh, and they are the reading
  generator's own parse exactly when generators with one argv share their processing,
  which is read off their specs;
- encoded specs and responses decode to themselves, and an id can be salvaged from a line.

## How it is built

A Rust `str` is a Dafny `string` (a sequence of Unicode scalar values); `Utf8` gives its
bytes, and every byte offset in the tokenizer refers to those. Code that the repository
writes as loops over mutable state is a method with loops, and each method equals a
specification function; the lemmas are about these functions. A nested loop of the source
is a method of its own where its invariant is (`ScanSingle`, `ScanDouble`, `FillRow`,
`DrainSingle`, and so on). `hide` keeps definitions out of proofs that do not need them.

| module | source |
|---|---|
| `Levenshtein` | the two-row edit distance |
| `Text`, `Utf8`, `Sequences`, `Sorting`, `Wrappers` | the parts of the standard library the engine uses |
| `Scanner`, `Tokenize`, `TokenizeProperties`, `Quoting` | the tokenizer, and the grammar of quoting |
| `SpecTypes`, `Parse`, `ParseInvariants`, `ParseMeaning`, `FlagCluster` | the spec tree and the parse-state machine |
| `Complete`, `Rank`, `Engine`, `CompletionMeaning` | candidates, ranking and the whole completion |
| `History` | history autosuggestion |
| `Native`, `Correct`, `CorrectProperties`, `CorrectMeaning` | the correction engine |
| `Runner`, `RunnerProtocol`, `RunnerMeaning` | the cache, one call of the runner, and concurrent calls |
| `GeneratorOutput` | how output becomes suggestions, and which generators may share a key |
| `Json`, `SpecEncoding`, `SuggestionEncoding`, `TreeEncoding`, `Response`, `EncodedKeys` | the JSON forms |
| `Daemon` | the salvage parser and the index of specs |

## Where the code and its documentation differ

- The tokenizer's header says that a cursor at the trailing edge of a token edits it
  (crates/core/src/tokenize.rs:21-22). The code does so exactly if the token ends the line; before
  a blank it starts a new token and commits every token, those after the cursor included
  (crates/core/src/tokenize.rs:100-122 and 74-80). See `CursorAtTokenEndEditsIff` and
  `TextAfterCursorIsIgnoredIff`.
- `-lah` is documented as `-l -a -h` (crates/core/src/parse.rs:14-15). Apart, a flag after one that
  awaits a value is that value, and an ASCII flag that requires a separator awaits none; in a
  cluster every flag is seen and the last awaits its value. `ClusterCanDiffer` is an example and
  `ClusterMeansItsFlagsIff` the exact condition. The cluster test counts bytes, so one
  non-ASCII flag is already a cluster.
- A warm hit is documented to return the stored suggestion strings of the generator
  (crates/data/src/cache.rs:3-6). The key holds the argv and the directory but not the
  post-processing, so another generator's parse can come back. `WarmValuesAreOwnIffShared`
  gives the condition, and `WarmValuesAreOwnIffRulesAgree` puts it on the specs.

## Model

| member | source | states |
|---|---|---|
| `Levenshtein.Distance` | crates/core/src/correct/levenshtein.rs:15-51 | the number returned is attained by some edit script between the two strings and no script is cheaper, whichever string is shorter |
| `Levenshtein.FillRow` | crates/core/src/correct/levenshtein.rs:38-47 | from the distances of one prefix of the longer string to all prefixes of the shorter, the overwritten buffer holds those of the next prefix |
| `Levenshtein.TwoRows` | crates/core/src/correct/levenshtein.rs:34-50 | swapping the two buffers after each row leaves the distance of the whole strings in the last cell |
| `Levenshtein.DistanceIsCheapestCost` | crates/core/src/correct/levenshtein.rs:10-13 | the recurrence is the minimum number of insertions, deletions and substitutions over every script |
| `Levenshtein.BestScriptAttains` | crates/core/src/correct/levenshtein.rs:10-13 | a script read off the recurrence turns one string into the other at that cost |
| `Levenshtein.NoScriptIsCheaper` | crates/core/src/correct/levenshtein.rs:10-13 | every script costs at least the recurrence between its source and target |
| `Levenshtein.ZeroIffEqual` | crates/core/src/correct/levenshtein.rs:20-50 | the distance is zero exactly between equal strings |
| `Levenshtein.Symmetric` | crates/core/src/correct/levenshtein.rs:27-32 | exchanging the strings, as the short and long swap does, does not change the distance |
| `Levenshtein.ComposeTransforms` | crates/core/src/correct/levenshtein.rs:10-13 | two scripts in a row merge into one script that costs no more than both |
| `Levenshtein.TriangleInequality` | crates/core/src/correct/levenshtein.rs:20-50 | going through a third string is never shorter |
| `Levenshtein.LengthBounds` | crates/core/src/correct/levenshtein.rs:20-50 | the distance lies between the difference of the lengths and the longer length |
| `Utf8.BoundaryIffOffset` | crates/core/src/tokenize.rs:143-150 | the one-byte boundary test accepts exactly the offsets where characters start or the line ends |
| `Utf8.SliceOfOffsets` | crates/core/src/tokenize.rs:132-132 | slicing bytes at two character offsets is defined and gives the characters between them |
| `Utf8.OrderIsByteOrder` | crates/core/src/correct/mod.rs:329-334 | comparing strings by scalar values is comparing their UTF-8 bytes, which is how the code sorts |
| `Tokenize.LeadingByte` | crates/core/src/tokenize.rs:162-175 | a leading byte read as a Latin-1 character is whitespace, a quote or a backslash exactly when its character is an ASCII one; the bytes 0x85 and 0xA0 never lead |
| `Tokenize.ScanSingle` | crates/core/src/tokenize.rs:182-190 | the loop in single quotes stops past the next single quote, or at the end of the line, with the text of the automaton |
| `Tokenize.ScanDouble` | crates/core/src/tokenize.rs:195-210 | the loop in double quotes stops past the next double quote that no backslash escapes, or at the end of the line, with the text of the automaton |
| `Tokenize.TakeChar` | crates/core/src/tokenize.rs:212-223 | exactly one character, or a backslash and the one after it, is consumed and taken literally; a backslash that ends the line is kept |
| `Tokenize.ScanToken` | crates/core/src/tokenize.rs:169-227 | the token ends at the first blank outside quotes and escapes, at its byte offset, with its logical text |
| `Tokenize.Lex` | crates/core/src/tokenize.rs:154-238 | the byte-wise lexer yields the tokens of the character automaton, and slices and decodes at char boundaries only |
| `Tokenize.Unquote` | crates/core/src/tokenize.rs:247-286 | the streaming scanner yields the text of the same automaton |
| `Tokenize.ClampCursor` | crates/core/src/tokenize.rs:144-150 | the greatest char boundary at or below the cursor and the length of the line |
| `Tokenize.Snap` | crates/core/src/tokenize.rs:144-150 | no boundary lies between the result and the cursor |
| `Tokenize.FindEdited` | crates/core/src/tokenize.rs:95-124 | the loop finds the token the cursor is inside of, or at whose end the line ends; the branch for a following non-blank is never taken |
| `Tokenize.TokenizeLine` | crates/core/src/tokenize.rs:86-141 | the tokens of the line, the edited token and the unquoted part of it before the cursor |
| `Tokenize.SpanIsSliceable` | crates/core/src/tokenize.rs:227-234 | every span is non-empty, made of char boundaries, and its slice is the raw text |
| `Tokenize.TokenEndsBeforeBlank` | crates/core/src/tokenize.rs:104-112 | what follows a token is whitespace or the end of the line |
| `TokenizeProperties.TokensTileTheLine` | crates/core/src/tokenize.rs:154-238 | spans are non-empty, in order and separated, and every byte outside them is ASCII whitespace |
| `TokenizeProperties.ScannersAgree` | crates/core/src/tokenize.rs:173-234 | a token's text is its unquoted raw text, plus one backslash only for an escape cut short at the end of the last token |
| `TokenizeProperties.QueryIsPrefixOfText` | crates/core/src/tokenize.rs:126-134 | the query is a prefix of the text of the token it is typed into |
| `TokenizeProperties.ClampIsGreatest` | crates/core/src/tokenize.rs:144-150 | the cursor counts as the greatest char boundary at or below it and the length of the line |
| `TokenizeProperties.TokenizedIs` | crates/core/src/tokenize.rs:74-141 | a token is edited iff the cursor is at its start, inside of it, or at its end and the end of the line; then the tokens before it are committed and the query is what is typed of it before the cursor, unquoted; or else all are committed and the query is empty |
| `TokenizeProperties.TokensOfPrefix` | crates/core/src/tokenize.rs:154-238 | cutting the line keeps the tokens that end before the cut and cuts the one that reaches it |
| `TokenizeProperties.TextAfterCursorIsIgnoredIff` | crates/core/src/tokenize.rs:74-141 | committed tokens and query are those of the line cut at the cursor exactly when the cursor is inside a token, at the end of one that ends the line, or past the end of every token |
| `TokenizeProperties.CursorAtTokenEndEditsIff` | crates/core/src/tokenize.rs:100-122 | with the cursor at the end of a token that token is edited exactly if it ends the line, and no other is |
| `TokenizeProperties.CursorAtTokenEndCommitsAll` | crates/core/src/tokenize.rs:100-122 | where a blank follows all tokens are committed, those after the cursor too |
| `TokenizeProperties.TextAfterCursorCanMatter` | crates/core/src/tokenize.rs:100-122 | a line and a cursor where the text after the cursor changes what is committed or the query |
| `Scanner.LogicalIsMonotone` | crates/core/src/tokenize.rs:247-286 | unquoting a prefix gives a prefix of unquoting the whole |
| `Quoting.SliceReads` | crates/core/src/tokenize.rs:173-234 | a slice reads as what its pieces stand for: quotes go, a backslash goes outside single quotes whatever it stands before, everything else stays; a backslash that nothing follows is dropped by one scanner and kept by the other |
| `Quoting.EverySliceIsWritten` | crates/core/src/tokenize.rs:247-286 | every slice is written in pieces, the last of which may stop short, so that is said of every slice |
| `Quoting.LineReads` | crates/core/src/tokenize.rs:154-238 | words between gaps of ASCII whitespace are the tokens, one for each, with the text, the raw text and the quoted flag of their pieces; blanks in quotes or after a backslash separate nothing |
| `Quoting.EveryLineIsLaidOut` | crates/core/src/tokenize.rs:154-238 | every line is laid out in such a way |
| `Quoting.LexUndoesQuoting` | crates/core/src/tokenize.rs:12-17 | words of any characters, each with backslashes, in single quotes or in double quotes, and joined by blanks, come back as the texts of the tokens |
| `Quoting.DoubleQuotedReads` | crates/core/src/tokenize.rs:195-210 | between double quotes a backslash stands for the character after it, whichever that is |
| `Quoting.SingleQuotedReads` | crates/core/src/tokenize.rs:12-17 | a word without single quotes reads as itself between them |
| `Parse.SplitInlineIs` | crates/core/src/parse.rs:300-315 | a text is split iff it starts with a dash and some separator other than blank and empty occurs in it; the first declared such separator stands, at its first occurrence, between the two parts |
| `Parse.LookupFindsFirst` | crates/core/src/parse.rs:281-295 | a form resolves to the first option that answers to it, options of the node before inherited ones, and to nothing if none does |
| `Parse.SubcommandFoundIsFirst` | crates/core/src/parse.rs:193-200 | the first subcommand that answers to the text is found, and none if none does |
| `Parse.ConsumeOption` | crates/core/src/parse.rs:221-272 | the loop over a cluster and the two other forms leave the seen names and pending option of the fold |
| `Parse.ParseTokens` | crates/core/src/parse.rs:90-174 | the loop over the tokens ends in the state of the fold, classified for the query |
| `ParseInvariants.RunKeepsInvariant` | crates/core/src/parse.rs:90-174 | in every run the path is a chain of children from the root no longer than the tree is high, the persistent options are those of the path, and seen and pending options are declared on it |
| `ParseInvariants.StepKeepsInvariant` | crates/core/src/parse.rs:100-147 | every token keeps that |
| `ParseInvariants.PersistentAreDeclared` | crates/core/src/parse.rs:176-183 | the inherited options are exactly the persistent ones that nodes of the path declare |
| `ParseInvariants.PathIsFrozen` | crates/core/src/parse.rs:132-145 | once a positional is consumed the path never changes |
| `ParseInvariants.ArgIndexCountsPositionals` | crates/core/src/parse.rs:202-216 | after k positionals the index is k, stopped at the first variadic argument |
| `ParseInvariants.VariadicIsLastReached` | crates/core/src/parse.rs:383-395 | arguments after a variadic one are never reached, and the fallback past the last argument is never taken |
| `ParseInvariants.CursorIsSound` | crates/core/src/parse.rs:328-381 | a classification names an option in scope that takes a value, the argument at the index, or a slot that the active node has |
| `ParseMeaning.ParsedIs` | crates/core/src/parse.rs:90-174 | parsing starts at the root with its persistent options and reads the committed tokens after the first |
| `ParseMeaning.DirectivesGovern` | crates/core/src/parse.rs:185-190 | the directives are those of the deepest node that declares any |
| `ParseMeaning.OptionTokenAwaitsIff` | crates/core/src/parse.rs:221-272 | an option token changes only what was seen and what awaits a value, and leaves an option awaiting iff no separator occurs in it and its last flag, or the whole, is that option, which takes a value, and as a whole does not require a separator |
| `ParseMeaning.OptionTokenSeesIff` | crates/core/src/parse.rs:221-272 | it is seen as exactly the options named before the separator, by a flag of a chain, or as a whole |
| `ParseMeaning.ValueTokenIs` | crates/core/src/parse.rs:103-108 | a token after an option that awaits a value is that value, and nothing else happens |
| `ParseMeaning.ChildTokenIs` | crates/core/src/parse.rs:132-142 | before any positional a token that names a child descends to the first such child, restarts the positional index and inherits its persistent options |
| `ParseMeaning.PositionalTokenIs` | crates/core/src/parse.rs:143-146 | any other token is a positional and advances the index, unless its argument is variadic |
| `ParseMeaning.RunAwaitsIff` | crates/core/src/parse.rs:100-147 | after any tokens an option awaits a value iff the last was read as an option and leaves it awaiting |
| `ParseMeaning.AfterInlineValueNoValue` | crates/core/src/parse.rs:234-239 | the token after an option with an inline value is never taken for its value |
| `ParseMeaning.RunSeesIff` | crates/core/src/parse.rs:100-147 | after any tokens exactly those names were seen that some token, read as an option, names |
| `ParseMeaning.CursorIs` | crates/core/src/parse.rs:328-381 | what is completed, from the strongest signal to the weakest: the value awaited, the value after an equals sign, an option, a subcommand, the argument at the index, nothing |
| `ParseMeaning.InlineValueIs` | crates/core/src/parse.rs:317-324 | the text after the first equals sign of a query with a dash |
| `FlagCluster.ClusterMeansItsFlagsIff` | crates/core/src/parse.rs:241-263 | with chaining on and no dash or separator among the flags, a cluster leaves the parser where its flags apart do exactly when each flag swallowed apart names nothing or an option seen anyway, and the last, if it takes a value, awaits it apart too |
| `FlagCluster.ApartIs` | crates/core/src/parse.rs:100-130 | what flags apart do: a flag after one that awaits a value is that value, the others are seen, and the last may be left awaiting |
| `FlagCluster.FaithfulClusterMeansItsFlags` | crates/core/src/parse.rs:249-272 | in particular they agree if no flag but the last awaits a value and the last awaits one if it takes one |
| `FlagCluster.ClusterCanDiffer` | crates/core/src/parse.rs:14-15 | a spec for which `-ab` is not `-a -b` |
| `Complete.OptionCandidates` | crates/core/src/complete.rs:146-164 | the loop pushes the valid options, local ones first and inherited ones that no local one replaces |
| `Complete.RunnerOnlyAdds` | crates/core/src/complete.rs:65-122 | running generators adds candidates at the end and changes nothing else, and a runner that always fails adds none |
| `Complete.OnlyValuesAfterAwaiting` | crates/core/src/parse.rs:338-341 | after an option that awaits its value, only candidates for its first argument are offered, whatever is typed |
| `Complete.NoOptionsAfterPositionals` | crates/core/src/parse.rs:343-381 | where options must precede arguments, no option is offered after the first positional |
| `Complete.OfferedIff` | crates/core/src/complete.rs:146-195 | an option is offered iff it is local or an unshadowed inherited one, not used up, without conflict and with its dependencies seen |
| `Complete.MentionedStaysSeen` | crates/core/src/parse.rs:100-147 | an option consumed in any form, alone, inline or in a cluster, stays seen to the end of the run |
| `Complete.SeenOptionIsNotOffered` | crates/core/src/complete.rs:166-178 | over any token list, once an option was consumed in any form only repeatable options with its canonical name are offered |
| `Complete.OfferedIsInScope` | crates/core/src/complete.rs:146-164 | what is offered belongs to the active node or is a persistent option of the chain to it |
| `CompletionMeaning.CollectedIff` | crates/core/src/complete.rs:96-319 | the candidates are exactly the offers: subcommands in their slot, options there and in theirs, and suggestions, entries and generated values where a value is due, each with what it inserts, shows and matches |
| `Rank.IsSubsequence` | crates/core/src/rank.rs:184-196 | the greedy scan succeeds iff some strictly increasing embedding exists |
| `Rank.GreedyIsComplete` | crates/core/src/rank.rs:182-196 | greedy choice loses no embedding |
| `Rank.MatchesIff` | crates/core/src/rank.rs:170-180 | a name matches at all iff the query is a subsequence of it |
| `Rank.BestIsBest` | crates/core/src/rank.rs:145-158 | exact iff some name is the query, else prefix iff some name starts with it, else fuzzy iff some name embeds it |
| `Rank.HiddenSurvivesIff` | crates/core/src/rank.rs:113-119 | a hidden candidate shows iff a non-empty query is one of its names |
| `Rank.LongerQueryDropsMore` | crates/core/src/rank.rs:113-119 | typing more can only drop candidates that are not hidden |
| `Rank.RankTopN` | crates/core/src/rank.rs:92-109 | scoring in a loop, stable sort and truncation give the ranked survivors |
| `Rank.RankedIsTop` | crates/core/src/rank.rs:92-138 | the result starts the sorted, stable arrangement of all survivors, has their number or n items, nothing left out ranks before it, and scores are at most one |
| `Rank.ArrangementIsUnique` | crates/core/src/rank.rs:98-105 | that arrangement is the only one |
| `CompletionMeaning.ScoreIs` | crates/core/src/rank.rs:111-158 | a candidate is shown iff the query is empty or embedded in a name, or, if hidden, is one; its score is five times its priority or 50 plus 300, 225 or 120 for a full, initial or other match, up to 1000 |
| `CompletionMeaning.BetterMatchScoresHigher` | crates/core/src/rank.rs:145-158 | of one priority a full match scores higher than any other match, unless it has the highest score there is |
| `CompletionMeaning.RankedAreTop` | crates/core/src/rank.rs:92-109 | the items come by score, then fewer bytes, then text, and every shown candidate has its item unless all places are taken by items that rank no later |
| `History.DistinctRecentFirst` | crates/core/src/history.rs:115-136 | the loop that appends and counts yields the digest of the ordered entries |
| `History.DistinctDigests` | crates/core/src/history.rs:109-114 | each command once, by newest occurrence, with the directory of that occurrence |
| `History.CountsAreOccurrences` | crates/core/src/history.rs:124-126 | each count is the saturated number of occurrences, and the counts add up to the window exactly when none saturates |
| `History.RecentFirstIsStable` | crates/core/src/history.rs:143-152 | timed entries are permuted into descending time, ties as given |
| `History.OrderIs` | crates/core/src/history.rs:143-152 | a window with an entry without time stays as given; any other comes newest first, with entries of one time as given |
| `History.Autosuggest` | crates/core/src/history.rs:66-83 | the suggestion is the newest matching command whose newest occurrence ran in the directory of the request, or else the first entry in recency order that starts with the prefix |
| `History.BestIsFirst` | crates/core/src/history.rs:71-81 | the winner is the first match in the directory, or else the first match; the count never decides |
| `History.SuggestedIsExpected` | crates/core/src/history.rs:23-31 | dropping duplicates, counting and comparing keys comes down to those two scans |
| `History.SuggestionIs` | crates/core/src/history.rs:13-31 | nothing if nothing matches; else the newest match whose newest occurrence ran in the directory of the request, if there is one, or the newest match |
| `History.DedupKeepsAnswerIff` | crates/core/src/history.rs:20-22 | the answer is that of the rule on all entries, older occurrences included, exactly when the first matching entry in the directory is the newest of its command, or there is none, or nothing newest ran there and its command is the first match anyway |
| `History.DedupKeepsAnswerWithoutDirectory` | crates/core/src/history.rs:23-28 | so it always is for a request without a directory |
| `History.DedupCanChangeAnswer` | crates/core/src/history.rs:20-22 | a window in which a command ran in the directory, and later elsewhere, and is not suggested |
| `Native.CountNames` | crates/core/src/correct/native.rs:59-63 | the map holds each name of the listing with its number of occurrences |
| `Native.NearNames` | crates/core/src/correct/native.rs:65-72 | visiting the map in any order keeps exactly the names at distance one or two, once each |
| `Native.NoCommand` | crates/core/src/correct/native.rs:48-87 | the result does not depend on the order in which the map is visited |
| `Native.RankingIsRanking` | crates/core/src/correct/native.rs:65-77 | every near name once with its distance and frequency, by distance, frequency descending, then name |
| `Native.RankingIsUnique` | crates/core/src/correct/native.rs:73-77 | that determines the list, for any order of the listing |
| `Native.NoCommandIs` | crates/core/src/correct/native.rs:37-87 | sound and complete: one script per near name of the listing, with the first token replaced and the others unchanged |
| `Native.NoCommandIgnoresOrder` | crates/core/src/correct/native.rs:59-77 | a permuted listing gives the same scripts |
| `CorrectMeaning.NoCommandExactly` | crates/core/src/correct/native.rs:37-87 | for no command or one on the PATH nothing; for another each name of the listing one or two edits away, once, in place of the first token, by distance, frequency descending, then name |
| `Native.SubcommandTypo` | crates/core/src/correct/native.rs:99-143 | the loops over subcommands, names and distances give the specified scripts |
| `Native.SubcommandTypoIs` | crates/core/src/correct/native.rs:121-143 | every near known name replaces the unknown one, nearest first |
| `CorrectMeaning.TypoExactly` | crates/core/src/correct/native.rs:99-143 | for an unknown subcommand of a known command each name or alias one or two edits away takes its place, by distance, then name |
| `Native.SpecFoundIsFirst` | crates/core/src/correct/native.rs:105-111 | the first spec that answers to the name is found, and none if none does |
| `Correct.RewriteScript` | crates/core/src/correct/mod.rs:194-247 | editing the tokens step by step gives a script that splits into exactly the tokens with the one edit, or nothing where the rewrite does not apply; a regex rewrite gives the replaced script or an error |
| `CorrectMeaning.RuleProposesIff` | crates/core/src/correct/mod.rs:153-247 | a declarative rule whose patterns compile proposes a command iff the script starts with its prefix, its patterns match, no needle is asked for or one occurs, no exit code is asked for or the code is among them, its command exists, and its rewrite yields that command |
| `CorrectProperties.ErrorBlamesFirstFailure` | crates/core/src/correct/mod.rs:289-313 | a run that fails does so with the error of the first rule that fails, which names that rule and its pattern that does not compile, or that there is no such native rule |
| `Correct.DedupByCommand` | crates/core/src/correct/mod.rs:335-335 | adjacent candidates for the command of the last one kept are dropped |
| `Correct.CorrectWithLimit` | crates/core/src/correct/mod.rs:280-347 | gathering in a loop, two sorts, dropping duplicates and truncation give the specified result, or the first error |
| `Correct.CorrectByDefault` | crates/core/src/correct/mod.rs:264-272 | the same with at most five results |
| `CorrectProperties.PipelineIsAnswer` | crates/core/src/correct/mod.rs:328-343 | sorting, dropping adjacent duplicates and sorting again leaves the best origin of each distinct command, once, in rank order |
| `CorrectProperties.CorrectedIsTopOrigins` | crates/core/src/correct/mod.rs:286-346 | with unique ids a successful run returns the first `limit` of those, and their specification has no other solution |
| `CorrectMeaning.CorrectedExactly` | crates/core/src/correct/mod.rs:286-346 | a run of rules that can not fail returns the first `limit` results: every command that some rule proposes and that is a change, once, from the rule of highest priority and then lowest id, in order |
| `CorrectProperties.RuleOrderDoesNotMatter` | crates/core/src/correct/mod.rs:286-346 | permuting the rules changes neither success nor result |
| `CorrectProperties.SmallerLimitIsPrefix` | crates/core/src/correct/mod.rs:345-345 | a smaller limit returns a prefix |
| `CorrectProperties.CorrectionsAreChanges` | crates/core/src/correct/mod.rs:315-325 | no result is empty or the normalized script, and each is a command of a rule with that id and priority |
| `CorrectProperties.RewriteEditsTokens` | crates/core/src/correct/mod.rs:199-236 | splitting the rewritten script gives the tokens with the one edit asked for, and nothing is proposed where it does not apply |
| `CorrectProperties.RewriteIsIdempotent` | crates/core/src/correct/mod.rs:200-222 | a script corrected by inserting a flag or replacing a token is not corrected again |
| `Runner.TtlCache.Get` | crates/data/src/cache.rs:54-66 | the stored values while their time is not up, and a miss under a poisoned lock |
| `Runner.TtlCache.Put` | crates/data/src/cache.rs:71-88 | the entry expires its TTL after the given time; a zero TTL and a poisoned lock change nothing |
| `Runner.StoredUntilExpiry` | crates/data/src/cache.rs:51-88 | a stored value is found exactly until its time is up, and no other key is affected |
| `Runner.SandboxedRunner.Run` | crates/data/src/runner.rs:340-360 | warm values without execution, else the parse of the execution, stored under argv and directory with the time of entry; an error leaves the cache alone |
| `RunnerMeaning.UncachedRunsEveryTime` | crates/data/src/runner.rs:342-352 | a generator without `cache`, or with a period of zero, is executed every time and leaves the entries alone |
| `RunnerMeaning.ValuesLastTheirPeriod` | crates/data/src/runner.rs:340-360 | what a cold call computes is returned by a later call with its argv, directory and a positive period while less than `ttlMs` has passed, and not after |
| `RunnerProtocol.StepKeepsInvariant` | crates/data/src/runner.rs:340-360 | every step of every call keeps each entry backed by an execution that can not expire too late |
| `RunnerProtocol.ReturnedValuesAreSound` | crates/data/src/runner.rs:340-360 | under any interleaving a warm value is from a successful execution for the same argv and directory that began less than the storing TTL before the reading call's captured time; a cold value is the call's own |
| `RunnerProtocol.OnlyStoringChangesTheCache` | crates/data/src/cache.rs:68-88 | failures and zero TTLs never change the cache, and storing changes its own key only |
| `RunnerMeaning.UncachedIsNeverWarm` | crates/data/src/runner.rs:342-352 | under any interleaving a call of a generator that caches nothing does not end warm |
| `RunnerMeaning.EntriesChangeOnlyForCached` | crates/data/src/cache.rs:68-88 | only a store of a generator with a positive `ttlMs` changes the entries |
| `RunnerMeaning.WarmIsFromThePeriod` | crates/data/src/runner.rs:340-360 | a warm value is from an execution that began less than its generator's `ttlMs` before the time of the reading call |
| `RunnerMeaning.StoredIsFound` | crates/data/src/cache.rs:51-88 | what a call stores is found by every call with its argv and directory and a positive period that came less than `ttlMs` after it, until the key is stored again, and missed by one that came later |
| `RunnerProtocol.SharingMakesWarmOwn` | crates/data/src/runner.rs:347-358 | if generators with one argv share their processing, a warm value is the reader's own parse |
| `RunnerProtocol.WithoutSharingWarmIsForeign` | crates/data/src/cache.rs:17-23 | if they do not, some run of two calls returns another generator's parse |
| `RunnerProtocol.WarmValuesAreOwnIffShared` | crates/data/src/runner.rs:347-358 | the two together |
| `RunnerProtocol.CallAloneRuns` | crates/data/src/runner.rs:340-360 | from any state, the steps of one call without interruption return what the runner's method promises and leave the entries as it does |
| `GeneratorOutput.SplitIs` | crates/data/src/parse.rs:35-41 | the pieces joined by the delimiter are the output, and none contains the delimiter |
| `GeneratorOutput.OutputGivesKept` | crates/data/src/parse.rs:26-61 | pieces separated by the delimiter, or by line feeds if none is given, are trimmed unless `trim` is false, give the first group of `extract` if it is a valid pattern, and are left out if empty or without a match, in order |
| `GeneratorOutput.SameOutputIffSameRules` | crates/data/src/parse.rs:26-61 | without patterns, two generators read every output alike exactly when they have the same delimiter and both trim or both do not, defaults filled in |
| `GeneratorOutput.WarmValuesAreOwnIffRulesAgree` | crates/data/src/cache.rs:17-23 | in every run every warm value is the reader's own parse if cached generators with one argv have the same delimiter, trimming and pattern; without patterns, only if |
| `Text.TrimIs` | crates/data/src/parse.rs:46-46 | trimming leaves nothing of a blank text and no whitespace at either end of another |
| `Text.SplitReads` | crates/core/src/correct/mod.rs:140-142 | words spaced in any way are what a script splits into |
| `Text.EveryTextIsSpaced` | crates/core/src/correct/mod.rs:140-142 | every text is spaced in some such way |
| `SpecEncoding.NamesRoundTrip` | crates/core/src/types/string_list.rs:13-20 | one name or several decode to what was encoded |
| `SpecEncoding.GeneratorRoundTrip` | crates/core/src/types/mod.rs:179-212 | so does a generator with its cache settings |
| `SuggestionEncoding.VisitMap` | crates/core/src/types/suggestion.rs:156-202 | the loop over the entries decodes the object |
| `SuggestionEncoding.SecondNameIsDuplicate` | crates/core/src/types/suggestion.rs:171-176 | a second name is a duplicate, unless something before it fails first |
| `SuggestionEncoding.UnknownKeyIsIgnored` | crates/core/src/types/suggestion.rs:184-187 | an entry with an unknown key changes nothing, wherever it stands |
| `SuggestionEncoding.SuggestionRoundTrip` | crates/core/src/types/suggestion.rs:82-207 | a suggestion decodes to itself from the string or the object it is written as |
| `SuggestionEncoding.ShorthandIffString` | crates/core/src/types/suggestion.rs:41-53 | a suggestion is written as a string exactly when some string decodes to it |
| `TreeEncoding.ArgRoundTrip` | crates/core/src/types/mod.rs:127-161 | an argument decodes to itself, defaults skipped |
| `TreeEncoding.OptRoundTrips` | crates/core/src/types/mod.rs:61-124 | so does an option, with a repeat flag or count |
| `TreeEncoding.SubcommandRoundTrip` | crates/core/src/types/mod.rs:26-55 | so does every spec tree, by induction |
| `TreeEncoding.UnknownFieldIsIgnored` | crates/core/src/types/mod.rs:26-55 | a field the format does not know changes nothing |
| `EncodedKeys.SuggestionKeys` | crates/core/src/types/suggestion.rs:82-125 | what a suggestion that is more than a name has under each of its eight keys |
| `EncodedKeys.GeneratorKeys` | crates/core/src/types/mod.rs:179-212 | what a generator has under each of its keys, `ttlMs` within `cache` included |
| `EncodedKeys.ArgKeysAre` | crates/core/src/types/mod.rs:127-161 | what an argument has under each of its eight keys, false and empty values left out |
| `EncodedKeys.OptKeysAre` | crates/core/src/types/mod.rs:61-124 | what an option has under each of its nine keys |
| `EncodedKeys.DirectivesKeys` | crates/core/src/types/mod.rs:214-229 | what the directives have under each of their keys |
| `EncodedKeys.SubcommandKeysAre` | crates/core/src/types/mod.rs:26-55 | what a node has under each of its seven keys, its children in order |
| `Json.LookupPresent` | crates/core/src/types/mod.rs:30-54 | under each key of a written object the reader finds what was written or skipped |
| `Json.LookupIs` | crates/core/src/types/mod.rs:30-54 | no value is read where no field has the key, and two fields with it are an error |
| `Response.ResponseRoundTrip` | crates/protocol/src/response.rs:13-27 | every response decodes to itself |
| `Response.RoundTripsIffSuggestionLast` | crates/protocol/src/response.rs:15-27 | of all orders in which the untagged variants could be tried, exactly those work that try the suggestion last |
| `Response.VariantOnResponse` | crates/protocol/src/response.rs:57-88 | items and error refuse the other responses, while the suggestion accepts every response as none |
| `EncodedKeys.ItemKeys` | crates/protocol/src/response.rs:99-118 | what an item has under each of its keys |
| `EncodedKeys.ResponseKeys` | crates/protocol/src/response.rs:13-27 | the version, the id and the one payload of each response, a suggestion of none as null |
| `Daemon.ScanId` | crates/daemon/src/lib.rs:334-356 | the loop over sign and digits returns the specified number or nothing |
| `Daemon.ScanUndoesPrint` | crates/daemon/src/lib.rs:338-355 | scanning the decimal form of an integer gives it back iff it fits in 64 bits |
| `Daemon.ScanIdFindsPrinted` | crates/daemon/src/lib.rs:334-356 | after the first quoted id, anything without a colon, a colon and blanks, a printed integer is returned if it fits and nothing otherwise |
| `Daemon.ScanIdReads` | crates/daemon/src/lib.rs:334-356 | a number is found only after the first quoted id and the next colon, with nothing but blanks before its sign and digits, and is their value |
| `Daemon.IndexSpecs` | crates/daemon/src/lib.rs:302-310 | the map holds every name and alias with the first spec that has it |
| `Daemon.SpecForName` | crates/daemon/src/lib.rs:291-295 | looking a name up is finding the first spec that answers to it |
| `Engine.CompleteLine` | crates/core/src/lib.rs:72-120 | the stages composed, with the value after an equals sign as the effective query |
| `CompletionMeaning.LineIsCompleted` | crates/core/src/lib.rs:72-91 | the items of a line are the best fifty of the offers that its query shows, where the value after an equals sign is the query if there is one |
| `CompletionMeaning.ItemsAreTheOffers` | crates/core/src/lib.rs:72-91 | the same from the committed tokens and the query: every offer shown has its item unless fifty items rank no later |
| `CompletionMeaning.SubcommandsAreCompleted` | crates/core/src/complete.rs:103-111 | in the subcommand slot every subcommand that the query matches is completed to its name and a blank |
| `Engine.CompletionIgnoresTextAfterCursor` | crates/core/src/lib.rs:72-91 | completions are those of the line cut at the cursor, when it is inside a token, at the end of one that ends the line, or past the end of every token |
| `Engine.SamePrefixCompletesAlike` | crates/core/src/lib.rs:72-91 | two lines that agree up to such a cursor complete alike |
| `Engine.ItemsAreRankedCandidates` | crates/core/src/lib.rs:70-91 | at most fifty items, each a surviving candidate, with scores in range that never increase |
| `Engine.ItemsAreAllowed` | crates/core/src/lib.rs:72-91 | where options or subcommands are completed every item inserts a subcommand of the active node, in their slot only, or an option in scope, and one with the name of an option consumed earlier may repeat |

## Left out

- Regular expressions, directory listings, process execution and the PATH are parameters; filesystem listing, spec and rule loading, the stdio loop, the history store and the C interface are not part of this model.
- Floating point: scores are exact thousandths of the weighted sum, so ties between different priorities and qualities that a float separates in its last bit are ties here; a response score is a real number.
- JSON text: values are trees; escaping, number syntax and the positional array form that derived decoders also accept are not part of this model.
- Deadlines: times are unbounded ticks, so the panic of an instant that overflows is not part of this model; the spawning, killing and capping of child processes is one step with an arbitrary outcome.
- Error messages: an invalid regex carries its rule and pattern but not the compiler's text.
- `best_effort_id` before the salvage scan: it first tries the JSON parser.
- GeneratorOutput.WarmValuesAreOwnIffRulesAgree: the converse is for generators without patterns, because what a pattern matches is a parameter and different patterns may match alike.
