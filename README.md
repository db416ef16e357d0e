# Online Corpus Editor — a verified model of the server's core logic

The Online Corpus Editor is a server for annotating a corpus of short texts
(tweets) with comments, tags, flags and language labels. Clients connect
over websockets or telnet; a controller turns their requests into calls on
a database provider; the provider keeps the records in SQLite with a
full-text index, a suffix index for infix search and a table of tag counts.
A small language identifier labels each record from boolean features of its
text.

This project models, in Dafny, the sequential logic inside that server and
proves what it does:

- `Supervisor` (`supervisor.dfy`): the restart/shutdown loop of `server/main.py`, with the loader as a sequence of outcomes.
- `FtsFields` (`fts_fields.dfy`): the field prefixes used for full-text search and the normalisation of language labels (`oce/providers/util.py`, and the older copies in `oce/db.py`).
- `QueryText`, `LegacyQuery` and `SearchQuery` (`query_text.dfy`, `legacy_query.dfy`, `search_query.dfy`): the rewriting of a search query into full-text, canonical and suffix queries, in the older back ends and the newer SQLite provider, and the paging of results.
- `TagCounts` (`tag_table.dfy`): the tag-count table, as a class whose map is updated in place.
- `SqliteProvider` (`provider.dfy`): `set_config`, `update_record`, `execute_retag`, and the statements `execute_drop` and `execute_recreate` choose.
- `Tokenisers` (`tokenisers.dfy`): the cursor-driven full-text tokeniser and the suffix tokeniser registered with SQLite.
- `DebugTokeniser` (`sqlite_debug.dfy`): the SQL functions of `server/sqlite_debug.py` that emulate the tokenisers.
- `TelnetCommands`, `TelnetParser` and `TelnetObject` (`telnet_commands.dfy`, `telnet_parser.dfy`, `telnet_object.dfy`): the telnet interface.
  - Abbreviated commands are picked from sorted tables.
  - `!` repeats the last command.
  - Messages are framed for the client.
  - Requests are built for the server, and its replies formatted.
- `Controller` (`controller.dfy`): the checks of `Act.__init__`, the dispatch of requests to the `exec_*` handlers, the paging of `exec_search`, the end of a watch where shutdown wins over restart, the client list, and the error replies of `langid_function`.
- `PinyinTable` and `LangidConstants` (`pinyin_table.dfy`, `pinyin_constants.dfy`): the table of valid pinyin initials and finals built by `tabulate_pinyin` in `oce/config.py` and `oce/langid/constants.py`.
- `Features` (`features.dfy`): the boolean features of `oce/langid/features.py`: Chinese characters, pinyin words, dictionary words and their combination.
- `Strings` and `Wrappers` (`strings.dfy`, `wrappers.dfy`): the Python string operations the code relies on (`isspace`, `strip`, `split`, `join`, case mapping, ordering, `sort`), and option and result types.

Where the source changes state step by step, the model is imperative:
- a method with loop invariants, proved against a specification function;
- a class whose fields its methods update.

The properties the code promises are proved as lemmas about those
functions.

Where the older and newer code paths say the same thing twice (the three
`_update_tags`, the two `tabulate_pinyin`, the two `process_query`), one
definition models all copies and the rows below cite each.

## Model

| member | source | states |
|---|---|---|
| Supervisor.Supervise | server/main.py:85-109 | the loop's calls of the loader, log entries, reads of `quit_flag`, logging resets and way of ending are those of the specification function `Loop` |
| Supervisor.LoopAfterRestart | server/main.py:86-93 | after a successful restart the loop calls `init`, reloads the loader module, lets it reload the rest, logs the restart and goes round again |
| Supervisor.LoopStops | server/main.py:86-109 | a shutdown or a silent return ends the loop cleanly and resets logging; any other exception escapes without the reset |
| Supervisor.RestartsThenShutdown | server/main.py:86-109 | n restarts then a shutdown make n + 1 calls of `init`, each restart followed by both reload steps, one logging reset and a clean end |
| Supervisor.RestartCyclesCount | server/main.py:88-93 | the scenario above calls `init` and each reload step exactly n times before the last `init` |
| Supervisor.ConfigNeverRederived | server/main.py:68-88 | every call of `init` receives the arguments built once before the loop |
| Supervisor.QuitFlagOneWay | server/main.py:85-104 | every read of `quit_flag` is false except possibly the last, which is true exactly when the loop ends without an exception |
| Supervisor.ResetIffClean | server/main.py:106-109 | logging is reset exactly once when the loop is left without an exception, and never otherwise |
| Supervisor.StopsAtFirstNonRestart | server/main.py:86-104 | the loop stops at the first outcome that is not a successful restart; later outcomes are never consulted |
| Supervisor.FailurePropagates | server/main.py:97-99 | any other exception, after any number of restarts, is logged as a system error and propagates, with no logging reset |
| Supervisor.ReloadFaultPropagates | server/main.py:89-93 | an exception raised by a reload step inside the restart handler is not caught by the sibling handlers |
| Supervisor.ReturnedIsLikeShutdown | server/main.py:100-104 | a silent return of `init` ends the loop like a shutdown, with the warning in place of the shutdown notice |
| FtsFields.FtsTag | server/oce/providers/util.py:29-33 | non-blank content of a tagged field gets the field's prefix; anything else is stored as given |
| FtsFields.FtsDetag | server/oce/providers/util.py:36-45 | `None` reads as the empty string; content starting with the field's prefix loses exactly that prefix; anything else is kept |
| FtsFields.BlankHasNoPrefix | server/oce/providers/util.py:22-26 | blank content never starts with a prefix, since every prefix starts with a letter |
| FtsFields.DetagTag | server/oce/providers/util.py:29-45 | removing the tag undoes adding it, for every field and every content |
| FtsFields.DbAddTagAgrees | server/oce/db.py:358-368 | the older tagging helper computes exactly what `fts_tag` computes |
| FtsFields.DbDetagAgrees | server/oce/db.py:372-384 | the older detagging helper computes exactly what `fts_detag` computes |
| FtsFields.NormaliseLanguage | server/oce/providers/util.py:53-55 | blank input normalises to the empty string |
| FtsFields.NormaliseLanguageShape | server/oce/providers/util.py:56-63 | non-blank input normalises exactly when no label is blank after stripping, and then gives as many labels as went in, each stripped and capitalised, sorted and joined by `", "` |
| FtsFields.DbPreUpdateLanguageAgrees | server/oce/db.py:310-322 | the older normaliser computes exactly what `langid_normalise_language` computes |
| FtsFields.CapitaliseNormal | server/oce/providers/util.py:59-60 | a stripped, comma-free, non-empty label capitalises to a label in normal form |
| FtsFields.NormalLabelsSorted | server/oce/providers/util.py:58-61 | the labels the normaliser sorts are all in normal form |
| FtsFields.SplitNormalJoin | server/oce/providers/util.py:58-62 | splitting a `", "`-joined list of normal labels on commas and stripping gives the labels back |
| FtsFields.NormalLabelsRecovered | server/oce/providers/util.py:58-62 | labels in normal form survive a round of join, split, strip and capitalise |
| FtsFields.NormaliseFixpoint | server/oce/providers/util.py:53-63 | a sorted `", "`-joined list of normal labels is left as it is |
| FtsFields.NormaliseIdempotent | server/oce/providers/util.py:53-63 | normalising a normalised value changes nothing |
| QueryText.LastQuote | server/oce/providers/sqlite/sqlite.py:386 | the index found holds the last `"` of the query, or there is none |
| QueryText.DropUnbalancedQuoteSpec | server/oce/providers/sqlite/sqlite.py:384-386 | after the clean-up the number of quotes is even; an even count is left alone and an odd one loses its last quote |
| QueryText.OddCount | server/oce/providers/sqlite/sqlite.py:384-386 | an odd count of quotes has a last quote, and removing it makes the count even |
| QueryText.CountWithout | server/oce/providers/sqlite/sqlite.py:386 | removing one character lowers its count by exactly one |
| QueryText.CollapseStars | server/oce/providers/sqlite/sqlite.py:388 | collapsing doubled asterisks never lengthens the query |
| QueryText.CollapseRun | server/oce/providers/sqlite/sqlite.py:388 | a run of n asterisks becomes a run of (n + 1) / 2, so `***` still leaves `**` |
| QueryText.CollapseKeepsOthers | server/oce/providers/sqlite/sqlite.py:388 | every character other than `*` is kept, in order |
| QueryText.CollapseNoPairs | server/oce/providers/sqlite/sqlite.py:388 | a query without a doubled asterisk is left unchanged |
| LegacyQuery.ProcessQuery | server/oce/db.py:391-443 | the rewritten full-text query and the canonical query are those of the word-list specification `RewriteSpec` |
| LegacyQuery.Accumulate | server/oce/db.py:399-434 | the word loop appends each word's full-text and canonical term with a space, skips `&`, and raises the positive flag exactly when some term is positive |
| LegacyQuery.AppendTerm | server/oce/db.py:405-434 | one more word appends its two terms and may only raise the flag |
| LegacyQuery.TermsAreWords | server/oce/db.py:392-434 | every term of the rewritten queries is a single non-empty word without white space |
| LegacyQuery.TranslateWord | server/oce/db.py:402-434 | a word of the query translates to words |
| LegacyQuery.LangFilterWord | server/oce/db.py:421-424 | the `lang:` filter of a word is a word |
| LegacyQuery.NotPrefix | server/oce/db.py:440 | the string test for a leading `NOT ` is the word test "the first term is `NOT`" |
| LegacyQuery.BodyText | server/oce/db.py:433-437 | before the `NOT` test the full-text query is its terms joined by spaces, ending in `fullscan:1` when no term is positive |
| LegacyQuery.FinishSpec | server/oce/db.py:436-443 | the two `fullscan:1` rules and `strip` give the terms joined by single spaces, with `fullscan:1` in front when the first term is `NOT` |
| LegacyQuery.CanonicalStripped | server/oce/db.py:443 | the stripped canonical query is its terms joined by single spaces |
| LegacyQuery.PositiveIff | server/oce/db.py:397-436 | the query holds a positive term exactly when some word of it other than `&` translates to one |
| LegacyQuery.FullscanRules | server/oce/db.py:436-441 | the full-text query always holds a positive term or ends in `fullscan:1`; since `NOT` counts as positive, a query starting with `NOT` gets the leading `fullscan:1` and never the trailing one |
| LegacyQuery.NotTermsPositive | server/oce/db.py:428-432 | the operator `NOT` is always a positive term |
| LegacyQuery.NoDashPositive | server/oce/db.py:428-432 | a term without `-` in it is positive |
| LegacyQuery.AmpersandIgnored | server/oce/db.py:425-427 | `&` anywhere in the query is ignored |
| LegacyQuery.TranslateAmpersand | server/oce/db.py:425-427 | `&` gives no term |
| LegacyQuery.PlainWord | server/oce/db.py:400-434 | a plain word is positive exactly when it neither starts with `-` nor contains `:-`, and is passed on lower-cased unless it is an operator |
| LegacyQuery.KeywordPairs | server/oce/db.py:400-424 | keywords are recognised in any letter case and rewritten to their canonical pair as positive terms; so is a `lang:` filter |
| LegacyQuery.KeywordShape | server/oce/db.py:405-420 | every keyword starts with `i` or `h`, is longer than any operator, and its term is positive |
| LegacyQuery.DbPage | server/oce/db.py:206-211 | with a positive limit, at most `limit` rows from `offset` on, in order; otherwise every row |
| LegacyQuery.ProviderPage | server/oce/providers/sqlite.py:116-129 | `OFFSET` only for a positive offset and `LIMIT` only for a positive limit: the rows from there on, in order, at most `limit` of them |
| LegacyQuery.PagesCover | server/oce/db.py:206-211 | pages 1 to n of a positive size, put together, are exactly the first n times `perpage` results |
| LegacyQuery.PageExtends | server/oce/db.py:206-211 | the page at `lo` continues the results before `lo` with nothing skipped |
| SearchQuery.Normal | server/oce/providers/sqlite/sqlite.py:409-411 | a word starting with an operator is kept as typed; any other word is lower-cased, its length and white space unchanged |
| SearchQuery.FieldLen | server/oce/providers/sqlite/sqlite.py:466 | the leading field group is one or more letters or digits followed by a colon, or absent |
| SearchQuery.SuffixParse | server/oce/providers/sqlite/sqlite.py:427-435 | a match of the suffix-form pattern splits the word into field, `-` and a starred term that put back together give the word |
| SearchQuery.PartsParse | server/oce/providers/sqlite/sqlite.py:466-469 | field, `-` and term put back together give the word, and the term of a non-empty word is non-empty |
| SearchQuery.Scan | server/oce/providers/sqlite/sqlite.py:405-507 | for either variant, as written or corrected, the word loop's four query strings and flags are those of the fold `Fold(v, mode, words)` over the words |
| SearchQuery.ScanWord | server/oce/providers/sqlite/sqlite.py:409-480 | one pass of the loop body is one step of the fold: a `NOT` is recorded, a suffix-form word and any other word take their own branch |
| SearchQuery.SuffixWord | server/oce/providers/sqlite/sqlite.py:429-455 | for the given variant, the branch for a suffix-form word is the suffix step `SuffixStep(v, …)`; as written the negated full-terms piece gets no trailing space |
| SearchQuery.PlainWord | server/oce/providers/sqlite/sqlite.py:464-480 | for the given variant, the branch for any other word is the plain step `PlainStep(v, …)` |
| SearchQuery.EmitWord | server/oce/providers/sqlite/sqlite.py:483-507 | for the given variant, the keyword, `lang:`, `&` and plain branches are the emit step `Emit(v, …)`; as written a plain word loses its field and negation |
| SearchQuery.ProcessQuery | server/oce/providers/sqlite/sqlite.py:374-531 | for either variant, the four returned queries are those of `Process(v, mode, query)`, about which the lemmas below are stated |
| SearchQuery.FinishQuery | server/oce/providers/sqlite/sqlite.py:508-531 | after the loop, the `fullscan:1` handling and the stripping of the four strings give `Finish(mode, st)` |
| SearchQuery.StepShape | server/oce/providers/sqlite/sqlite.py:405-507 | one word only appends to the query strings; they never start with white space; corrected, each ends with a space |
| SearchQuery.StepRoutes | server/oce/providers/sqlite/sqlite.py:429-480 | suffix-form words go to the suffix queries only and other words to the FTS query only; each positive flag is set exactly by a non-negated word of its kind |
| SearchQuery.NotCarries | server/oce/providers/sqlite/sqlite.py:418-420 | the word `NOT` negates the next word; `&` passes a pending `NOT` on; any other word uses it up |
| SearchQuery.FoldShape | server/oce/providers/sqlite/sqlite.py:405-507 | over any word list the query strings never start with white space; corrected, each is empty or ends with a space |
| SearchQuery.FoldExtends | server/oce/providers/sqlite/sqlite.py:405-507 | what the first words produced is kept by the words after them: the loop only appends and never clears a flag |
| SearchQuery.FullscanFront | server/oce/providers/sqlite/sqlite.py:512-520 | in enhanced syntax a query string never ends up starting with `NOT `; one that did gets `fullscan:1` in front |
| SearchQuery.EnhancedNeverStartsWithNot | server/oce/providers/sqlite/sqlite.py:512-531 | in enhanced syntax none of the FTS and suffix queries returned starts with `NOT ` |
| SearchQuery.StandardFullscanBack | server/oce/providers/sqlite/sqlite.py:521-531 | in standard syntax a query string whose loop found no positive term of its kind ends with `fullscan:1` |
| SearchQuery.NegatedPiecesMarked | server/oce/providers/sqlite/sqlite.py:471-504 | corrected, a negated word outside the suffix form adds a piece carrying its negation: a `-` in standard syntax, a leading `NOT ` in enhanced syntax |
| SearchQuery.NegatedTermLosesDash | server/oce/providers/sqlite/sqlite.py:477-504 | as written, the standard-syntax query `-foo` becomes the FTS query `foo fullscan:1` and is shown back as `foo` |
| SearchQuery.NegatedTermKeepsDash | server/oce/providers/sqlite/sqlite.py:477-504 | corrected, the same query becomes `-foo fullscan:1` and is shown back as `-foo` |
| SearchQuery.FullTermsFuse | server/oce/providers/sqlite/sqlite.py:441-451 | as written, the words `-*ab *cd` give the single full-terms term `-abcd` |
| SearchQuery.FullTermsSeparate | server/oce/providers/sqlite/sqlite.py:441-451 | corrected, the two terms stay apart: `-ab cd` |
| TagTable.TagList | server/oce/providers/sqlite/sqlite.py:541-550 | the empty string has no tags; otherwise the comma-free pieces that joined by commas give the string back |
| TagTable.Minus | server/oce/providers/sqlite/sqlite.py:552-553 | every occurrence of a tag not on the other list is kept, and nothing else |
| TagTable.AddTag | server/oce/providers/sqlite/sqlite.py:556-566 | an added tag gets a row with count 1 or its row counted up |
| TagTable.RemoveTag | server/oce/providers/sqlite/sqlite.py:569-583 | a removed tag without a row is ignored; otherwise its row is counted down and deleted at 0 |
| TagTable.TagCounts.constructor | server/oce/providers/sqlite/sqlite.py:533 | the object holds the table it is given, and satisfies the invariant `Valid()` (every count positive) whenever that table does |
| TagTable.TagCounts.UpdateTags | server/oce/providers/sqlite/sqlite.py:533-583 | the new table is the specification's update of the old one, and positive counts stay positive |
| TagTable.TagCounts.AddTags | server/oce/providers/sqlite/sqlite.py:556-566 | the loop over the added tags counts each up in turn |
| TagTable.TagCounts.RemoveTags | server/oce/providers/sqlite/sqlite.py:569-583 | the loop over the removed tags counts each down in turn |
| TagTable.CountAddAll | server/oce/providers/sqlite/sqlite.py:556-566 | adding tags counts each one up by its number of occurrences and creates a row for each new one |
| TagTable.CountRemoveAll | server/oce/providers/sqlite/sqlite.py:569-583 | removing tags from positive counts counts each down by its occurrences, stopping at 0 where the row is gone |
| TagTable.PositiveRows | server/oce/providers/sqlite/sqlite.py:580-582 | with positive counts, a tag has a row exactly when its count is positive |
| TagTable.PositiveAddAll | server/oce/providers/sqlite/sqlite.py:556-566 | adding keeps every count positive |
| TagTable.UpdatePositive | server/oce/providers/sqlite/sqlite.py:533-583 | the update keeps every count positive |
| TagTable.AddAllUntouched | server/oce/providers/sqlite/sqlite.py:556-566 | a tag not added keeps its row and count |
| TagTable.RemoveAllUntouched | server/oce/providers/sqlite/sqlite.py:569-583 | a tag not removed keeps its row and count |
| TagTable.UpdateUntouched | server/oce/providers/sqlite/sqlite.py:552-583 | a tag on both lists, or on neither, keeps its row and its count |
| TagTable.UpdateCounts | server/oce/providers/sqlite/sqlite.py:552-583 | a tag only on the new list is counted up once per occurrence; one only on the old list is counted down once per occurrence, to no less than 0 |
| TagTable.SameCounts | server/oce/providers/sqlite/sqlite.py:533-583 | two tables of positive counts that agree on every count are the same table |
| TagTable.UpdateUndo | server/oce/providers/sqlite/sqlite.py:533-583 | changing a record's tags and changing them back restores the table, when the table counted every occurrence removed |
| TagTable.UndoCount | server/oce/providers/sqlite/sqlite.py:533-583 | the same for the count of one tag |
| SqliteProvider.Provider.constructor | server/oce/providers/sqlite/sqlite.py:49-69 | a provider starts with the given records and tag counts, and its suffix tokeniser out of search mode |
| SqliteProvider.ConfigAnswer | server/oce/providers/sqlite/sqlite.py:114-125 | only `suffix_search` can be set, and only to `true` or `false` in any letter case; any other value or option is refused with its own reason |
| SqliteProvider.Provider.SetConfig | server/oce/providers/sqlite/sqlite.py:114-125 | the answer is `ConfigAnswer`'s, and the suffix tokeniser's search mode changes exactly when the option was set |
| SqliteProvider.StoredValue | server/oce/providers/sqlite/sqlite.py:206-214 | the value stored is the value with its field's prefix; a language list is normalised first and fails exactly when normalising fails |
| SqliteProvider.Update | server/oce/providers/sqlite/sqlite.py:189-234 | a missing row changes nothing and answers success; an unknown field answers `invalid_field`; only a failed language normalisation raises; only a tag update changes the tag table, by the update of the old tags to the new |
| SqliteProvider.UpdateOlder | server/oce/providers/sqlite.py:141-172 | the older provider agrees with the newer one except on an unknown field, which raises there instead of answering `invalid_field` |
| SqliteProvider.Provider.UpdateRecord | server/oce/providers/sqlite/sqlite.py:189-234 | the answer and new state are those of `Update`, and the tag table stays positive |
| SqliteProvider.UpdateReadBack | server/oce/providers/sqlite/sqlite.py:189-224 | reading the field back without its prefix gives the value written (normalised for a language); every other field and row is unchanged |
| SqliteProvider.UpdateLanguageNormal | server/oce/providers/sqlite/sqlite.py:209-214 | a stored language list reads back in normal form |
| SqliteProvider.UpdateKeepsPositive | server/oce/providers/sqlite/sqlite.py:206-208 | an update keeps every tag count positive |
| SqliteProvider.FirstIndex | server/oce/providers/sqlite/sqlite.py:248 | `list.index` finds the first occurrence |
| SqliteProvider.RetagTagsShape | server/oce/providers/sqlite/sqlite.py:247-249 | the new list has the same length, `new_tag` where the first `old_tag` was and every other tag in place |
| SqliteProvider.RetagTagsMultiset | server/oce/providers/sqlite/sqlite.py:247-249 | one occurrence of `old_tag` is traded for one of `new_tag` |
| SqliteProvider.Provider.ExecuteRetag | server/oce/providers/sqlite/sqlite.py:236-251 | the answer and new state are those of `Retag`, and the tag table stays positive |
| SqliteProvider.RetagRefusesComma | server/oce/providers/sqlite/sqlite.py:240-243 | a comma in either tag is refused and changes nothing |
| SqliteProvider.RetagSucceeds | server/oce/providers/sqlite/sqlite.py:244-251 | when every record found holds `old_tag`, the retag answers success |
| SqliteProvider.RetagKeepsPositive | server/oce/providers/sqlite/sqlite.py:246-250 | the retag loop keeps every tag count positive |
| SqliteProvider.TargetError | server/oce/providers/sqlite/sqlite.py:317-321 | the error for an unknown target starts with the target in quotes |
| SqliteProvider.DropStatements | server/oce/providers/sqlite/sqlite.py:299-321 | statements are produced exactly for the four targets; any other raises the target error |
| SqliteProvider.RecreateStatements | server/oce/providers/sqlite/sqlite.py:332-360 | statements are produced exactly for the four targets, each single target's being its drop statements then its create statements |
| SqliteProvider.AllInOrder | server/oce/providers/sqlite/sqlite.py:312-354 | `all` is the three single targets in the order fts, suffixes, triggers, for dropping and for recreating alike |
| Tokenisers.YieldToken | server/oce/providers/sqlite/tokenisers.py:60-62 | a token carries its start, its end and the text between them |
| Tokenisers.TokeniseAsList | server/oce/providers/sqlite/tokenisers.py:37-95 | the cursor loop produces exactly the token list of the specification `TokensFrom`: runs of ASCII letters and digits, and each non-ASCII character alone |
| Tokenisers.CloseToken | server/oce/providers/sqlite/tokenisers.py:56-64 | closing the open token at a separator or at the end keeps the loop's invariant |
| Tokenisers.Tokenize | server/oce/providers/sqlite/tokenisers.py:28-34 | the tokens are those of the lower-cased text |
| Tokenisers.TokensShape | server/oce/providers/sqlite/tokenisers.py:19-26 | every token is a maximal run of ASCII letters and digits or one non-ASCII character, within the text and in order without overlap |
| Tokenisers.NoSeparatorInTokens | server/oce/providers/sqlite/tokenisers.py:23 | no token holds an ASCII character other than a letter or a digit |
| Tokenisers.TokensCover | server/oce/providers/sqlite/tokenisers.py:19-26 | every letter, digit or non-ASCII character lies inside some token |
| Tokenisers.TokensLowerCase | server/oce/providers/sqlite/tokenisers.py:22 | the tokens of the folded text hold no upper-case ASCII letter |
| Tokenisers.Preprocess | server/oce/providers/sqlite/tokenisers.py:165-175 | removing shortened-link ids never lengthens the text |
| Tokenisers.PreprocessNoLink | server/oce/providers/sqlite/tokenisers.py:173 | text without a shortened link is left as it is |
| Tokenisers.PreprocessLink | server/oce/providers/sqlite/tokenisers.py:173 | a link keeps `http://t.co/` and loses its whole id; the rest is processed in turn |
| Tokenisers.TokenSuffixes | server/oce/providers/sqlite/tokenisers.py:156-161 | one suffix per start position, each ending where the token ends |
| Tokenisers.SuffixesAsList | server/oce/providers/sqlite/tokenisers.py:123-163 | the list returned is the specification's `SuffixList`: in search mode the tokens, otherwise the suffixes of the preprocessed text's tokens |
| Tokenisers.ExpandTokens | server/oce/providers/sqlite/tokenisers.py:146-163 | the outer loop gives the suffixes of every token longer than one character, in order |
| Tokenisers.AppendSuffixes | server/oce/providers/sqlite/tokenisers.py:158-161 | the inner loop appends one suffix for every start position |
| Tokenisers.SuffixesStep | server/oce/providers/sqlite/tokenisers.py:147-161 | one more token appends exactly its own suffixes |
| Tokenisers.Suffixer.constructor | server/oce/providers/sqlite/tokenisers.py:110-112 | a new suffixer is not in search mode |
| Tokenisers.Suffixer.Tokenize | server/oce/providers/sqlite/tokenisers.py:114-120 | the list is that of the lower-cased text in the suffixer's mode |
| Tokenisers.SuffixesOfTokenShape | server/oce/providers/sqlite/tokenisers.py:147-161 | a token of n characters gives exactly n - 1 suffixes, all ending where it ends and none the whole token |
| Tokenisers.AllSuffixesCount | server/oce/providers/sqlite/tokenisers.py:146-163 | the suffix list has one entry less than the length of every token |
| Tokenisers.SuffixListCount | server/oce/providers/sqlite/tokenisers.py:123-163 | outside search mode the list's length is the sum over the preprocessed text's tokens of their length less one |
| DebugTokeniser.Tokenise | server/sqlite_debug.py:20-35 | a value that is not a string is returned untouched |
| DebugTokeniser.ReplaceClean | server/sqlite_debug.py:29-30 | the replacement of lower-case text leaves only output characters, with a space before every non-ASCII character |
| DebugTokeniser.WordsClean | server/sqlite_debug.py:33 | the words of replaced text are clean words: only their first character may lie outside ASCII |
| DebugTokeniser.TokenWords | server/sqlite_debug.py:29-33 | the words that `tokenise` joins are clean words |
| DebugTokeniser.TokeniseChars | server/sqlite_debug.py:25-35 | the output has no upper-case letter and no ASCII character but letters, digits and the space |
| DebugTokeniser.TokeniseSpacing | server/sqlite_debug.py:32-33 | in the output every white-space character is one space between two words |
| DebugTokeniser.TokeniseWords | server/sqlite_debug.py:29-35 | splitting the output gives back the words it joined |
| DebugTokeniser.ReplaceConcat | server/sqlite_debug.py:30 | the replacement works character by character |
| DebugTokeniser.ReplaceAlnum | server/sqlite_debug.py:30 | letters and digits are kept |
| DebugTokeniser.ReplaceCleanWord | server/sqlite_debug.py:57-67 | a clean word comes back as it is, with a space in front when it starts outside ASCII |
| DebugTokeniser.FrontWord | server/sqlite_debug.py:30-33 | a replaced clean word in front of white space splits off as the word itself |
| DebugTokeniser.WordsOfReplacedJoin | server/sqlite_debug.py:30-33 | replacing and splitting a space-joined list of clean words gives the words back |
| DebugTokeniser.TokeniseIdempotent | server/sqlite_debug.py:20-35 | tokenising twice gives what tokenising once gives |
| DebugTokeniser.TokeniseValueIdempotent | server/sqlite_debug.py:20-35 | the same for any value, string or not |
| DebugTokeniser.NonAsciiStaysAttached | server/sqlite_debug.py:62-67 | a non-ASCII character followed by letters stays one word with them, where the full-text tokeniser makes two tokens |
| DebugTokeniser.WordSuffixes | server/sqlite_debug.py:48-52 | a word of n characters gives its n - 1 proper suffixes from the second character on, in order; a one-character word gives none |
| DebugTokeniser.ExtractSuffixes | server/sqlite_debug.py:38-41 | a value that is not a string is returned untouched |
| DebugTokeniser.TokeniseAndExtractSuffixes | server/sqlite_debug.py:38-54 | the loop's result is the specification's `ExtractSuffixes` |
| DebugTokeniser.SuffixesOfWords | server/sqlite_debug.py:47-52 | the loop over the words lists the suffixes of every word in order |
| DebugTokeniser.AppendWordSuffixes | server/sqlite_debug.py:51-52 | the loop over start positions appends the word's suffixes |
| DebugTokeniser.AllWordSuffixesCount | server/sqlite_debug.py:45-53 | the number of suffixes is the sum over the words of their length less one |
| DebugTokeniser.ExtractSuffixesCount | server/sqlite_debug.py:43-53 | the suffixes come from the words of the replaced text, n - 1 for a word of n characters |
| DebugTokeniser.AllWordSuffixesProper | server/sqlite_debug.py:45-53 | every suffix listed is a non-empty proper suffix of a word of the tokenised text |
| TelnetCommands.TablesSorted | server/oce/interfaces/telnet_parser.py:21-40 | the keys of `command_table` and of the `db` table, as listed, are in code-point order |
| TelnetCommands.PositionSpec | server/oce/interfaces/telnet_parser.py:234 | the position found is the key's first occurrence, and one is found exactly when the key is present |
| TelnetCommands.Lookup | server/oce/interfaces/telnet_parser.py:234 | `fn_table[key]` is the entry at the key's position |
| TelnetCommands.FirstMatch | server/oce/interfaces/telnet_parser.py:232-235 | the key found starts with the typed word, and none is found exactly when no key starts with it |
| TelnetCommands.LeastMatchSpec | server/oce/interfaces/telnet_parser.py:227-235 | the least key starting with the word is below every other such key, and none exists only when no key starts with the word |
| TelnetCommands.SortedScanFindsLeast | server/oce/interfaces/telnet_parser.py:227-235 | scanning the sorted keys for the first that starts with the word finds the least such key |
| TelnetCommands.FirstMatchLeast | server/oce/interfaces/telnet_parser.py:232-235 | in a sorted list the first match is the least matching key |
| TelnetCommands.Pick | server/oce/interfaces/telnet_parser.py:227-235 | the method picked is one the table names |
| TelnetCommands.PicksLeast | server/oce/interfaces/telnet_parser.py:227-235 | a word picks the entry of the least key, in code-point order, that starts with it |
| TelnetCommands.PrefixOfOnly | server/oce/interfaces/telnet_parser.py:232-235 | a word that starts only one key picks that key's entry |
| TelnetCommands.PrefixOfPair | server/oce/interfaces/telnet_parser.py:227-235 | of two keys one letter apart, a prefix of the longer picks the shorter's entry unless it is the longer key itself |
| TelnetCommands.Resolve | server/oce/interfaces/telnet_parser.py:222-249 | a blank message is blank; a first word starting no key is invalid; otherwise the picked method is called with the other words |
| TelnetCommands.NoKeyInvalid | server/oce/interfaces/telnet_parser.py:236-239 | a first word that starts no key makes the message invalid |
| TelnetCommands.ResolvesTo | server/oce/interfaces/telnet_parser.py:230-249 | a first word that picks a method calls it with the other words |
| TelnetCommands.ExitWords | server/oce/interfaces/telnet_parser.py:26-27 | `exit`, `quit` and every non-empty start of them pick `command_exit` |
| TelnetCommands.ExitResolves | server/oce/interfaces/telnet_parser.py:26-27 | a message whose first word starts `exit` or `quit` calls `command_exit` with the other words |
| TelnetCommands.NeedFullRestart | server/oce/interfaces/telnet_parser.py:30-31 | every non-empty start of `restart` short of the full word asks for it in full; only `restart` restarts |
| TelnetCommands.NeedFullShutdown | server/oce/interfaces/telnet_parser.py:32-33 | every non-empty start of `shutdown` short of the full word asks for it in full; only `shutdown` shuts down |
| TelnetCommands.RestartResolves | server/oce/interfaces/telnet_parser.py:30-31 | a one-word message starting `restart` calls `command_restart` only when the word is in full |
| TelnetCommands.ShutdownResolves | server/oce/interfaces/telnet_parser.py:32-33 | a one-word message starting `shutdown` calls `command_shutdown` only when the word is in full |
| TelnetCommands.OnlyBangRepeats | server/oce/interfaces/telnet_parser.py:23 | only `!` (or an empty word) picks `command_repeat_last` |
| TelnetCommands.RepeatFirst | server/oce/interfaces/telnet_parser.py:23 | `command_repeat_last` is the first entry of the command table and no other |
| TelnetCommands.SourceTables | server/oce/interfaces/telnet_parser.py:21-40 | the command table gives `command_repeat_last` only to `!`, and the `db` table has no method that parses again |
| TelnetCommands.BangFirst | server/oce/interfaces/telnet_parser.py:219-235 | when only `!` picks the repeat method, a message that calls it has `!` as its first non-blank character |
| TelnetCommands.BangResolves | server/oce/interfaces/telnet_parser.py:23 | `!` calls `command_repeat_last` with no arguments |
| TelnetCommands.SpaceBangResolves | server/oce/interfaces/telnet_parser.py:219-235 | ` !` calls `command_repeat_last` too, although it does not start with `!` |
| TelnetCommands.DbDropWords | server/oce/interfaces/telnet_parser.py:36 | `db drop t` calls `command_db_branch` with the words `drop t` |
| TelnetCommands.DropTarget | server/oce/interfaces/telnet_parser.py:343-356 | the words `drop t`, joined again, call `command_drop` with the target `t` |
| TelnetCommands.DropNoCommand | server/oce/interfaces/telnet_parser.py:21-40 | against the command table, `drop t` is no command at all |
| TelnetCommands.DbWords | server/oce/interfaces/telnet_parser.py:36-39 | `db` and `d` pick `command_db_branch`, ahead of `debugsleep` |
| TelnetCommands.DbResolves | server/oce/interfaces/telnet_parser.py:36 | a message of several words whose first starts `db` calls `command_db_branch` with the rest |
| TelnetCommands.BranchWords | server/oce/interfaces/telnet_parser.py:332-345 | the `db` table's keys start with different letters, so every non-empty start of a key picks that key's method |
| TelnetCommands.BranchResolves | server/oce/interfaces/telnet_parser.py:356 | the words `command_db_branch` joins back are parsed again as they were |
| TelnetCommands.LineEnd | server/oce/interfaces/telnet_parser.py:191 | the line boundary found is the first at or after the position |
| TelnetCommands.SplitLines | server/oce/interfaces/telnet_parser.py:191 | the empty message has no lines, and no line holds a line boundary |
| TelnetCommands.Wrapped | server/oce/interfaces/telnet_parser.py:191-194 | the empty message wraps to the empty string |
| TelnetCommands.WrapLines | server/oce/interfaces/telnet_parser.py:192-193 | each line is wrapped on its own |
| TelnetCommands.Frame | server/oce/interfaces/telnet_parser.py:196-203 | a non-empty message goes between one `\r\n` and two, then the prompt if asked for; the prompt ends the text exactly when it was asked for |
| TelnetCommands.WrappedShortLine | server/oce/interfaces/telnet_parser.py:191-194 | a single line the wrapper leaves whole comes out as it is |
| TelnetCommands.FrameInjective | server/oce/interfaces/telnet_parser.py:196-203 | the wrapped text and whether a prompt follows can be read back from what was sent |
| TelnetCommands.ConfigRequest | server/oce/interfaces/telnet_parser.py:359-376 | no arguments ask for the configuration; otherwise the first word is the option and the rest the value |
| TelnetCommands.ConfigValueWords | server/oce/interfaces/telnet_parser.py:374 | the value sent splits back into the words after the option |
| TelnetCommands.QuoteAt | server/oce/interfaces/telnet_parser.py:390 | the quote found is the first at or after the position |
| TelnetCommands.Quoted | server/oce/interfaces/telnet_parser.py:390 | the text between the only two quotes holds no quote |
| TelnetCommands.QueryOf | server/oce/interfaces/telnet_parser.py:389-400 | as written, the query is the non-empty text between the only two quotes, accepted only when it holds none of `]`, `"`, `\|`, `[`, `^` |
| TelnetCommands.QueryIntended | server/oce/interfaces/telnet_parser.py:389-400 | corrected, the query is any non-empty text between the only two quotes |
| TelnetCommands.QuotedFindsQuery | server/oce/interfaces/telnet_parser.py:389-400 | a query wrapped in quotes, with no other quote anywhere, is found again between them |
| TelnetCommands.QueryRefusesBar | server/oce/interfaces/telnet_parser.py:390 | as written, a properly quoted query holding `\|` is refused; corrected, it is accepted |
| TelnetCommands.ConfigurableSpec | server/oce/interfaces/telnet_parser.py:488-497 | the configurable options are exactly those not marked read-only, and both columns are wide enough for each |
| TelnetCommands.NameWidth | server/oce/interfaces/telnet_parser.py:472-495 | the name column is at least 4 wide |
| TelnetCommands.ValWidth | server/oce/interfaces/telnet_parser.py:473-496 | the value column is at least 5 wide |
| TelnetCommands.PadRight | server/oce/interfaces/telnet_parser.py:502-508 | the text padded with spaces to the width, never cut |
| TelnetCommands.FormatDbGetConfig | server/oce/interfaces/telnet_parser.py:465-512 | the text returned is the specification `GetConfigText` |
| TelnetCommands.ScanOptions | server/oce/interfaces/telnet_parser.py:488-497 | the loop writes the read-only entries, measures both columns and collects the configurable options after the headings |
| TelnetCommands.AppendRows | server/oce/interfaces/telnet_parser.py:501-508 | the loop over the rows writes each row in turn |
| TelnetCommands.ConfigStep | server/oce/interfaces/telnet_parser.py:488-497 | one more option adds to exactly one of the two sections and widens the columns only when configurable |
| TelnetCommands.RowAlign | server/oce/interfaces/telnet_parser.py:502-508 | a row is the name padded to its column plus 4, the value padded to its column plus 4, then the description |
| TelnetCommands.ColumnsAlign | server/oce/interfaces/telnet_parser.py:474-508 | every row of the configurable section, the headings included, fits the measured widths, so all rows line up |
| TelnetCommands.SetConfigMessages | server/oce/interfaces/telnet_parser.py:515-521 | after `db config` the client reads a bad-value message, an unknown-option message, or the new setting, `True` exactly when the value was `true` in any case |
| TelnetCommands.FormatReply | server/oce/interfaces/telnet_parser.py:252-281 | a command without its own formatter is shown raw; only data of the wrong shape for its formatter raises |
| TelnetParser.Listings | server/oce/interfaces/telnet_parser.py:294-296 | whatever order the dictionaries give their keys in, sorting gives the listings shown |
| TelnetParser.ParseGrows | server/oce/interfaces/telnet_parser.py:214-249 | a parse only appends to what was sent, and keeps a remembered message that `!` may repeat |
| TelnetParser.CommandGrows | server/oce/interfaces/telnet_parser.py:285-457 | a command method that finishes only appends and leaves the remembered message alone; all but `!` and `db` finish |
| TelnetParser.DispatchGrows | server/oce/interfaces/telnet_parser.py:249 | calling a method only appends to what was sent |
| TelnetParser.ParseCalls | server/oce/interfaces/telnet_parser.py:219-249 | a message whose first word picks a method calls it with the other words, once the message is remembered |
| TelnetParser.DispatchFinishes | server/oce/interfaces/telnet_parser.py:249 | a method that finishes is all the call does |
| TelnetParser.DispatchReparses | server/oce/interfaces/telnet_parser.py:289 | a method that hands a message back is followed by the parse of that message |
| TelnetParser.ParseFinishes | server/oce/interfaces/telnet_parser.py:219-249 | a message picking a method that finishes ends with what that method does |
| TelnetParser.BlankLine | server/oce/interfaces/telnet_parser.py:222-225 | a blank line shows the prompt again and asks nothing of the server |
| TelnetParser.InvalidLine | server/oce/interfaces/telnet_parser.py:236-239 | a first word that starts no key is answered `Invalid command.` and asks nothing of the server |
| TelnetParser.InvalidCalled | server/oce/interfaces/telnet_parser.py:236-239 | an invalid message is remembered and answered `Invalid command.` |
| TelnetParser.ExitCalled | server/oce/interfaces/telnet_parser.py:305-306 | `command_exit` ends the session and sends nothing; with arguments it raises `TypeError` |
| TelnetParser.DebugSleepCalled | server/oce/interfaces/telnet_parser.py:450-456 | `debugsleep` alone tells the client its syntax; with an argument it sends nothing, and raises `ValueError` exactly when `int` refuses the first argument |
| TelnetParser.IntLiteralWord | server/oce/interfaces/telnet_parser.py:455 | `int` of a word of the message accepts an optional sign followed by digits, single underscores allowed between digits |
| TelnetParser.DigitsAreInt | server/oce/interfaces/telnet_parser.py:455 | a word of digits is accepted by `int` |
| TelnetParser.SignedDigits | server/oce/interfaces/telnet_parser.py:455 | a minus sign followed by digits is accepted by `int` |
| TelnetParser.OtherCharNotInt | server/oce/interfaces/telnet_parser.py:455 | a word holding any character other than a digit, an underscore or a leading sign is refused by `int`, so `debugsleep x` raises `ValueError` |
| TelnetParser.OtherCharNotGroups | server/oce/interfaces/telnet_parser.py:455 | digit groups hold only digits and underscores |
| TelnetParser.UnderscoreGroups | server/oce/interfaces/telnet_parser.py:455 | `1_000` is accepted by `int` |
| TelnetParser.DoubleUnderscore | server/oce/interfaces/telnet_parser.py:455 | `1__0` is refused by `int` |
| TelnetParser.RestartCalled | server/oce/interfaces/telnet_parser.py:314-318 | `command_restart` tells the client without a prompt, then asks the server to restart |
| TelnetParser.ShutdownCalled | server/oce/interfaces/telnet_parser.py:321-325 | `command_shutdown` tells the client without a prompt, then asks the server to shut down |
| TelnetParser.NeedFullCalled | server/oce/interfaces/telnet_parser.py:309-311 | `command_need_full` only asks for the full word |
| TelnetParser.DbAlone | server/oce/interfaces/telnet_parser.py:347-354 | `db` alone lists the operations and asks nothing of the server |
| TelnetParser.DbCalled | server/oce/interfaces/telnet_parser.py:356 | `db` with more words parses them, joined, against the `db` table, one level down |
| TelnetParser.BranchCalled | server/oce/interfaces/telnet_parser.py:332-356 | a method of the `db` table never parses again |
| TelnetParser.DbThrough | server/oce/interfaces/telnet_parser.py:328-356 | `db` followed by an operation ends with what that operation's method does |
| TelnetParser.DbConfigSends | server/oce/interfaces/telnet_parser.py:359-376 | `db config` sends exactly one request and nothing to the client |
| TelnetParser.DbDropSends | server/oce/interfaces/telnet_parser.py:419-432 | `db drop` without a target tells the client; with one it asks the server to drop the first word |
| TelnetParser.DbRecreateSends | server/oce/interfaces/telnet_parser.py:435-448 | `db recreate` without a target tells the client; with one it asks the server to rebuild the first word |
| TelnetParser.DbQuerySends | server/oce/interfaces/telnet_parser.py:384-416 | `db query` sends one literal query limited to 100 rows when the quoted query is accepted, and otherwise tells the client how to quote it |
| TelnetParser.DbMetaSends | server/oce/interfaces/telnet_parser.py:379-381 | `db meta` asks for the meta-information; with more words it raises `TypeError` |
| TelnetParser.BangLoops | server/oce/interfaces/telnet_parser.py:219-220 | as written, a message that picks `!` without starting with `!` is remembered and repeated until the recursion limit |
| TelnetParser.SpaceBangLoops | server/oce/interfaces/telnet_parser.py:219-220 | typing ` !` once is enough |
| TelnetParser.FlatSafe | server/oce/interfaces/telnet_parser.py:214-249 | a parse against a table whose methods all finish never runs out of depth |
| TelnetParser.NoBangSafe | server/oce/interfaces/telnet_parser.py:214-249 | a message that does not call `!` needs at most two levels |
| TelnetParser.CorrectedSafe | server/oce/interfaces/telnet_parser.py:219-220 | corrected, no parse ends in `RecursionError` |
| TelnetParser.CorrectedSourceSafe | server/oce/interfaces/telnet_parser.py:219-220 | the same with the source's tables |
| TelnetParser.BangRepeats | server/oce/interfaces/telnet_parser.py:285-289 | `!` parses the remembered message again and is not remembered itself |
| TelnetParser.DbRemembersTail | server/oce/interfaces/telnet_parser.py:219-220 | as written, the nested parse of a `db` message remembers the words after `db` in place of the message |
| TelnetParser.DbDropThenBang | server/oce/interfaces/telnet_parser.py:219-220 | as written, `!` after `db drop t` answers `Invalid command.` |
| TelnetParser.BangAfterTail | server/oce/interfaces/telnet_parser.py:219-220 | as written, `!` with `drop t` remembered answers `Invalid command.` (also lines 285-289) |
| TelnetParser.CorrectedKeepsLast | server/oce/interfaces/telnet_parser.py:219-220 | corrected, a parse of the parser's own message leaves the remembered message alone |
| TelnetParser.DispatchKeepsLast | server/oce/interfaces/telnet_parser.py:249 | corrected, a method called, and every parse it makes, leave the remembered message alone (also lines 285-289, 356) |
| TelnetParser.CorrectedRemembersTyped | server/oce/interfaces/telnet_parser.py:219-220 | corrected, a typed message is remembered unless its first non-blank character is `!` |
| TelnetParser.CorrectedDropThenBang | server/oce/interfaces/telnet_parser.py:219-220 | corrected, `!` after `db drop t` asks the server to drop `t` again |
| TelnetParser.BangAfterDrop | server/oce/interfaces/telnet_parser.py:285-289 | corrected, `!` with `db drop t` remembered asks the server to drop `t` (also line 356) |
| TelnetObject.Parser.constructor | server/oce/interfaces/telnet_parser.py:63-86 | nothing remembered and nothing queued |
| TelnetObject.Parser.SendToClient | server/oce/interfaces/telnet_parser.py:186-204 | one framed, wrapped message is put on the client queue |
| TelnetObject.Parser.SendToServer | server/oce/interfaces/telnet_parser.py:207-211 | one request is put on the server queue |
| TelnetObject.Parser.Notify | server/oce/interfaces/telnet_parser.py:186-204 | one of the parser's own messages is framed and queued for the client; nothing else changes |
| TelnetObject.Parser.FindCommand | server/oce/interfaces/telnet_parser.py:227-235 | the loop over the sorted keys finds the entry `Pick` describes |
| TelnetObject.Parser.ParseClientInput | server/oce/interfaces/telnet_parser.py:214-249 | the error raised, the remembered message and both queues are those of the specification `Parse`, and a remembered message never starts `!` |
| TelnetObject.Parser.ParseRemembered | server/oce/interfaces/telnet_parser.py:222-249 | the rest of the parse, once the message is remembered, as the specification says |
| TelnetObject.Parser.CallCommand | server/oce/interfaces/telnet_parser.py:249 | calling a method does what `Dispatch` says |
| TelnetObject.Parser.FinishCommand | server/oce/interfaces/telnet_parser.py:285-457 | the methods that never parse again do what `Command` says |
| TelnetObject.Parser.ArgsCommand | server/oce/interfaces/telnet_parser.py:359-457 | the methods taking arguments do what `Command` says |
| TelnetObject.Parser.ParseServerOutput | server/oce/interfaces/telnet_parser.py:252-281 | a reply is formatted by its formatter and sent with the prompt; data the formatter cannot read raises and sends nothing |
| TelnetObject.Format | server/oce/interfaces/telnet_parser.py:261-279 | the formatter's text is `FormatReply`'s |
| Controller.Given | server/oce/controller.py:103-107 | an argument is kept exactly when it was given a value |
| Controller.NoneSkipped | server/oce/controller.py:103-107 | arguments whose value is `None` change nothing: the loop runs as if they were absent |
| Controller.ScanSpec | server/oce/controller.py:101-125 | the loop gets through exactly when every given argument names a provider or an interface and at most one names a provider; it then holds that provider and the interfaces in the order given |
| Controller.ConstructSpec | server/oce/controller.py:93-135 | construction succeeds exactly when every given argument is known, exactly one is a provider and at least one is an interface, and the object then holds them |
| Controller.ConstructErrors | server/oce/controller.py:108-135 | a failed construction raises one of the four errors the constructor names: a second provider, an unknown name given a value, no provider, no interfaces |
| Controller.ScanErrors | server/oce/controller.py:108-125 | the loop raises only for a second provider or for an unknown name that was given a value |
| Controller.ScanStops | server/oce/controller.py:103-125 | once the loop raises, later arguments are never looked at |
| Controller.Act.constructor | server/oce/controller.py:101-102 | no provider, no servers, no clients before the arguments are read |
| Controller.Act.Init | server/oce/controller.py:93-135 | the object's provider and servers, or the error raised, are those of the construction function |
| Controller.LangidGuard | server/oce/controller.py:58-86 | a returned value passes through unchanged; anything raised becomes an error reply |
| Controller.GuardMessages | server/oce/controller.py:66-84 | no exception escapes; a lookup error and any other exception get their own prefix before the stripped text; a custom error's message is its stripped text |
| Controller.ExecView | server/oce/controller.py:347-358 | answered exactly when `start` and `end` are present; fetches that range and shows `record`, defaulting to `start` |
| Controller.SearchOffsets | server/oce/controller.py:374-380 | page 1 starts at offset 0, each page starts `perpage` after the one before, and only pages from 1 give a non-negative offset |
| Controller.SearchPagesCover | server/oce/controller.py:374-382 | pages 1 to n, put together, are exactly the first n times `perpage` results, nothing skipped or repeated |
| Controller.SearchPagesAre | server/oce/controller.py:374-382 | the controller's pages agree with the paging of the database layer |
| Controller.FirstPageBelow | server/oce/controller.py:378-382 | a page number below 1 gives back the first page |
| Controller.ExecSearch | server/oce/controller.py:374-382 | answered exactly when `query` is present, the query string decodes and `perpage` is present, failing in that order: a missing key raises `KeyError` and a failed decoding passes on its own error (`KeyError` or `ValueError`); asks for the decoded query at the page's offset, `perpage` and its offset being whatever Python makes of them |
| Controller.Repeat | server/oce/controller.py:379 | Python's `text * n`: `n` copies of the text, empty for `n` below 1 |
| Controller.OffsetField | server/oce/controller.py:379 | `(page - 1) * limit` is the search offset for a number and the repeated string for a text `perpage` |
| Controller.ExecLiteralQuery | server/oce/controller.py:384-388 | answered exactly when `query` is present; the limit defaults to 0 |
| Controller.ExecOne | server/oce/controller.py:390-394 | a one-field handler answers exactly when its field is present |
| Controller.ExecLangid | server/oce/controller.py:396-412 | always answered, through the wrapper; a missing `rowid` raises a `KeyError`, which is a `LookupError`, so the reply is the lookup-error text followed by `'rowid'` |
| Controller.ReplyEchoes | server/oce/controller.py:326-345 | the reply echoes the request's command; a command without an `exec_` method gets `"error"` |
| Controller.InterruptCommands | server/oce/controller.py:471-482 | `restart` and `shutdown` raise their interrupts |
| Controller.CommandRecurses | server/oce/controller.py:333-337 | as written, the command `command` makes `exec_command` call itself until the recursion limit, which ends the controller |
| Controller.ExecIntended | server/oce/controller.py:326-345 | corrected, dispatch never raises `RecursionError`: the only errors left are a missing key and a wrong type |
| Controller.IntendedAnswers | server/oce/controller.py:326-345 | corrected, any command without a handler, `command` included, gets `"error"`; known commands behave as written |
| Controller.WatchLast | server/oce/controller.py:252-280 | the loop over done tasks handles one more task by one more step |
| Controller.AskedLast | server/oce/controller.py:272-280 | an interrupt is asked for by a watch with one more task exactly when it was before or the new request asks for it |
| Controller.WatchFlags | server/oce/controller.py:237-280 | without a crash, the watch's flags say exactly which interrupts were asked for and whether `clients_changed` was met |
| Controller.ShutdownWins | server/oce/controller.py:286-289 | a shutdown asked for anywhere in the watch wins over a restart, whatever the order; with neither the loop goes on |
| Controller.RepliesInOrder | server/oce/controller.py:252-280 | every request that neither crashed nor asked for an interrupt is answered, in the order met |
| Controller.WatchStops | server/oce/controller.py:252-280 | once a request crashes, later tasks are not handled |
| Controller.Act.RegisterClient | server/oce/controller.py:294-297 | the client is added at the end and the clients-changed flag is set |
| Controller.Act.DeregisterClient | server/oce/controller.py:299-302 | the first occurrence of the client is removed and the flag set; an absent client raises and changes nothing |
| Controller.Act.EndWatch | server/oce/controller.py:248-289 | for any request handler (`AsWritten(budget)` is `exec_command` as written, `ExecIntended` the corrected one), replies are sent in order, the escaping interrupt or crash is that of the watch, and a done `clients_changed` is renewed |
| Controller.CommandEndsWatch | server/oce/controller.py:271-280 | as written, a `command` request met before any crash ends the watch with `RecursionError`, and later tasks are not handled |
| Controller.CommandAnsweredIntended | server/oce/controller.py:271-280 | corrected, a `command` request is answered with `"error"` and the watch goes on with nothing else changed |
| Controller.CrashEndsWatch | server/oce/controller.py:271-280 | the first request that crashes ends the watch: its exception escapes and nothing after it is looked at |
| Controller.AnsweredStep | server/oce/controller.py:271-277 | a request answered before any crash adds exactly its reply to the watch |
| Controller.RemoveFirstSpec | server/oce/controller.py:300 | `list.remove` takes out exactly one occurrence when there is one and changes nothing otherwise |
| Controller.RemoveFirstAt | server/oce/controller.py:300 | the occurrence removed is the first one |
| PinyinTable.EveryInitial | server/oce/config.py:50 | every initial is one of the 23 `all_initials` |
| PinyinTable.InitialName | server/oce/config.py:50 | an initial is spelt with one letter, or two ending in `h` exactly for `zh`, `ch`, `sh` |
| PinyinTable.FinalName | server/oce/config.py:53-143 | a final is spelt with one to four lower-case letters, the first a vowel letter or `v` |
| PinyinTable.ParseFinalName | server/oce/config.py:53-143 | reading a final's spelling gives the final back |
| PinyinTable.FinalNameInjective | server/oce/config.py:53-143 | two finals have the same spelling exactly when they are the same final |
| PinyinTable.Rank | server/oce/config.py:53-143 | each final has a position below 33 in the order the loops append them |
| PinyinTable.RankFinalAt | server/oce/config.py:53-143 | the final at each position has that position |
| PinyinTable.FinalAtRank | server/oce/config.py:53-143 | the position of each final holds that final |
| PinyinTable.RankIs | server/oce/config.py:53-143 | a final is at a position exactly when that position is its rank |
| PinyinTable.Appended | server/oce/config.py:54-143 | one loop appends to existing lists and adds no key |
| PinyinTable.PrefixGroup | server/oce/config.py:77-80 | a loop appending several finals adds all of them, in order, to exactly the lists of its initials |
| PinyinTable.StageStep | server/oce/config.py:54-143 | one loop takes the table from the finals appended so far to those plus the loop's finals |
| PinyinTable.Groups1 | server/oce/config.py:53-67 | the loops for `a`, `o`, `e`, `ai`, `ei` run over the initials written, in that order |
| PinyinTable.Groups2 | server/oce/config.py:68-86 | the loops for `ao`, `ou`, `an ang u`, `en`, `eng` run over the initials written, in that order |
| PinyinTable.Groups3 | server/oce/config.py:87-103 | the loops for `ong`, `ua`, `uo`, `uai uang`, `ui` run over the initials written, in that order |
| PinyinTable.Groups4 | server/oce/config.py:104-114 | the loops for `uan un`, `i`, `ia` run over the initials written, in that order |
| PinyinTable.Groups5 | server/oce/config.py:115-124 | the loops for `ie iao ian` and `iu` run over the initials written, in that order |
| PinyinTable.Groups6 | server/oce/config.py:125-133 | the loops for `iang`, `in`, `ing` run over the initials written, in that order |
| PinyinTable.Groups7 | server/oce/config.py:134-143 | the loops for `iong ue` and `v ve` run over the initials written, in that order |
| PinyinTable.AppendGroup | server/oce/config.py:54-143 | the loop over a set of initials appends the group's finals to each of their lists |
| PinyinTable.LoopsAToEi | server/oce/config.py:53-67 | the first five loops leave the table with `a` to `ei` appended |
| PinyinTable.LoopsAoToEng | server/oce/config.py:68-86 | the next loops append `ao` to `eng` |
| PinyinTable.LoopsOngToUi | server/oce/config.py:87-103 | the next loops append `ong` to `ui` |
| PinyinTable.LoopsUanToIu | server/oce/config.py:104-124 | the next loops append `uan` to `iu` |
| PinyinTable.LoopsIangToVe | server/oce/config.py:125-143 | the last loops append `iang` to `ve` |
| PinyinTable.TabulatePinyin | server/oce/config.py:47-145 | the table built is `valid_pinyin`: every initial starts with an empty list, then every loop runs in order |
| PinyinTable.PrefixHas | server/oce/config.py:54-143 | once the first finals are appended, a final is in an initial's list exactly when it is among them and its loop runs over the initial |
| PinyinTable.PrefixAscends | server/oce/config.py:54-143 | each list holds its finals in the order the loops append them |
| PinyinTable.TableKeys | server/oce/config.py:48-52 | the keys of `valid_pinyin` are exactly the 23 initials (also line 148) |
| PinyinTable.TableHas | server/oce/config.py:54-143 | a final is in `valid_pinyin[i]` exactly when its loop runs over `i` (also line 148) |
| PinyinTable.NoDuplicates | server/oce/config.py:54-143 | no final appears twice in a list, and each list follows the order of the loops (also line 148) |
| PinyinTable.AAndO | server/oce/config.py:53-58 | `a` follows every initial but `r`, `j`, `q`, `x`; `o` only `b`, `p`, `m`, `f`, `w` |
| PinyinTable.UaiAndV | server/oce/config.py:96-100 | `uai` and `uang` follow only `g`, `k`, `h`, `zh`, `ch`, `sh`; `v` and `ve` only `n` and `l` (also lines 139-143) |
| PinyinTable.PalatalFinals | server/oce/config.py:54-143 | after `j`, `q`, `x` come only finals beginning with `i`, and `ue` |
| LangidConstants.TabulatePinyin | server/oce/langid/constants.py:12-110 | the copy beside the language identifier builds the same table: keyed by the 23 initials, `a`/`o` and `v`/`ve` following the initials its loops name |
| Features.ZhCharRanges | server/oce/langid/features.py:57-63 | as written, the two-character escapes `\u20000` and the like compare as U+2000 followed by `0`, so the supplementary ranges become four ranges of punctuation and symbols below U+2CEB |
| Features.ZhCharIntendedRanges | server/oce/langid/features.py:57-63 | as intended, a character counts when it lies in one of the six blocks of CJK unified ideographs up to Extension E |
| Features.HasZh | server/oce/langid/features.py:55-65 | as written, true exactly when some character of the sentence passes one of the six comparisons |
| Features.HasZhIntended | server/oce/langid/features.py:55-65 | corrected, true exactly when some character is a CJK unified ideograph |
| Features.EllipsisIsZh | server/oce/langid/features.py:59 | as written, the ellipsis U+2026 counts as Chinese; corrected, it does not |
| Features.ExtensionBIsNotZh | server/oce/langid/features.py:59 | as written, U+20000, the first ideograph of Extension B, does not count; corrected, it does |
| Features.ZhBasicBlocks | server/oce/langid/features.py:57-58 | both versions count the two blocks of the Basic Multilingual Plane |
| Features.BareMatch | server/oce/langid/features.py:78-83 | the step-0 pattern matches at the start of a word exactly when it begins with `a`, `o` or `e`, and what it matches is one of the listed bare syllables |
| Features.BareSyllableMatches | server/oce/langid/features.py:78-83 | the pattern matches the whole of every listed bare syllable |
| Features.ConsonantName | server/oce/langid/features.py:85-93 | a one-letter initial is read from its own letter, which is no vowel |
| Features.SibilantName | server/oce/langid/features.py:85-93 | `z`, `c`, `s` begin both their own names and those of `zh`, `ch`, `sh` |
| Features.InitialLetter | server/oce/langid/features.py:85-93 | every initial is recognised from the first letter of its name |
| Features.UpToNewline | server/oce/langid/features.py:85 | `.*` takes the text up to the first newline |
| Features.SplitInitial | server/oce/langid/features.py:85-93 | step 1 splits a word into an initial whose name it begins with and the text after it up to a newline, and fails exactly on an empty word or one starting with no initial letter |
| Features.SplitInitialName | server/oce/langid/features.py:85-93 | a word spelt with an initial splits back into that initial and the rest, unless `z`, `c` or `s` is followed by `h` |
| Features.StripTones | server/oce/langid/features.py:111 | `rstrip("012345")` removes exactly the tone numbers at the end |
| Features.StripTonesAfter | server/oce/langid/features.py:111 | tone numbers after a final are exactly what is stripped |
| Features.Lead | server/oce/langid/features.py:112-126 | the `startswith` chain picks a pattern exactly when the final begins with `a`, `o`, `e`, `u`, `i` or `v`, and picks that letter's |
| Features.Names | server/oce/langid/features.py:132-138 | the list looked up holds the spelling of each final of the initial's list, in order |
| Features.NamesHas | server/oce/langid/features.py:132-138 | a string is in that list exactly when it spells a final of the initial's list |
| Features.CheckPinyin | server/oce/langid/features.py:68-83 | as written, every word beginning with `a`, `o` or `e` is pinyin |
| Features.AcceptsSpec | server/oce/langid/features.py:96-138 | once the initial is split off, the word is accepted exactly when, tones stripped, it spells a final the table lists for the initial |
| Features.AcceptsName | server/oce/langid/features.py:111-138 | a final's name followed by tone numbers is accepted exactly when the initial's list holds the final |
| Features.NameListed | server/oce/langid/features.py:132-138 | a final's name is among the names of a list exactly when the list holds the final |
| Features.SyllableSplit | server/oce/langid/features.py:78-93 | a syllable spelt from an initial, a final and tone numbers is not matched by step 0 and splits into that initial and the rest |
| Features.SyllableAgreement | server/oce/langid/features.py:68-138 | such a syllable is pinyin, in both versions, exactly when the table lists its final for its initial |
| Features.NoInitialRejected | server/oce/langid/features.py:85-93 | a word that begins with neither `a`, `o`, `e` nor an initial is not pinyin |
| Features.IntendedBare | server/oce/langid/features.py:78-83 | corrected, step 0 accepts a word exactly when, its tone numbers stripped, it is one of the eleven listed syllables |
| Features.TonedBareAccepted | server/oce/langid/features.py:78-83 | a listed syllable followed by tone numbers is pinyin in both versions (tone numbers also line 111) |
| Features.Ai4IsPinyin | server/oce/langid/features.py:78-83 | `ai4` is pinyin in both versions |
| Features.LongAWord | server/oce/langid/features.py:78-83 | as written any word beginning with `a` is pinyin; corrected, one of more than three letters without a final tone number is not |
| Features.IntendedStricter | server/oce/langid/features.py:78-83 | the corrected check accepts no more than the one as written, and they agree on words not beginning with `a`, `o` or `e` |
| Features.AppleIsPinyin | server/oce/langid/features.py:78-83 | as written, `apple` is pinyin; corrected, it is not |
| Features.HasPinyin | server/oce/langid/features.py:141-145 | true exactly when some token is pinyin |
| Features.HasWord | server/oce/langid/features.py:148-152 | `has_en_US` and `has_en_GB`: true exactly when the dictionary knows some token (also lines 175-179) |
| Features.Known | server/oce/langid/features.py:204-206 | some Singapore English word list knows the token |
| Features.HasSgeWords | server/oce/langid/features.py:202-207 | true exactly when some word list knows some token |
| Features.EnAndZhSpec | server/oce/langid/features.py:36-40 | `has_en_and_zh` holds exactly when the sentence has a Chinese character and some token is known to one of the three dictionaries |
| Features.ExtractFeatures | server/oce/langid/features.py:23-41 | a sentence without tokens raises `ZeroDivisionError`, since `portion_en_US` and `portion_en_GB` divide by the token count (also lines 171 and 198); otherwise each boolean feature holds exactly when its search succeeds, and `has_en_and_zh` is `has_zh` and one of the three English searches |

## Left out

- Strings.Lower and Strings.Upper: Python's `str.lower` and `str.upper` are modelled on ASCII only; every other character is left as it is, because Unicode case tables are out of scope.
- Features.ExtractFeatures: the two `portion_*` entries are left out. They are fractions rounded through string formatting, and floating point is not part of this model. Their division by zero on a sentence without tokens is modelled: the result is then the `ZeroDivisionError` error.
- Features.ExtractFeatures, Features.HasPinyin and Features.EnAndZhSpec use the corrected `has_zh` and `check_pinyin` (see Findings). What the code as written computes is stated by `Features.HasZh` and `Features.CheckPinyin`.
- NLTK's tokeniser and the enchant dictionaries are external libraries. A sentence comes with its tokens, and a dictionary is a function from a token to a boolean.
- `Features.Lead`: the six regular expressions for finals are modelled by their lead letter. Each is that letter followed by an optional group, so it matches every final the `startswith` chain sends to it.
- `textwrap.TextWrapper.wrap` is a parameter (`wrap`) of the telnet framing.
- `parse_qs` and `int` decoding of the search URL in `exec_search` are a parameter (`decoded`): either the decoded query and page, or the name of the error decoding raised (`KeyError` for a missing `s` or `p`, `ValueError` for a page that is not an integer).
- The Python interpreter's recursion limit is a parameter (`budget`) of the telnet parser and of `exec_command`: only that some depth is exhausted is modelled, not its value.
- Calls into the database provider are values (`Call`, in `Controller`); what the provider returns for them is not part of this model.
- SQL execution, SQLAlchemy sessions, `lru_cache` memoisation and the timing of queries are not part of this model. The statement lists of the schema modules are taken as given (`SqliteProvider.Schema`). A table is a map that the modelled operations update.
- The asyncio machinery is not part of this model: sockets, queues, futures, `run_parser`, `run_controller` and the watch futures. The queues of the telnet parser are sequences, and a watch is the sequence of futures it found done.
- Logging is left out, except the log entries and the final reset of the supervisor. The argument parsing of `server/main.py` is left out too: the keyword arguments are a fixed value.
- The order in which Python iterates over a `set` or `dict` is not modelled. The telnet listings are sorted, and the tag table and pinyin table give the same result in any order.
- `command_debugsleep` with a number sleeps that many seconds and prints a `** Zzz **` message after each. The model sends nothing then, because the messages are paced by a clock. Its `ValueError` for an argument that is not a number is modelled (`TelnetParser.DebugSleepCalled`).
- `TelnetParser.IntLiteral`: `int` also accepts decimal digits outside ASCII (such as Arabic-Indic digits); the model accepts only ASCII digits, because Unicode digit tables are out of scope.
- Controller.ExecLangid: the classifier check and retraining at controller.py:405-409 are not modelled. `exec_retrain()` there is called without its `request` argument, so it raises a `TypeError`; the wrapper on `exec_retrain` turns that into an error dict, which is truthy, so the `return "error"` branch can never be taken.
- `exec_motd` (a file read), `exec_debug` (an interactive console), `exec_retrain` and `exec_find_features` are each answered by a call value named after the command. Their own work is not part of this model.
- `Tokenisers`: `suffixes_as_list` converts start positions from UTF-8 bytes to characters. The model keeps character positions throughout, so the conversion is the identity.
- The text of a Python `repr` in `langid_function` is given as a parameter string.
- `services.py`, `ws.py`, `interfaces/websocket.py`, `interfaces/telnet.py`, `langid/langid.py`, the schema modules and `loader.py` are not part of this model.
- `oce.loader` is reloaded through `importlib`, and `Loader.unload` acts on `sys.modules`. These are runtime mechanics: the loader is a sequence of outcomes, and the two reload steps are outcomes that either return or raise.
- `langid_normalise_language` fails on an empty label between commas, such as `en,,zh`. The model returns the `IndexError` as an error result instead of raising it.

## Findings

| source | as written | input that shows it | evidently intended | confidence | as-written member | corrected member |
|---|---|---|---|---|---|---|
| server/oce/providers/sqlite/sqlite.py:477-504 | in standard syntax a negated plain word is emitted without its `-`, since only the keyword branches use the negation prefix | the query `-foo` in standard syntax gives the full-text query `foo fullscan:1`, shown back as `foo` | `-foo fullscan:1`, shown back as `-foo` | not executed | SearchQuery.NegatedTermLosesDash | SearchQuery.NegatedTermKeepsDash |
| server/oce/providers/sqlite/sqlite.py:441-451 | the full-terms piece of a negated suffix word ends without a space, so the next term is glued to it | the words `-*ab *cd` give the single term `-abcd` | two terms, `-ab cd` | not executed | SearchQuery.FullTermsFuse | SearchQuery.FullTermsSeparate |
| server/oce/interfaces/telnet_parser.py:219-220 | `last_command` is kept unless the raw message starts with `!`, but the command is picked from the stripped first word | typing ` !` remembers ` !`, which picks `!` and repeats itself until `RecursionError` | a message whose first non-blank character is `!` is not remembered | not executed | TelnetParser.SpaceBangLoops | TelnetParser.CorrectedSafe |
| server/oce/interfaces/telnet_parser.py:219-220 | the nested parse of a `db` message stores the words after `db` as `last_command` | `db drop t` then `!` answers `Invalid command.` | `!` repeats `db drop t` | not executed | TelnetParser.DbDropThenBang | TelnetParser.CorrectedDropThenBang |
| server/oce/interfaces/telnet_parser.py:390 | the character class `[^\]\"\|[^"]` is one class, so it also refuses `\|`, `[`, `^` and `]` inside the quotes | `db query "a\|b"` is refused | any text without a `"` between the quotes is the query | not executed | TelnetCommands.QueryRefusesBar | TelnetCommands.QueryIntended |
| server/oce/controller.py:333-337 | `exec_command` is itself an `exec_` method, so the command `command` calls it again with the same request | a request whose command is `command` raises `RecursionError`, which ends the controller | the `"error"` reply, as for any command without a handler | not executed | Controller.CommandEndsWatch | Controller.CommandAnsweredIntended |
| server/oce/langid/features.py:78-83 | step 0 uses `re.match`, which anchors only at the start | `apple` is taken for pinyin | only a word that is wholly one of the listed syllables, tone numbers aside, passes step 0 (`ai4` still does) | not executed | Features.AppleIsPinyin | Features.IntendedBare |
| server/oce/langid/features.py:59-62 | escapes such as `\u20000` are a four-digit escape followed by a digit, so the bounds are two-character strings | U+2026 (the ellipsis) counts as Chinese and U+20000 does not | the CJK Extension B to E blocks | not executed | Features.EllipsisIsZh | Features.ZhCharIntendedRanges |

The legacy `process_query` (`server/oce/db.py:436-441`) can be read as giving an all-negative query starting with `NOT` both the leading and the trailing `fullscan:1`. The code cannot do that: the operator `NOT` is itself counted as a positive term. A query starting with `NOT` therefore gets only the leading `fullscan:1` (`LegacyQuery.FullscanRules`). The model follows the code.
