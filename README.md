# whichGame core, modelled in Dafny

whichGame is a small browser app. A group picks who is playing, and the app recommends
which game to play. It works from two inputs:

- a preference table, in which each player scores each game from 0 (veto) to 3;
- a set of game rules: player-count limits, ideal ranges and online caps. The rules come
  either as a table or as free English text ("Catan can be played with 3 to 4 players.").

This project models everything in `app.js` except the DOM:

- the header and name normalisation helpers and `findField`;
- the three preference-table layouts (long, paired and wide) and their parser;
- the rules-table parser and the free-text rule parser, with its sentence grammar;
- the admin overrides (apply, clone, and the entries that saving writes);
- the recommendation engine in `computeAndRender`: eligibility, vetoes, scoring, the
  ranking sort and the five-player promotion.

Modules follow the program's layers:

| module | file | what it holds |
|---|---|---|
| `Text` | text.dfy | whitespace, ASCII lower-casing, trimming and `normalizeName`; `normalizeLoose`; " - " splitting; string order |
| `Table` | table.dfy | parsed table cells, `cleanValue`, the candidate header lists and `findField` |
| `Prefs` | prefs.dfy | preference entries, `parseScore`, `addPreference`, overrides, and the `PreferenceStore` class (the mutable `Map`) |
| `PrefParser` | prefparser.dfy | `parsePairedPreferences` and `parsePreferencesData`: a fold over the rows for each layout, and the loops over a `PreferenceStore` proved against it |
| `Rules` | rules.dfy | the rule record, `parseNumber` and `parseRulesData` |
| `RuleGrammar` | rulegrammar.dfy | `extractNumbers`, the seven sentence patterns, and sentence classification and application |
| `RuleText` | ruletext.dfy | block splitting, `splitRuleBlock`, `guessGameName`, sentences, the `RuleDraft` class that `applyRuleSentence` mutates, and `parseRulesText` |
| `Engine` | engine.dfy | the body of `computeAndRender` |

Where the source mutates state, the model does too:

- `addPreference` and `applyOverrides` update a `PreferenceStore` in place.
- `applyRuleSentence` updates a `RuleDraft` in place.
- The parsers and the engine are methods with loops.
- The ranking sort runs in place on an array.

Each of these is proved against a function of its inputs, and the properties are proved
about that function.

Table cells arrive already classified. A cell is either `Missing` (the row has no such
key), or it holds its text together with the value JavaScript's `Number()` gives: a
finite integer or `NotFinite`. The engine takes the selected players as a parameter,
where the source reads them from the page, and it returns the ordered list instead of
rendering it.

## Model

| member | source | states |
|---|---|---|
| Text.LowerSpec | app.js:645 | the lower-cased text has no upper-case ASCII letter: 'A'..'Z' become 'a'..'z' (code plus 32) and every other character is kept |
| Text.LowerAppend | app.js:645 | lower-casing works piecewise over a concatenation |
| Text.LowerIdempotent | app.js:645 | lower-casing twice is lower-casing once |
| Text.TrimStartSpec | app.js:627 | trimming the front removes exactly the leading run of whitespace: what is left is a suffix that starts with a non-space |
| Text.TrimEndSpec | app.js:627 | trimming the back removes exactly the trailing run of whitespace: what is left is a prefix that ends with a non-space |
| Text.TrimIsTrimmed | app.js:627 | a trimmed string has whitespace at neither end |
| Text.TrimIdempotent | app.js:627 | trimming twice is the same as trimming once |
| Text.NormalizeNameIsJoinedWords | app.js:648-653 | the game key is the input's whitespace-separated words, lower-cased and joined by single spaces (an independent reference definition) |
| Text.NormalizeNameIdempotent | app.js:648-653 | normalising a key again leaves it unchanged |
| Text.SameWordsSameKey | app.js:648-653 | two names whose words agree after lower-casing get the same key, whatever their case, padding or runs of whitespace |
| Text.NormalizeNameEmpty | app.js:648-653 | the key is empty exactly when the trimmed name is empty |
| Text.NormalizeNameTrim | app.js:648-653 | trimming a name first does not change its key |
| Text.KeepLowerAlnum | app.js:482-486 | the loose form is no longer than the input and holds only lower-case ASCII letters and digits |
| Text.KeepLowerAlnumKeeps | app.js:482-486 | nothing is dropped from an input made only of lower-case letters and digits, and everything is dropped from one holding none of them |
| Text.KeepLowerAlnumAppend | app.js:482-486 | filtering works piecewise: the loose form of `a + b` is that of `a` followed by that of `b`, so the kept characters stay in order |
| Text.SplitSpec | app.js:453 | no part contains the separator; there is one part exactly when the text has no separator; otherwise the first part ends where the first separator starts |
| Text.JoinSplit | app.js:453-460 | joining the " - " parts back with " - " gives back the text |
| Text.StrLessIrreflexive | app.js:967 | no name sorts before itself |
| Text.StrLessTransitive | app.js:967 | name order is transitive |
| Text.StrLessTotal | app.js:967 | of two different names, one sorts before the other |
| Table.CleanValue | app.js:623-628 | a missing cell cleans to the empty string and any other cell to its trimmed text |
| Table.CleanValueIdempotent | app.js:623-628 | cleaning a cleaned value again changes nothing |
| Table.HeaderLookup | app.js:631-634 | every field's normalised header is a key of the lookup, and each key maps to a field with that header |
| Table.HeaderLookupLast | app.js:632-634 | when several fields share a header, the lookup keeps the last of them |
| Table.FirstCandidate | app.js:635-641 | the result comes from the earliest candidate with a non-empty match, and it is none when no candidate matches |
| Table.FindFieldSpec | app.js:630-642 | `findField` returns a field whose header is a candidate; among fields with that header it is the last; no earlier candidate appears among the headers; it is none exactly when no header is a candidate |
| Table.FindFieldFound | app.js:630-642 | a found field is one of the fields, and its header is a candidate |
| Prefs.ParseScore | app.js:596-610 | the score is absent or in 0..3; a blank cell gives no score and no warning; a non-blank cell is kept exactly when it is a finite number in 0..3; a rejected non-blank cell appends exactly one warning |
| Prefs.AddPref | app.js:578-594 | an empty key changes nothing; otherwise the key is added and no other key; every other entry is unchanged; the entry gets the trimmed name; its scores gain the player's score when there is one and are otherwise unchanged |
| Prefs.AddPrefKeepsRange | app.js:578-594 | adding a score in 0..3 keeps every stored score in 0..3 |
| Prefs.SetScoresExtends | app.js:143-148 | setting the scores of one entry removes no player |
| Prefs.OverridesNeverRemove | app.js:125-150 | applying an override document never removes a game key or a player's score |
| Prefs.EntriesNeverRemove | app.js:129-149 | applying any list of override entries never removes a game key or a player's score |
| Prefs.SetScoresOthers | app.js:143-148 | a player that no pair names keeps their score, or keeps having none |
| Prefs.OverridesKeepUnnamed | app.js:125-150 | a player's stored score for a game is unchanged unless some entry for that game names that player |
| Prefs.OverridesKeepUnnamedGame | app.js:129-149 | a game that no entry names keeps its whole entry |
| Prefs.OverridesCreateEntry | app.js:133-137 | every entry with a non-empty key leaves that key present, creating it if it was missing |
| Prefs.SetScoresLast | app.js:142-147 | a player's score is the value of the last finite pair naming them |
| Prefs.OverridesSetScore | app.js:125-150 | an entry's finite score for a player is what the map then holds for that game, when no later pair of the entry gives the player a finite score and no later entry for the game names the player |
| Prefs.OverridesSetName | app.js:133-140 | an entry's non-empty name is the game's name afterwards, unless a later entry for the game gives another name |
| Prefs.SetSavedScores | app.js:143-148 | applying the scores saved for a roster puts every roster player's current score back over the old scores |
| Prefs.ReapplyPrefix | app.js:125-165 | applying a prefix of the saved entries over the base gives the base patched with the current records of those keys |
| Prefs.SaveThenReapply | app.js:125-165 | saving the current preferences and reapplying the saved entries over the base gives the current preferences back, when the current map extends the base and every score belongs to a roster player |
| Prefs.PreferenceStore.constructor | app.js:267 | a new store is the empty map |
| Prefs.PreferenceStore.Clone | app.js:93-100 | the clone is a new store holding the same entries |
| Prefs.PreferenceStore.AddPreference | app.js:578-594 | the store's new map is `AddPref` of the old map, whose properties are stated above |
| Prefs.PreferenceStore.ApplyOverrides | app.js:125-150 | the store's new map is the old one with the entries applied in order, and it still holds every game and score it held before |
| Prefs.PreferenceStore.SetEntryScores | app.js:143-148 | the scores loop stores each finite value in order and skips the others |
| Prefs.PreferenceStore.SaveEntries | app.js:156-165 | one saved entry per game, with distinct keys, each with the game's name and the scores of the roster players who have one |
| PrefParser.AddScoreWellFormed | app.js:244-245 | reading one score cell into the map keeps every key the normalised form of its non-empty name and every score in 0..3 for a roster player; warnings are only appended |
| PrefParser.AddScoresWellFormed | app.js:243-246 | the same for a whole row of score columns |
| PrefParser.LongRowsWellFormed | app.js:270-280 | the long-format loop leaves a well-formed map over the roster it builds |
| PrefParser.LongRowsRoster | app.js:270-280 | a player is on the long-format roster exactly when some row names both them and a game |
| PrefParser.Without | app.js:289 | the player fields are exactly the fields other than the game field |
| PrefParser.WideColumns | app.js:293-298 | each wide score column is a field whose trimmed header is a non-empty player name |
| PrefParser.WideColumnsComplete | app.js:293-298 | every field with a non-empty trimmed header becomes a player |
| PrefParser.WideRowsFacts | app.js:299-312 | the wide-format loop keeps the roster, leaves a well-formed map, and only appends warnings |
| PrefParser.ScanPairs | app.js:188-206 | every position the scan takes is flagged, and consecutive positions are at least two apart, so a score column never starts another pair |
| PrefParser.ScanPairsComplete | app.js:188-206 | a flagged column is taken unless the column before it was just taken |
| PrefParser.PairsFromScan | app.js:188-206 | the column-by-column pair scan equals the scan over the pair flags |
| PrefParser.PairsShape | app.js:188-206 | pair k reads the two columns at scan position k, which pass the pair test, and no two pairs share a column |
| PrefParser.ScanGameBlank | app.js:222-227 | a row has no game name exactly when every pair's game cell is blank |
| PrefParser.ScanGameMismatch | app.js:228-238 | a row is flagged as mismatched exactly when some non-blank game cell disagrees, after normalising, with the name the row takes |
| PrefParser.ScanGameFirst | app.js:224-229 | the game name of a row is its first non-blank game cell |
| PrefParser.PairedRowsFacts | app.js:220-247 | the paired-format row loop keeps the roster, leaves a well-formed map, and only appends warnings |
| PrefParser.PairedWellFormed | app.js:184-254 | a paired parse leaves a well-formed map whose roster is exactly the pair players |
| PrefParser.ParsePreferencesErrors | app.js:258-317 | the parse fails with "no header" exactly when there are no fields; with "no game column" exactly when no game header is found and no pair is found; with "no player columns" exactly when the game column is the only field and the paired path did not return |
| PrefParser.WideContinueFacts | app.js:288-313 | the wide pass keeps the map well formed, only grows the roster and the warnings, and puts every non-game field with a non-empty trimmed header on the roster |
| PrefParser.ParsePreferencesWellFormed | app.js:256-324 | every successful parse gives a map keyed by normalised non-empty names, with scores in 0..3 for roster players only |
| PrefParser.LongTableHeadersBecomePlayers | app.js:288-298 | as written: on a long-format table the trimmed player-column and score-column headers end up on the roster, so the roster is not empty even when there are no rows |
| PrefParser.LongTableIntendedRoster | app.js:270-280 | corrected: on a long-format table the roster is exactly the players named by the rows, and the map is well formed; other tables parse as before |
| PrefParser.SortNames | app.js:321 | the roster list is strictly sorted and holds exactly the names of the set |
| PrefParser.FindPairs | app.js:188-206 | the index loop with its `i += 1` skip returns the pairs of the column scan |
| PrefParser.ScanRow | app.js:222-239 | the game name and mismatch flag are those of the row scan; the mismatch set gains at most this row; at most one warning is appended, and only for a mismatch |
| PrefParser.ScorePairs | app.js:243-246 | the store and warnings become those of reading every pair's score cell in order |
| PrefParser.PairedRowStep | app.js:220-247 | one row of the paired loop has the effect of the row function on the store and the warnings |
| PrefParser.ParsePairedPreferences | app.js:184-254 | returns none exactly when no pair is found; otherwise it reports the paired parse: its map, its warnings, and its roster sorted |
| PrefParser.LongPass | app.js:270-280 | the long-format loop's store, roster and warnings are those of the long-format fold |
| PrefParser.WidePass | app.js:293-313 | the wide-format loops' store, roster and warnings are those of the wide-format fold, from the roster extended by the column players |
| PrefParser.WideRowStep | app.js:299-312 | one row of the wide loop has the effect of the row function |
| PrefParser.ParsePreferencesData | app.js:256-324 | fails exactly when the parse function fails, with the same error; otherwise it reports the parse function's map, warnings and sorted roster |
| Rules.MinBound | app.js:504 | `Math.min` with a bound never raises it, and gives either the bound or the new value |
| Rules.ParseNumber | app.js:612-621 | a missing, empty or non-finite cell gives the fallback, and any other cell gives its number |
| Rules.ParseMin | app.js:379 | the minimum is 1 for a missing, empty or non-finite cell, and the cell's number otherwise |
| Rules.ParseMax | app.js:380 | the maximum is no bound for a missing, empty or non-finite cell, and at most the cell's number otherwise |
| Rules.RowRule | app.js:375-402 | a row gives a rule exactly when its cleaned game cell is non-empty, and the rule is named by that cleaned cell; its minimum, maximum, ideal range and online cap are the numbers parsed from their columns; the count sets start empty and ranges are off |
| Rules.RulesTableErrors | app.js:329-336 | the parse fails with "no header" exactly when there are no fields, with "no game column" exactly when no header is a game candidate, and with no other error |
| Rules.FoldRowsFacts | app.js:374-403 | every stored rule sits under its normalised name; every stored rule with min above max has its warning; there is at most one warning per row |
| Rules.TableRulesFacts | app.js:374-405 | the same for the rows of a table |
| Rules.FoldRowsKeys | app.js:390-391 | a key is stored exactly when some row's rule has that key |
| Rules.TableRulesKeys | app.js:374-403 | the same for the rows of a table |
| Rules.FoldRowsLast | app.js:390-391 | the stored rule is the one from the last row with that key |
| Rules.TableRulesLastRowWins | app.js:374-403 | the same for the rows of a table: no later row has the key |
| Rules.ParseRulesData | app.js:326-406 | the method's result, error or rules and warnings, is that of the rules-table function |
| Rules.ReadRuleRows | app.js:372-405 | the row loop's map and warnings are those of the fold over the rows' rules |
| RuleGrammar.ExtractNumbersEmpty | app.js:570-576 | no numbers are extracted exactly when the text has no digit |
| RuleGrammar.ExtractNumbersFirst | app.js:570-576 | the first number extracted is the value of the first run of digits |
| RuleGrammar.ExtractNumbersRun | app.js:570-576 | a text made only of digits gives exactly one number, the value of those digits |
| RuleGrammar.ExtractNumbersAppend | app.js:570-576 | a non-digit cuts the text in two: the numbers of the left side come first, then those of the right side, so a list such as "2, 5 or 7" gives every number in order |
| RuleGrammar.Search | app.js:501 | the search gives the captures of the leftmost position where the pattern matches, one value per capture group, and nothing exactly when it matches nowhere |
| RuleGrammar.ApplyFormTightens | app.js:488-568 | no sentence lowers the minimum or raises the maximum; the count sets only grow; range permission is never withdrawn; name, notes and online cap never change |
| RuleGrammar.ApplyFormFrame | app.js:488-568 | each sentence form touches only its own fields: only "best with" sets the ideal range; only the count-list forms grow the sets; only the range forms set range permission; unparsed and ignored sentences change nothing |
| RuleGrammar.CannotFormOrder | app.js:500-517 | the "cannot be played with" block tries "N or more", then "more than N", then the list of all numbers; each form carries the value its pattern captured and holds only when the earlier patterns did not match; it falls through exactly when the phrase is missing, or nothing matches and there is no number |
| RuleGrammar.CanFormOrder | app.js:519-563 | the "can be played with" block tries "more than N", "N or more", "up to N", "between N and M", "N to M", then the list of all numbers, in that order, each with its captured values; it falls through exactly when the phrase is missing, or nothing matches and there is no number |
| RuleGrammar.ClassifyOrder | app.js:488-568 | on the lower-cased sentence: "best … played with" with a digit is taken first, with the first number; then the "cannot" block decides; the "can" block is reached only when the "cannot" block fell through, and never for a sentence holding "cannot be played with"; the warning form is exactly a sentence with a digit and "cannot" that both blocks let through |
| RuleText.TidyAppend | app.js:413-414 | trimming and dropping blank pieces works piecewise over a concatenation, so the kept pieces stay in order |
| RuleText.TidyMembers | app.js:413-414 | a string is kept exactly when it is the non-empty trimmed form of some piece |
| RuleText.Separators | app.js:411-412 | there is one separator fewer than pieces |
| RuleText.SeparatorsShape | app.js:411-412 | each separator the text is cut at is one whole match of `\r?\n\s*\r?\n` |
| RuleText.SeparatorShape | app.js:411-412 | what the separator scan finds is one whole match of `\r?\n\s*\r?\n` |
| RuleText.PiecesRebuild | app.js:411-412 | the pieces, with the separators put back between them, rebuild the text |
| RuleText.NextCut | app.js:411-412 | the next cut is at the leftmost position where a separator starts, and ends where that separator ends; there is none exactly when no separator starts in the rest of the text |
| RuleText.BlocksSpec | app.js:411-414 | the blocks are the pieces, trimmed, with blank ones dropped, and those pieces with their separators rebuild the text |
| RuleText.SingleLineBlock | app.js:411-414 | text without a line break is one block, its trimmed self, or no block when it is blank |
| RuleText.NameEnd | app.js:475 | the lazy name match ends at the first position on the first line that is followed by whitespace and a verb; when there is none, no position on the first line is |
| RuleText.BeforeFirstDot | app.js:479 | the text before the first dot: a prefix without a dot that stops at a dot or at the end |
| RuleText.GuessGameName | app.js:474-480 | the guessed name is trimmed |
| RuleText.GuessGameNameVerb | app.js:475-477 | when a verb follows, the name is the trimmed text before the first such position |
| RuleText.GuessGameNameDot | app.js:479 | when no verb follows on the first line, the name is the trimmed text before the first dot |
| RuleText.BackSearch | app.js:458-469 | the backward search returns a cut at or below where it starts |
| RuleText.BackSearchSpec | app.js:458-469 | the backward search returns the largest accepted cut at or below its start, and none exactly when no cut there is accepted |
| RuleText.SplitBlockSearched | app.js:458-469 | when the search finds a cut, name and content are non-empty and the loose content starts with the loose name; the cut is accepted and no later cut is |
| RuleText.SplitBlockUndashed | app.js:452-456 | a block whose normalised text holds no " - " keeps that whole text as content and takes its name from `guessGameName` |
| RuleText.SplitBlockFallback | app.js:458-471 | when no cut is accepted, the name is the normalised text before the first " - " and the content everything after it, both trimmed |
| RuleText.SplitRuleBlock | app.js:451-472 | the method, with its backward loop, returns the block split function's result |
| RuleText.JoinLines | app.js:436 | no '\n' is left |
| RuleText.JoinLinesNoReturn | app.js:436 | without a '\r', each '\n' becomes a space, every other character is kept, and the length is unchanged |
| RuleText.JoinLinesAppend | app.js:436 | the replacement works piecewise over a concatenation, unless the first part ends in '\r' |
| RuleText.JoinLinesReturn | app.js:436 | a "\r\n" pair becomes one space |
| RuleText.SplitAtStops | app.js:437 | at least one piece, and no piece contains '.', '!' or '?' |
| RuleText.SplitAtStopsRebuild | app.js:437 | the pieces, with the stops put back between them in order, rebuild the text |
| RuleText.SplitAtStopsAppend | app.js:437 | a stop cuts the text in two: the pieces of the left side, then those of the right side |
| RuleText.SplitAtStopsNone | app.js:437 | text without a stop is a single piece |
| RuleText.SentencesAppend | app.js:435-439 | the sentences of a text, a stop and more text are those of the first text followed by those of the rest, so sentences come out in the order they are written |
| RuleText.SentencesNoStop | app.js:435-439 | text without a stop is one sentence, its line breaks made spaces and trimmed, or no sentence when that is blank |
| RuleText.ApplyAllTightens | app.js:441-443 | across all the sentences of a block the minimum never decreases and the maximum never increases; the count sets only grow; name, notes and online cap are unchanged |
| RuleText.ApplyFormKeepsIdeal | app.js:492-497 | a sentence keeps the ideal range a single count that is also explicitly allowed |
| RuleText.ApplyAllKeepsIdeal | app.js:441-443 | the same across all the sentences of a block |
| RuleText.RuleDraft.constructor | app.js:422-433 | a new rule record holds the defaults: minimum 1, no maximum, no ideal range, no cap, empty sets, ranges off |
| RuleText.RuleDraft.ApplySentence | app.js:488-568 | the record's new state is the old one with the sentence's form applied; the sentence's warning, if any, is appended |
| RuleText.SplitBlockTrimmed | app.js:451-472 | the name of every split block is trimmed |
| RuleText.ReadBlockRule | app.js:416-445 | a block's rule is stored under its normalised non-empty name, and its notes are the block's content |
| RuleText.FoldBlocksFacts | app.js:416-446 | every rule read from a list of blocks is stored under its own key, with a trimmed non-empty name and a minimum of at least 1 |
| RuleText.TextRulesFacts | app.js:408-449 | the same for every rule read from a text |
| RuleText.ParseBlock | app.js:417-445 | one block's rule and warnings are those of the block function |
| RuleText.ParseRulesText | app.js:408-449 | the method's rules and warnings are those of the text-rules function |
| Engine.CheckCount | app.js:883-914 | no reason is given exactly when the count is eligible; a disallowed count gives "not allowed" as its first reason |
| Engine.FirstVeto | app.js:919-927 | the first selected player whose effective score is 0, or none when there is no such player |
| Engine.ScorePlayers | app.js:916-929 | the total is the sum of effective scores up to the first veto, or of all of them; the veto is reported exactly when there is one, and names that player |
| Engine.CandidateExcluded | app.js:879-916 | a game is not recommended when the player count is disallowed, or when it is "clubs - league" with fewer than five players |
| Engine.CandidateVetoed | app.js:917-937 | a game is not recommended when a selected player vetoes it (score 0); the names must be non-empty because `if (vetoedBy)` ignores an empty one, and every roster name is, since the parsers skip blank player names (app.js:191, 274, 296) |
| Engine.CandidateRecommended | app.js:879-957 | a recommended game has no veto, the count is eligible, the total is the sum of all effective scores, and the bonus is 0 or 1 |
| Engine.CandidatesMembers | app.js:865-958 | the recommendations are exactly the candidates of the game keys |
| Engine.BeforeTransitive | app.js:960-968 | the ranking order is transitive |
| Engine.BeforeTotal | app.js:960-968 | two items ranked neither way agree on total, bonus and name |
| Engine.BeforeAsymmetric | app.js:960-968 | the ranking order is asymmetric |
| Engine.InsertRankedSpec | app.js:960-968 | inserting into a ranked list keeps it ranked and adds exactly that item |
| Engine.SortByRankSpec | app.js:960-968 | the ranking sort gives a ranked permutation of its input |
| Engine.InsertAt | app.js:960-968 | moving an element into the ranked suffix of the array leaves the prefix alone and makes the suffix its ranked insertion |
| Engine.RankInPlace | app.js:960-968 | sorting the array in place leaves it holding the ranking sort of its old contents |
| Engine.FindPriority | app.js:972-974 | the first item whose normalised name is a five-player priority game, or none when there is none |
| Engine.PromoteSpec | app.js:975-980 | the promotion is a permutation; without a priority item nothing moves; otherwise the first priority item comes first and the rest keep their relative order |
| Engine.RankedWithout | app.js:978 | removing one item from a ranked list keeps it ranked |
| Engine.RecommendMembers | app.js:846-981 | the result holds exactly the games that pass every check |
| Engine.RecommendRanked | app.js:960-968 | with any count but five the result is ranked by total plus bonus, then total, then name |
| Engine.RecommendPromoted | app.js:970-981 | with five players and no priority game the result is the ranking; with one, the first priority game leads and the rest stay ranked |
| Engine.ExcludedAbsent | app.js:879-937 | a disallowed or too-small "clubs - league" game appears nowhere in the result, and neither does a game vetoed by a non-empty selected name |
| Engine.ConsiderGame | app.js:866-957 | the loop body's recommendation for a key is the candidate function's |
| Engine.Recommend | app.js:845-981 | no data or fewer than three players gives the empty list; otherwise the result is the ranked, promoted list of candidates over the game keys of both maps, taken in sorted order |

## Left out

- Everything that touches the page: DOM setup and event wiring, all rendering, and the admin modal and passcode. The engine takes the selected players as a parameter and returns its list.
- `localStorage` and JSON: `loadOverrides`, the `setItem` of `saveOverrides`, `clearOverrides` and `applyStoredOverrides`. They are foreign side effects. An override document is given as a value, with `None` standing for a missing or malformed one.
- `loadEmbeddedData`, `saveAdminChanges` and `resetAdminChanges`. They only move screen state into the preference map through the modelled operations.
- `Number()` on arbitrary strings. Each cell carries the number JavaScript would read from it, as a finite integer or as not finite. Fractional scores and bounds are not modelled, and neither is arithmetic beyond 2^53.
- `Infinity` as a maximum is the `Unbounded` bound.
- `averageScore` is dropped. Every candidate shares the same player count, so ordering by average is ordering by total.
- Text.LowerSpec: only ASCII letters are lower-cased. JavaScript's `toLowerCase` also maps other letters.
- Text.StrLessTotal: names and rosters are ordered by Unicode code points, not by `localeCompare` collation, so locale-aware name order in the ranking is not modelled. The roster's `sort()` compares UTF-16 code units, which agrees with code point order except between characters outside the Basic Multilingual Plane and those in U+E000–U+FFFF.
- Engine.Recommend: game keys are visited in sorted order rather than in `Set` insertion order. The recommendations are the same set either way, but two items that tie on total, bonus and name may come out in the other order.
- The reason texts of the engine are not modelled. They are discarded, and only whether there is any reason decides a game. `Engine.CheckCount` names only the first reason.
- Regular expressions are modelled by a small token matcher (literal text, digit runs, whitespace runs) with greedy runs. For the seven sentence patterns that gives the same matches as backtracking, because no digit run is followed by a token that can start with a digit and no whitespace run by a token that can start with whitespace. The inputs are lower-case, and `\b` after the verbs in `guessGameName` is a word-character test.
- Text.NormalizeHeader: its contract states only that the header is no longer than the input. Its properties are used through `Table.FindFieldSpec`.
- RuleText.BackSearch: its own contract gives only the position bound. `RuleText.BackSearchSpec` states what it finds.
- Warning texts follow the source's templates. Their wording is not proved about, except that each warning is appended where the source appends it.

## Findings

| source | as written | input that shows it | evidently intended | confidence | as-written member | corrected member |
|---|---|---|---|---|---|---|
| app.js:288-313 | After the long-format loop (app.js:270-280) succeeds, the `if (gameField)` wide pass still runs. It treats every non-game column as a player column, so the player and score column headers become players, and their cells are read as scores (with warnings). | a table with headers `game, player, score` and no rows: the roster is `{"player", "score"}` | a table with game, player and score columns is read only in the long format, with its roster exactly the players named in the rows | not executed | PrefParser.LongTableHeadersBecomePlayers | PrefParser.LongTableIntendedRoster |
