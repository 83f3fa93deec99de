# reporemix core, modelled in Dafny

reporemix catalogues a user's GitHub repositories and classifies each one. This project models the parts of it that decide what is stored and what is shown:

- **Ontology classifier** (`Ontology`). It scores each category by keyword hits, picks the first category with the highest score (or Other), and derives the confidence, the vibe score and the five difficulty estimates.
- **Embedding synthesiser** (`Embeddings`). It builds the feature palette and then the 1536-slot vector.
- **GitHub client helpers** (`GitHub`). These cover paging, language shares, topics, and batched fetching with rate-limit reactions.
- **Database layer** (`Database`). It covers the configuration read from the environment, the query wrapper, the transaction protocol and the health check.
- **Sync worker** (`SyncWorker`). It covers the per-repository write sequence inside one transaction, and the background job that walks all repositories and records progress.
- **API route helpers** (`ApiRoutes`). These cover the parameterised `/repositories` query, the sort-column fallback, embedding parsing, fork edges of the network graph and the CSV export.
- **Client helpers** (`ClientApp`). These cover SQL literals for the in-browser table, the hex-to-rgba colour, the filter predicate, the filtered list and its choice lists, the CSV download and the Kanban grouping.
- **Migration script** (`Migrate`). It runs `.sql` files in name order and stops at the first failure. It also creates the next numbered file and dispatches on the command.

Two more modules support the rest:

- `Js` models the JavaScript values the code relies on: truthiness, `Number(...)` and `String(...)`.
- `Text` covers the string built-ins: lower/upper case, `includes`, quote doubling, `parseInt`, `padStart`, and `sort` ordering strings by their UTF-16 code units.

Where the code loops or updates step by step, the model is a method with a loop, proved equal to a specification function. Those functions' properties are then proved as lemmas.

Inputs the code reads from outside become parameters:

- answers of the database and of the hosting API;
- directory listings;
- `Math.log10`;
- the trigonometric mixing of a feature;
- `JSON.parse`;
- `Number(string)`;
- the environment.

## Model

| member | source | states |
|---|---|---|
| Ontology.CategorizeRepository | server/services/ontology.js:5-177 | the keyword-counting loop and the argmax loop give exactly the classification of the repository's name, description and topics |
| Ontology.Classification | server/services/ontology.js:131-150 | one weight per category, and the category chosen is one of the declared categories |
| Ontology.CountWeights | server/services/ontology.js:131-138 | the counting loop yields one weight per category: the number of that category's keywords found in the lower-cased text |
| Ontology.ChooseCategory | server/services/ontology.js:141-150 | the scan returns the first index holding the maximum weight, and that maximum |
| Ontology.WeightCountsMatches | server/services/ontology.js:131-138 | each category's weight is the count of its matched keywords; Other always weighs 0 |
| Ontology.BestIndexIsFirstMaximum | server/services/ontology.js:141-150 | the chosen category weighs at least as much as every other and strictly more than every earlier one; Other is chosen iff all weights are 0 |
| Ontology.ClassificationIsFirstMaximum | server/services/ontology.js:141-150 | the same first-maximum property, stated on a repository's classification |
| Ontology.MaxIsUpperBound | server/services/ontology.js:141-150 | the maximum bounds every weight, is attained when positive, and is at most the total |
| Ontology.FirstIndexOfFound | server/services/ontology.js:141-150 | the first index of a present value holds it, and no earlier index does |
| Ontology.OnlyLastIsOther | server/services/ontology.js:5-130 | Other is the last category and no other category is Other |
| Ontology.ConfidenceBounds | server/services/ontology.js:152-159 | confidence lies in [0, 100] and is 0 iff no keyword matched anywhere |
| Ontology.ReasoningMatchesWeight | server/services/ontology.js:360-382 | the matched-keyword list behind the reasoning has exactly as many entries as the winning category's weight; the reasoning shows min(weight, 3) of them; its first sentence is `Contains keywords: ` with those keywords when the weight is positive, and no sentence opens that way when it is 0 |
| Ontology.ComplexityScore | server/services/ontology.js:209-243 | the score fails iff the description is null; otherwise it lies in 1..8 |
| Ontology.ComplexityMonotoneInSize | server/services/ontology.js:218-221 | a larger size never lowers complexity |
| Ontology.LanguageDifficulty | server/services/ontology.js:252-266 | the per-language difficulty lies in 2..8 |
| Ontology.InstallDifficulty | server/services/ontology.js:248-281 | fails iff the description is null; otherwise clamped to 2..10 |
| Ontology.InstallDifficultyClampReached | server/services/ontology.js:270-280 | a C++ compiler described with "docker" reaches the upper clamp 10 |
| Ontology.DebugTime | server/services/ontology.js:286-295 | fails iff the description is null; otherwise the rounded complexity × difficulty / 2.5, within 1..32 |
| Ontology.LearningCurve | server/services/ontology.js:300-325 | fails iff the description is null; otherwise in 3..9 |
| Ontology.MaintenanceLoad | server/services/ontology.js:330-355 | the load lies in 2..9 |
| Ontology.MissingPushHasNoActivityBonus | server/services/ontology.js:346-352 | with no push date the load equals the load of a repository pushed 30 days ago |
| Ontology.VibeScore | server/services/ontology.js:181-204 | the vibe score lies in [0, 100] |
| Ontology.VibeWithoutStars | server/services/ontology.js:181-204 | without stars only the freshness term remains, at most 30 |
| Ontology.AnalyzeRepository | server/services/ontology.js:387-407 | as written: fails iff the description is null; otherwise every score is in range and the category, confidence and reasoning come from the classification |
| Ontology.NullDescriptionAbortsAnalysis | server/services/ontology.js:213 | a repository whose description is null makes the analysis fail |
| Ontology.AnalyzeRepositoryNullSafe | server/services/ontology.js:387-407 | corrected analysis: always in range, equals the original when the description is present, and classifies a null description as a missing one |
| Embeddings.Clamp | server/services/embeddings.js:4-8 | the result lies in [min, max]; a non-finite input gives min; an in-range input is kept |
| Embeddings.SafeNumber | server/services/embeddings.js:15-18 | a finite `Number(value)` is kept, anything else becomes 0 |
| Embeddings.CharSumConcat | server/services/embeddings.js:20-25 | the character-code sum is additive over concatenation |
| Embeddings.HashString | server/services/embeddings.js:20-25 | the hash is never negative |
| Embeddings.PhaseDegrees | server/services/embeddings.js:139-142 | the phase in degrees is below 360 |
| Embeddings.PriorityCaseInsensitive | server/services/embeddings.js:35-42 | the priority ignores case: high 1, medium 0.5, low 0.2; `constructor` and `__proto__` find an inherited property and clamp to 0; anything else 0.4 |
| Embeddings.Unit | server/services/embeddings.js:4-8 | clamping to the default bounds gives a finite value in [0, 1] |
| Embeddings.BaseValuesInUnit | server/services/embeddings.js:44-125 | every base feature value lies in [0, 1] |
| Embeddings.EntriesLayout | server/services/embeddings.js:127-136 | base features come first with their labels and weights, then one `cat_<name>` feature of weight 0.25 per category weight |
| Embeddings.BuildFeaturePalette | server/services/embeddings.js:136-146 | every palette feature has a finite value and is an indexed entry of the repository's features |
| Embeddings.PaletteLayout | server/services/embeddings.js:136-146 | the palette keeps every feature (all values are finite), indexes them in order and gives each the phase of its label |
| Embeddings.PaletteSize | server/services/embeddings.js:136-146 | the palette holds the 16 base features plus one per weight |
| Embeddings.KeepFiniteKeepsFinite | server/services/embeddings.js:145 | the finiteness filter removes nothing when every value is finite |
| Embeddings.ComputeEmbeddingVector | server/services/embeddings.js:158-169 | a fresh array whose contents are the vector synthesised from the palette |
| Embeddings.SynthesizeVector | server/services/embeddings.js:164-168 | the filling loop writes `mix(features, i)` into every one of the 1536 slots |
| Embeddings.EmbeddingVector | server/services/embeddings.js:1 | the vector has exactly 1536 components |
| Embeddings.VectorCyclesThroughPalette | server/services/embeddings.js:148-149 | the palette is never empty, so slot i mixes feature i mod palette size |
| GitHub.GetUserRepositories | server/services/github.js:22-60 | the paging loop returns the concatenation of pages up to the first short page (or its error), after one request per page read |
| GitHub.FirstStopIsFirst | server/services/github.js:35-51 | the first stopping page stops and no earlier page does |
| GitHub.ListingConcatenatesPages | server/services/github.js:35-60 | the listing is all pages up to the stop, or the stopping page's error |
| GitHub.PrependTwice | server/services/github.js:45 | pushing two page batches equals pushing their concatenation |
| GitHub.LanguageStats | server/services/github.js:65-90 | one entry per language with its name and bytes; no share iff the total is 0; a failed request gives [] |
| GitHub.SharesAddUpTo100 | server/services/github.js:73-81 | with a positive total the unrounded shares add up to exactly 100 |
| GitHub.PartialShares | server/services/github.js:73-81 | the shares of the first n languages add up to their bytes over the total, times 100 |
| GitHub.Topics | server/services/github.js:146-157 | the topic names when present, otherwise [] (also on error) |
| GitHub.Settle | server/services/github.js:246-252 | a settled fetch keeps its repository and has data iff fulfilled, an error iff rejected |
| GitHub.Reaction | server/services/github.js:256-269 | below 10 remaining it waits, at 100 or more (or with no reading) it proceeds, otherwise it only warns |
| GitHub.BatchFetchRepositories | server/services/github.js:235-273 | one settled result per repository in order; the batches partition the list into slices of the batch size; one rate-limit reaction per batch |
| Database.EnvOr | server/config/database.js:17-20 | a set, non-empty variable wins, otherwise the fallback |
| Database.GetDatabaseConfig | server/config/database.js:5-27 | a connection string iff DATABASE_URL is set; SSL without verification iff production; otherwise each field from its variable or default |
| Database.DefaultConfig | server/config/database.js:16-26 | an empty environment gives localhost:5432, database reporemix, user postgres, no password, no SSL |
| Database.PortFromDecimal | server/config/database.js:18 | a decimal DB_PORT is read back as that port |
| Database.Query | server/config/database.js:49-60 | the wrapper returns the rows or rethrows the same error |
| Database.Transaction | server/config/database.js:63-76 | the commands issued and the result are those of the BEGIN/COMMIT/ROLLBACK/release protocol |
| Database.ReleasedExactlyOnce | server/config/database.js:63-76 | a connected client starts with BEGIN, runs the callback's statements, and is released exactly once, at the end |
| Database.CommitIffSuccess | server/config/database.js:66-72 | success iff one COMMIT and no ROLLBACK, and then the callback's value; every failure after connecting rolls back once |
| Database.CommandCounts | server/config/database.js:63-76 | after connecting, COMMIT is sent once iff BEGIN and the callback succeed; ROLLBACK once iff BEGIN, the callback or COMMIT failed |
| Database.RollbackRethrowsFirstError | server/config/database.js:70-72 | the error rethrown is BEGIN's, else the callback's, else COMMIT's |
| Database.HealthCheck | server/config/database.js:79-95 | healthy iff the query returned a row, carrying its timestamp and the pool counts; a failure reports its message |
| SyncWorker.BuildLanguageParams | server/services/syncWorker.js:82-97 | the loop builds the parameter list: the repository id, then name, bytes and percentage per language |
| SyncWorker.PlaceholdersLineUp | server/services/syncWorker.js:82-97 | every `($1, $a, $b, $c)` placeholder points at that language's name, bytes and percentage, and the last one at the last parameter |
| SyncWorker.ParamsOfLanguage | server/services/syncWorker.js:88-91 | language k's values sit at parameters 3k+1..3k+3 |
| SyncWorker.SafeVector | server/services/syncWorker.js:141-145 | the stored vector keeps each finite component and writes 0 for the rest |
| SyncWorker.RunUntilFailure | server/services/syncWorker.js:10-163 | the callback runs its statements in order, stops at the first failing one and throws its error |
| SyncWorker.SyncSingleRepository | server/services/syncWorker.js:7-163 | as written: the sync runs its callback inside one transaction, and the result and the command log are the transaction protocol's for the fetched languages and topics |
| SyncWorker.NullDescriptionRollsBack | server/services/syncWorker.js:99-107 | as written: with a null description the callback throws the `toLowerCase` error after the repository and language writes, so the transaction fails, never commits and rolls back once |
| SyncWorker.CallbacksAgree | server/services/syncWorker.js:16-161 | when the description is not null, the as-written callback and the null-safe one are the same |
| SyncWorker.NullSafeStoresEveryRepository | server/services/syncWorker.js:16-161 | corrected: when every write passes, the null-safe callback returns, the transaction commits, and the log is BEGIN, the writes, COMMIT and the release |
| SyncWorker.WritesInOrder | server/services/syncWorker.js:16-161 | corrected: the null-safe callback's writes carry scores in range and a 1536-value vector built from the 16 base features |
| SyncWorker.StatementsLayout | server/services/syncWorker.js:16-161 | repository upsert, language delete, the language insert only when there are languages (the writes before the analysis), then category, embedding under `ontology-hybrid/1`, star history |
| SyncWorker.Checkpoints | server/services/syncWorker.js:197-203 | one checkpoint per ten synced repositories |
| SyncWorker.CheckpointValues | server/services/syncWorker.js:197-203 | checkpoints record exactly the positive multiples of ten up to the count, increasing |
| SyncWorker.SyncRepositoriesBackground | server/services/syncWorker.js:165-237 | the job writes the log of the job's lifecycle; with a listing it attempts every repository and counts the successes; an error escapes only if recording the failure also fails |
| SyncWorker.ReplayConcat | server/services/syncWorker.js:165-237 | applying two runs of job writes equals applying their concatenation |
| SyncWorker.ReplayCheckpoints | server/services/syncWorker.js:197-203 | checkpoints change neither the status nor the total |
| SyncWorker.ListingFailureFailsJob | server/services/syncWorker.js:226-235 | a failed listing marks the job failed with its message and writes nothing else |
| SyncWorker.CleanRunCompletes | server/services/syncWorker.js:183-221 | without write errors the job ends completed, with the total and the number of successes |
| SyncWorker.CompletedThenFailed | server/services/syncWorker.js:209-235 | a failing last_synced update turns an already completed job into a failed one |
| SyncWorker.CheckpointFailuresIgnored | server/services/syncWorker.js:197-203 | errors from checkpoint writes do not change the job's log |
| ApiRoutes.BuildListQuery | server/routes/api.js:20-106 | the clauses and parameters built are the list query's, with the `order` text spliced as written |
| ApiRoutes.ListQueryOrder | server/routes/api.js:96-106 | as written: the query holds an ORDER BY of the sort column and the upper-cased `order` text |
| ApiRoutes.ListQueryNumbering | server/routes/api.js:60-106 | $1 is the user id; each filter clause is present iff its parameter is given, in source order; placeholders are numbered consecutively from $2 and bind their values; LIMIT and OFFSET are last |
| ApiRoutes.ClauseFor | server/routes/api.js:64-90 | each filter's clause numbers its placeholders from the next free index |
| ApiRoutes.StepBuilt | server/routes/api.js:64-106 | deciding one more filter keeps the parameters already bound, including `$1`, and extends the numbering and binding to that rank |
| ApiRoutes.FilterQueryBuilt | server/routes/api.js:60-90 | after the four filters `$1` is still the user id and every filter is numbered and bound |
| ApiRoutes.ListQueryBuilt | server/routes/api.js:60-106 | after ORDER BY and LIMIT/OFFSET `$1` is still the user id and every clause is numbered and bound |
| ApiRoutes.ApplyFilters | server/routes/api.js:60-90 | the four `if` blocks build the filter clauses and parameters, and the next free placeholder is one past the last parameter |
| ApiRoutes.SortColumn | server/routes/api.js:96-102 | a known sort key maps to its column; any other key falls back to `r.updated_at` |
| ApiRoutes.OrderDirectionAsWritten | server/routes/api.js:104 | as written: the direction is the `order` text (default `desc`) with its case changed and nothing else |
| ApiRoutes.OrderTextReachesQuery | server/routes/api.js:104 | as written: the `order` text reaches the query whole, only upper-cased, so any text longer than 4 is neither ASC nor DESC |
| ApiRoutes.OrderInjection | server/routes/api.js:104 | as written: `asc,(select 1)` becomes `ASC,(SELECT 1)` in the ORDER BY |
| ApiRoutes.OrderDirection | server/routes/api.js:104 | corrected: the direction is always ASC or DESC |
| ApiRoutes.OrderDirectionAgrees | server/routes/api.js:104 | the corrected direction agrees with the written one on every valid input and on the default |
| ApiRoutes.ParseEmbeddingVector | server/routes/api.js:113-129 | a stored array maps through `Number`; stored text is parsed and kept only when it is an array; anything else is null |
| ApiRoutes.FindByFullName | server/routes/api.js:372 | finds the first row with that full name, or none |
| ApiRoutes.ForkEdges | server/routes/api.js:369-383 | an edge for a fork whose parent is in the list; nothing else |
| ApiRoutes.ForkEdgesAppend | server/routes/api.js:369-383 | one more row adds exactly its own fork edge at the end when its parent is listed, and nothing otherwise |
| ApiRoutes.ForkEdgesConcat | server/routes/api.js:369-383 | the fork edges of two runs of rows are the first run's followed by the second's, so row order is kept |
| ApiRoutes.ForkEdge | server/routes/api.js:373-379 | the edge runs from the parent to the fork, of kind fork and strength 1.0 |
| ApiRoutes.NetworkEdges | server/routes/api.js:385-388 | the stored relationships come first, followed by the fork edges |
| ApiRoutes.UnlinkedForkHasNoEdge | server/routes/api.js:369-383 | a repository whose parent is not listed is the target of no fork edge, unless another row shares its id |
| ApiRoutes.ExportCell | server/routes/api.js:426-429 | a string containing a comma is quoted with doubled quotes; other strings pass as-is; null and undefined join as empty |
| ApiRoutes.ExportCells | server/routes/api.js:423-432 | a header row taken from the first row's keys, then one cell per header for every row |
| ApiRoutes.ExportCsv | server/routes/api.js:423-432 | the document starts with the header line of the first row's keys, followed by a newline when there are rows |
| ApiRoutes.EmptyExport | server/routes/api.js:423 | no rows give an empty document |
| ApiRoutes.QuotedCellRoundTrip | server/routes/api.js:428 | a quoted cell's inside un-doubles back to the original string |
| ClientApp.EscapeSqlLiteral | client/src/App.jsx:359-371 | NULL for null and undefined, finite numbers as themselves, TRUE/FALSE, everything else single-quoted with doubled quotes |
| ClientApp.EscapedStringRoundTrip | client/src/App.jsx:370 | the quoted literal's inside un-doubles back to the string |
| ClientApp.NumericLiteral | client/src/App.jsx:373-379 | NULL iff the value is missing or not a finite number, otherwise that number |
| ClientApp.HexToRgba | client/src/App.jsx:381-393 | the computed colour is the hex colour of the input |
| ClientApp.NonHexIsWhite | client/src/App.jsx:382-384 | a missing value or one without `#` gives white |
| ClientApp.SixDigitColour | client/src/App.jsx:389-392 | `#rrggbb` gives the three pair values, each in 0..255 |
| ClientApp.DoubleEach | client/src/App.jsx:387-388 | the expanded digits are twice as many, and digit i sits at positions 2i and 2i+1 |
| ClientApp.ShortFormExpands | client/src/App.jsx:386-388 | `#rgb` is the same colour as `#rrggbb` |
| ClientApp.ReadPair | client/src/App.jsx:389-391 | two hex digits parse to 16·first + second, in 0..255 |
| ClientApp.BuildFilterPredicate | client/src/App.jsx:446-455 | empty iff neither filter restricts; otherwise the restricting clauses, joined by AND |
| ClientApp.FilterMembership | client/src/App.jsx:597-611 | a repository is shown iff it is in the list and matches the search, category and language; the list never grows |
| ClientApp.KeptWithoutFilter | client/src/App.jsx:597-611 | with an empty search and both choices `all`, every repository is kept |
| ClientApp.FilterKeepsOrder | client/src/App.jsx:597-611 | filtering distributes over concatenation, so order is kept |
| ClientApp.SearchIgnoresCase | client/src/App.jsx:598-602 | the search ignores the case of the search term |
| ClientApp.NoFilterShowsAll | client/src/App.jsx:597-611 | no search and "all" for both choices show every repository |
| ClientApp.Categories | client/src/App.jsx:613-618 | the sorted, duplicate-free, non-empty categories in use |
| ClientApp.Languages | client/src/App.jsx:620-625 | the sorted, duplicate-free, non-empty languages in use |
| ClientApp.CategoriesDependOnlyOnValues | client/src/App.jsx:613-618 | the list depends only on which categories occur, not on order or repetition |
| ClientApp.CsvRow | client/src/App.jsx:640-650 | nine cells: the name, the language or "-", and the description always quoted |
| ClientApp.CsvCells | client/src/App.jsx:628-653 | the header, then one row per repository in order |
| ClientApp.GenerateCsv | client/src/App.jsx:628-653 | the document starts with the header line, followed by a newline when there are repositories |
| ClientApp.DescriptionFieldRoundTrip | client/src/App.jsx:649 | the description cell un-doubles back to the description |
| ClientApp.KanbanMatchesClassifier | client/src/App.jsx:1191-1200 | the board's columns are the classifier's categories, in the same order |
| ClientApp.Column | client/src/App.jsx:1205 | a column holds exactly the repositories of that category |
| ClientApp.ColumnAppend | client/src/App.jsx:1205 | one more repository lands at the end of its own category's column and nowhere else |
| ClientApp.ColumnConcat | client/src/App.jsx:1205 | the column of two runs is the first run's column followed by the second's, so input order is kept |
| ClientApp.GroupByCategory | client/src/App.jsx:1202-1209 | the grouping has one key per board category, holding that category's column |
| ClientApp.CardsPlacedOnce | client/src/App.jsx:1202-1209 | columns with distinct categories hold as many cards as there are repositories with one of those categories |
| ClientApp.EveryCardPlacedOnce | client/src/App.jsx:1202-1209 | the cards on the board equal the number of repositories with a board category, so each appears once |
| ClientApp.OffBoardInNoColumn | client/src/App.jsx:1202-1209 | a repository without a board category is in no column |
| Migrate.SqlFiles | scripts/migrate.js:13-15 | exactly the entries ending in `.sql` |
| Migrate.MigrationOrder | scripts/migrate.js:13-16 | the `.sql` files, sorted and a permutation of the filtered list |
| Migrate.FirstFailure | scripts/migrate.js:20-32 | the first file whose execution fails; every earlier one passed |
| Migrate.RunMigration | scripts/migrate.js:11-36 | the loop's report is the run plan of the directory |
| Migrate.RunPlan | scripts/migrate.js:11-36 | the files run are a prefix of the sorted `.sql` files; the exit code is 0 or 1, and the pool ends iff it is 0 |
| Migrate.RunStopsAtFirstFailure | scripts/migrate.js:11-36 | sorted `.sql` files run as a prefix; exit 1 iff one failed, and it is the last one run; the pool ends iff all passed |
| Migrate.CreateMigration | scripts/migrate.js:38-60 | fails iff the name is missing or empty; otherwise exactly the padded number, `_`, the name with each white-space run replaced by `_`, and `.sql` |
| Migrate.CreatedNameKeepsWords | scripts/migrate.js:48 | two words separated by any run of white space give `NNN_first_second.sql`: the user's words are kept and the run becomes one `_` |
| Migrate.CreatedNameKeepsPlainName | scripts/migrate.js:48 | a name without white space appears unchanged between `NNN_` and `.sql` |
| Text.RunBecomesOne | scripts/migrate.js:48 | `replace(/\s+/g, rep)` turns one maximal white-space run between space-free text into exactly one `rep` and keeps the text around it |
| Migrate.MigrationNumberRoundTrip | scripts/migrate.js:45-46 | the padded number reads back as count + 1, and is three digits below 1000 |
| Migrate.CreatedNameHasNoSpaces | scripts/migrate.js:48 | a created file name contains no whitespace |
| Migrate.CreatedFileCounts | scripts/migrate.js:45-48 | the created file is itself a `.sql` file that the next listing counts |
| Migrate.CreatedInOrderRunInOrder | scripts/migrate.js:16 | a file created earlier (number below 999) sorts before one created later |
| Migrate.Dispatch | scripts/migrate.js:62-80 | up runs the migrations, down only prints, create reports `createMigration`'s file name (exit 0) or its missing-name refusal (exit 1), anything else prints usage |
| Migrate.DispatchExitCode | scripts/migrate.js:30-79 | exit 0 iff down, create with a name, or up with every file passing; otherwise 1 |
| Text.DoubleRoundTrip | client/src/App.jsx:370 | doubling the quote character is undone by un-doubling |
| Text.PaddedDecimalRoundTrip | scripts/migrate.js:46 | a zero-padded decimal parses back to its number |
| Text.ParseIntNeedsDigit | client/src/App.jsx:389-391 | a number comes back only when some character is a digit of the radix, and a negative one only when the text holds a `-` |
| Text.Sort | scripts/migrate.js:16 | the result is sorted in string order and a permutation of the input |
| Text.BeforeIsCodeUnitOrder | scripts/migrate.js:16 | the string order is lexicographic order on UTF-16 code units, a proper prefix first |
| Text.AstralBeforeFullwidth | scripts/migrate.js:16 | a character above U+FFFF sorts before U+FF21, as its leading surrogate does |
| Text.BeforeTotal | scripts/migrate.js:16 | any two distinct strings are ordered one way or the other |

## Left out

- I/O is not modelled: the file system, the process, logging, the HTTP server, React rendering and the Postgres wire protocol. Their answers become parameters.
- Concurrency is not modelled. `Promise.allSettled` is taken to settle in order, and batch fetches are otherwise sequential.
- Floating point is modelled with real numbers.
- `Math.log10`, `Math.sin`/`Math.cos` in `mixSignals`, and `Number(string)` are not modelled; they are parameters.
- Ontology.Confidence: the confidence is the unrounded real; the `toFixed(2)` and `parseFloat` of server/services/ontology.js:158 and :170 are dropped.
- Ontology.VibeScore: the score is the unrounded real; the `toFixed(2)` and `parseFloat` of server/services/ontology.js:203 and :398 are dropped.
- Ontology.LanguageDifficulty: a language named like an inherited `Object.prototype` property (`constructor`, `toString`, `valueOf`, `hasOwnProperty`, `__proto__` and the rest) finds that property in the table at server/services/ontology.js:267 and is truthy, so the source's base difficulty is a function or object rather than a number; the model gives the default 3 for these names and its 2..8 range does not cover them. Language names reported by the hosting API never take these values.
- Ontology.InstallDifficulty: for such a language `Math.max(1, difficulty)` (server/services/ontology.js:279) converts the function, object or concatenated string to NaN, so the source returns NaN, which the model does not represent; its 2..10 range holds only for other language names.
- Ontology.DebugTime: for such a language the source's install difficulty is NaN and so is `Math.round` of the product (server/services/ontology.js:289-294); the model's 1..32 range holds only for other language names.
- Ontology.AnalyzeRepository: for such a language the source's analysis carries NaN as `install_difficulty` and `debug_time_hours`; the model's every-score-in-range promise, and the corrected `AnalyzeRepositoryNullSafe`, hold only for other language names.
- SyncWorker.SafeVector: the `toFixed(6)` text of server/services/syncWorker.js:143 is dropped; the component is kept as a number.
- ClientApp.CsvRow: the `toFixed(1)` of client/src/App.jsx:646 is the parameter `fixed1`.
- GitHub.LanguageStats: the `toFixed(2)` of server/services/github.js:81 is kept symbolic; the share carries its exact value.
- `Date.now` and day counts are inputs.
- Strings are sequences of Unicode code points. Upper and lower case cover ASCII letters only.
- For characters above U+FFFF, lengths and char-code sums differ from JavaScript's UTF-16 ones: the description `.length < 50` test (server/services/ontology.js:310), the `length === 3` test of `hexToRgba` (client/src/App.jsx:386), and the `charCodeAt` sums behind the hash and the phase (server/services/embeddings.js:20-25, 139-142). String order is the exception: it compares UTF-16 code units, as JavaScript does.
- Js.ToNumber: an object is carried with the primitive it converts to; the `valueOf`/`toString` lookup that produces that primitive is not modelled.
- The SQL text of every query is not modelled. Only the clause structure and the parameter numbering are.
- ApiRoutes.ListQueryNumbering: `parseInt` of limit and offset in the response is not modelled.
- ApiRoutes.ListQueryNumbering: an array-valued query parameter (where `toUpperCase` throws) is not modelled.
- ApiRoutes.SortColumn: a sort key naming an inherited object property, such as `constructor`, is not modelled.
- ApiRoutes.ExportCell: the export quotes only strings that contain a comma. A string holding `"` or a newline but no comma is written raw, as the code does, and the model does not repair it.
- ClientApp.CsvRow: the name and category cells are written unquoted, as the code does. No round trip is claimed for them.
- Migrate.CreatedInOrderRunInOrder is limited to numbers below 999. From 1000 on, `padStart(3)` stops padding, so "1000_x" sorts before "101_y".
- Migrate.CreateMigration: the template body and its date are not modelled.
- Migrate.RunMigration: a `readFileSync` error (scripts/migrate.js:22) is thrown outside the `try`, so neither the failure message nor `pool.end()` runs; this path is not modelled.
- GitHub.GetUserRepositories requires that some page stops the listing, because the code loops for as long as pages come back full.
- GitHub.BatchFetchRepositories requires a positive batch size, because with size 0 the code never advances.
- Passport authentication, the seed and sync scripts, the remaining API routes and the client's rendering are not part of this model.

## Findings

| source | as written | input that shows it | evidently intended | confidence | as-written member | corrected member |
|---|---|---|---|---|---|---|
| server/services/ontology.js:213 | the default `description = ''` applies only to `undefined`, so a `null` description reaches `description.toLowerCase()` and the analysis throws; the sync at server/services/syncWorker.js:99-107 passes the hosting API's `null` through | a repository whose description is `null` | a missing description is treated as empty and the repository is analysed | not executed | Ontology.AnalyzeRepository, Ontology.NullDescriptionAbortsAnalysis, SyncWorker.SyncSingleRepository, SyncWorker.NullDescriptionRollsBack | Ontology.AnalyzeRepositoryNullSafe, SyncWorker.NullSafeStoresEveryRepository, SyncWorker.CallbacksAgree |
| server/routes/api.js:104 | the `order` query parameter is upper-cased and spliced into ORDER BY without validation | `order=asc,(select 1)` yields `ORDER BY r.updated_at ASC,(SELECT 1)` | the direction is ASC or DESC only | not executed | ApiRoutes.OrderDirectionAsWritten, ApiRoutes.OrderInjection, ApiRoutes.BuildListQuery, ApiRoutes.ListQueryOrder | ApiRoutes.OrderDirection, ApiRoutes.OrderDirectionAgrees |
