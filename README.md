# cheetah: the interactive prompt and the batch pipeline

cheetah is a command-line client for SQL Server. This project models its two
sequential cores in Dafny and proves what they promise.

* **The prompt** (`Prompt` in src/prompt.js) reads one line at a time.
  - Each line runs a static command (`help`, `\q`, `\u`), runs a built-in
    command (`\d`, `\dt`, `\dv`, `\d schema.table`), submits the pending batch
    on `GO`, or is appended to the pending batch.
  - The interrupt key drops the pending batch, or ends the session when no
    batch is pending.
  - A refresh rebuilds the suggestion index (table → columns) from a silent
    schema query.
  - The tab completer matches bracket-normalised names against that index and
    can rewrite the line buffer in place.
* **The batch pipeline** (`Connection` in src/service.js):
  - `prepare` applies the inline `-- cheetah/...` directives;
  - `batch` submits one batch and writes its output (the verbose echo, table
    grids, `(n row)` count lines, the error line and the stop-on-error exit);
  - `run` splits a script on `"\nGO\n"` and runs the non-blank segments one
    after another;
  - `getRecords` builds the display grid of one row set and picks a
    moment.js date pattern for each Date field.

## How the model is built

* **The driver** is a function from the texts submitted so far and the text
  submitted now to a reply: row sets, or an error message. The connection's
  state (`Service.Conn`) records:
  - the texts submitted;
  - the output written, as an abstract log of lines and table grids;
  - whether the connection was closed;
  - whether the process ended.
* **`Service.Connection` and `Session.Prompt` are classes.**
  - Their mutable fields are the source's fields: `sql`, `rs`, the prompt text,
    readline's `line` and `cursor`, and the connection's log.
  - Each method is proved against a function of the old state:
    - `Prompt.ActionOnLine` yields `OnLine`;
    - `Prompt.CloseOrReset` yields `OnInterrupt`;
    - `Connection.Batch` yields `BatchSpec`;
    - `Connection.Run` yields `RunSpec`.
  - Lemmas state what those functions promise.
* **The `options` object** that `prepare` mutates in place is the class
  `Service.Options`. So directive toggles persist from one batch to the next
  within a `run`, as they do in the source.
* **JavaScript's string built-ins** are modelled with the source's exact
  semantics in module `JsText`: `trim`, `indexOf`, first-occurrence `replace`,
  `split`, `join`, `slice`, `toUpperCase` and `%d`.
* **The two regular expressions** are hand-coded in `Regex`, with greedy,
  backtracking, leftmost matching, proved as such. They are the describe
  pattern at src/prompt.js:13 and the `quoteName` pattern at src/prompt.js:120.

### Quirks modelled as written

* `run` splits only on the exact, case-sensitive `"\nGO\n"`. The prompt
  accepts `GO` in any case.
* The interactive `GO` calls `batch`, not `run`.
* One row prints `(1 rows)` and zero rows print `(0 row)`.
* The `;` test looks at the trimmed line, but the untrimmed line is what gets
  appended.
* The `timing OFF` branch (src/service.js:87-90) sets `timing` to false but
  removes the first `-- cheetah/verbose OFF`. The timing marker stays in the
  SQL (`Service.TimingOffKeepsItsMarker`).
* The `\.` in the JavaScript string at src/prompt.js:13 reaches the RegExp as
  a bare `.`, which matches any character. The pattern is also unanchored. So
  `\d foo` describes the table `o` of the schema `f`. The model keeps that.
* The `ERROR:` line of a failed batch is written even for a silent batch
  (src/service.js:113-114). The model follows the code.
* `\u` submits the schema query and calls `reset` at once (src/prompt.js:54-55), so
  `reset` runs before the schema reply arrives. `OnLine` applies `reset` first and
  the refresh after it. The order makes no difference, because `reset` changes only
  the pending batch and the prompt, and the refresh changes only the index and the
  connection.

### Worked examples

A few lemmas check the model on concrete inputs:

* `Commands.DescribeExample`: `\d dbo.Customers` gives the column query for the
  schema `dbo` and the table `Customers`, and `\d [dbo].[Customers]` gives the same
  query.
* `Service.RowCountExamples`: zero, one and two rows print `(0 row)`, `(1 rows)`
  and `(2 rows)`.
* `Records.SmallDateTimeCutsAtMinutes`: the SmallDateTime pattern is the
  DateTime pattern cut at the minutes.

## Model

| member | source | states |
|---|---|---|
| JsText.TrimSpec | src/prompt.js:247 | `trim` returns the slice between the leading and trailing white space; the result is empty exactly when the text is all white space, and otherwise it starts and ends with a non-space |
| JsText.IndexOfSpec | src/service.js:75 | `indexOf` is -1 or the position of an occurrence, and no occurrence lies before it |
| JsText.IndexOfZeroIsPrefix | src/prompt.js:133 | `c.indexOf(word) == 0` holds exactly when `word` is a prefix of `c` |
| JsText.ReplaceAt | src/service.js:77 | a string-pattern `replace` splices the replacement in place of the first occurrence only |
| JsText.ReplaceAbsent | src/service.js:85 | `replace` of a pattern that does not occur leaves the text unchanged |
| JsText.JoinSplit | src/prompt.js:129 | joining the parts of `split(sep)` with `sep` gives the text back |
| JsText.SplitPartsLackSeparator | src/service.js:145 | no part of `split(sep)` contains `sep` |
| JsText.SplitWithoutSeparator | src/service.js:145 | a text without the separator splits into itself alone |
| JsText.Before | src/prompt.js:187 | `split(" ")[0]` is the longest prefix without a space |
| JsText.BeforeIsFirstPart | src/prompt.js:187 | `Before` is the first part of `split` on that character |
| JsText.AfterLast | src/prompt.js:124-125 | `split(" ").slice(-1)[0]` is the longest suffix without a space |
| JsText.DecimalValueOfDecimal | src/service.js:131 | `%d` writes the digits whose value is the count |
| JsText.Repeat | src/service.js:53-55 | `Array.apply(null, Array(column.scale)).map(k => 'S').join('')` is `scale` copies of `S` |
| JsText.CountRepeat | src/service.js:53-55 | that text holds exactly `n` letters `S` |
| JsText.ToUpper | src/prompt.js:255 | `toUpperCase` maps every character, keeping the length |
| JsText.SeqIndexOf | src/service.js:155 | `Array.indexOf` is -1 exactly when the element is absent, and otherwise the position of its first occurrence |
| Records.Keys | src/service.js:34 | `Object.keys` lists the fields' names in the record's order, which is the order `Object.keys` enumerates |
| Records.FormatField | src/service.js:39-44 | a value that is not a Date passes through unchanged; a Date becomes a formatted cell of the same instant |
| Records.FormatRecord | src/service.js:38-65 | one cell per field, in field order, each formatted by its own column |
| Records.HeaderRow | src/service.js:34 | the header holds the field names of the first record |
| Records.GridShape | src/service.js:33-68 | the grid has one header row plus one row per record; the header is the first record's keys and row i+1 is record i formatted |
| Records.PatternsStartWithDate | src/service.js:47-61 | every recognised pattern starts with `YYYY-MM-DD`, and only `Date` is that pattern alone |
| Records.FractionDigitsFollowScale | src/service.js:52-59 | DateTime2 and DateTimeOffset show exactly `scale` fraction digits; the DateTimeOffset pattern is the DateTime2 pattern plus ` Z` |
| Records.DateTimeIsScaleThree | src/service.js:50-55 | DateTime shows milliseconds, like DateTime2 of scale 3 |
| Regex.SearchIsLeftmostGreediest | src/prompt.js:13 | `match` finds the leftmost start at which the pattern can match at all, and there the greediest assignment of lengths to pieces; without a result, no start can match |
| Regex.MatchAtFits | src/prompt.js:120 | a match found at a position is a valid way of matching the pieces there |
| Regex.MatchAtGreediest | src/prompt.js:120 | any way of matching at a position means a match is found, and the found one is at least as greedy |
| Regex.ExecFound | src/prompt.js:206 | the match array is the whole match followed by the captures of the groups |
| Regex.Exec | src/prompt.js:206 | a match array has one entry more than the pattern has groups |
| Names.QualifiedNameMatches | src/prompt.js:13 | on `schema.table`, with any brackets around either name, the describe pattern captures the bare schema and table names |
| Templates.TwoPlaceholders | src/prompt.js:210-213 | replacing `$0`, `$1`, `$2` in turn by the match array fills `$1` with the first capture and `$2` with the second |
| Templates.NoPlaceholderZero | src/prompt.js:212 | a template without `$0` is left alone by the `$0` step |
| Commands.Expand | src/prompt.js:197-216 | `_getBuiltInCommand` returns what `Expansion` describes: for parameterless entries only without a parameter, and for pattern entries only on a match, with the captures substituted; otherwise undefined |
| Commands.GetBuiltInCommand | src/prompt.js:186-195 | the result is `BuiltIn(cmd)`: null for an unknown first token, otherwise the expansion of the catalog entry with the rest of the line as the parameter |
| Commands.IsBuiltInCommand | src/prompt.js:218-220 | true exactly when `getBuiltInCommand` returns a text, which excludes both null and undefined |
| Commands.BareTriggersGiveTheirTemplates | src/prompt.js:6-34 | `\d`, `\dt` and `\dv` without a parameter give their parameterless queries unchanged |
| Commands.BareTrigger | src/prompt.js:187-201 | any catalog key on its own gives its first entry's query |
| Commands.BuiltInStartsWithBackslash | src/prompt.js:6-34 | every built-in command line starts with a backslash |
| Commands.ParamIsTheRest | src/prompt.js:191-193 | the parameter is everything after the first space |
| Commands.WithParameter | src/prompt.js:186-195 | a catalog key followed by a parameter runs the entry walk on that parameter |
| Commands.ParameterlessTriggersRefuseParameters | src/prompt.js:197-205 | `\dt` and `\dv` with a parameter skip their only entry and give no built-in command |
| Commands.SecondEntryMatches | src/prompt.js:203-214 | once the parameterless entry is skipped, a matching pattern entry gives its query with the match substituted |
| Commands.SecondEntryMisses | src/prompt.js:206-216 | a pattern entry that does not match, when it is the last, leaves the walk with undefined |
| Commands.UnmatchedParameterFallsThrough | src/prompt.js:206-220 | `\d` with a parameter the pattern does not match is no built-in command |
| Commands.DescribeSubstitution | src/prompt.js:14-18 | the column query gets the schema in place of `$1` and the table in place of `$2` |
| Commands.DescribeNamesTheTable | src/prompt.js:186-216 | `\d schema.table`, with or without brackets, gives the column query for the bare schema and table names |
| Suggestions.UniqueSpec | src/prompt.js:113-115 | the `indexOf(s) == pos` filter keeps exactly the elements of its input, each once, in the order in which each first occurs |
| Suggestions.UniqueKeepsDistinctFront | src/prompt.js:106-115 | a duplicate-free front, such as the table keys, survives the filter in order at the start |
| Suggestions.FirstOccurrencesSpec | src/prompt.js:113-115 | the filter over the first n elements is duplicate-free, holds exactly those elements, and lists them in first-occurrence order |
| Suggestions.GroupedSpec | src/prompt.js:92-101 | the rebuilt index has each table of the rows once, in first-seen order, and maps each table to its columns in row order |
| Suggestions.AddKeepsGrouping | src/prompt.js:95-100 | one more row creates its table's list or appends its column to it, and keeps the grouping exact |
| Suggestions.TablesOf | src/prompt.js:95 | the table of each row, in row order |
| Suggestions.ColumnsOfAbsent | src/prompt.js:95-97 | a table no row names has no columns |
| Suggestions.UsedTables | src/prompt.js:107-109 | the used tables are exactly the tables whose name occurs in the line |
| Suggestions.ColumnsOfTables | src/prompt.js:110-112 | the columns gathered are exactly the columns of the used tables |
| Suggestions.AvailableSpec | src/prompt.js:105-116 | the suggestions are duplicate-free, begin with all the table keys, hold exactly the tables and the columns of the tables named in the line, and follow the order in which each first occurs among the tables and then those columns |
| Suggestions.QuoteNameFails | src/prompt.js:119-123 | `quoteName` throws exactly on a part made only of brackets (or empty) |
| Suggestions.QuoteNameOfName | src/prompt.js:119-123 | a name in any number of brackets is rewrapped in exactly one pair |
| Suggestions.QuoteNameShape | src/prompt.js:119-123 | a quoted name is `[`, an unbracketed name of at least one character, then `]` |
| Suggestions.QuotePartsSpec | src/prompt.js:129 | mapping `quoteName` over the parts succeeds exactly when every part quotes, and then each result part is that part quoted |
| Suggestions.CompletionWordThrows | src/prompt.js:129 | the completer throws exactly when some dot-separated part is brackets only |
| Suggestions.CompletionWordOfName | src/prompt.js:129-130 | the word for a bracketed or bare name is `[name`, the final `]` cut off |
| Suggestions.CompletionWordOfQualified | src/prompt.js:129-130 | the word for `schema.table` in any brackets is `[schema].[table` |
| Suggestions.HitsSpec | src/prompt.js:132-134 | the hits are exactly the candidates that start with the word; when the candidates are duplicate-free, so are the hits, in candidate order |
| Suggestions.HitsAppend | src/prompt.js:132-134 | the filter distributes over concatenation, and keeps a single candidate exactly when it starts with the word |
| Suggestions.Lead | src/prompt.js:137 | the text before the last word ends with a space (or is empty), and the last word completes it to the whole command |
| Suggestions.CompleterThrowsExactly | src/prompt.js:119-130 | the completer throws if and only if some dot-separated part of the word before the cursor is brackets only |
| Suggestions.DecideOther | src/prompt.js:146-151 | any number of hits other than one leaves the line alone; none or more than ten return `[]`, two to ten return the hits themselves |
| Suggestions.HitsOne | src/prompt.js:132-136 | one candidate with the prefix in a duplicate-free list gives exactly one hit |
| Suggestions.HitsTwo | src/prompt.js:132-134 | two distinct candidates with the prefix give at least two hits |
| Suggestions.HitsNone | src/prompt.js:132-134 | no candidate with the prefix gives no hit |
| Suggestions.CompleteInPlace | src/prompt.js:136-145 | the only candidate with the prefix is completed in place |
| Suggestions.CompleteNone | src/prompt.js:146-147 | no candidate with the prefix gives `[]` and no edit |
| Suggestions.CompleteSeveral | src/prompt.js:146-151 | two matching candidates or more give no edit; more than ten give `[]`, and at most ten give the hits, duplicate-free and in candidate order, which are exactly the candidates starting with the word |
| Service.StrippedIsPreparedText | src/service.js:74-91 | the text `prepare` returns does not depend on the options |
| Service.DirectivesTextIgnoresFlags | src/service.js:75-90 | the removals depend on the text only |
| Service.VerboseOnThenOffEndsOff | src/service.js:75-86 | a batch with both `verbose ON` and `verbose OFF` ends with verbose off |
| Service.TimingOffKeepsItsMarker | src/service.js:87-90 | `timing OFF` turns timing off but its marker stays in the SQL |
| Service.TimingOffSurvives | src/service.js:75-86 | the earlier directives never remove a `timing OFF` marker |
| Service.SecondOnMarkerSurvives | src/service.js:75-82 | only the first occurrence of an ON marker is removed: a second one stays |
| Service.NoMarkersNoChange | src/service.js:70-92 | a text without markers passes through, with only the defaults applied to the options |
| Service.NoDashNoDirectives | src/service.js:75-90 | a text without `-` passes through |
| Service.StrippedShortens | src/service.js:75-90 | `prepare` never lengthens the text, and shortens it when an ON marker occurs |
| Service.RemoveFirst | src/service.js:77 | removing a marker cuts out its first occurrence |
| Service.RemovalKeeps | src/service.js:81-89 | removing one marker keeps every other marker that occurs |
| Service.MarkersPairwiseApart | src/service.js:75-89 | no two of the four markers can overlap |
| Service.RowCountReadsBack | src/service.js:131 | the count line is `(`, the decimal digits of the count, then ` rows)` when the count is positive and ` row)` when it is zero |
| Service.RowSetLogLines | src/service.js:125-132 | each row set writes one count line, and a table only when it holds rows |
| Service.ResultLogPolicy | src/service.js:123-133 | a batch's output has one count line per row set, in order, and the grids of exactly the non-empty row sets |
| Service.DescriptionLeadsBatch | src/service.js:103-108 | the verbose echo is a prefix of the trimmed batch that stops at the end of the batch or just before the first space, or just before the first line end when the first word is `--` |
| Service.BatchSubmitsOnce | src/service.js:94-140 | a batch submits its prepared text once; it ends the process exactly when stop-on-error is set and the driver fails, closing first; otherwise the callback gets the row sets (none on an error) |
| Service.SilentBatchWritesOnlyErrors | src/service.js:103-123 | a silent batch writes nothing, except the error line when it fails |
| Service.NonBlankKeeps | src/service.js:145 | the filter keeps exactly the segments whose trimmed text is not empty |
| Service.BatchStepFaithful | src/service.js:153-162 | each step of `run` is one `batch` call on the next segment |
| Service.RunSubmitsEveryBatchInOrder | src/service.js:142-165 | a finished run submitted the prepared non-blank segments once each, in order, and its results hold one entry per segment, each the reply to that segment |
| Service.RunStopsAtFailure | src/service.js:113-162 | a run that ends the process stopped at a failing segment, after submitting exactly the segments up to it |
| Service.BlankScriptRunsNothing | src/service.js:145-151 | a blank script calls back at once with no results and submits nothing |
| Service.Connection.constructor | src/service.js:22-27 | the settings come from the configuration, stop-on-error is on, and nothing has been submitted |
| Service.Connection.GetRecords | src/service.js:33-68 | the loop builds exactly `Grid`: the header, then one formatted row per record |
| Service.Connection.Prepare | src/service.js:70-92 | the options object and the returned text become `AfterDirectives` of the old options, with this connection's settings as defaults |
| Service.Connection.Test | src/service.js:75-90 | each `if` applies one directive to the options and the text |
| Service.Connection.Batch | src/service.js:94-140 | the new connection state, the options and the outcome are `BatchSpec` of the old ones |
| Service.Connection.Complete | src/service.js:111-139 | the request callback writes the error or the row sets and count lines and ends as `Finish` says |
| Service.Connection.WriteRowSets | src/service.js:124-133 | the loop appends exactly `ResultLog` of the row sets |
| Service.Connection.WriteRowSet | src/service.js:125-131 | one pass of that loop appends exactly `RowSetLog` of its row set: the table only when the set has rows, then the count line in every case |
| Service.Connection.Run | src/service.js:142-165 | the new connection state, the options and the outcome are `RunSpec` of the old ones |
| Service.ContinuationAsWritten | src/service.js:153-162 | the batch after the one that finished, as written: found by `indexOf` of the text the batch reports |
| Service.ContinuationIntended | src/service.js:153-162 | the batch after the k-th is the (k+1)-th, and after the last comes the callback |
| Service.RepeatedBatchIsResubmitted | src/service.js:155-160 | with a repeated segment, the code as written submits the second segment again after the last |
| Service.StrippedBatchRestartsRun | src/service.js:155-160 | a segment with its own ON directive is not found, so the code as written submits the first segment again |
| Service.AsWrittenAgrees | src/service.js:155 | on distinct segments, after one that holds no directive, the code as written continues exactly as intended |
| Service.IntendedVisitsEachBatchOnce | src/service.js:153-162 | the corrected continuation calls back exactly after the last segment and otherwise submits the next one |
| Session.CollectorHasNoDirectives | src/prompt.js:59-62 | the schema query holds no directive, so `prepare` leaves it as it is |
| Session.SchemaRows | src/prompt.js:93-94 | each record of the schema reply gives its `table` and `column` |
| Session.SliceLast | src/prompt.js:258 | `slice(-1)` is the last character, or empty for an empty text |
| Session.CommandsOnlyWhenIdle | src/prompt.js:249-254 | with a pending batch, no line is a static or built-in command |
| Session.GoIsNeverACommand | src/prompt.js:255 | a line that trims and uppercases to `GO` is always the `GO` branch: neither catalog has that key |
| Session.GoSubmitsPending | src/prompt.js:228-256 | `GO` submits exactly the pending batch, even an empty one, and appends nothing; without stop-on-error the batch becomes empty and the prompt new |
| Session.OtherLinesExtend | src/prompt.js:234-263 | any other line appends exactly the untrimmed line and a line end and changes nothing else; the prompt is new after a trimmed `;` and `-> ` otherwise |
| Session.PendingLinesAccumulate | src/prompt.js:234-244 | while a batch is pending, lines without `GO` accumulate in order and nothing is submitted |
| Session.HelpWhenIdle | src/prompt.js:36-49 | with no batch pending, `help` gives the new prompt and changes nothing else in the state |
| Session.QuitWhenIdle | src/prompt.js:50-52 | with no batch pending, `\q` closes readline and the connection and ends the process, submitting and writing nothing and leaving the batch empty |
| Session.RefreshWhenIdle | src/prompt.js:53-56 | with no batch pending, `\u` resets the prompt, submits the schema query once and leaves the batch empty |
| Session.BuiltInRunsExpansion | src/prompt.js:222-253 | a built-in command submits its expansion and leaves the pending batch, the prompt and the index as they were |
| Session.InterruptRule | src/prompt.js:173-180 | the interrupt key ends the session when no batch is pending; otherwise it clears the line and the batch and shows the new prompt |
| Session.InterruptDropsPending | src/prompt.js:173-180 | after an interrupt drops a pending batch, lines are read as by an idle prompt and the next interrupt closes the session |
| Session.RefreshRebuilds | src/prompt.js:90-103 | a refresh submits the schema query silently and replaces the index with the grouping of its rows, writing nothing |
| Session.RefreshFailureEnds | src/prompt.js:91-93 | a failed schema query, with stop-on-error off, clears the index and then ends the process on `r[0]` |
| Session.OnLineKeepsIndex | src/prompt.js:246-264 | every line keeps the index well formed |
| Session.RefreshKeepsIndex | src/prompt.js:90-103 | every refresh keeps the index well formed |
| Session.Prompt.constructor | src/prompt.js:65-80 | a new prompt has no pending batch and an empty index, and then runs the first refresh |
| Session.Prompt.UpdateAvailableSuggestions | src/prompt.js:90-103 | the new state is `AfterRefresh` of the old one |
| Session.Prompt.Collect | src/prompt.js:91-102 | the grouping loop leaves exactly `Grouped` of the rows in `rs` |
| Session.Prompt.GetAvailableSuggestions | src/prompt.js:105-116 | the result is `Available` of the index and the line |
| Session.Prompt.Completer | src/prompt.js:118-154 | the completion is `OnTab` of the old state, and the line, cursor and process state change as `AfterTab` says |
| Session.Prompt.CompleteWord | src/prompt.js:129-153 | with a valid word, the completion comes from its hits |
| Session.Prompt.Throw | src/prompt.js:119-129 | with a bracket-only part, `quoteName` throws and the process ends |
| Session.Prompt.Present | src/prompt.js:136-153 | the three-way result policy on the hits, with the line buffer and cursor changed only for a single hit |
| Session.Prompt.Listen | src/prompt.js:156-159 | the prompt becomes the new prompt |
| Session.Prompt.Close | src/prompt.js:161-165 | readline and the connection are closed and the process ends |
| Session.Prompt.Reset | src/prompt.js:167-171 | the pending batch is empty and the prompt is new |
| Session.Prompt.CloseOrReset | src/prompt.js:173-180 | the new state is `OnInterrupt` of the old one |
| Session.Prompt.IsEmptyCommand | src/prompt.js:182-184 | true exactly when no batch is pending |
| Session.Prompt.RunBuiltInSingleCommand | src/prompt.js:222-226 | the expansion of the command is submitted as a batch |
| Session.Prompt.RunBatch | src/prompt.js:228-232 | the pending batch is submitted, and `reset` follows its completion |
| Session.Prompt.ExtendBatchCommand | src/prompt.js:234-238 | the line and a line end are appended, and the prompt becomes the new prompt |
| Session.Prompt.ExtendBatchResumedCommand | src/prompt.js:240-244 | the line and a line end are appended, and the prompt becomes `-> ` |
| Session.Prompt.ActionOnLine | src/prompt.js:246-264 | the new state is `OnLine` of the old one |

## Left out

- Readline's terminal side is not modelled: the interface itself, history, redisplay (`rl.prompt()`) and key handling. The prompt text is kept as a field, and `clearLine` is taken to empty the line buffer and the cursor.
- The text of `help` is not modelled. It is a write to stdout, and the model keeps only `reset`.
- The `^C` echo in `closeOrReset` and the `Connecting to ...` messages are not modelled. They are writes to standard streams.
- The duration in the `Time: n ms` line is not modelled, because it needs the wall clock. The line itself is modelled as `Service.TimingLine`. It is written after the count lines of a batch that is timed and not silent.
- `process.exit` is modelled as a flag on the connection state. An exception that ends the process is treated the same way: `quoteName` in the completer, and `r[0]` in the refresh callback.
- Callback order is modelled sequentially. Each callback runs as soon as its request completes, and nothing happens in between. `currentRequest` cancellation is not modelled.
- `Connection.connect`, `mssql.close` and the network are outside the model. The driver is an abstract function from the submission history and the text to a reply. src/main.js and src/config.js are not part of this model.
- Markdown-table rendering is not modelled. A table is written as its abstract grid of cells.
- Moment.js formatting is not modelled. A Date cell records the chosen pattern and the instant. The `toISOString` default records the instant only.
- The catalogs are finite maps with only the listed keys. Keys inherited from `Object.prototype` (`staticCommands["constructor"]`) are not modelled.
- `$` patterns in a replacement (`$&`, `$1` inside a captured name) are not modelled. The model inserts the capture literally. `Commands.DescribeNamesTheTable` assumes a schema name without `$`.
- A NULL table or column in the schema reply is not modelled. `Session.CollectorWf` assumes every record of that reply holds both as text.
- `Service.DriverWf` assumes every Date field has column metadata, which the driver always supplies.
- The describe pattern is modelled on general input, but its full outcome is derived only for `schema.table` inputs with optional brackets. Other inputs, such as `\d foo`, follow from the matcher alone.
- `toUpperCase` is modelled for ASCII letters only.
- Records.Keys: a `Record` is given with its fields already in `Object.keys` order. JavaScript lists names that are array indices (such as a column alias `1`) first, in ascending order, and the driver's creation order applies only to the rest. The model does not derive the header order from the driver's column order. So the model does not show that an integer-like alias moves to the front, as in `SELECT 'a' AS [x], 'b' AS [1]`, whose header is `1`, `x`.
- JavaScript's string lengths, `slice`, `substring` and `rl.cursor` count UTF-16 code units. The model's `|s|` counts characters. For a line with characters outside the Basic Multilingual Plane, the cursor of `Suggestions.Decide` and the right side `SliceFrom(line, |cmd|)` differ from the source.

## Findings

| source | as written | input that shows it | evidently intended | confidence | as-written member | corrected member |
|---|---|---|---|---|---|---|
| src/service.js:155 | `run` finds the next batch with `batches.indexOf(batchsql)`, looking up the text the finished batch reports, which is its prepared text | segments `SELECT 1`, `SELECT 2`, `SELECT 1`: after the third, it submits the second again, without end; in the script `SELECT 1 -- cheetah/timing ON` + `\nGO\n` + `SELECT 2 -- cheetah/timing ON`, `prepare` removes only the first marker, the second segment's own batch strips the second one, and the stripped text `SELECT 2 ` is not found, so `run` restarts from the first segment without end | submit segment k+1 after segment k, and call back after the last | not executed | Service.ContinuationAsWritten, Service.RepeatedBatchIsResubmitted, Service.StrippedBatchRestartsRun | Service.ContinuationIntended, Service.IntendedVisitsEachBatchOnce, Service.AsWrittenAgrees, Service.Connection.Run, Service.RunSubmitsEveryBatchInOrder |
