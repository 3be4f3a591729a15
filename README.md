# MatchingService, modelled in Dafny

The matching application shows a user two text records ("descriptions") at a
time and records whether they match. It also bulk-loads the records from CSV.
All of its logic lives in the `MatchingService` class. This project models
that class and proves what it promises:

- **Pair selection** (`GetNextPairAsync`). A session ends after 50
  judgments, and at least two records are needed. The selector then makes at
  most 100 random attempts, each drawing two records. It stops at the first
  attempt that finds two different records whose pair the session has not
  judged in either order.
- **Judgment log** (`SaveEvaluationAsync`, `GetSessionProgressAsync`). One
  operation appends an evaluation; the other counts the session's evaluations.
- **CSV line splitter** (`ParseCsvLine`). A comma outside quotes ends a
  column. Every `"` toggles the quoted state and is dropped.
- **Streaming importer** (`ImportDescriptionsFromCsvStreamAsync`). It skips
  the header and blank lines. It keeps the chosen column when that column,
  trimmed, is longer than 10 characters, and it stops at `maxRecords` values.
  Values are written in batches of 1000. The store is cleared once, before
  the first batch.
- **String importer** (`ImportDescriptionsFromCsvAsync`). It splits the text
  on line feeds, dropping empty entries. It trims each line and keeps any
  non-blank column value, whatever its length. It then replaces the store in
  one write.

The model has these modules:

- `Models`: the entities, as datatypes.
- `Wrappers`: `Option`, plus `Result` and `Outcome` for thrown exceptions.
- `Text`: the .NET string operations the code uses.
- `Csv`: the splitter.
- `Store`: the EF context, as a `Database` class with the two tables, the
  identity counters and a ghost history of the changes to the Descriptions
  table.
- `Judgments`: the session queries.
- `Selection`: the pair selector as a function of its inputs.
- `Import`: what each importer accepts, as functions of its input.
- `Service`: the `MatchingService` class. Its methods loop and change the
  store as the C# code does, and each is proved equal to the specification
  functions above.

The randomness in `GetNextPairAsync` is an input, `draws`: the pairs of
values `random.Next(descriptions.Count)` returns, one pair per attempt. The
streaming importer takes the lines its reader yields as a `seq<string>`.

Two facts about the code that a reader of the importers may not expect:

- The streaming importer clears the store at most once. A flush inside the
  read loop happens only when the buffer holds 1000 values, so the test
  `importedCount <= batchSize` holds exactly at the first flush. The final
  flush clears only when it writes the only batch (`Service.MatchingService.StreamAccept`,
  `Service.MatchingService.StreamFlush`). The history of the store gains
  exactly one `Cleared`, followed by the batches.
- `Trim('"')` strips every leading and trailing quote, not one layer of
  them. No column contains a quote, so it changes nothing
  (`Csv.QuoteTrimIsNoOp`).

## Model

All source cells refer to `MatchingService/Services/MatchingService.cs`.

| member | source | states |
|---|---|---|
| Csv.ParseCsvLine | MatchingService/Services/MatchingService.cs:240-269 | The one-pass splitter, with its quoted state, current column and column list, returns exactly the columns of the reference reading `Columns(line)`. |
| Csv.ParseFrom | MatchingService/Services/MatchingService.cs:246-266 | The reference splitter, read from either quoted state: it always yields at least one column. `ColumnCount`, `ColumnsJoin` and `ColumnsQuoteFree` give its meaning. |
| Csv.Columns | MatchingService/Services/MatchingService.cs:240-269 | The columns of a line, which starts outside quotes: one more than the commas outside quotes, joining with "," back to the line without its quotes, and no column holding a quote. |
| Csv.ColumnCount | MatchingService/Services/MatchingService.cs:246-266 | A line always yields at least one column. It yields exactly one more column than the commas met outside quotes. |
| Csv.ColumnsJoin | MatchingService/Services/MatchingService.cs:246-266 | Joining the columns with "," gives back the line with every `"` removed. |
| Csv.ColumnsQuoteFree | MatchingService/Services/MatchingService.cs:250-262 | No column contains a `"`. |
| Csv.QuoteTrimIsNoOp | MatchingService/Services/MatchingService.cs:132 | The `.Trim('"')` after `.Trim()` on a column leaves the value unchanged. The same holds at line 215. |
| Csv.QuotedSpan | MatchingService/Services/MatchingService.cs:250-262 | Inside quotes, every character but `"` goes into the current column, commas included. The closing quote returns to the unquoted state. |
| Csv.PlainSpan | MatchingService/Services/MatchingService.cs:254-262 | Outside quotes, characters other than `,` and `"` go into the current column. |
| Csv.QuotedCommaKept | MatchingService/Services/MatchingService.cs:250-258 | `k,"w"` splits into exactly the two columns `k` and `w`, so a quoted comma stays in its value. |
| Text.BlankIffTrimEmpty | MatchingService/Services/MatchingService.cs:206-207 | A line is blank exactly when trimming it leaves nothing. |
| Text.SplitJoin | MatchingService/Services/MatchingService.cs:194 | Splitting on a separator round-trips through joining with it. No piece contains the separator. |
| Text.SplitLinesEmptyIff | MatchingService/Services/MatchingService.cs:194-199 | Splitting on line feeds with empty entries removed yields nothing exactly when the text holds only line feeds. |
| Judgments.SessionEvaluationsMembers | MatchingService/Services/MatchingService.cs:38-41 | The session filter keeps exactly the evaluations that carry the session's id. |
| Judgments.SessionEvaluations | MatchingService/Services/MatchingService.cs:38-39 | The `Where(e => e.SessionId == sessionId)` filter, in log order, no longer than the log. `SessionEvaluationsMembers` and `SessionCountIsIndexCount` give its meaning. |
| Judgments.SessionCountIsIndexCount | MatchingService/Services/MatchingService.cs:93-97 | The session's count is the number of log positions whose evaluation carries its id, so each such evaluation counts exactly once. |
| Judgments.NoEvaluationsIff | MatchingService/Services/MatchingService.cs:93-97 | A session's count is zero exactly when no evaluation carries its id. |
| Judgments.SessionEvaluationsAppend | MatchingService/Services/MatchingService.cs:89-90 | An appended evaluation joins its own session's list at the end and no other session's list. |
| Judgments.JudgedBySessionIff | MatchingService/Services/MatchingService.cs:53-56 | The either-order test on the session's projected id pairs holds exactly when the session has an evaluation of those two ids. |
| Judgments.IsEvaluatedPair | MatchingService/Services/MatchingService.cs:53-56 | The `Any` test on projected pairs holds exactly when `(a, b)` or `(b, a)` is one of the pairs. |
| Selection.FirstAcceptable | MatchingService/Services/MatchingService.cs:48-61 | The attempt at which the loop breaks: every earlier attempt fails the exit test and this one passes it, or 100 when all fail. |
| Selection.Acceptable | MatchingService/Services/MatchingService.cs:53-56 | The exit test of one attempt. It passes only for a draw of two different positions. `UnjudgedOnlyAfterBreak` and `JudgedBySessionIff` give its meaning. |
| Selection.FirstAcceptableAt | MatchingService/Services/MatchingService.cs:48-61 | The loop breaks at attempt `k` exactly when all attempts before `k` fail and attempt `k`, if there is one, passes. |
| Selection.LastDraw | MatchingService/Services/MatchingService.cs:48-61 | The draw the loop ends on is one of the first 100 draws, and both of its indexes are in range. |
| Selection.NextPair | MatchingService/Services/MatchingService.cs:18-76 | Nothing is returned once the session has 50 judgments or when there are fewer than 2 records. A returned pair has two different records from the store, `CurrentPairIndex == completedCount + 1` in 1..50, `TotalPairs == 50` and the session's id. |
| Selection.DistinctDrawServed | MatchingService/Services/MatchingService.cs:63-66 | With the records' ids unique, whatever order the table lists them in, a pair is returned exactly when the last draw picks two different positions. |
| Selection.OnlyFirstDrawsMatter | MatchingService/Services/MatchingService.cs:48 | The loop makes at most 100 draws: draw sequences that agree on their first 100 entries give the same result. |
| Selection.UnjudgedOnlyAfterBreak | MatchingService/Services/MatchingService.cs:48-66 | The result is a pair the session has not judged exactly when some attempt breaks the loop. |
| Selection.BreakServesFirstAcceptableDraw | MatchingService/Services/MatchingService.cs:53-58 | When an attempt passes the exit test, the pair returned is the one from the first attempt that passes. |
| Selection.ExhaustedServesLastDraw | MatchingService/Services/MatchingService.cs:60-75 | After 100 failed attempts, the last draw is returned whenever its records differ, and it is then a pair already judged. |
| Selection.RepeatsJudgedPair | MatchingService/Services/MatchingService.cs:63-66 | With two records whose pair is judged, every attempt fails. If the 100th draw picks both records, the judged pair is returned again. |
| Selection.NextFreshPair | MatchingService/Services/MatchingService.cs:63-66 | The corrected selector: on top of what NextPair promises, a returned pair is never one the session has judged. |
| Selection.FreshPairFoundIff | MatchingService/Services/MatchingService.cs:48-66 | The corrected selector returns a pair exactly when one of the 100 attempts passes the exit test. It then agrees with the selector as written. |
| Store.NumberedAt | MatchingService/Services/MatchingService.cs:231 | Row `i` of an AddRange gets value `i` and the `i`-th fresh identity value. |
| Store.NumberedAppend | MatchingService/Services/MatchingService.cs:139-152 | Numbering two writes in turn is numbering their concatenation. |
| Store.BatchesConcat | MatchingService/Services/MatchingService.cs:139-174 | The batches concatenate back to the values written. |
| Store.BatchesExtend | MatchingService/Services/MatchingService.cs:165-174 | Full batches followed by a last batch of at most 1000 values are the batches of the whole. |
| Store.WholeBatchesExtend | MatchingService/Services/MatchingService.cs:139-147 | A flush of a full buffer keeps what was written a sequence of full batches. |
| Store.Database.RemoveAllDescriptions | MatchingService/Services/MatchingService.cs:229 | Empties the Descriptions table and records one `Cleared`. Nothing else changes, and the identity counter is not reset. |
| Store.Database.AddDescriptions | MatchingService/Services/MatchingService.cs:231-232 | Appends one row per value, in order, with fresh ascending ids, and records the write. |
| Store.Database.AddEvaluation | MatchingService/Services/MatchingService.cs:89-90 | Appends one evaluation with a fresh id. Nothing else changes. |
| Service.MatchingService.GetSessionProgress | MatchingService/Services/MatchingService.cs:93-97 | The number of the session's evaluations, at most the number of all evaluations. `SessionCountIsIndexCount` ties it to the positions in the log. |
| Service.MatchingService.SessionPairs | MatchingService/Services/MatchingService.cs:38-41 | One id pair per evaluation of the session. |
| Service.MatchingService.SamplePair | MatchingService/Services/MatchingService.cs:44-61 | The `while` loop: `desc1` and `desc2` end as the records of LastDraw, the attempt that broke the loop or else the 100th. |
| Service.MatchingService.GetNextPair | MatchingService/Services/MatchingService.cs:18-76 | Returns exactly NextPair of the session's count, the records, the session's pairs and the draws. |
| Service.MatchingService.SaveEvaluation | MatchingService/Services/MatchingService.cs:78-91 | Appends exactly one evaluation with the given session, ids and decision. The session's progress rises by one, every other session's is unchanged, and the pair is then one the session has judged. |
| Service.MatchingService.StreamLine | MatchingService/Services/MatchingService.cs:128-136 | The body for one non-blank line returns exactly StreamLineValue of the line. |
| Service.MatchingService.SaveBatch | MatchingService/Services/MatchingService.cs:139-152 | One write: the store is cleared exactly when nothing has been written yet, then the batch is appended. |
| Service.MatchingService.StreamAccept | MatchingService/Services/MatchingService.cs:133-152 | The line's value goes into the buffer, and a full buffer is written and emptied. What is written and buffered grows by exactly the value. |
| Service.MatchingService.StreamRead | MatchingService/Services/MatchingService.cs:113-162 | The read loop: the written and buffered values together are the accepted values of the data lines, limited to `maxRecords`, and the store holds the written ones. |
| Service.MatchingService.StreamFlush | MatchingService/Services/MatchingService.cs:165-174 | What is left in the buffer is written, after a clear only when it is the only batch. |
| Service.MatchingService.ImportDescriptionsFromCsvStream | MatchingService/Services/MatchingService.cs:99-188 | With no value accepted: the error names column `ReportedColumn(columnIndex)`, the 32-bit `columnIndex + 1`, and the store is untouched. Otherwise: returns the count; the store holds exactly the accepted values in order, with fresh ids; the history gains one `Cleared` followed by the 1000-value batches. |
| Service.MatchingService.StringLine | MatchingService/Services/MatchingService.cs:206-220 | The body for one line returns exactly StringLineValue of the line, the `IndexOutOfRange` failure included. |
| Service.MatchingService.ReadDescriptions | MatchingService/Services/MatchingService.cs:201-221 | The `for` loop returns exactly the gathered values of the data lines, or the first line's error. |
| Service.MatchingService.ImportDescriptionsFromCsv | MatchingService/Services/MatchingService.cs:190-238 | On an error: the error is reported and the store is untouched. Otherwise: the store holds exactly the accepted values with fresh ids, after one clear and one write. |
| Import.ReportedColumn | MatchingService/Services/MatchingService.cs:178 | The column number in the error messages is `columnIndex + 1` in 32-bit `int` arithmetic: a value in the `int` range that differs from `columnIndex + 1` by a multiple of 2^32. The same holds at line 225. |
| Import.ReportedColumnInRange | MatchingService/Services/MatchingService.cs:225 | Below int.MaxValue the reported number is exactly the 1-based column. |
| Import.ReportedColumnWraps | MatchingService/Services/MatchingService.cs:178 | At `columnIndex == int.MaxValue` the reported column wraps to int.MinValue. |
| Import.StreamLineValuesAt | MatchingService/Services/MatchingService.cs:114-162 | Entry `j` of the line-by-line values is the value of line `j`. |
| Import.StreamLineValue | MatchingService/Services/MatchingService.cs:116-136 | One line gives at most one value. A value comes from a non-blank line with more than `columnIndex` columns, is that column trimmed, and is non-blank and longer than 10 characters. |
| Import.StreamImport | MatchingService/Services/MatchingService.cs:111-136 | The accepted values are a prefix of the data lines' values, with at most `maxRecords` of them when it is positive. `StreamValueOrigin` and `StreamImportLimit` give its meaning. |
| Import.Limit | MatchingService/Services/MatchingService.cs:119-122 | With a positive `maxRecords`, it keeps at most `maxRecords` values, a prefix of the values. Otherwise it keeps all of them. |
| Import.LimitReached | MatchingService/Services/MatchingService.cs:119-122 | Stopping once `maxRecords` values are collected keeps exactly the first `maxRecords`. |
| Import.StreamValueOrigin | MatchingService/Services/MatchingService.cs:111-136 | Every accepted value comes from a non-blank line after the header, with more than `columnIndex` columns. It is that column, trimmed, non-blank and longer than 10 characters. |
| Import.StreamImportLimit | MatchingService/Services/MatchingService.cs:119-122 | With `maxRecords > 0`, at most `maxRecords` values are accepted. Exactly that many are accepted when the lines offer that many. |
| Import.NegativeColumnImportsNothing | MatchingService/Services/MatchingService.cs:128-161 | A negative column index accepts nothing, because every line's failing `columns[columnIndex]` is caught and skipped. |
| Import.StringLineValue | MatchingService/Services/MatchingService.cs:206-220 | A line gives at most one value. Its only error is the out-of-range index. |
| Import.StringLineResultsAt | MatchingService/Services/MatchingService.cs:204-221 | Entry `j` of the line-by-line results is the result of line `j`. |
| Import.GatherConcat | MatchingService/Services/MatchingService.cs:204-221 | A successful loop holds the values of the lines concatenated in line order. |
| Import.StringValues | MatchingService/Services/MatchingService.cs:204-221 | The loop over the data lines: on success, each line's values in line order. `StringValuesFailIff` gives the failure case. |
| Import.GatherFailure | MatchingService/Services/MatchingService.cs:204-236 | The loop fails exactly when some line throws, and then with that line's error. |
| Import.GatherOrigin | MatchingService/Services/MatchingService.cs:204-221 | Each gathered value comes from a line that succeeded. |
| Import.GatherAdvance | MatchingService/Services/MatchingService.cs:204-221 | One iteration: a throwing line ends the loop with its error, and otherwise its value joins those found so far. |
| Import.StringLineFailsIff | MatchingService/Services/MatchingService.cs:206-215 | A line makes the string import throw exactly when the index is negative and the trimmed line is not blank. |
| Import.StringLineValueMeaning | MatchingService/Services/MatchingService.cs:206-219 | A kept value is the chosen column of the trimmed line, trimmed and non-blank. |
| Import.StringValuesFailIff | MatchingService/Services/MatchingService.cs:204-236 | The data lines make the import fail exactly when the index is negative and some trimmed line is not blank. The error is then the out-of-range index. |
| Import.StringImportEmptyIff | MatchingService/Services/MatchingService.cs:194-199 | "CSV file is empty" is reported exactly when the text holds only line feeds. |
| Import.StringImport | MatchingService/Services/MatchingService.cs:194-226 | A success holds at least one value. "CSV file is empty" is reported exactly when no non-empty line is left after the split. |
| Import.StringValuesOrigin | MatchingService/Services/MatchingService.cs:204-221 | Every value from the data lines is the chosen column of some non-blank trimmed line, trimmed and non-blank. |
| Import.StringValueOrigin | MatchingService/Services/MatchingService.cs:194-226 | Every value stored comes from a line after the header, as above, whatever its length. |
| Import.ShortValueDivergence | MatchingService/Services/MatchingService.cs:133 | A value of 10 characters or fewer is dropped by the streaming importer and kept by the string importer. |
| Import.ShortValueImportedWhole | MatchingService/Services/MatchingService.cs:190-232 | The same short value end to end: the string importer, given the text `header` + line feed + `v`, stores exactly `[v]`. |

## Left out

- Database (EF Core): async calls, change tracking, transactions, and the failure of `SaveChangesAsync` are not modelled. Each store call is one atomic change. The model also leaves out partial imports, where a later batch write fails after earlier ones were saved.
- Identity values: the store assigns ascending ids from a counter. `RemoveRange` does not reset the counter. How a real database assigns ids is not modelled beyond this.
- `random.Next` is not modelled. Its results are the `draws` input. `GetNextPair` requires that they lie in `0..descriptions.Count-1`, as `random.Next` guarantees.
- `StreamReader.ReadLineAsync`: the line source is the `lines` input. Decoding and the `\r`/`\n` line-end rules are not modelled.
- `processedLines` and every `Console.WriteLine` are not modelled. They only feed log output.
- Exception message texts: the importers' exceptions are `ImportError` values. They keep the column number, computed with 32-bit wrap-around as `ReportedColumn`. The "Error importing CSV: " prefix the outer handler adds is not modelled.
- `DateTime.UtcNow` for `CreatedAt` is not modelled. `Evaluation` has no timestamp field.
- `SaveEvaluation`'s ids are not checked for referential integrity in the model. The source leaves that check to the database.
- Text: .NET strings are UTF-16 code units, while Dafny's `char` is a Unicode scalar value. Surrogate pairs are not modelled.
- The default arguments (`columnIndex = 22`, `maxRecords = 0`) are not modelled. The streaming importer's one call, the upload action, passes both (MatchingService/Controllers/HomeController.cs:116), with `columnIndex = columnNumber - 1` (line 115). The string importer has no caller in the repository and has no `maxRecords` parameter.
- Integer width: `columnIndex` and `maxRecords` are unbounded `int`s in the model, and C#'s 32-bit range is not required of them. Only the `columnIndex + 1` in the error messages is computed with wrap-around (`ReportedColumn`). `importedCount` cannot reach int.MaxValue in practice, so its overflow is not modelled.
- Delete restriction: the schema sets `DeleteBehavior.Restrict` on both foreign keys from Evaluations to Descriptions (MatchingService/Data/ApplicationDbContext.cs:34 and 39). So once an evaluation refers to a stored record, the `RemoveRange` of an import fails at `SaveChangesAsync`. In the streaming importer that failure at line 147 is caught by the per-line handler, and reading goes on. In the string importer it propagates at line 232. The model's store does not enforce foreign keys. So the successful import results (`Wrote` in `ImportDescriptionsFromCsvStream`'s ensures, and `ImportDescriptionsFromCsv`'s ensures) describe the database only when no evaluation refers to the records being removed.
- Concurrent calls, for example two pair fetches for one session at the same time, are not modelled.
- Controllers, program start-up, migrations and EF schema configuration are not part of this model.

## Findings

| source | as written | input that shows it | evidently intended | confidence | as-written member | corrected member |
|---|---|---|---|---|---|---|
| MatchingService/Services/MatchingService.cs:63-66 | After 100 failed attempts, the null check tests only that the two ids differ, so the last draw is returned even though the session has already judged it. | Two records with ids 1 and 2; the session has judged (1, 2); all 100 draws fail, the 100th drawing indexes (0, 1). `GetNextPairAsync` returns the already-judged pair (1, 2). | Return null ("Couldn't find a unique pair") whenever every attempt fails. | not executed | Selection.RepeatsJudgedPair | Selection.NextFreshPair |
