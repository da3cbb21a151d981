# yanagishima query core, modelled in Dafny

yanagishima is a web front end that runs SQL on Presto, Hive and Spark. It
also keeps every result as an artifact on disk. This project models the
sequential logic at the heart of its query path and proves properties of
that logic:

- **Query policy.** Before a query runs it passes up to three checks, taken
  from the datasource's configuration: disallowed leading keywords (Hive
  only), secret substrings, and required conditions of the form
  `table:key1|key2`. The first violation stores an error record and is
  thrown. (`QueryPolicy`, on top of `JavaStrings`, a model of the
  `java.lang.String` operations the checks use.)
- **The row loop.** Both services share the same `processData` loop. Every
  row is written to the `.tsv` artifact and counted, and its size is added
  to a running total. That total is checked against the byte cap right
  after the row is written. A row is kept in memory only while fewer than
  `limit` rows are kept, unless the query starts with "show"; a row that
  arrives with the buffer full raises the fetch warning. (`ResultStream`)
- **The Hive service.** `getHiveQueryResult` validates the query and
  chooses the JDBC URL (with the proxy user when the datasource
  impersonates) and the credentials. It names the YARN job, runs the setup
  statements and the query, and streams the result or writes an empty
  artifact when there is no result set. (`HiveService`)
- **The Presto service.** `getPrestoQueryResult` validates the query and
  waits for the first page with data under the run-time limit. It then
  streams every page and classifies how the client ended: aborted, client
  error, or finished with or without an error. When the query fails after
  its result was started, the `.tsv` artifact is replaced by an `.err`
  artifact. (`PrestoClient`, an abstract statement client, and
  `PrestoService`; `getStatementClient`'s user and https rules are
  `PrestoService.StatementUser`.)
- **Artifact paths.** `getResultFilePath` builds
  `<cwd>/result/<datasource>/<first 8 characters of the id>/<id>.tsv`, or
  `.err` for an error. (`ResultPath`)
- **The YARN job list.** The servlet splits the resource manager's jobs
  into running and other jobs, sorts each part by id (descending) and caps
  the list at 100. It then reads the query id back from each Hive job name,
  looks the ids up in the query table, and tags every listed job with
  `existdb`. (`YarnJobs`)
- **Metadata notes.** `setMetadata` appends each column's note from the
  metadata service to the matching row of a table description, and adds
  the table's note to the response. (`Metadata`)

The history store is kept as ghost logs of error and history records,
because nothing in the core reads it back (`Sinks.History`). The artifact
directory is a map from path to content (`Sinks.ArtifactStore`).

External inputs become parameters:

- the JDBC driver's answer (`HiveService.Reply`);
- the Presto coordinator's pages (`PrestoClient.Script`);
- the clock (`elapsed`);
- the encoded size of a row (`size`);
- the resource manager's job list;
- the metadata service's parsed answer;
- the query table's rows.

Four behaviours of the code are easy to miss, and the model keeps them:

- **No cancel on timeout.** The Presto wait loop's timeout only stores an
  error record and throws; it does not cancel the query first.
- **Failures with no error record.** These stop the query without storing
  one:
  - a malformed required condition;
  - a Presto client that was aborted or lost;
  - a page without columns;
  - an `advance()` failure inside Presto's `processData`.
- **Fixed check order per engine.** Presto has no disallowed-keyword check,
  and its required-condition exemption is the comment marker the UI
  prepends rather than SHOW/DESCRIBE.
- **Defects kept as written.** The two defects under "## Findings" are
  modelled as the code has them. The job list fails with more than 100
  running jobs (`YarnJobs.ListJobs`). The Hive JDBC timeout narrows the
  milliseconds before dividing (`HiveService.HiveService.Execute`). The
  corrected definitions stand beside them, with the intended property
  proved.

## Model

| member | source | states |
|---|---|---|
| QueryPolicy.FirstIndex | src/main/java/yanagishima/service/HiveServiceImpl.java:245-251 | a loop that stops at its first hit finds the least index whose element satisfies the test, and none exists exactly when no element does |
| QueryPolicy.CheckDisallowed | src/main/java/yanagishima/service/HiveServiceImpl.java:244-252 | rejects iff some configured keyword starts the trimmed, lower-cased query; the message names the first such keyword and the datasource |
| QueryPolicy.UpperCaseKeywordIgnored | src/main/java/yanagishima/service/HiveServiceImpl.java:245-246 | keywords are not lower-cased, so a keyword holding an upper-case letter never rejects any query |
| QueryPolicy.CheckSecret | src/main/java/yanagishima/service/HiveServiceImpl.java:254-262 | rejects iff the query contains some configured keyword (case-sensitive), always with "query error occurs", whichever keyword matched |
| QueryPolicy.Conditions | src/main/java/yanagishima/service/HiveServiceImpl.java:265-267 | the conditions checked are exactly the pieces of every configured rule split at ',' |
| QueryPolicy.ConditionsAppend | src/main/java/yanagishima/service/HiveServiceImpl.java:265-267 | the conditions of consecutive rules are the conditions of the first rules followed by those of the later ones |
| QueryPolicy.ConditionsInOrder | src/main/java/yanagishima/service/HiveServiceImpl.java:265-267 | one rule's conditions are checked in their written order, after those of every earlier rule and before those of every later one |
| QueryPolicy.WellFormedCondition | src/main/java/yanagishima/service/HiveServiceImpl.java:266-272 | an entry written as the table, ':' and the keys joined by the bar character reads back as that table and those keys, and admits exactly the queries that name every key whenever they mention the table and are not exempt |
| QueryPolicy.CheckKeys | src/main/java/yanagishima/service/HiveServiceImpl.java:271-277 | passes iff the query contains every key; otherwise the message names the table and the first missing key |
| QueryPolicy.ConditionVerdict | src/main/java/yanagishima/service/HiveServiceImpl.java:268-278 | a condition that stops the query raises the out-of-bounds error iff it has fewer than two ':'-separated pieces; otherwise it rejects the query, which is not exempt and mentions the table, naming the table and the first of its keys the query lacks |
| QueryPolicy.CheckConditions | src/main/java/yanagishima/service/HiveServiceImpl.java:267-279 | passes iff every condition admits the query; otherwise the first condition that does not admit it decides |
| QueryPolicy.CheckRequired | src/main/java/yanagishima/service/HiveServiceImpl.java:264-281 | passes iff every configured condition admits the query; otherwise the first condition, in rule order, that does not admit it decides; a rejection names a mentioned table and a key the query lacks, and never happens to an exempt query |
| QueryPolicy.ValidateHive | src/main/java/yanagishima/service/HiveServiceImpl.java:103-105 | passes iff no disallowed keyword starts the query, no secret occurs and every condition admits it (SHOW/DESCRIBE exempt from the conditions) |
| QueryPolicy.HiveDisallowedFirst | src/main/java/yanagishima/service/HiveServiceImpl.java:103-105 | a disallowed keyword starting the query decides the verdict before the other checks, naming the first such keyword |
| QueryPolicy.HiveSecretSecond | src/main/java/yanagishima/service/HiveServiceImpl.java:103-105 | with no disallowed keyword, a secret in the query rejects it with "query error occurs" before any condition is checked |
| QueryPolicy.HiveExemptOnlyKeywords | src/main/java/yanagishima/service/HiveServiceImpl.java:103-105 | a SHOW or DESCRIBE statement is only ever rejected by a disallowed or a secret keyword |
| QueryPolicy.ValidatePresto | src/main/java/yanagishima/service/OldPrestoServiceImpl.java:117-118 | secret check, then required check with the comment-marker exemption and no disallowed-keyword check; passes iff neither objects |
| JavaStrings.ToLower | src/main/java/yanagishima/service/HiveServiceImpl.java:246 | lower-casing keeps the length and maps each character to its lower-case form |
| JavaStrings.TrimStart | src/main/java/yanagishima/service/HiveServiceImpl.java:246 | trim drops exactly the leading characters up to U+0020 |
| JavaStrings.TrimEnd | src/main/java/yanagishima/service/HiveServiceImpl.java:246 | trim drops exactly the trailing characters up to U+0020 |
| JavaStrings.UpperCaseNeverPrefixesLowered | src/main/java/yanagishima/service/HiveServiceImpl.java:246 | a string holding an upper-case letter never starts a lower-cased string |
| JavaStrings.DropTrailingEmpty | src/main/java/yanagishima/service/HiveServiceImpl.java:266 | `split` removes exactly the trailing empty pieces |
| JavaStrings.SplitJoin | src/main/java/yanagishima/service/HiveServiceImpl.java:266-270 | splitting pieces joined by a separator they do not contain gives back the pieces (the last must not be empty unless it is the only one) |
| JavaStrings.NatToString | src/main/java/yanagishima/service/HiveServiceImpl.java:216 | `%d`/`%s` of a number renders a non-empty string of decimal digits that denotes the number, with no leading zero |
| JavaInts.ToInt | src/main/java/yanagishima/service/HiveServiceImpl.java:152 | the `(int)` cast of a long gives the int congruent to it modulo 2^32, and leaves an int-sized value unchanged |
| JavaInts.JavaDiv | src/main/java/yanagishima/service/HiveServiceImpl.java:152 | Java's integer division rounds toward zero |
| ResultPath.Extension | src/main/java/yanagishima/util/PathUtil.java:21 | the extension has three letters and is "err" iff the error flag is set |
| ResultPath.ResultFilePath | src/main/java/yanagishima/util/PathUtil.java:14-23 | the path lies in `<cwd>/result/<datasource>/<first 8 characters of the id>` and ends with `/<id>.<extension>` |
| ResultPath.ErrorExtension | src/main/java/yanagishima/util/PathUtil.java:21-22 | the path ends with ".err" iff the error flag is set, and with ".tsv" iff it is not |
| ResultPath.ArtifactsDifferOnlyInExtension | src/main/java/yanagishima/util/PathUtil.java:21-22 | the success and the error artifact of one query have the same length and differ only in "tsv" against "err" |
| ResultPath.ArtifactPathInjective | src/main/java/yanagishima/util/PathUtil.java:15-22 | two queries of one datasource, or the two outcomes of one query, never share an artifact path |
| ResultStream.Kept | src/main/java/yanagishima/service/HiveServiceImpl.java:221-225 | a show query keeps every row; any other keeps the first min(n, max(limit, 0)) rows, in order |
| ResultStream.KeptSnoc | src/main/java/yanagishima/service/HiveServiceImpl.java:221-225 | one more row is kept exactly when the buffer is below the limit, and otherwise the warning is raised with the buffer at its cap |
| ResultStream.BytesOfMonotone | src/main/java/yanagishima/service/HiveServiceImpl.java:214 | the running byte total never decreases as rows arrive |
| ResultStream.FeedRows | src/main/java/yanagishima/service/HiveServiceImpl.java:206-228 | the row loop drains iff the total stays under the cap after every row, ending in the state of replaying every row; otherwise it stops at the first row that takes the total over, that row printed and counted but neither kept nor warned about |
| ResultStream.FitsPrefix | src/main/java/yanagishima/service/HiveServiceImpl.java:215-219 | passing the cap check after every row of a stream means passing it after every row of any prefix |
| ResultStream.FitsFailsAt | src/main/java/yanagishima/service/HiveServiceImpl.java:215-219 | one row after which the total is over the cap fails the whole stream |
| ResultStream.FitsIsTotal | src/main/java/yanagishima/service/HiveServiceImpl.java:214-219 | because sizes are never negative, checking after every row amounts to checking the final total |
| ResultStream.IntTotalExact | src/main/java/yanagishima/service/HiveServiceImpl.java:198-215 | the `int` total every cap check sees equals the exact byte sum, with no wrap-around, while the row just read fits in the room an int leaves above the cap |
| ResultStream.BytesOfAppend | src/main/java/yanagishima/service/OldPrestoServiceImpl.java:218-223 | the byte total of two batches of rows is the sum of their totals |
| ResultStream.FitsAppend | src/main/java/yanagishima/service/OldPrestoServiceImpl.java:215-228 | the cap check over two pages in a row is the check over the first, then over the second from the first's total |
| ResultStream.ReplayAppend | src/main/java/yanagishima/service/OldPrestoServiceImpl.java:215-236 | the loop's state is incremental: a page continues from where the previous one stopped |
| ResultStream.ReplayCounts | src/main/java/yanagishima/service/HiveServiceImpl.java:212-214 | each row adds one line, its size and itself to the artifact |
| ResultStream.ReplaySummarizes | src/main/java/yanagishima/service/HiveServiceImpl.java:201-230 | after the header and n rows: lineNumber = 1 + n, the byte total, the kept rows as Kept says, the warning iff a row arrived with the buffer full, and the artifact holds the header then every row |
| ResultStream.OverflowLifts | src/main/java/yanagishima/service/OldPrestoServiceImpl.java:218-228 | a page that overflows at its row `at`, after pages that fit, overflows the whole stream at the matching row |
| ResultStream.StopLifts | src/main/java/yanagishima/service/OldPrestoServiceImpl.java:218-228 | the state a page stops in at its overflowing row is the state the whole stream reaches at that row |
| ResultStream.ReplayExtend | src/main/java/yanagishima/service/OldPrestoServiceImpl.java:215-236 | pages that fit, fed one after another, leave the state of the whole run of rows, which fits |
| Sinks.ArtifactStore.Write | src/main/java/yanagishima/service/OldPrestoServiceImpl.java:189-193 | writing a file sets that path's content and no other |
| Sinks.ArtifactStore.CreateNew | src/main/java/yanagishima/service/HiveServiceImpl.java:175-176 | `createNewFile` creates an empty file iff none is at the path, reports which, and otherwise leaves every file as it was |
| Sinks.ArtifactStore.Delete | src/main/java/yanagishima/service/OldPrestoServiceImpl.java:180-185 | deleting removes that path only and reports whether it existed |
| HiveService.JobName | src/main/java/yanagishima/service/HiveServiceImpl.java:155-160 | the job name starts with the prefix and ends with the query id; with a user it starts with prefix + user + "-", and its length is accounted for exactly |
| HiveService.JdbcUrl | src/main/java/yanagishima/service/HiveServiceImpl.java:113-123 | hive uses its URL plus ";hive.server2.proxy.user=" + user iff impersonation is on (starting with the URL, ending with the proxy setting, and exactly as long as both); spark uses its URL; any other engine is refused with "<engine> is illegal" |
| HiveService.CredentialsFromOneSource | src/main/java/yanagishima/service/HiveServiceImpl.java:124-130 | the user and password come both from the request or both from the configuration, never one of each; a request value is used only when the request gave both |
| HiveService.QueryTimeoutAsWritten | src/main/java/yanagishima/service/HiveServiceImpl.java:152 | as written, the timeout lies within ±2147483 seconds whatever the configured maximum |
| HiveService.QueryTimeout | src/main/java/yanagishima/service/HiveServiceImpl.java:152-153 | the corrected timeout, which the code does not use, equals the configured seconds whenever they fit in an int |
| HiveService.QueryTimeoutAgrees | src/main/java/yanagishima/service/HiveServiceImpl.java:152 | both forms give the configured seconds while the milliseconds fit in an int |
| HiveService.QueryTimeoutOverflows | src/main/java/yanagishima/service/HiveServiceImpl.java:152 | a maximum of 2147484 seconds gives −2147483 as written and 2147484 corrected |
| HiveService.Statements | src/main/java/yanagishima/service/HiveServiceImpl.java:154-172 | for hive, the job-name setting, then the setup queries, then the query; for spark only the query; the query always runs last |
| HiveService.HiveService.GetHiveQueryResult | src/main/java/yanagishima/service/HiveServiceImpl.java:102-147 | a rejected query stores one error record and throws, with no connection or file; a malformed rule throws without a record; a passing query ends as Connected says, with the timeout as written; a history record is added iff storeFlag is set and the query completed |
| HiveService.HiveService.Execute | src/main/java/yanagishima/service/HiveServiceImpl.java:113-185 | an unknown engine throws before connecting; a failed connection stores an error record and opens no session; an SQLException stores an error record, with only the statements that ran and the timeout as written; no result set creates an empty artifact unless one exists, which is kept, with lineNumber 0; a result set streams as Stream says; with cancellation on, the statement pool gains the query once the query statement is reached |
| HiveService.HiveService.Stream | src/main/java/yanagishima/service/HiveServiceImpl.java:187-240 | rows that fit give lineNumber 1 + n, the kept rows, the warning, the artifact of header and all rows, and take the query off the pool; an overflow at row `at` keeps the artifact through that row, stores the size error and throws; an SQLException from `next()` or `getObject` after rows that fit keeps the artifact of header and those rows, stores the error, throws, and leaves the query in the pool |
| PrestoClient.RowsOfAppend | src/main/java/yanagishima/service/OldPrestoServiceImpl.java:215-236 | the rows of two runs of pages are the rows of the first then of the second |
| PrestoClient.RowsOfPrefix | src/main/java/yanagishima/service/OldPrestoServiceImpl.java:215-236 | the rows of a shorter run of pages come first among the rows of a longer one |
| PrestoClient.StatementClient.StatesExclusive | src/main/java/yanagishima/service/OldPrestoServiceImpl.java:163-171 | running excludes the other states, and once not running exactly one of aborted, client error and finished holds |
| PrestoClient.StatementClient.CurrentDataExtendsRows | src/main/java/yanagishima/service/OldPrestoServiceImpl.java:216-218 | the page the client holds adds exactly its data, in place, to the rows of the pages before it; a null page adds none |
| PrestoClient.StatementClient.ColumnsOnlyWhenDelivering | src/main/java/yanagishima/service/OldPrestoServiceImpl.java:143-146 | column names are known only while the client runs or once the query finished; an aborted or lost query never reports any |
| PrestoClient.StatementClient.Advance | src/main/java/yanagishima/service/OldPrestoServiceImpl.java:124 | `advance()` moves to the next page, or throws with the coordinator's message at the failing page and leaves the client in its client-error state |
| PrestoService.StatementUser | src/main/java/yanagishima/service/OldPrestoServiceImpl.java:328-338 | explicit credentials give basic authentication only over https and fail otherwise; without them the user is the caller, else the configured user |
| PrestoService.ConfiguredUserOnlyWithoutCaller | src/main/java/yanagishima/service/OldPrestoServiceImpl.java:335-337 | a session without basic authentication runs as the caller, and as the configured user only when there is no caller |
| PrestoService.Wait | src/main/java/yanagishima/service/OldPrestoServiceImpl.java:122-139 | the wait loop passes only pages without data, each advanced without failure and within the time limit, and stops at the first page with data, when the client stops running, at a failed advance or at the first time over the limit |
| PrestoService.WaitDeterminedFrom | src/main/java/yanagishima/service/OldPrestoServiceImpl.java:122-139 | any ending that meets the wait loop's exit conditions is the one Wait gives, so the wait is determined by the pages, the failure point and the clock |
| PrestoService.Reach | src/main/java/yanagishima/service/OldPrestoServiceImpl.java:215-239 | processData feeds the pages through the failing one, or all of them |
| PrestoService.Terminal | src/main/java/yanagishima/service/OldPrestoServiceImpl.java:163-198 | the end succeeds iff the client finished without error; aborted → "Query aborted by user"; client error → "Query is gone"; a final error stores an error record when no result was started and writes the `.err` artifact when one was, never both |
| PrestoService.StreamedOverflow | src/main/java/yanagishima/service/OldPrestoServiceImpl.java:224-228 | an overflow keeps the artifact through the overflowing row and stores the size error |
| PrestoService.StreamedThrew | src/main/java/yanagishima/service/OldPrestoServiceImpl.java:237 | a failed advance in processData keeps the artifact of the rows fed and stores no record |
| PrestoService.StreamedCompleted | src/main/java/yanagishima/service/OldPrestoServiceImpl.java:149-161 | a completed stream records the history with lineNumber 1 + n and hands the ending to the classification |
| PrestoService.PageFits | src/main/java/yanagishima/service/OldPrestoServiceImpl.java:215-236 | a page whose rows fit extends the fed state by exactly that page |
| PrestoService.PageOverflows | src/main/java/yanagishima/service/OldPrestoServiceImpl.java:218-228 | a page overflowing at one of its rows makes the whole stream overflow at the matching row, in the matching state |
| PrestoService.FeedPage | src/main/java/yanagishima/service/OldPrestoServiceImpl.java:216-236 | one pass of the page loop either feeds the whole page, keeping the invariant, or stops at the stream's first overflowing row |
| PrestoService.StoppedByFit | src/main/java/yanagishima/service/OldPrestoServiceImpl.java:215-239 | whether the rows fit decides how the page loop stops and what its state is |
| PrestoService.FeedPages | src/main/java/yanagishima/service/OldPrestoServiceImpl.java:215-239 | the page loop stops at the first overflowing row, at a failed advance having fed every page before it, or once the client stops running having fed every page |
| PrestoService.PrestoService.GetPrestoQueryResult | src/main/java/yanagishima/service/OldPrestoServiceImpl.java:116-200 | a rejected query stores one error record and throws, touching no file; a passing query ends as Reported says: wait, then stream, then classify |
| PrestoService.PrestoService.Run | src/main/java/yanagishima/service/OldPrestoServiceImpl.java:120-139 | a failed advance or a timeout while waiting stores the matching error record and throws; otherwise the result is delivered from where the wait stopped |
| PrestoService.PrestoService.Deliver | src/main/java/yanagishima/service/OldPrestoServiceImpl.java:141-171 | a client neither running nor cleanly finished goes straight to the classification; a missing column list throws; otherwise the result is streamed |
| PrestoService.PrestoService.Stream | src/main/java/yanagishima/service/OldPrestoServiceImpl.java:149-161 | processData, then the history record and the classification, with the outcomes Streamed states |
| PrestoService.PrestoService.WaitForData | src/main/java/yanagishima/service/OldPrestoServiceImpl.java:122-139 | the loop ends as Wait says and stores an error record exactly for a failed advance or a timeout |
| PrestoService.PrestoService.ProcessData | src/main/java/yanagishima/service/OldPrestoServiceImpl.java:202-249 | the artifact holds what was written. Rows that fit give the replayed state and stop at the end or at a failed advance. Otherwise the stream stops at its first overflowing row and stores the size error |
| PrestoService.PrestoService.Conclude | src/main/java/yanagishima/service/OldPrestoServiceImpl.java:163-198 | the outcome, files and error records follow Terminal: the `.tsv` artifact is replaced by the `.err` one only after a started result |
| YarnJobs.CompareToAntisymmetric | src/main/java/yanagishima/servlet/YarnJobListServlet.java:58-59 | swapping the ids negates `compareTo`, and only equal ids compare as zero |
| YarnJobs.CompareToTransitive | src/main/java/yanagishima/servlet/YarnJobListServlet.java:58-59 | `compareTo` ≥ 0 is transitive, so the comparator orders the jobs |
| YarnJobs.Running | src/main/java/yanagishima/servlet/YarnJobListServlet.java:56 | every job of the running list is a job of the input in state "RUNNING" |
| YarnJobs.NotRunning | src/main/java/yanagishima/servlet/YarnJobListServlet.java:57 | every job of the other list is a job of the input not in state "RUNNING" |
| YarnJobs.PartitionIsPermutation | src/main/java/yanagishima/servlet/YarnJobListServlet.java:56-57 | the two lists together hold every job exactly as often as the input |
| YarnJobs.Insert | src/main/java/yanagishima/servlet/YarnJobListServlet.java:58-59 | inserting adds exactly the one job |
| YarnJobs.SortById | src/main/java/yanagishima/servlet/YarnJobListServlet.java:58-59 | sorting keeps every job exactly as often |
| YarnJobs.InsertSorted | src/main/java/yanagishima/servlet/YarnJobListServlet.java:58-59 | inserting into a list sorted by id descending keeps it sorted |
| YarnJobs.SortByIdSorted | src/main/java/yanagishima/servlet/YarnJobListServlet.java:58-59 | the sort orders the list by id descending |
| YarnJobs.SortedParts | src/main/java/yanagishima/servlet/YarnJobListServlet.java:56-59 | the sorted running part holds only running jobs and the other part none, and both are sorted by id descending |
| YarnJobs.PartsCover | src/main/java/yanagishima/servlet/YarnJobListServlet.java:56-59 | the two sorted parts hold every job exactly as often as the input, so their lengths add up to its length |
| YarnJobs.LimitedListAsWritten | src/main/java/yanagishima/servlet/YarnJobListServlet.java:61-68 | as written, the list fails iff there are over 100 jobs of which over 100 are running, and otherwise equals the corrected cap |
| YarnJobs.ManyRunningJobsThrow | src/main/java/yanagishima/servlet/YarnJobListServlet.java:65 | 101 running jobs make `subList` throw as written, where the corrected cap lists 100 |
| YarnJobs.LimitedList | src/main/java/yanagishima/servlet/YarnJobListServlet.java:61-68 | the capped list has the input's length up to 100 jobs and exactly 100 beyond |
| YarnJobs.LimitedListSplit | src/main/java/yanagishima/servlet/YarnJobListServlet.java:61-65 | over 100 jobs, the capped list is the first min(running, 100) sorted running jobs followed by the first of the other jobs, up to 100 in all |
| YarnJobs.LimitedListFromInput | src/main/java/yanagishima/servlet/YarnJobListServlet.java:61-68 | the capped list holds only input jobs, none more often than in the input, and up to 100 jobs is the input list in its own order |
| YarnJobs.LimitedListOrder | src/main/java/yanagishima/servlet/YarnJobListServlet.java:61-65 | over 100 jobs, exactly the first min(running, 100) listed jobs are running, and both parts are sorted by id descending |
| YarnJobs.RunningThenOthers | src/main/java/yanagishima/servlet/YarnJobListServlet.java:63-65 | appending a prefix of the other jobs to a prefix of the running jobs puts the running jobs first, each part still sorted |
| YarnJobs.Extract | src/main/java/yanagishima/servlet/YarnJobListServlet.java:74-83 | a name without the prefix is no Hive job; a read id is a suffix of the name; `substring` fails only with a user whose part does not fit in the name |
| YarnJobs.ExtractInvertsJobName | src/main/java/yanagishima/servlet/YarnJobListServlet.java:74-83 | reading the id from the name Hive gave a job yields the query id it was named after |
| YarnJobs.JobNameInvertsExtract | src/main/java/yanagishima/servlet/YarnJobListServlet.java:74-83 | conversely, a name an id is read from is the name Hive gives that query, when the user part is present |
| YarnJobs.QueryIdsAreExtracted | src/main/java/yanagishima/servlet/YarnJobListServlet.java:72-85 | an id is collected iff it is read from the name of some listed job |
| YarnJobs.CollectQueryIds | src/main/java/yanagishima/servlet/YarnJobListServlet.java:72-85 | the loop fails iff some listed name is too short for its user part, and otherwise collects the ids in list order |
| YarnJobs.SearchHiveQueries | src/main/java/yanagishima/servlet/YarnJobListServlet.java:87-97 | an id is found iff it was asked for and the table records a hive query of this datasource with that id |
| YarnJobs.TagJobs | src/main/java/yanagishima/servlet/YarnJobListServlet.java:99-116 | every listed job gets `existdb`: true iff its name has the prefix and the id read from it was found |
| YarnJobs.ListJobs | src/main/java/yanagishima/servlet/YarnJobListServlet.java:56-116 | fails iff the cap throws as written (over 100 jobs, over 100 of them running) or a listed name is too short for its user part; otherwise lists the capped list as written with `existdb` true iff the job's query is recorded for the datasource; jobs left out of the list, and all jobs on failure, are unchanged |
| Metadata.NoteCellReadsBack | src/main/java/yanagishima/util/MetadataUtil.java:35-40 | the appended cell holds a text exactly when the service gave a note object with that note; a missing object and a null note both give a null cell |
| Metadata.AnnotatedRows | src/main/java/yanagishima/util/MetadataUtil.java:28-43 | as many rows out as in; row i gains exactly the note of column i after its own cells when there is a column i, and is unchanged otherwise |
| Metadata.AnnotatedKeepsCells | src/main/java/yanagishima/util/MetadataUtil.java:30-34 | every row keeps its own cells, in order, as its prefix, and grows by at most one cell |
| Metadata.MergeNotes | src/main/java/yanagishima/util/MetadataUtil.java:28-43 | the nested copy loops build exactly the annotated records |
| Metadata.Response.SetMetadata | src/main/java/yanagishima/util/MetadataUtil.java:23-53 | with an answer, "results" becomes the annotated records and "note" is set only when the table has a note object; a failed request leaves the response unchanged |

## Left out

- Threads and the asynchronous task classes: each task's loop is modelled sequentially, and an asynchronous failure is only logged.
- Fluentd events and the `HiveDriver` class load: telemetry and reflection, with no effect on the outcome.
- `checkTimeout` inside both `processData` loops: `TimeoutUtil` is not part of this model. The Presto wait loop's own inline timeout is modelled, with an abstract clock.
- The rows' CSV encoding (quoting, `\N` for null), the UTF-8 measure of `row.toString()`, `Files.size` and `DataSize`: library behaviour. The byte measure is the parameter `size`.
- `rawDataSize` and `updateType` of the results: not modelled.
- The artifact is written once, when the writer closes, not row by row. An IOException while writing, and a `Files.delete` of a missing `.tsv` artifact, are not modelled.
- `StatementPool`: a ghost set of (datasource, query id) pairs. The real pool holds statements for concurrent cancellation.
- `mkdirs` in PathUtil: a directory side effect.
- The HTTP request and JSON parsing of MetadataUtil: the parsed answer is an input. The service's log messages are not modelled.
- JavaStrings.ToLower: handles ASCII letters only. `toLowerCase` also maps other scripts, so a non-ASCII keyword match may differ.
- JavaStrings.TrimStart: works on characters, not UTF-16 units, so supplementary characters are treated as single characters.
- YarnJobs.CompareTo: compares characters, not UTF-16 units, so ids outside the Basic Multilingual Plane may order differently.
- YarnJobs.SortById: `List.sort` is a library call. It is modelled as a stable insertion sort on the list's value, and its stability is not stated as a property.
- Partitioning, sorting and the cap are modelled on values. The in-place `sort` and `addAll` on Java lists, and their aliasing, are not modelled.
- A job map whose "state", "id" or "name" is missing, or whose `columns` is null in the metadata answer: Java would throw a NullPointerException, which is not modelled.
- PrestoClient.StatementClient: one query id for every status, and no `cancel()`. The coordinator's updates between pages are a fixed script.
- PrestoService.StatementUser: the coordinator URI is reduced to its scheme. The URI syntax error of `URI.create` is not modelled.
- The Presto timeout message cites `Duration.toString()`, which is the parameter `maxRunTimeText`.
- ResultPath.ResultFilePath: the path is the string the code concatenates. `File` and `Paths` normalise a path (repeated or trailing separators collapse), which is not modelled, so a datasource or id holding '/' may name a different file than this string.
- ResultPath.ArtifactPathInjective: distinctness is proved for the concatenated strings. Two ids that differ only in repeated separators ("a//b" against "a/b") name the same file once normalised; the lemma does not cover that.
- ResultStream.FeedRows: the running byte total is the exact sum, where the code's `int resultBytes` wraps past 2^31 − 1. Both agree at every check while no row is larger than the room an int leaves above the cap (`ResultStream.IntTotalExact`); a wrap beyond that, which would let the stream pass the cap, is not modelled.
- HiveService.HiveService.Stream: keeps the byte total as FeedRows does, so the int wrap-around is not modelled.
- PrestoService.FeedPages: keeps the byte total as FeedRows does, so the int wrap-around is not modelled.
- PrestoService.PrestoService.ProcessData: keeps the byte total as FeedRows does, so the int wrap-around is not modelled.
- HiveService.HiveService.GetHiveQueryResult: the timeout check inside the row loop, an IOException from `createNewFile` or the writer, and the int wrap-around of the byte total are not modelled.
- The query history is a sequence of records. The SQL of the Yarn lookup is a search over those records; the ordering and duplicates of the database's answer are not modelled.

## Findings

| source | as written | input that shows it | evidently intended | confidence | as-written member | corrected member |
|---|---|---|---|---|---|---|
| src/main/java/yanagishima/servlet/YarnJobListServlet.java:65 | `notRunningList.subList(0, LIMIT - runningList.size())` with more than 100 running jobs has a negative bound, so `subList` throws and the job list cannot be shown | 101 jobs, all in state RUNNING (`YarnJobs.ManyRunningJobsThrow`) | list the first 100 running jobs, so the list always holds 100 entries | not executed | YarnJobs.LimitedListAsWritten | YarnJobs.LimitedList |
| src/main/java/yanagishima/service/HiveServiceImpl.java:152 | `(int) queryMaxRunTime.toMillis() / 1000` narrows the milliseconds to int before dividing, so a maximum run time of 2147484 seconds or more wraps to a wrong, even negative, JDBC timeout | maxRunTimeSeconds = 2147484 gives −2147483 (`HiveService.QueryTimeoutOverflows`) | divide first, then narrow: the configured seconds | not executed | HiveService.QueryTimeoutAsWritten | HiveService.QueryTimeout |

The services use the as-written members, as the code does. The corrected members state the intended behaviour, and the intended property is proved about them.
