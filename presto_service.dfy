/**
 * OldPrestoServiceImpl.getPrestoQueryResult and processData: the query is
 * validated, the service waits for the first page with data, streams every
 * page into the `.tsv` artifact through the shared row loop, and then
 * classifies how the client ended. A query that fails after its result was
 * started has its `.tsv` artifact replaced by an `.err` artifact.
 *
 * Elapsed time is a parameter: `elapsed(p)` is the wall-clock time since the
 * start, read right after the wait loop's advance from page p.
 */
module PrestoService {
  import opened Wrappers
  import opened JavaStrings
  import opened QueryPolicy
  import opened ResultPath
  import opened ResultStream
  import opened Sinks
  import opened PrestoClient

  const Engine: string := "presto"
  const AbortedText: string := "Query aborted by user"
  const GoneText: string := "Query is gone (server restarted?)"
  const HttpsRequiredText: string := "Authentication using username/password requires HTTPS to be enabled"
  const BothNullText: string := "Both parameters are null"

  /** What the service reads from YanagishimaConfig for one datasource. */
  datatype PrestoConfig = PrestoConfig(
    secret: seq<string>,
    required: seq<string>,
    /** Constants.YANAGISHIMA_COMMENT, the marker exempting queries from the required-condition check. */
    commentMarker: string,
    maxRunTimeMillis: int,
    /** `Duration.toString()` of the maximum run time, as cited in the timeout message. */
    maxRunTimeText: string,
    maxResultFileByteSize: int)

  /** The message of QueryErrorException and of the error records: "Query failed (#id) in datasource: detail". */
  function FailedText(queryId: string, datasource: string, detail: string): string {
    "Query failed (#" + queryId + ") in " + datasource + ": " + detail
  }

  function InternalErrorText(queryId: string, datasource: string, message: string): string {
    FailedText(queryId, datasource, "presto internal error message=" + message)
  }

  function TimeoutText(queryId: string, datasource: string, limitText: string): string {
    FailedText(queryId, datasource, "Query exceeded maximum time limit of " + limitText)
  }

  function NoColumnsText(queryId: string): string {
    "Query " + queryId + " has no columns\n"
  }

  datatype ClientSetup = Setup(user: string, basicAuth: Option<string>) | SetupError(message: string)

  /**
   * getStatementClient: explicit Presto credentials need an https server and
   * are sent by basic authentication; otherwise the session user is the
   * caller, or the configured user when there is no caller.
   * `scheme` is the scheme of the coordinator URI, None when it has none.
   */
  function StatementUser(scheme: Option<string>, configUser: Option<string>, userName: Option<string>,
                         prestoUser: Option<string>, prestoPassword: Option<string>): (r: ClientSetup)
    ensures r.Setup? && r.basicAuth.Some? ==> scheme.Some? && EqualsIgnoreCase(scheme.value, "https")
    ensures prestoUser.Some? && prestoPassword.Some? ==>
      if scheme.Some? && EqualsIgnoreCase(scheme.value, "https")
      then r == Setup(prestoUser.value, prestoPassword)
      else r.SetupError?
    ensures prestoUser.None? || prestoPassword.None? ==>
      && r.Setup? == (userName.Some? || configUser.Some?)
      && (r.Setup? ==> r.basicAuth.None? && r.user == (if userName.Some? then userName.value else configUser.value))
  {
    if prestoUser.Some? && prestoPassword.Some? then
      if scheme.None? then SetupError("scheme is null")
      else if EqualsIgnoreCase(scheme.value, "https") then Setup(prestoUser.value, prestoPassword)
      else SetupError(HttpsRequiredText)
    else if userName.Some? then Setup(userName.value, None)
    else if configUser.Some? then Setup(configUser.value, None)
    else SetupError(BothNullText)
  }

  /**
   * A session without basic authentication runs as the caller; the
   * configured user is used only when there is no caller.
   */
  lemma ConfiguredUserOnlyWithoutCaller(scheme: Option<string>, configUser: Option<string>, userName: Option<string>,
                                        prestoUser: Option<string>, prestoPassword: Option<string>)
    ensures var r := StatementUser(scheme, configUser, userName, prestoUser, prestoPassword);
      r.Setup? && r.basicAuth.None? ==>
        && (userName.Some? ==> r.user == userName.value)
        && (userName.None? ==> configUser == Some(r.user))
  {
  }

  /** How the wait loop ends: ready at a page, or an exception at the advance from a page. */
  datatype Waited = Ready(pos: nat) | WaitFailed(pos: nat) | WaitTimedOut(pos: nat)

  /**
   * The wait loop from page p: it advances past pages without data, checking
   * the elapsed time after each advance, and stops at the first page with
   * data or once the client stops running.
   */
  function Wait(s: Script, elapsed: nat -> int, maxMillis: int, p: nat): (r: Waited)
    requires p <= |s.statuses|
    ensures p <= r.pos <= |s.statuses|
    ensures forall j :: p <= j < r.pos ==>
      s.statuses[j].data.None? && s.failAt != Some(j) && elapsed(j) <= maxMillis
    ensures r.Ready? ==> r.pos == |s.statuses| || s.statuses[r.pos].data.Some?
    ensures !r.Ready? ==> r.pos < |s.statuses| && s.statuses[r.pos].data.None?
    ensures r.WaitFailed? ==> s.failAt == Some(r.pos)
    ensures r.WaitTimedOut? ==> s.failAt != Some(r.pos) && elapsed(r.pos) > maxMillis
    decreases |s.statuses| - p
  {
    if p == |s.statuses| || s.statuses[p].data.Some? then Ready(p)
    else if s.failAt == Some(p) then WaitFailed(p)
    else if elapsed(p) > maxMillis then WaitTimedOut(p)
    else Wait(s, elapsed, maxMillis, p + 1)
  }

  /** The wait loop's end is determined by the pages, the failure point and the clock alone. */
  lemma WaitDeterminedFrom(s: Script, elapsed: nat -> int, maxMillis: int, p: nat, r: Waited)
    requires p <= |s.statuses| && p <= r.pos <= |s.statuses|
    requires forall j :: p <= j < r.pos ==> s.statuses[j].data.None? && s.failAt != Some(j) && elapsed(j) <= maxMillis
    requires r.Ready? ==> r.pos == |s.statuses| || s.statuses[r.pos].data.Some?
    requires !r.Ready? ==> r.pos < |s.statuses| && s.statuses[r.pos].data.None?
    requires r.WaitFailed? ==> s.failAt == Some(r.pos)
    requires r.WaitTimedOut? ==> s.failAt != Some(r.pos) && elapsed(r.pos) > maxMillis
    ensures Wait(s, elapsed, maxMillis, p) == r
    decreases |s.statuses| - p
  {
    if p < r.pos {
      WaitDeterminedFrom(s, elapsed, maxMillis, p + 1, r);
    }
  }

  /** processData's `advance()` throws at some page it reaches from page w. */
  predicate ThrowsFrom(s: Script, w: nat) {
    s.failAt.Some? && w <= s.failAt.value < |s.statuses|
  }

  /** The end of the pages processData feeds from page w: through the failing page, or all of them. */
  function Reach(s: Script, w: nat): (r: nat)
    requires w <= |s.statuses|
    ensures w <= r <= |s.statuses|
  {
    if ThrowsFrom(s, w) then s.failAt.value + 1 else |s.statuses|
  }

  /** How processData ends. */
  datatype Stop = Completed | AdvanceThrew(message: string) | TooLarge(at: nat)

  /** PrestoQueryResult as the service fills it in. */
  datatype PrestoQueryResult = PrestoQueryResult(queryId: Option<string>, columns: seq<string>, records: seq<Row>,
                                                 lineNumber: int, warning: Option<string>)

  /** What the exception thrown out of getPrestoQueryResult stands for. */
  datatype Failure = Rejected | MalformedRule | AdvanceFailed | TimedOut | NoColumns | SizeExceeded
                   | Aborted | Gone | QueryFailed

  datatype Outcome = Done(result: PrestoQueryResult) | Thrown(failure: Failure, message: string)

  /**
   * How the client ended, once it is no longer running: the checks run in
   * the order aborted, client error, final error. `started` says whether
   * the result was started, which decides whether an error record is
   * stored or the `.err` artifact is written.
   */
  datatype Ended = Succeeded | Raised(failure: Failure, message: string, storesError: bool, writesErrFile: bool)

  function Terminal(ending: Ending, started: bool, queryId: string, datasource: string): (r: Ended)
    ensures r.Succeeded? <==> ending.Finished? && ending.error.None?
    ensures ending.ClientAborted? ==> r == Raised(Aborted, AbortedText, false, false)
    ensures ending.ClientError? ==> r == Raised(Gone, GoneText, false, false)
    ensures ending.Finished? && ending.error.Some? ==>
      && r == Raised(QueryFailed, FailedText(queryId, datasource, ending.error.value), !started, started)
    ensures r.Raised? ==> !(r.storesError && r.writesErrFile)
  {
    match ending
    case ClientAborted => Raised(Aborted, AbortedText, false, false)
    case ClientError => Raised(Gone, GoneText, false, false)
    case Finished(error, _) =>
      if error.None? then Succeeded
      else Raised(QueryFailed, FailedText(queryId, datasource, error.value), !started, started)
  }

  /** The files after the end is classified: the `.err` artifact replaces the `.tsv` one when the ending says so. */
  function FilesAfter(files: map<string, Artifact>, e: Ended, tsv: string, err: string): map<string, Artifact> {
    if e.Raised? && e.writesErrFile then (files - {tsv})[err := Text(e.message)] else files
  }

  /** The error record storeError makes for the query of `s`. */
  function ErrorFor(datasource: string, s: Script, userName: Option<string>, message: string): ErrorRecord {
    ErrorRecord(datasource, Engine, s.queryId, s.query, userName, message)
  }

  /** The error records after the end is classified. */
  function ErrorsAfter(errors: seq<ErrorRecord>, e: Ended, datasource: string, s: Script, userName: Option<string>)
    : seq<ErrorRecord>
  {
    if e.Raised? && e.storesError then errors + [ErrorFor(datasource, s, userName, e.message)] else errors
  }

  /**
   * The whole of getPrestoQueryResult once validation passed: the state of
   * the artifacts, error records and query history after the call, from
   * their state `files0`, `errors0`, `queries0` before it.
   */
  ghost predicate Reported(s: Script, elapsed: nat -> int, config: PrestoConfig, datasource: string, limit: int,
                           userName: Option<string>, storeFlag: bool, cwd: string, size: Row -> nat,
                           files0: map<string, Artifact>, errors0: seq<ErrorRecord>, queries0: seq<HistoryRecord>,
                           files: map<string, Artifact>, errors: seq<ErrorRecord>, queries: seq<HistoryRecord>,
                           o: Outcome)
    requires |s.queryId| >= 8
  {
    match Wait(s, elapsed, config.maxRunTimeMillis, 0)
    case WaitFailed(_) =>
      var message := InternalErrorText(s.queryId, datasource, s.failMessage);
      o == Thrown(AdvanceFailed, s.failMessage) && errors == errors0 + [ErrorFor(datasource, s, userName, message)] &&
      files == files0 && queries == queries0
    case WaitTimedOut(_) =>
      var message := TimeoutText(s.queryId, datasource, config.maxRunTimeText);
      o == Thrown(TimedOut, message) && errors == errors0 + [ErrorFor(datasource, s, userName, message)] &&
      files == files0 && queries == queries0
    case Ready(w) =>
      Delivered(s, w, config.maxResultFileByteSize, datasource, limit, userName, storeFlag, cwd, size,
                files0, errors0, queries0, files, errors, queries, o)
  }

  /**
   * From the page w the wait loop stopped at: a client that is neither
   * running nor finished without error goes straight to the classification;
   * otherwise the columns must be known, and the result is streamed.
   */
  ghost predicate Delivered(s: Script, w: nat, maxBytes: int, datasource: string, limit: int,
                            userName: Option<string>, storeFlag: bool, cwd: string, size: Row -> nat,
                            files0: map<string, Artifact>, errors0: seq<ErrorRecord>, queries0: seq<HistoryRecord>,
                            files: map<string, Artifact>, errors: seq<ErrorRecord>, queries: seq<HistoryRecord>,
                            o: Outcome)
    requires |s.queryId| >= 8 && w <= |s.statuses|
  {
    var running := w < |s.statuses|;
    if !(running || (s.ending.Finished? && s.ending.error.None?)) then
      var e := Terminal(s.ending, false, s.queryId, datasource);
      && o == Thrown(e.failure, e.message)
      && files == files0 && errors == ErrorsAfter(errors0, e, datasource, s, userName) && queries == queries0
    else
      var columns := if running then s.statuses[w].columns else s.ending.columns;
      if columns.None? then
        o == Thrown(NoColumns, NoColumnsText(s.queryId)) && files == files0 && errors == errors0 && queries == queries0
      else
        Streamed(s, w, columns.value, maxBytes, datasource, limit, userName, storeFlag, cwd, size,
                 files0, errors0, queries0, files, errors, queries, o)
  }

  /**
   * The result streamed from page w under the header: an overflow keeps the
   * artifact up to the overflowing row; a failed advance keeps the artifact
   * of the rows fed; otherwise the history is recorded and the ending decides.
   */
  ghost predicate Streamed(s: Script, w: nat, header: Row, maxBytes: int, datasource: string, limit: int,
                           userName: Option<string>, storeFlag: bool, cwd: string, size: Row -> nat,
                           files0: map<string, Artifact>, errors0: seq<ErrorRecord>, queries0: seq<HistoryRecord>,
                           files: map<string, Artifact>, errors: seq<ErrorRecord>, queries: seq<HistoryRecord>,
                           o: Outcome)
    requires |s.queryId| >= 8 && w <= |s.statuses|
  {
    var qid := s.queryId;
    var tsv := ResultFilePath(cwd, datasource, qid, false);
    var err := ResultFilePath(cwd, datasource, qid, true);
    var rows := RowsOf(s.statuses[w..Reach(s, w)]);
    var keepAll := KeepsAll(s.query);
    if !Fits(0, rows, size, maxBytes) then
      Overflowed(s, header, rows, maxBytes, datasource, userName, tsv, size, files0, errors0, queries0,
                 files, errors, queries, o)
    else if ThrowsFrom(s, w) then
      o == Thrown(AdvanceFailed, s.failMessage) && files == files0[tsv := Table([header] + rows)] &&
      errors == errors0 && queries == queries0
    else
      Classified(s, header, rows, datasource, limit, userName, storeFlag, cwd, files0, errors0, queries0,
                 files, errors, queries, o)
  }

  /**
   * A row took the total over the cap: the artifact holds the rows up to
   * and including it, and the size error is recorded and thrown.
   */
  ghost predicate Overflowed(s: Script, header: Row, rows: seq<Row>, maxBytes: int, datasource: string,
                             userName: Option<string>, tsv: string, size: Row -> nat,
                             files0: map<string, Artifact>, errors0: seq<ErrorRecord>, queries0: seq<HistoryRecord>,
                             files: map<string, Artifact>, errors: seq<ErrorRecord>, queries: seq<HistoryRecord>,
                             o: Outcome)
  {
    && o == Thrown(SizeExceeded, SizeExceededText(maxBytes, s.queryId, datasource))
    && (exists at :: OverflowsAt(rows, size, maxBytes, at) && files == files0[tsv := Table([header] + rows[..at + 1])])
    && errors == errors0 + [ErrorFor(datasource, s, userName, o.message)] && queries == queries0
  }

  /**
   * The rows streamed in full: the query history is recorded, and the
   * ending decides between the result and the exception, with the `.err`
   * artifact in place of the `.tsv` one for a query that failed.
   */
  ghost predicate Classified(s: Script, header: Row, rows: seq<Row>, datasource: string, limit: int,
                             userName: Option<string>, storeFlag: bool, cwd: string,
                             files0: map<string, Artifact>, errors0: seq<ErrorRecord>, queries0: seq<HistoryRecord>,
                             files: map<string, Artifact>, errors: seq<ErrorRecord>, queries: seq<HistoryRecord>,
                             o: Outcome)
    requires |s.queryId| >= 8
  {
    var qid, keepAll := s.queryId, KeepsAll(s.query);
    var tsv, err := ResultFilePath(cwd, datasource, qid, false), ResultFilePath(cwd, datasource, qid, true);
    var e := Terminal(s.ending, true, qid, datasource);
    && queries == queries0 + (if storeFlag then [HistoryRecord(datasource, Engine, s.query, userName, qid, 1 + |rows|)] else [])
    && files == FilesAfter(files0[tsv := Table([header] + rows)], e, tsv, err)
    && errors == errors0
    && o == (if e.Succeeded? then Done(PrestoQueryResult(Some(qid), header, Kept(rows, keepAll, limit), 1 + |rows|,
                                                        WarningAfter(rows, keepAll, limit)))
             else Thrown(e.failure, e.message))
  }

  /** An overflow during processData ends the stream as Streamed says. */
  lemma StreamedOverflow(s: Script, w: nat, header: Row, maxBytes: int, datasource: string, limit: int,
                         userName: Option<string>, storeFlag: bool, cwd: string, size: Row -> nat,
                         files0: map<string, Artifact>, errors0: seq<ErrorRecord>, queries0: seq<HistoryRecord>,
                         files: map<string, Artifact>, errors: seq<ErrorRecord>, queries: seq<HistoryRecord>,
                         o: Outcome, sink: Sink, at: nat)
    requires |s.queryId| >= 8 && w <= |s.statuses|
    requires var rows := RowsOf(s.statuses[w..Reach(s, w)]);
      && !Fits(0, rows, size, maxBytes) && OverflowsAt(rows, size, maxBytes, at)
      && sink == Count(Replay(Start(header), rows[..at], KeepsAll(s.query), limit, size), rows[at], size)
    requires files == files0[ResultFilePath(cwd, datasource, s.queryId, false) := Table(sink.written)]
    requires o == Thrown(SizeExceeded, SizeExceededText(maxBytes, s.queryId, datasource))
    requires errors == errors0 + [ErrorFor(datasource, s, userName, o.message)] && queries == queries0
    ensures Streamed(s, w, header, maxBytes, datasource, limit, userName, storeFlag, cwd, size,
                     files0, errors0, queries0, files, errors, queries, o)
  {
    var rows := RowsOf(s.statuses[w..Reach(s, w)]);
    OverflowedFromSink(s, header, rows, maxBytes, datasource, limit, userName, ResultFilePath(cwd, datasource, s.queryId, false),
                       size, files0, errors0, queries0, files, errors, queries, o, sink, at);
  }

  lemma OverflowedFromSink(s: Script, header: Row, rows: seq<Row>, maxBytes: int, datasource: string, limit: int,
                           userName: Option<string>, tsv: string, size: Row -> nat,
                           files0: map<string, Artifact>, errors0: seq<ErrorRecord>, queries0: seq<HistoryRecord>,
                           files: map<string, Artifact>, errors: seq<ErrorRecord>, queries: seq<HistoryRecord>,
                           o: Outcome, sink: Sink, at: nat)
    requires OverflowsAt(rows, size, maxBytes, at)
    requires sink == Count(Replay(Start(header), rows[..at], KeepsAll(s.query), limit, size), rows[at], size)
    requires files == files0[tsv := Table(sink.written)]
    requires o == Thrown(SizeExceeded, SizeExceededText(maxBytes, s.queryId, datasource))
    requires errors == errors0 + [ErrorFor(datasource, s, userName, o.message)] && queries == queries0
    ensures Overflowed(s, header, rows, maxBytes, datasource, userName, tsv, size, files0, errors0, queries0,
                       files, errors, queries, o)
  {
    PrefixSnoc(rows, at);
    ReplayCounts(Start(header), rows[..at], KeepsAll(s.query), limit, size);
    assert sink.written == [header] + rows[..at + 1];
    assert OverflowsAt(rows, size, maxBytes, at) && files == files0[tsv := Table([header] + rows[..at + 1])];
  }

  /** `advance()` throwing during processData ends the stream as Streamed says. */
  lemma StreamedThrew(s: Script, w: nat, header: Row, maxBytes: int, datasource: string, limit: int,
                      userName: Option<string>, storeFlag: bool, cwd: string, size: Row -> nat,
                      files0: map<string, Artifact>, errors0: seq<ErrorRecord>, queries0: seq<HistoryRecord>,
                      files: map<string, Artifact>, errors: seq<ErrorRecord>, queries: seq<HistoryRecord>,
                      o: Outcome, sink: Sink)
    requires |s.queryId| >= 8 && w <= |s.statuses|
    requires var rows := RowsOf(s.statuses[w..Reach(s, w)]);
      && Fits(0, rows, size, maxBytes) && ThrowsFrom(s, w)
      && sink == Replay(Start(header), rows, KeepsAll(s.query), limit, size)
    requires files == files0[ResultFilePath(cwd, datasource, s.queryId, false) := Table(sink.written)]
    requires o == Thrown(AdvanceFailed, s.failMessage) && errors == errors0 && queries == queries0
    ensures Streamed(s, w, header, maxBytes, datasource, limit, userName, storeFlag, cwd, size,
                     files0, errors0, queries0, files, errors, queries, o)
  {
    ReplayCounts(Start(header), RowsOf(s.statuses[w..Reach(s, w)]), KeepsAll(s.query), limit, size);
  }

  /** A processData that completed, followed by the query history and the classification, ends as Streamed says. */
  lemma StreamedCompleted(s: Script, w: nat, header: Row, maxBytes: int, datasource: string, limit: int,
                          userName: Option<string>, storeFlag: bool, cwd: string, size: Row -> nat,
                          files0: map<string, Artifact>, errors0: seq<ErrorRecord>, queries0: seq<HistoryRecord>,
                          files: map<string, Artifact>, errors: seq<ErrorRecord>, queries: seq<HistoryRecord>,
                          o: Outcome, sink: Sink)
    requires |s.queryId| >= 8 && w <= |s.statuses|
    requires var rows := RowsOf(s.statuses[w..Reach(s, w)]);
      && Fits(0, rows, size, maxBytes) && !ThrowsFrom(s, w)
      && sink == Replay(Start(header), rows, KeepsAll(s.query), limit, size)
    requires queries == queries0 +
      (if storeFlag then [HistoryRecord(datasource, Engine, s.query, userName, s.queryId, sink.lineNumber)] else [])
    requires var e := Terminal(s.ending, true, s.queryId, datasource);
      && files == FilesAfter(files0[ResultFilePath(cwd, datasource, s.queryId, false) := Table(sink.written)], e,
                             ResultFilePath(cwd, datasource, s.queryId, false), ResultFilePath(cwd, datasource, s.queryId, true))
      && errors == ErrorsAfter(errors0, e, datasource, s, userName)
      && o == (if e.Succeeded? then Done(PrestoQueryResult(Some(s.queryId), header, sink.kept, sink.lineNumber, sink.warning))
               else Thrown(e.failure, e.message))
    ensures Streamed(s, w, header, maxBytes, datasource, limit, userName, storeFlag, cwd, size,
                     files0, errors0, queries0, files, errors, queries, o)
  {
    var rows := RowsOf(s.statuses[w..Reach(s, w)]);
    ReplaySummarizes(header, rows, KeepsAll(s.query), limit, size);
    ClassifiedFromSink(s, header, rows, datasource, limit, userName, storeFlag, cwd, size,
                       files0, errors0, queries0, files, errors, queries, o, sink);
  }

  lemma ClassifiedFromSink(s: Script, header: Row, rows: seq<Row>, datasource: string, limit: int,
                           userName: Option<string>, storeFlag: bool, cwd: string, size: Row -> nat,
                           files0: map<string, Artifact>, errors0: seq<ErrorRecord>, queries0: seq<HistoryRecord>,
                           files: map<string, Artifact>, errors: seq<ErrorRecord>, queries: seq<HistoryRecord>,
                           o: Outcome, sink: Sink)
    requires |s.queryId| >= 8
    requires Summarizes(sink, header, rows, KeepsAll(s.query), limit, size)
    requires queries == queries0 +
      (if storeFlag then [HistoryRecord(datasource, Engine, s.query, userName, s.queryId, sink.lineNumber)] else [])
    requires var e := Terminal(s.ending, true, s.queryId, datasource);
      && files == FilesAfter(files0[ResultFilePath(cwd, datasource, s.queryId, false) := Table(sink.written)], e,
                             ResultFilePath(cwd, datasource, s.queryId, false), ResultFilePath(cwd, datasource, s.queryId, true))
      && errors == ErrorsAfter(errors0, e, datasource, s, userName)
      && o == (if e.Succeeded? then Done(PrestoQueryResult(Some(s.queryId), header, sink.kept, sink.lineNumber, sink.warning))
               else Thrown(e.failure, e.message))
    ensures Classified(s, header, rows, datasource, limit, userName, storeFlag, cwd, files0, errors0, queries0,
                       files, errors, queries, o)
  {
  }

  /** The sink holds the rows of pages w up to p, and they fit under the cap. */
  ghost predicate FedThrough(ss: seq<Status>, w: nat, p: nat, header: Row, keepAll: bool, limit: int,
                             size: Row -> nat, maxBytes: int, sink: Sink)
  {
    && w <= p <= |ss|
    && sink == Replay(Start(header), RowsOf(ss[w..p]), keepAll, limit, size)
    && Fits(0, RowsOf(ss[w..p]), size, maxBytes)
  }

  /** A page whose rows all fit extends what the sink holds by one page. */
  lemma PageFits(ss: seq<Status>, w: nat, p: nat, header: Row, keepAll: bool, limit: int,
                 size: Row -> nat, maxBytes: int, sink: Sink, next: Sink)
    requires p < |ss| && FedThrough(ss, w, p, header, keepAll, limit, size, maxBytes, sink)
    requires next == Replay(sink, DataOf(ss[p]), keepAll, limit, size)
    requires Fits(sink.resultBytes, DataOf(ss[p]), size, maxBytes)
    ensures FedThrough(ss, w, p + 1, header, keepAll, limit, size, maxBytes, next)
  {
    RowsOfSnoc(ss, w, p);
    ReplayExtend(header, RowsOf(ss[w..p]), DataOf(ss[p]), keepAll, limit, size, maxBytes, sink, next);
  }

  /** The rows of pages w up to p, then page p's rows, begin the rows processData feeds from page w. */
  lemma PagePrefix(s: Script, w: nat, p: nat)
    requires w <= p < |s.statuses| && (!ThrowsFrom(s, w) || p <= s.failAt.value)
    ensures var before, all := RowsOf(s.statuses[w..p]), RowsOf(s.statuses[w..Reach(s, w)]);
      |before + DataOf(s.statuses[p])| <= |all| && all[..|before + DataOf(s.statuses[p])|] == before + DataOf(s.statuses[p])
  {
    RowsOfSnoc(s.statuses, w, p);
    RowsOfPrefix(s.statuses, w, p + 1, Reach(s, w));
  }

  /**
   * A page whose row `at` takes the total over the cap: the whole stream
   * `all` from page w overflows at that row, and the state reached is the
   * one the stream reaches there.
   */
  lemma PageOverflows(all: seq<Row>, before: seq<Row>, batch: seq<Row>, header: Row, keepAll: bool, limit: int,
                      size: Row -> nat, maxBytes: int, sink: Sink, at: nat, next: Sink, k: int)
    requires |before + batch| <= |all| && all[..|before + batch|] == before + batch
    requires sink == Replay(Start(header), before, keepAll, limit, size) && Fits(0, before, size, maxBytes)
    requires at < |batch| && Fits(sink.resultBytes, batch[..at], size, maxBytes)
    requires sink.resultBytes + BytesOf(batch[..at + 1], size) > maxBytes
    requires next == Count(Replay(sink, batch[..at], keepAll, limit, size), batch[at], size)
    requires k == sink.lineNumber - 1 + at
    ensures 0 <= k < |all|
    ensures OverflowsAt(all, size, maxBytes, k) && !Fits(0, all, size, maxBytes)
    ensures next == Count(Replay(Start(header), all[..k], keepAll, limit, size), all[k], size)
  {
    ReplayCounts(Start(header), before, keepAll, limit, size);
    assert k == |before| + at;
    OverflowLifts(all, before, batch, at, size, maxBytes, k);
    StopLifts(all, before, batch, at, header, keepAll, limit, size, sink, k);
  }

  /**
   * One pass of processData's page loop over the rows of page p, the pages
   * w up to p having fit: the sink takes the page's rows, or the stream
   * overflows at one of them.
   */
  method FeedPage(s: Script, w: nat, p: nat, header: Row, keepAll: bool, limit: int, maxBytes: int,
                  size: Row -> nat, sink: Sink, data: Option<seq<Row>>)
    returns (r: Fed)
    requires p < |s.statuses| && (!ThrowsFrom(s, w) || p <= s.failAt.value) && data == s.statuses[p].data
    requires FedThrough(s.statuses, w, p, header, keepAll, limit, size, maxBytes, sink)
    ensures r.Drained? ==> FedThrough(s.statuses, w, p + 1, header, keepAll, limit, size, maxBytes, r.sink)
    ensures r.Exceeded? ==>
      var all := RowsOf(s.statuses[w..Reach(s, w)]);
      && OverflowsAt(all, size, maxBytes, r.at) && !Fits(0, all, size, maxBytes)
      && r.sink == Count(Replay(Start(header), all[..r.at], keepAll, limit, size), all[r.at], size)
  {
    if data.None? {
      PageFits(s.statuses, w, p, header, keepAll, limit, size, maxBytes, sink, sink);
      return Drained(sink);
    }
    var fed := FeedRows(sink, data.value, keepAll, limit, maxBytes, size);
    if fed.Exceeded? {
      var k := sink.lineNumber - 1 + fed.at;
      PagePrefix(s, w, p);
      PageOverflows(RowsOf(s.statuses[w..Reach(s, w)]), RowsOf(s.statuses[w..p]), data.value, header, keepAll,
                    limit, size, maxBytes, sink, fed.at, fed.sink, k);
      return Exceeded(fed.sink, k);
    }
    PageFits(s.statuses, w, p, header, keepAll, limit, size, maxBytes, sink, fed.sink);
    return fed;
  }

  /**
   * How the page loop from page w stopped: an overflow with the state at
   * the overflowing row, or every page up to where it stopped fed in full.
   */
  ghost predicate Stopped(s: Script, w: nat, header: Row, keepAll: bool, limit: int, size: Row -> nat, maxBytes: int,
                          sink: Sink, stop: Stop)
    requires w <= |s.statuses|
  {
    var all := RowsOf(s.statuses[w..Reach(s, w)]);
    match stop
    case TooLarge(at) =>
      && OverflowsAt(all, size, maxBytes, at) && !Fits(0, all, size, maxBytes)
      && sink == Count(Replay(Start(header), all[..at], keepAll, limit, size), all[at], size)
    case AdvanceThrew(message) =>
      ThrowsFrom(s, w) && message == s.failMessage && FedThrough(s.statuses, w, Reach(s, w), header, keepAll, limit, size, maxBytes, sink)
    case Completed =>
      !ThrowsFrom(s, w) && FedThrough(s.statuses, w, Reach(s, w), header, keepAll, limit, size, maxBytes, sink)
  }

  /** Whether the rows fit decides how the page loop stops, and what the sink then holds. */
  lemma StoppedByFit(s: Script, w: nat, header: Row, keepAll: bool, limit: int, size: Row -> nat, maxBytes: int,
                     sink: Sink, stop: Stop)
    requires w <= |s.statuses| && Stopped(s, w, header, keepAll, limit, size, maxBytes, sink, stop)
    ensures var rows := RowsOf(s.statuses[w..Reach(s, w)]);
      && (Fits(0, rows, size, maxBytes) ==>
            && sink == Replay(Start(header), rows, keepAll, limit, size)
            && stop == (if ThrowsFrom(s, w) then AdvanceThrew(s.failMessage) else Completed))
      && (!Fits(0, rows, size, maxBytes) ==>
            && stop.TooLarge?
            && OverflowsAt(rows, size, maxBytes, stop.at)
            && sink == Count(Replay(Start(header), rows[..stop.at], keepAll, limit, size), rows[stop.at], size))
  {
  }

  /**
   * processData's page loop: every page's rows go through the row loop and
   * the client advances after each page, until it stops running, `advance()`
   * throws, or a row takes the total over the cap.
   */
  method FeedPages(client: StatementClient, header: Row, limit: int, maxBytes: int, size: Row -> nat)
    returns (sink: Sink, stop: Stop)
    requires client.pos <= |client.script.statuses| && !client.failed
    modifies client
    ensures var s, w := client.script, old(client.pos);
      Stopped(s, w, header, KeepsAll(s.query), limit, size, maxBytes, sink, stop)
    ensures stop.Completed? ==> !client.IsRunning() && !client.failed
  {
    var s := client.script;
    var w := client.pos;
    var keepAll := KeepsAll(s.query);
    sink := Start(header);
    while client.IsRunning()
      invariant client.script == s && w <= client.pos <= |s.statuses| && !client.failed
      invariant !ThrowsFrom(s, w) || client.pos <= s.failAt.value
      invariant FedThrough(s.statuses, w, client.pos, header, keepAll, limit, size, maxBytes, sink)
      decreases |s.statuses| - client.pos
    {
      var p := client.pos;
      var data := client.CurrentData();
      var fed := FeedPage(s, w, p, header, keepAll, limit, maxBytes, size, sink, data);
      sink := fed.sink;
      if fed.Exceeded? {
        return sink, TooLarge(fed.at);
      }
      assert FedThrough(s.statuses, w, p + 1, header, keepAll, limit, size, maxBytes, sink);
      var thrown := client.Advance();
      if thrown.Some? {
        assert Reach(s, w) == p + 1;
        return sink, AdvanceThrew(thrown.value);
      }
      assert client.pos == p + 1;
    }
    assert Reach(s, w) == client.pos;
    return sink, Completed;
  }

  class PrestoService {
    /** The working directory result artifacts are kept under. */
    const cwd: string
    const history: History
    const store: ArtifactStore

    constructor(cwd: string, history: History, store: ArtifactStore)
      ensures this.cwd == cwd && this.history == history && this.store == store
    {
      this.cwd := cwd;
      this.history := history;
      this.store := store;
    }

    /** getPrestoQueryResult for the datasource whose configuration is `config`, on a fresh client. */
    method GetPrestoQueryResult(datasource: string, query: string, client: StatementClient, storeFlag: bool,
                                limit: int, userName: Option<string>, config: PrestoConfig,
                                elapsed: nat -> int, size: Row -> nat)
      returns (o: Outcome)
      requires client.script.query == query && |client.script.queryId| >= 8
      requires client.pos == 0 && !client.failed
      modifies client, history, store
      ensures var verdict := ValidatePresto(query, config.secret, config.required, config.commentMarker);
        && (verdict.Reject? ==>
              && o == Thrown(Rejected, verdict.message)
              && history.errors == old(history.errors) +
                   [ErrorRecord(datasource, Engine, client.script.queryId, query, userName, verdict.message)])
        && (verdict.Malformed? ==> o == Thrown(MalformedRule, verdict.condition) && history.errors == old(history.errors))
        && (!verdict.Pass? ==> store.files == old(store.files) && history.queries == old(history.queries))
        && (verdict.Pass? ==>
              Reported(client.script, elapsed, config, datasource, limit, userName, storeFlag, cwd, size,
                       old(store.files), old(history.errors), old(history.queries),
                       store.files, history.errors, history.queries, o))
    {
      var qid := client.script.queryId;
      var verdict := ValidatePresto(query, config.secret, config.required, config.commentMarker);
      match verdict {
        case Reject(message) =>
          history.StoreError(ErrorRecord(datasource, Engine, qid, query, userName, message));
          return Thrown(Rejected, message);
        case Malformed(condition) =>
          return Thrown(MalformedRule, condition);
        case Pass =>
      }
      o := Run(datasource, client, storeFlag, limit, userName, config, elapsed, size);
    }

    /** From the wait loop to the end, once validation passed. */
    method Run(datasource: string, client: StatementClient, storeFlag: bool, limit: int, userName: Option<string>,
               config: PrestoConfig, elapsed: nat -> int, size: Row -> nat)
      returns (o: Outcome)
      requires |client.script.queryId| >= 8
      requires client.pos == 0 && !client.failed
      modifies client, history, store
      ensures Reported(client.script, elapsed, config, datasource, limit, userName, storeFlag, cwd, size,
                       old(store.files), old(history.errors), old(history.queries),
                       store.files, history.errors, history.queries, o)
    {
      var s := client.script;
      var waited := WaitForData(datasource, client, userName, config, elapsed);
      match waited {
        case WaitFailed(_) =>
          return Thrown(AdvanceFailed, s.failMessage);
        case WaitTimedOut(_) =>
          return Thrown(TimedOut, TimeoutText(s.queryId, datasource, config.maxRunTimeText));
        case Ready(w) =>
          o := Deliver(datasource, client, storeFlag, limit, userName, config.maxResultFileByteSize, size);
      }
    }

    /** After the wait loop: stream the result if the client runs or finished cleanly, then classify the end. */
    method Deliver(datasource: string, client: StatementClient, storeFlag: bool, limit: int, userName: Option<string>,
                   maxBytes: int, size: Row -> nat)
      returns (o: Outcome)
      requires |client.script.queryId| >= 8
      requires client.pos <= |client.script.statuses| && !client.failed
      modifies client, history, store
      ensures Delivered(client.script, old(client.pos), maxBytes, datasource, limit, userName, storeFlag, cwd, size,
                        old(store.files), old(history.errors), old(history.queries),
                        store.files, history.errors, history.queries, o)
    {
      var s := client.script;
      if client.IsRunning() || (client.IsFinished() && s.ending.error.None?) {
        var columns := client.Columns();
        if columns.None? {
          return Thrown(NoColumns, NoColumnsText(s.queryId));
        }
        o := Stream(datasource, client, columns.value, storeFlag, limit, userName, maxBytes, size);
      } else {
        o := Conclude(datasource, client, false, PrestoQueryResult(None, [], [], 0, None), userName);
      }
    }

    /** The result under the header: processData, the query history, then the classification of the end. */
    method Stream(datasource: string, client: StatementClient, header: Row, storeFlag: bool, limit: int,
                  userName: Option<string>, maxBytes: int, size: Row -> nat)
      returns (o: Outcome)
      requires |client.script.queryId| >= 8
      requires client.pos <= |client.script.statuses| && !client.failed
      modifies client, history, store
      ensures Streamed(client.script, old(client.pos), header, maxBytes, datasource, limit, userName, storeFlag, cwd,
                       size, old(store.files), old(history.errors), old(history.queries),
                       store.files, history.errors, history.queries, o)
    {
      var s := client.script;
      ghost var w := client.pos;
      ghost var files0, errors0, queries0 := store.files, history.errors, history.queries;
      var sink, stop := ProcessData(datasource, client, header, limit, userName, maxBytes, size);
      match stop {
        case TooLarge(at) =>
          o := Thrown(SizeExceeded, SizeExceededText(maxBytes, s.queryId, datasource));
          StreamedOverflow(s, w, header, maxBytes, datasource, limit, userName, storeFlag, cwd, size,
                           files0, errors0, queries0, store.files, history.errors, history.queries, o, sink, at);
          return;
        case AdvanceThrew(message) =>
          o := Thrown(AdvanceFailed, message);
          StreamedThrew(s, w, header, maxBytes, datasource, limit, userName, storeFlag, cwd, size,
                        files0, errors0, queries0, store.files, history.errors, history.queries, o, sink);
          return;
        case Completed =>
      }
      var result := PrestoQueryResult(Some(s.queryId), header, sink.kept, sink.lineNumber, sink.warning);
      if storeFlag {
        history.InsertQueryHistory(HistoryRecord(datasource, Engine, s.query, userName, s.queryId, sink.lineNumber));
      }
      o := Conclude(datasource, client, true, result, userName);
      StreamedCompleted(s, w, header, maxBytes, datasource, limit, userName, storeFlag, cwd, size,
                        files0, errors0, queries0, store.files, history.errors, history.queries, o, sink);
    }

    /** The wait loop: advance while the client runs without data, checking the elapsed time after each advance. */
    method WaitForData(datasource: string, client: StatementClient, userName: Option<string>, config: PrestoConfig,
                       elapsed: nat -> int)
      returns (r: Waited)
      requires client.pos == 0 && !client.failed
      modifies client, history
      ensures r == Wait(client.script, elapsed, config.maxRunTimeMillis, 0)
      ensures r.Ready? ==> client.pos == r.pos && !client.failed
      ensures history.queries == old(history.queries)
      ensures history.errors == old(history.errors) +
          match r
          case Ready(_) => []
          case WaitFailed(_) =>
            [ErrorFor(datasource, client.script, userName, InternalErrorText(client.script.queryId, datasource, client.script.failMessage))]
          case WaitTimedOut(_) =>
            [ErrorFor(datasource, client.script, userName, TimeoutText(client.script.queryId, datasource, config.maxRunTimeText))]
    {
      var s := client.script;
      while client.IsRunning() && client.CurrentData().None?
        invariant client.script == s && client.pos <= |s.statuses| && !client.failed
        invariant Wait(s, elapsed, config.maxRunTimeMillis, 0) == Wait(s, elapsed, config.maxRunTimeMillis, client.pos)
        invariant history.errors == old(history.errors) && history.queries == old(history.queries)
        decreases |s.statuses| - client.pos
      {
        var p := client.pos;
        var thrown := client.Advance();
        if thrown.Some? {
          var message := InternalErrorText(s.queryId, datasource, thrown.value);
          history.StoreError(ErrorRecord(datasource, Engine, s.queryId, s.query, userName, message));
          return WaitFailed(p);
        }
        if elapsed(p) > config.maxRunTimeMillis {
          var message := TimeoutText(s.queryId, datasource, config.maxRunTimeText);
          history.StoreError(ErrorRecord(datasource, Engine, s.queryId, s.query, userName, message));
          return WaitTimedOut(p);
        }
      }
      return Ready(client.pos);
    }

    /**
     * processData: the header, then every page's rows through the row loop,
     * advancing the client after each page, until the client stops running.
     * The `.tsv` artifact holds what was written when the writer closes, and
     * an overflow stores an error record before it is thrown.
     */
    method ProcessData(datasource: string, client: StatementClient, header: Row, limit: int,
                       userName: Option<string>, maxBytes: int, size: Row -> nat)
      returns (sink: Sink, stop: Stop)
      requires |client.script.queryId| >= 8
      requires client.pos <= |client.script.statuses| && !client.failed
      modifies client, history, store
      ensures var s, w := client.script, old(client.pos);
        var rows := RowsOf(s.statuses[w..Reach(s, w)]);
        var keepAll := KeepsAll(s.query);
        && store.files == old(store.files)[ResultFilePath(cwd, datasource, s.queryId, false) := Table(sink.written)]
        && history.queries == old(history.queries)
        && (Fits(0, rows, size, maxBytes) ==>
              && sink == Replay(Start(header), rows, keepAll, limit, size)
              && history.errors == old(history.errors)
              && stop == (if ThrowsFrom(s, w) then AdvanceThrew(s.failMessage) else Completed)
              && (stop.Completed? ==> !client.IsRunning() && !client.failed))
        && (!Fits(0, rows, size, maxBytes) ==>
              && stop.TooLarge?
              && OverflowsAt(rows, size, maxBytes, stop.at)
              && sink == Count(Replay(Start(header), rows[..stop.at], keepAll, limit, size), rows[stop.at], size)
              && history.errors == old(history.errors) +
                   [ErrorRecord(datasource, Engine, s.queryId, s.query, userName, SizeExceededText(maxBytes, s.queryId, datasource))])
    {
      var s := client.script;
      ghost var w := client.pos;
      sink, stop := FeedPages(client, header, limit, maxBytes, size);
      StoppedByFit(s, w, header, KeepsAll(s.query), limit, size, maxBytes, sink, stop);
      store.Write(ResultFilePath(cwd, datasource, s.queryId, false), Table(sink.written));
      if stop.TooLarge? {
        var message := SizeExceededText(maxBytes, s.queryId, datasource);
        history.StoreError(ErrorRecord(datasource, Engine, s.queryId, s.query, userName, message));
      }
    }

    /** The classification after the result, in the order aborted, client error, final error. */
    method Conclude(datasource: string, client: StatementClient, started: bool, result: PrestoQueryResult,
                    userName: Option<string>)
      returns (o: Outcome)
      requires |client.script.queryId| >= 8
      requires !client.IsRunning() && !client.failed
      requires started || !(client.script.ending.Finished? && client.script.ending.error.None?)
      requires started ==> ResultFilePath(cwd, datasource, client.script.queryId, false) in store.files
      modifies history, store
      ensures var s := client.script;
        var e := Terminal(s.ending, started, s.queryId, datasource);
        && o == (if e.Succeeded? then Done(result) else Thrown(e.failure, e.message))
        && store.files == FilesAfter(old(store.files), e, ResultFilePath(cwd, datasource, s.queryId, false),
                                     ResultFilePath(cwd, datasource, s.queryId, true))
        && history.errors == ErrorsAfter(old(history.errors), e, datasource, s, userName)
        && history.queries == old(history.queries)
    {
      var s := client.script;
      client.StatesExclusive();
      if client.IsClientAborted() {
        return Thrown(Aborted, AbortedText);
      }
      if client.IsClientError() {
        return Thrown(Gone, GoneText);
      }
      assert client.IsFinished();
      var error := s.ending.error;
      if error.Some? {
        var message := FailedText(s.queryId, datasource, error.value);
        if !started {
          history.StoreError(ErrorRecord(datasource, Engine, s.queryId, s.query, userName, message));
        } else {
          var existed := store.Delete(ResultFilePath(cwd, datasource, s.queryId, false));
          store.Write(ResultFilePath(cwd, datasource, s.queryId, true), Text(message));
        }
        return Thrown(QueryFailed, message);
      }
      return Done(result);
    }
  }
}
