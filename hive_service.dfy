/**
 * HiveServiceImpl.getHiveQueryResult and processData: a query is checked
 * against the datasource's policy, a JDBC session is opened on the Hive or
 * Spark Thrift server with the chosen URL and credentials, and the rows of
 * the result are streamed into the `.tsv` artifact through the shared row
 * loop. Every failure after validation is logged with storeError and thrown.
 *
 * The server is a parameter: a `Reply` says what the driver answered to the
 * statements the service sent.
 */
module HiveService {
  import opened Wrappers
  import opened JavaStrings
  import opened JavaInts
  import opened QueryPolicy
  import opened ResultPath
  import opened ResultStream
  import opened Sinks

  /** The JDBC URL option that makes HiveServer2 run the query as another user. */
  const ProxyUserKey: string := ";hive.server2.proxy.user="

  /** The statement prefix that names the MapReduce job of a Hive query. */
  const JobNameSetting: string := "set mapreduce.job.name="

  /** What the service reads from YanagishimaConfig for one datasource. */
  datatype HiveConfig = HiveConfig(
    hiveJdbcUrl: string,
    sparkJdbcUrl: string,
    impersonation: bool,
    jdbcUser: string,
    jdbcPassword: string,
    setupQueries: seq<string>,
    useJdbcCancel: bool,
    maxRunTimeSeconds: int,
    maxResultFileByteSize: int,
    policy: Policy)

  /** String concatenation of a reference that may be null: Java writes "null". */
  function NullableText(s: Option<string>): string {
    if s.Some? then s.value else "null"
  }

  /**
   * The name given to the YARN job of a Hive query: the job prefix, then the
   * user followed by '-' when there is one, then the query id.
   */
  function JobName(prefix: string, userName: Option<string>, queryId: string): (r: string)
    ensures StartsWith(r, prefix) && EndsWith(r, queryId)
    ensures userName.None? ==> |r| == |prefix| + |queryId|
    ensures userName.Some? ==> StartsWith(r, prefix + userName.value + "-") && |r| == |prefix| + |userName.value| + 1 + |queryId|
  {
    var r := if userName.None? then prefix + queryId else prefix + userName.value + "-" + queryId;
    assert r[..|prefix|] == prefix;
    assert r[|r| - |queryId|..] == queryId;
    assert userName.Some? ==> r[..|prefix + userName.value + "-"|] == prefix + userName.value + "-";
    r
  }

  datatype UrlChoice = Url(url: string) | IllegalEngine(message: string)

  /**
   * The connection URL: the Hive URL, with the proxy user appended when the
   * datasource impersonates its users; the Spark URL; any other engine is
   * refused.
   */
  function JdbcUrl(engine: string, config: HiveConfig, userName: Option<string>): (r: UrlChoice)
    ensures r.IllegalEngine? <==> engine != "hive" && engine != "spark"
    ensures r.IllegalEngine? ==> r.message == engine + " is illegal"
    ensures engine == "spark" ==> r.url == config.sparkJdbcUrl
    ensures engine == "hive" ==> StartsWith(r.url, config.hiveJdbcUrl)
    ensures engine == "hive" ==>
      (EndsWith(r.url, ProxyUserKey + NullableText(userName)) <== config.impersonation) &&
      (|r.url| == |config.hiveJdbcUrl| + |ProxyUserKey| + |NullableText(userName)| <== config.impersonation) &&
      (r.url == config.hiveJdbcUrl <== !config.impersonation)
  {
    if engine == "hive" then
      var url := if config.impersonation then config.hiveJdbcUrl + ProxyUserKey + NullableText(userName) else config.hiveJdbcUrl;
      assert url[..|config.hiveJdbcUrl|] == config.hiveJdbcUrl;
      assert config.impersonation ==>
        url[|url| - |ProxyUserKey + NullableText(userName)|..] == ProxyUserKey + NullableText(userName);
      Url(url)
    else if engine == "spark" then Url(config.sparkJdbcUrl)
    else IllegalEngine(engine + " is illegal")
  }

  /** The per-request Hive credentials replace the configured ones only when both are given. */
  function Credentials(config: HiveConfig, hiveUser: Option<string>, hivePassword: Option<string>): (r: (string, string))
    ensures hiveUser.Some? && hivePassword.Some? ==> r == (hiveUser.value, hivePassword.value)
    ensures hiveUser.None? || hivePassword.None? ==> r == (config.jdbcUser, config.jdbcPassword)
  {
    if hiveUser.Some? && hivePassword.Some? then (hiveUser.value, hivePassword.value)
    else (config.jdbcUser, config.jdbcPassword)
  }

  /**
   * The user and the password always come from one source: both from the
   * request, or both from the configuration. A request value is used only
   * when the request gave both.
   */
  lemma CredentialsFromOneSource(config: HiveConfig, hiveUser: Option<string>, hivePassword: Option<string>)
    ensures var (user, password) := Credentials(config, hiveUser, hivePassword);
      || (hiveUser == Some(user) && hivePassword == Some(password))
      || (user == config.jdbcUser && password == config.jdbcPassword)
    ensures var (user, password) := Credentials(config, hiveUser, hivePassword);
      user != config.jdbcUser || password != config.jdbcPassword ==> hiveUser.Some? && hivePassword.Some?
  {
  }

  /**
   * The timeout handed to setQueryTimeout, as written: the milliseconds are
   * narrowed to int before the division by 1000, so it can never exceed
   * 2147483 seconds whatever the configured maximum.
   */
  function QueryTimeoutAsWritten(maxRunTimeSeconds: int): (r: int)
    ensures -2147483 <= r <= 2147483
  {
    JavaDiv(ToInt(maxRunTimeSeconds * 1000), 1000)
  }

  /** The timeout in seconds, narrowed after the division. */
  function QueryTimeout(maxRunTimeSeconds: int): (r: int)
    ensures InInt(maxRunTimeSeconds) ==> r == maxRunTimeSeconds
  {
    ToInt(JavaDiv(maxRunTimeSeconds * 1000, 1000))
  }

  /** Both forms agree while the milliseconds fit in an int. */
  lemma QueryTimeoutAgrees(seconds: int)
    requires 0 <= seconds && InInt(seconds * 1000)
    ensures QueryTimeoutAsWritten(seconds) == QueryTimeout(seconds) == seconds
  {
  }

  /** A maximum run time of 2147484 seconds (under 25 days) gives a negative timeout as written. */
  lemma QueryTimeoutOverflows()
    ensures QueryTimeoutAsWritten(2147484) == -2147483
    ensures QueryTimeout(2147484) == 2147484
  {
    assert ToInt(2147484000) == -2147483296;
  }

  /** The statements run on the JDBC statement, in order: for Hive the job name and the setup queries, then the query. */
  function Statements(engine: string, jobPrefix: string, userName: Option<string>, queryId: string,
                      config: HiveConfig, query: string): (r: seq<string>)
    ensures |r| > 0 && r[|r| - 1] == query
    ensures engine == "hive" ==>
      r == [JobNameSetting + JobName(jobPrefix, userName, queryId)] + config.setupQueries + [query]
    ensures engine != "hive" ==> r == [query]
  {
    if engine == "hive" then [JobNameSetting + JobName(jobPrefix, userName, queryId)] + config.setupQueries + [query]
    else [query]
  }

  /**
   * What the driver answered: getConnection or createStatement failed; an
   * SQLException after `accepted` statements ran (with every statement
   * accepted, getResultSet or getMetaData failed before the artifact was
   * opened); no result set; a result set read to its end; or a result set
   * whose next() or getObject threw `message` after `rows` were read.
   */
  datatype Reply =
    | ConnectFailed(message: string)
    | SqlException(accepted: nat, message: string)
    | UpdateCount
    | ResultSet(columns: seq<string>, rows: seq<Row>)
    | ResultSetFailed(columns: seq<string>, rows: seq<Row>, message: string)

  /** One connection: how it was opened and which statements ran on it. */
  datatype Session = Session(url: string, user: string, password: string, timeout: int, statements: seq<string>)

  /** HiveQueryResult as the service fills it in. */
  datatype HiveQueryResult = HiveQueryResult(queryId: string, columns: seq<string>, records: seq<Row>,
                                             lineNumber: int, warning: Option<string>)

  /** What the exception thrown out of getHiveQueryResult stands for. */
  datatype Failure = Rejected | MalformedRule | UnknownEngine | SqlError | ResultTooLarge

  datatype Outcome = Done(result: HiveQueryResult) | Thrown(failure: Failure, message: string)

  /**
   * The result-set branch of processData, from the artifact store `files0`,
   * the error log `errors0` and the statement pool `pool0` (the query already
   * in it when cancellable) to `files`, `errors`, `pool`: the rows read,
   * then `failure` if next() or getObject threw. The size check comes first
   * at every row; the writer is closed, so flushed, whichever way the loop
   * ends; an SQLException is recorded by getHiveQueryResult and leaves the
   * statement in the pool.
   */
  ghost predicate Streamed(files0: map<string, Artifact>, errors0: seq<ErrorRecord>, pool0: set<(string, string)>,
                           files: map<string, Artifact>, errors: seq<ErrorRecord>, pool: set<(string, string)>,
                           o: Outcome, queryId: string, datasource: string, engine: string, query: string,
                           limit: int, userName: Option<string>, columns: seq<string>, rows: seq<Row>,
                           failure: Option<string>, cancellable: bool, path: string, maxBytes: int,
                           size: Row -> nat)
  {
    var keepAll := KeepsAll(query);
    && (Fits(0, rows, size, maxBytes) && failure.None? ==>
          && o == Done(HiveQueryResult(queryId, columns, Kept(rows, keepAll, limit), 1 + |rows|,
                                       WarningAfter(rows, keepAll, limit)))
          && files == files0[path := Table([columns] + rows)]
          && errors == errors0
          && pool == pool0 - (if cancellable then {(datasource, queryId)} else {}))
    && (Fits(0, rows, size, maxBytes) && failure.Some? ==>
          && o == Thrown(SqlError, failure.value)
          && files == files0[path := Table([columns] + rows)]
          && errors == errors0 + [ErrorRecord(datasource, engine, queryId, query, userName, failure.value)]
          && pool == pool0)
    && (!Fits(0, rows, size, maxBytes) ==>
          exists at ::
            && OverflowsAt(rows, size, maxBytes, at)
            && o == Thrown(ResultTooLarge, SizeExceededText(maxBytes, queryId, datasource))
            && files == files0[path := Table([columns] + rows[..at + 1])]
            && errors == errors0 + [ErrorRecord(datasource, engine, queryId, query, userName, o.message)]
            && pool == pool0)
  }

  class HiveService {
    /** The working directory result artifacts are kept under. */
    const cwd: string
    /** Constants.YANAGISHIAM_HIVE_JOB_PREFIX. */
    const jobPrefix: string
    const history: History
    const store: ArtifactStore
    /** StatementPool: statements of running asynchronous queries that may be cancelled, by (datasource, queryId). */
    ghost var pool: set<(string, string)>
    /** The JDBC connections opened, for the record. */
    ghost var sessions: seq<Session>

    constructor(cwd: string, jobPrefix: string, history: History, store: ArtifactStore)
      ensures this.cwd == cwd && this.jobPrefix == jobPrefix
      ensures this.history == history && this.store == store
      ensures pool == {} && sessions == []
    {
      this.cwd := cwd;
      this.jobPrefix := jobPrefix;
      this.history := history;
      this.store := store;
      pool := {};
      sessions := [];
    }

    /**
     * getHiveQueryResult together with processData, for the datasource whose
     * configuration is `config`.
     */
    method GetHiveQueryResult(queryId: string, engine: string, datasource: string, query: string, storeFlag: bool,
                              limit: int, userName: Option<string>, hiveUser: Option<string>,
                              hivePassword: Option<string>, async: bool, config: HiveConfig,
                              reply: Reply, size: Row -> nat)
      returns (o: Outcome)
      requires |queryId| >= 8
      modifies this, history, store
      ensures var verdict := ValidateHive(query, config.policy, datasource);
        && (verdict.Reject? ==>
              && o == Thrown(Rejected, verdict.message)
              && history.errors == old(history.errors) + [ErrorRecord(datasource, engine, queryId, query, userName, verdict.message)])
        && (verdict.Malformed? ==> o == Thrown(MalformedRule, verdict.condition) && history.errors == old(history.errors))
        && (!verdict.Pass? ==> sessions == old(sessions) && store.files == old(store.files) && pool == old(pool))
        && (verdict.Pass? ==> Connected(old(sessions), old(store.files), old(history.errors), old(pool),
                                        sessions, store.files, history.errors, pool, o,
                                        queryId, engine, datasource, query, limit, userName, hiveUser, hivePassword,
                                        async, config, reply, size))
      ensures history.queries == old(history.queries) +
        (if storeFlag && o.Done? then [HistoryRecord(datasource, engine, query, userName, queryId, o.result.lineNumber)] else [])
    {
      var verdict := ValidateHive(query, config.policy, datasource);
      match verdict {
        case Reject(message) =>
          history.StoreError(ErrorRecord(datasource, engine, queryId, query, userName, message));
          return Thrown(Rejected, message);
        case Malformed(condition) =>
          return Thrown(MalformedRule, condition);
        case Pass =>
      }
      o := Execute(queryId, engine, datasource, query, limit, userName, hiveUser, hivePassword, async, config, reply, size);
      if storeFlag && o.Done? {
        history.InsertQueryHistory(HistoryRecord(datasource, engine, query, userName, queryId, o.result.lineNumber));
      }
    }

    /**
     * What happens once the query passed validation: the state after the
     * call, `sessions`, `files`, `errors`, `pool`, from the state `sessions0`,
     * `files0`, `errors0`, `pool0` before it.
     */
    ghost predicate Connected(sessions0: seq<Session>, files0: map<string, Artifact>, errors0: seq<ErrorRecord>,
                              pool0: set<(string, string)>,
                              sessions: seq<Session>, files: map<string, Artifact>, errors: seq<ErrorRecord>,
                              pool: set<(string, string)>, o: Outcome,
                              queryId: string, engine: string, datasource: string, query: string, limit: int,
                              userName: Option<string>, hiveUser: Option<string>, hivePassword: Option<string>,
                              async: bool, config: HiveConfig, reply: Reply, size: Row -> nat)
      requires |queryId| >= 8
    {
      var path := ResultFilePath(cwd, datasource, queryId, false);
      var statements := Statements(engine, jobPrefix, userName, queryId, config, query);
      var cancellable := async && config.useJdbcCancel;
      match JdbcUrl(engine, config, userName)
      case IllegalEngine(message) =>
        o == Thrown(UnknownEngine, message) && sessions == sessions0 && files == files0 &&
        errors == errors0 && pool == pool0
      case Url(url) =>
        var (user, password) := Credentials(config, hiveUser, hivePassword);
        var timeout := QueryTimeoutAsWritten(config.maxRunTimeSeconds);
        var pooled := if cancellable then pool0 + {(datasource, queryId)} else pool0;
        match reply
        case ConnectFailed(message) =>
          && o == Thrown(SqlError, message)
          && sessions == sessions0
          && files == files0
          && errors == errors0 + [ErrorRecord(datasource, engine, queryId, query, userName, message)]
          && pool == pool0
        case SqlException(accepted, message) =>
          var ran := statements[..Min(accepted, |statements|)];
          && o == Thrown(SqlError, message)
          && sessions == sessions0 + [Session(url, user, password, timeout, ran)]
          && files == files0
          && errors == errors0 + [ErrorRecord(datasource, engine, queryId, query, userName, message)]
          && pool == (if accepted >= |statements| - 1 then pooled else pool0)
        case UpdateCount =>
          && o == Done(HiveQueryResult(queryId, [], [], 0, None))
          && sessions == sessions0 + [Session(url, user, password, timeout, statements)]
          && files == (if path in files0 then files0 else files0[path := Table([])])
          && errors == errors0
          && pool == pooled
        case ResultSet(columns, rows) =>
          && sessions == sessions0 + [Session(url, user, password, timeout, statements)]
          && Streamed(files0, errors0, pooled, files, errors, pool, o, queryId, datasource, engine, query, limit,
                      userName, columns, rows, None, cancellable, path, config.maxResultFileByteSize, size)
        case ResultSetFailed(columns, rows, message) =>
          && sessions == sessions0 + [Session(url, user, password, timeout, statements)]
          && Streamed(files0, errors0, pooled, files, errors, pool, o, queryId, datasource, engine, query, limit,
                      userName, columns, rows, Some(message), cancellable, path, config.maxResultFileByteSize, size)
    }

    /** From choosing the URL to the end of processData. */
    method Execute(queryId: string, engine: string, datasource: string, query: string, limit: int,
                   userName: Option<string>, hiveUser: Option<string>, hivePassword: Option<string>,
                   async: bool, config: HiveConfig, reply: Reply, size: Row -> nat)
      returns (o: Outcome)
      requires |queryId| >= 8
      modifies this, history, store
      ensures history.queries == old(history.queries)
      ensures Connected(old(sessions), old(store.files), old(history.errors), old(pool),
                        sessions, store.files, history.errors, pool, o,
                        queryId, engine, datasource, query, limit, userName, hiveUser, hivePassword,
                        async, config, reply, size)
    {
      var choice := JdbcUrl(engine, config, userName);
      if choice.IllegalEngine? {
        return Thrown(UnknownEngine, choice.message);
      }
      var (user, password) := Credentials(config, hiveUser, hivePassword);
      var timeout := QueryTimeoutAsWritten(config.maxRunTimeSeconds);
      var statements := Statements(engine, jobPrefix, userName, queryId, config, query);
      var cancellable := async && config.useJdbcCancel;
      var path := ResultFilePath(cwd, datasource, queryId, false);
      match reply {
        case ConnectFailed(message) =>
          history.StoreError(ErrorRecord(datasource, engine, queryId, query, userName, message));
          return Thrown(SqlError, message);
        case SqlException(accepted, message) =>
          sessions := sessions + [Session(choice.url, user, password, timeout, statements[..Min(accepted, |statements|)])];
          if cancellable && accepted >= |statements| - 1 {
            pool := pool + {(datasource, queryId)};
          }
          history.StoreError(ErrorRecord(datasource, engine, queryId, query, userName, message));
          return Thrown(SqlError, message);
        case UpdateCount =>
          sessions := sessions + [Session(choice.url, user, password, timeout, statements)];
          if cancellable {
            pool := pool + {(datasource, queryId)};
          }
          var _ := store.CreateNew(path);
          return Done(HiveQueryResult(queryId, [], [], 0, None));
        case ResultSet(columns, rows) =>
          sessions := sessions + [Session(choice.url, user, password, timeout, statements)];
          if cancellable {
            pool := pool + {(datasource, queryId)};
          }
          o := Stream(queryId, datasource, engine, query, limit, userName, columns, rows, None, cancellable, path,
                      config.maxResultFileByteSize, size);
        case ResultSetFailed(columns, rows, message) =>
          sessions := sessions + [Session(choice.url, user, password, timeout, statements)];
          if cancellable {
            pool := pool + {(datasource, queryId)};
          }
          o := Stream(queryId, datasource, engine, query, limit, userName, columns, rows, Some(message), cancellable,
                      path, config.maxResultFileByteSize, size);
      }
    }

    /**
     * The result-set branch of processData: header, row loop, artifact, and
     * its end, with the SQLException `failure` raised once `rows` are read.
     */
    method Stream(queryId: string, datasource: string, engine: string, query: string, limit: int,
                  userName: Option<string>, columns: seq<string>, rows: seq<Row>, failure: Option<string>,
                  cancellable: bool, path: string, maxBytes: int, size: Row -> nat)
      returns (o: Outcome)
      modifies this, history, store
      ensures sessions == old(sessions) && history.queries == old(history.queries)
      ensures Streamed(old(store.files), old(history.errors), old(pool), store.files, history.errors, pool, o,
                       queryId, datasource, engine, query, limit, userName, columns, rows, failure, cancellable,
                       path, maxBytes, size)
    {
      var keepAll := KeepsAll(query);
      var fed := FeedRows(Start(columns), rows, keepAll, limit, maxBytes, size);
      match fed {
        case Drained(sink) =>
          ReplaySummarizes(columns, rows, keepAll, limit, size);
          store.Write(path, Table(sink.written));
          if failure.Some? {
            history.StoreError(ErrorRecord(datasource, engine, queryId, query, userName, failure.value));
            return Thrown(SqlError, failure.value);
          }
          if cancellable {
            pool := pool - {(datasource, queryId)};
          }
          return Done(HiveQueryResult(queryId, columns, sink.kept, sink.lineNumber, sink.warning));
        case Exceeded(sink, at) =>
          ReplayCounts(Start(columns), rows[..at], keepAll, limit, size);
          assert rows[..at] + [rows[at]] == rows[..at + 1];
          assert sink.written == [columns] + rows[..at + 1];
          assert OverflowsAt(rows, size, maxBytes, at);
          store.Write(path, Table(sink.written));
          var message := SizeExceededText(maxBytes, queryId, datasource);
          history.StoreError(ErrorRecord(datasource, engine, queryId, query, userName, message));
          return Thrown(ResultTooLarge, message);
      }
    }
  }
}
