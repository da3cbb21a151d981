/**
 * The Presto StatementClient as OldPrestoServiceImpl drives it. The client
 * library and the coordinator are not part of this model: a client is given
 * by the statuses the coordinator hands out while the query runs, the state
 * it ends in once there is no next page, and optionally the page at which
 * `advance()` throws. The query keeps one id throughout.
 */
module PrestoClient {
  import opened Wrappers
  import opened ResultStream

  /** One QueryStatusInfo/QueryData page: rows (null when none) and column names (null until known). */
  datatype Status = Status(data: Option<seq<Row>>, columns: Option<seq<string>>)

  /** The state once no page is left: finished (with the final error, if any), client error, or aborted. */
  datatype Ending =
    | Finished(error: Option<string>, columns: Option<seq<string>>)
    | ClientError
    | ClientAborted

  /** What the coordinator will do with the query. */
  datatype Script = Script(queryId: string, query: string, statuses: seq<Status>, ending: Ending,
                           failAt: Option<nat>, failMessage: string)

  /** The rows carried by a page; a null page carries none. */
  function DataOf(s: Status): seq<Row> {
    if s.data.Some? then s.data.value else []
  }

  /** All rows of a run of pages, in order. */
  function RowsOf(ss: seq<Status>): seq<Row> {
    if ss == [] then [] else RowsOf(ss[..|ss| - 1]) + DataOf(ss[|ss| - 1])
  }

  lemma {:induction false} RowsOfAppend(a: seq<Status>, b: seq<Status>)
    ensures RowsOf(a + b) == RowsOf(a) + RowsOf(b)
    decreases |b|
  {
    if b == [] {
      assert a + b == a;
    } else {
      var front := b[..|b| - 1];
      assert (a + b)[..|a + b| - 1] == a + front;
      assert (a + b)[|a + b| - 1] == b[|b| - 1];
      RowsOfAppend(a, front);
      assert RowsOf(a + b) == RowsOf(a + front) + DataOf(b[|b| - 1]);
    }
  }

  lemma RowsOfSnoc(ss: seq<Status>, lo: nat, hi: nat)
    requires lo <= hi < |ss|
    ensures RowsOf(ss[lo..hi + 1]) == RowsOf(ss[lo..hi]) + DataOf(ss[hi])
  {
    assert ss[lo..hi + 1][..hi - lo] == ss[lo..hi];
  }

  /** The rows of a shorter run of pages come first among the rows of a longer one. */
  lemma RowsOfPrefix(ss: seq<Status>, lo: nat, mid: nat, hi: nat)
    requires lo <= mid <= hi <= |ss|
    ensures |RowsOf(ss[lo..mid])| <= |RowsOf(ss[lo..hi])|
    ensures RowsOf(ss[lo..hi])[..|RowsOf(ss[lo..mid])|] == RowsOf(ss[lo..mid])
  {
    assert ss[lo..hi] == ss[lo..mid] + ss[mid..hi];
    RowsOfAppend(ss[lo..mid], ss[mid..hi]);
  }

  class StatementClient {
    const script: Script
    /** The page the client currently holds. */
    var pos: nat
    /** `advance()` threw; the client then stays in its client-error state. */
    var failed: bool

    constructor(script: Script)
      ensures this.script == script && pos == 0 && !failed
    {
      this.script := script;
      pos := 0;
      failed := false;
    }

    predicate IsRunning()
      reads this
    {
      !failed && pos < |script.statuses|
    }

    predicate IsClientAborted()
      reads this
    {
      !IsRunning() && !failed && script.ending.ClientAborted?
    }

    predicate IsClientError()
      reads this
    {
      !IsRunning() && (failed || script.ending.ClientError?)
    }

    predicate IsFinished()
      reads this
    {
      !IsRunning() && !failed && script.ending.Finished?
    }

    /** The flags are exclusive, and exactly one holds once the client stops running. */
    lemma StatesExclusive()
      ensures IsRunning() ==> !IsClientAborted() && !IsClientError() && !IsFinished()
      ensures !IsRunning() ==>
        (IsClientAborted() && !IsClientError() && !IsFinished()) ||
        (!IsClientAborted() && IsClientError() && !IsFinished()) ||
        (!IsClientAborted() && !IsClientError() && IsFinished())
    {
    }

    /** `currentData().getData()` of the current page. */
    function CurrentData(): (r: Option<seq<Row>>)
      requires IsRunning()
      reads this
      ensures r == script.statuses[pos].data
    {
      script.statuses[pos].data
    }

    /**
     * The page the client holds adds exactly its data to the rows of the
     * pages before it, in place; a page whose data is null adds none.
     */
    lemma CurrentDataExtendsRows()
      requires IsRunning()
      ensures var data := CurrentData();
        RowsOf(script.statuses[..pos + 1]) == RowsOf(script.statuses[..pos]) + (if data.Some? then data.value else [])
    {
      RowsOfSnoc(script.statuses, 0, pos);
      assert script.statuses[0..pos + 1] == script.statuses[..pos + 1];
      assert script.statuses[0..pos] == script.statuses[..pos];
    }

    /** The columns of `currentStatusInfo()` while running, of `finalStatusInfo()` after. */
    function Columns(): (r: Option<seq<string>>)
      reads this
      ensures IsRunning() ==> r == script.statuses[pos].columns
      ensures IsFinished() ==> r == script.ending.columns
    {
      if IsRunning() then script.statuses[pos].columns
      else if script.ending.Finished? then script.ending.columns
      else None
    }

    /**
     * Column names are known only while the client runs or once the query
     * finished: a client the user aborted, or one whose query the coordinator
     * lost, never reports any.
     */
    lemma ColumnsOnlyWhenDelivering()
      ensures Columns().Some? ==> IsRunning() || script.ending.Finished?
      ensures IsClientAborted() || (!IsRunning() && script.ending.ClientError?) ==> Columns().None?
    {
    }

    /**
     * `advance()`: moves to the next page, or throws with the script's
     * message at the page where the script says it fails.
     */
    method Advance() returns (thrown: Option<string>)
      requires IsRunning()
      modifies this
      ensures thrown.Some? <==> script.failAt == Some(old(pos))
      ensures thrown.Some? ==> thrown.value == script.failMessage && failed && pos == old(pos)
      ensures thrown.None? ==> !failed && pos == old(pos) + 1
    {
      if script.failAt == Some(pos) {
        failed := true;
        return Some(script.failMessage);
      }
      pos := pos + 1;
      return None;
    }
  }
}
