/**
 * The row loop of `processData` in HiveServiceImpl and OldPrestoServiceImpl:
 * every row is written to the artifact and counted, its encoded size is added
 * to a running total that is checked against the byte cap right after the
 * row is written, and it is kept in memory only while fewer than `limit` rows
 * are kept, unless the query is a "show" query, which keeps every row.
 */
module ResultStream {
  import opened Wrappers
  import opened JavaStrings
  import opened JavaInts

  type Row = seq<string>

  function Min(a: int, b: int): int {
    if a < b then a else b
  }

  /** How many rows the buffer reaches: `rows.size() < limit` never holds once the size is max(limit, 0). */
  function Cap(limit: int): nat {
    if limit < 0 then 0 else limit
  }

  /** `query.toLowerCase().startsWith("show")`: such queries keep every row. */
  predicate KeepsAll(query: string) {
    StartsWith(ToLower(query), "show")
  }

  /** The rows handed back to the caller after n rows arrived. */
  function Kept(rows: seq<Row>, keepAll: bool, limit: int): (r: seq<Row>)
    ensures keepAll ==> r == rows
    ensures !keepAll ==> |r| == Min(|rows|, Cap(limit)) && r == rows[..|r|]
  {
    if keepAll || |rows| <= Cap(limit) then rows else rows[..Cap(limit)]
  }

  /** Some row arrived while the buffer was full. */
  predicate Warned(rows: seq<Row>, keepAll: bool, limit: int) {
    !keepAll && |rows| > Cap(limit)
  }

  function WarningText(size: int, limit: int): string {
    "now fetch size is " + IntToString(size) + ". This is more than " + IntToString(limit) +
    ". So, fetch operation stopped."
  }

  function SizeExceededText(maxBytes: int, queryId: string, datasource: string): string {
    "Result file size exceeded " + IntToString(maxBytes) + " bytes. queryId=" + queryId + ", datasource=" + datasource
  }

  /** Total encoded size of the rows, each measured by `size` (the UTF-8 length of `row.toString()`). */
  function BytesOf(rows: seq<Row>, size: Row -> nat): nat {
    if rows == [] then 0 else BytesOf(rows[..|rows| - 1], size) + size(rows[|rows| - 1])
  }

  lemma {:induction false} BytesOfMonotone(rows: seq<Row>, size: Row -> nat, n: nat)
    requires n <= |rows|
    ensures BytesOf(rows[..n], size) <= BytesOf(rows, size)
    decreases |rows|
  {
    if n < |rows| {
      assert rows[..|rows| - 1][..n] == rows[..n];
      BytesOfMonotone(rows[..|rows| - 1], size, n);
    } else {
      assert rows[..n] == rows;
    }
  }

  lemma BytesOfSnoc(rows: seq<Row>, row: Row, size: Row -> nat)
    ensures BytesOf(rows + [row], size) == BytesOf(rows, size) + size(row)
  {
    assert (rows + [row])[..|rows|] == rows;
  }

  /** One more row is kept exactly when the buffer is below the limit; otherwise the warning is raised. */
  lemma KeptSnoc(rows: seq<Row>, row: Row, keepAll: bool, limit: int)
    ensures var room := keepAll || |Kept(rows, keepAll, limit)| < limit;
      && Kept(rows + [row], keepAll, limit) == (if room then Kept(rows, keepAll, limit) + [row] else Kept(rows, keepAll, limit))
      && (Warned(rows + [row], keepAll, limit) <==> Warned(rows, keepAll, limit) || !room)
      && (!room ==> |Kept(rows, keepAll, limit)| == Cap(limit))
  {
    if !keepAll && |rows| + 1 > Cap(limit) {
      assert (rows + [row])[..Cap(limit)] == rows[..Cap(limit)];
    }
  }

  /** The writer's state: lines written (header included), bytes counted, rows kept, warning, artifact lines. */
  datatype Sink = Sink(lineNumber: int, resultBytes: int, kept: seq<Row>, warning: Option<string>, written: seq<Row>)

  /** The state right after the header line is printed. */
  function Start(header: Row): Sink {
    Sink(1, 0, [], None, [header])
  }

  /** A row is printed and counted: one more line, its size added to the running total. */
  function Count(s: Sink, row: Row, size: Row -> nat): Sink {
    s.(lineNumber := s.lineNumber + 1, resultBytes := s.resultBytes + size(row), written := s.written + [row])
  }

  /** A row that passed the cap check is kept, or the warning is raised because the buffer is full. */
  function Keep(s: Sink, row: Row, keepAll: bool, limit: int): Sink {
    if keepAll || |s.kept| < limit then s.(kept := s.kept + [row])
    else s.(warning := Some(WarningText(|s.kept|, limit)))
  }

  /** The state after the rows were processed one at a time from `s`, none of them over the cap. */
  function Replay(s: Sink, rows: seq<Row>, keepAll: bool, limit: int, size: Row -> nat): Sink {
    if rows == [] then s
    else
      var last := rows[|rows| - 1];
      Keep(Count(Replay(s, rows[..|rows| - 1], keepAll, limit, size), last, size), last, keepAll, limit)
  }

  /** The cap check, made after each row with the running total started at `total`, passed every time. */
  predicate Fits(total: int, rows: seq<Row>, size: Row -> nat, maxBytes: int) {
    rows == [] || (Fits(total, rows[..|rows| - 1], size, maxBytes) && total + BytesOf(rows, size) <= maxBytes)
  }

  /**
   * The loop run over a batch of rows from the state `s`. It stops at the
   * first row after which the running total exceeds `maxBytes`; that row has
   * been printed and counted but is neither kept nor warned about.
   */
  method FeedRows(s: Sink, rows: seq<Row>, keepAll: bool, limit: int, maxBytes: int, size: Row -> nat)
    returns (r: Fed)
    ensures r.Drained? <==> Fits(s.resultBytes, rows, size, maxBytes)
    ensures r.Drained? ==> r.sink == Replay(s, rows, keepAll, limit, size)
    ensures r.Exceeded? ==>
      && r.at < |rows|
      && Fits(s.resultBytes, rows[..r.at], size, maxBytes)
      && s.resultBytes + BytesOf(rows[..r.at + 1], size) > maxBytes
      && r.sink == Count(Replay(s, rows[..r.at], keepAll, limit, size), rows[r.at], size)
  {
    var lineNumber, resultBytes, kept, warning, written := s.lineNumber, s.resultBytes, s.kept, s.warning, s.written;
    var i := 0;
    while i < |rows|
      invariant i <= |rows|
      invariant var cur := Replay(s, rows[..i], keepAll, limit, size);
        && lineNumber == cur.lineNumber && resultBytes == cur.resultBytes && kept == cur.kept
        && warning == cur.warning && written == cur.written
      invariant resultBytes == s.resultBytes + BytesOf(rows[..i], size)
      invariant Fits(s.resultBytes, rows[..i], size, maxBytes)
    {
      FeedStep(s, rows, i, keepAll, limit, size, maxBytes);
      var row := rows[i];
      written := written + [row];
      lineNumber := lineNumber + 1;
      resultBytes := resultBytes + size(row);
      if resultBytes > maxBytes {
        FitsFailsAt(s.resultBytes, rows, size, maxBytes, i);
        return Exceeded(Sink(lineNumber, resultBytes, kept, warning, written), i);
      }
      if keepAll || |kept| < limit {
        kept := kept + [row];
      } else {
        warning := Some(WarningText(|kept|, limit));
      }
      i := i + 1;
    }
    assert rows[..i] == rows;
    return Drained(Sink(lineNumber, resultBytes, kept, warning, written));
  }

  /** One more row of a batch: the replayed state, the byte total and the cap check, each one row further. */
  lemma FeedStep(s: Sink, rows: seq<Row>, i: nat, keepAll: bool, limit: int, size: Row -> nat, maxBytes: int)
    requires i < |rows|
    ensures var row, prev, next := rows[i], Replay(s, rows[..i], keepAll, limit, size), Replay(s, rows[..i + 1], keepAll, limit, size);
      && next.lineNumber == prev.lineNumber + 1 && next.resultBytes == prev.resultBytes + size(row)
      && next.written == prev.written + [row]
      && (keepAll || |prev.kept| < limit ==> next.kept == prev.kept + [row] && next.warning == prev.warning)
      && (!(keepAll || |prev.kept| < limit) ==> next.kept == prev.kept && next.warning == Some(WarningText(|prev.kept|, limit)))
      && BytesOf(rows[..i + 1], size) == BytesOf(rows[..i], size) + size(row)
      && (Fits(s.resultBytes, rows[..i], size, maxBytes) && s.resultBytes + BytesOf(rows[..i + 1], size) <= maxBytes ==>
            Fits(s.resultBytes, rows[..i + 1], size, maxBytes))
  {
    PrefixSnoc(rows, i);
  }

  /** Passing the cap check after every row of a sequence means passing it after every row of a prefix. */
  lemma {:induction false} FitsPrefix(total: int, rows: seq<Row>, n: nat, size: Row -> nat, maxBytes: int)
    requires n <= |rows| && Fits(total, rows, size, maxBytes)
    ensures Fits(total, rows[..n], size, maxBytes)
    decreases |rows|
  {
    if n < |rows| {
      assert rows[..|rows| - 1][..n] == rows[..n];
      FitsPrefix(total, rows[..|rows| - 1], n, size, maxBytes);
    } else {
      assert rows[..n] == rows;
    }
  }

  /** A failed check after one row fails the check over the whole sequence. */
  lemma FitsFailsAt(total: int, rows: seq<Row>, size: Row -> nat, maxBytes: int, at: nat)
    requires at < |rows| && total + BytesOf(rows[..at + 1], size) > maxBytes
    ensures !Fits(total, rows, size, maxBytes)
  {
    if Fits(total, rows, size, maxBytes) {
      FitsPrefix(total, rows, at + 1, size, maxBytes);
    }
  }

  /** Sizes are never negative, so checking after every row amounts to checking the final total. */
  lemma {:induction false} FitsIsTotal(total: int, rows: seq<Row>, size: Row -> nat, maxBytes: int)
    requires |rows| > 0
    ensures Fits(total, rows, size, maxBytes) <==> total + BytesOf(rows, size) <= maxBytes
    decreases |rows|
  {
    if |rows| > 1 && total + BytesOf(rows, size) <= maxBytes {
      var prefix := rows[..|rows| - 1];
      assert rows[..|prefix|] == prefix;
      BytesOfMonotone(rows, size, |prefix|);
      FitsIsTotal(total, prefix, size, maxBytes);
    }
  }

  /**
   * The loop keeps its total in an `int`. Every total a check sees is the
   * exact sum, with no wrap-around, as long as the row just read is no larger
   * than the room an int leaves above the cap.
   */
  lemma IntTotalExact(rows: seq<Row>, size: Row -> nat, maxBytes: int, i: nat)
    requires i < |rows| && Fits(0, rows[..i], size, maxBytes)
    requires size(rows[i]) <= IntMax && maxBytes + size(rows[i]) <= IntMax
    ensures ToInt(BytesOf(rows[..i], size) + size(rows[i])) == BytesOf(rows[..i + 1], size)
  {
    if i > 0 {
      FitsIsTotal(0, rows[..i], size, maxBytes);
    }
    assert rows[..i + 1][..i] == rows[..i];
  }

  lemma {:induction false} BytesOfAppend(a: seq<Row>, b: seq<Row>, size: Row -> nat)
    ensures BytesOf(a + b, size) == BytesOf(a, size) + BytesOf(b, size)
    decreases |b|
  {
    if b != [] {
      var front := b[..|b| - 1];
      assert (a + b)[..|a + b| - 1] == a + front;
      BytesOfAppend(a, front, size);
    } else {
      assert a + b == a;
    }
  }

  /** The check over two batches in a row is the check over the first, then over the second from its total. */
  lemma {:induction false} FitsAppend(total: int, a: seq<Row>, b: seq<Row>, size: Row -> nat, maxBytes: int)
    ensures Fits(total, a + b, size, maxBytes) <==>
      Fits(total, a, size, maxBytes) && Fits(total + BytesOf(a, size), b, size, maxBytes)
    decreases |b|
  {
    if b == [] {
      assert a + b == a;
    } else {
      var front := b[..|b| - 1];
      assert (a + b)[..|a + b| - 1] == a + front;
      BytesOfAppend(a, b, size);
      FitsAppend(total, a, front, size, maxBytes);
    }
  }

  /** Processing is incremental: a batch continues from where the previous one stopped. */
  lemma {:induction false} ReplayAppend(s: Sink, a: seq<Row>, b: seq<Row>, keepAll: bool, limit: int, size: Row -> nat)
    ensures Replay(s, a + b, keepAll, limit, size) == Replay(Replay(s, a, keepAll, limit, size), b, keepAll, limit, size)
    decreases |b|
  {
    if b == [] {
      assert a + b == a;
    } else {
      var front := b[..|b| - 1];
      assert (a + b)[..|a + b| - 1] == a + front;
      ReplayAppend(s, a, front, keepAll, limit, size);
    }
  }

  /** Every row adds one line, its size, and itself to the artifact. */
  lemma {:induction false} ReplayCounts(s: Sink, rows: seq<Row>, keepAll: bool, limit: int, size: Row -> nat)
    ensures Replay(s, rows, keepAll, limit, size).lineNumber == s.lineNumber + |rows|
    ensures Replay(s, rows, keepAll, limit, size).resultBytes == s.resultBytes + BytesOf(rows, size)
    ensures Replay(s, rows, keepAll, limit, size).written == s.written + rows
    decreases |rows|
  {
    if rows != [] {
      var front := rows[..|rows| - 1];
      ReplayCounts(s, front, keepAll, limit, size);
      assert front + [rows[|rows| - 1]] == rows;
    }
  }

  /** The closed form of the state after n rows from the header. */
  predicate Summarizes(s: Sink, header: Row, rows: seq<Row>, keepAll: bool, limit: int, size: Row -> nat) {
    && s.lineNumber == 1 + |rows|
    && s.resultBytes == BytesOf(rows, size)
    && s.kept == Kept(rows, keepAll, limit)
    && s.warning == (if Warned(rows, keepAll, limit) then Some(WarningText(Cap(limit), limit)) else None)
    && s.written == [header] + rows
  }

  /**
   * Processing rows after the header leaves: one line per row plus the
   * header, their total size, the first max(limit, 0) rows kept (all of them
   * for a show query), the warning exactly when a row arrived with the buffer
   * full, and every row in the artifact after the header.
   */
  lemma {:induction false} ReplaySummarizes(header: Row, rows: seq<Row>, keepAll: bool, limit: int, size: Row -> nat)
    ensures Summarizes(Replay(Start(header), rows, keepAll, limit, size), header, rows, keepAll, limit, size)
    decreases |rows|
  {
    if rows != [] {
      var front, last := rows[..|rows| - 1], rows[|rows| - 1];
      assert rows == front + [last];
      ReplaySummarizes(header, front, keepAll, limit, size);
      BytesOfSnoc(front, last, size);
      KeptSnoc(front, last, keepAll, limit);
    }
  }

  /** The warning the row loop leaves after all the rows. */
  function WarningAfter(rows: seq<Row>, keepAll: bool, limit: int): Option<string> {
    if Warned(rows, keepAll, limit) then Some(WarningText(Cap(limit), limit)) else None
  }

  /** Row `at` is the first after which the running total, started at zero, is over the cap. */
  predicate OverflowsAt(rows: seq<Row>, size: Row -> nat, maxBytes: int, at: nat) {
    at < |rows| && Fits(0, rows[..at], size, maxBytes) && BytesOf(rows[..at + 1], size) > maxBytes
  }

  /** The rows up to and including a batch's row `at`, within a stream that starts with `before` and the batch. */
  lemma SplitAt(all: seq<Row>, before: seq<Row>, batch: seq<Row>, at: nat)
    requires |before + batch| <= |all| && all[..|before + batch|] == before + batch && at < |batch|
    ensures all[..|before| + at] == before + batch[..at]
    ensures all[..|before| + at + 1] == before + batch[..at + 1]
    ensures all[|before| + at] == batch[at]
  {
    var n, m := |before| + at, |before + batch|;
    assert all[..n] == all[..m][..n] == (before + batch)[..n] == before + batch[..at];
    assert all[..n + 1] == all[..m][..n + 1] == (before + batch)[..n + 1] == before + batch[..at + 1];
    assert all[n] == all[..m][n] == batch[at];
  }

  /**
   * A batch that overflows at its row `at`, fed after the rows `before`
   * that fit, overflows the whole stream at row |before| + at.
   */
  lemma OverflowLifts(all: seq<Row>, before: seq<Row>, batch: seq<Row>, at: nat, size: Row -> nat, maxBytes: int, k: nat)
    requires |before + batch| <= |all| && all[..|before + batch|] == before + batch
    requires Fits(0, before, size, maxBytes) && at < |batch|
    requires Fits(BytesOf(before, size), batch[..at], size, maxBytes)
    requires BytesOf(before, size) + BytesOf(batch[..at + 1], size) > maxBytes
    requires k == |before| + at
    ensures OverflowsAt(all, size, maxBytes, k) && !Fits(0, all, size, maxBytes)
  {
    SplitAt(all, before, batch, at);
    OverflowJoin(before, batch[..at], batch[..at + 1], size, maxBytes);
    OverflowsAtFrom(all, k, before + batch[..at], before + batch[..at + 1], size, maxBytes);
  }

  /** A prefix that fits, extended by one row past the cap, is where the stream overflows. */
  lemma OverflowsAtFrom(all: seq<Row>, k: nat, prefix: seq<Row>, longer: seq<Row>, size: Row -> nat, maxBytes: int)
    requires k < |all| && all[..k] == prefix && all[..k + 1] == longer
    requires Fits(0, prefix, size, maxBytes) && BytesOf(longer, size) > maxBytes
    ensures OverflowsAt(all, size, maxBytes, k) && !Fits(0, all, size, maxBytes)
  {
    FitsFailsAt(0, all, size, maxBytes, k);
  }

  /** Rows that fit, then a head that fits from their total, fit together; an overflowing head overflows the join. */
  lemma OverflowJoin(before: seq<Row>, head: seq<Row>, longer: seq<Row>, size: Row -> nat, maxBytes: int)
    requires Fits(0, before, size, maxBytes) && Fits(BytesOf(before, size), head, size, maxBytes)
    requires BytesOf(before, size) + BytesOf(longer, size) > maxBytes
    ensures Fits(0, before + head, size, maxBytes) && BytesOf(before + longer, size) > maxBytes
  {
    var total := 0 + BytesOf(before, size);
    assert Fits(total, head, size, maxBytes);
    FitsAppend(0, before, head, size, maxBytes);
    BytesOfAppend(before, longer, size);
  }

  /** The state a batch stops in at its row `at` is the one the whole stream reaches at row |before| + at. */
  lemma StopLifts(all: seq<Row>, before: seq<Row>, batch: seq<Row>, at: nat, header: Row,
                  keepAll: bool, limit: int, size: Row -> nat, sink: Sink, k: nat)
    requires |before + batch| <= |all| && all[..|before + batch|] == before + batch && at < |batch|
    requires sink == Replay(Start(header), before, keepAll, limit, size)
    requires k == |before| + at
    ensures k < |all|
    ensures Count(Replay(sink, batch[..at], keepAll, limit, size), batch[at], size)
         == Count(Replay(Start(header), all[..k], keepAll, limit, size), all[k], size)
  {
    SplitAt(all, before, batch, at);
    ReplayAppend(Start(header), before, batch[..at], keepAll, limit, size);
  }

  lemma PrefixSnoc(rows: seq<Row>, n: nat)
    requires n < |rows|
    ensures rows[..n + 1] == rows[..n] + [rows[n]]
    ensures rows[..n + 1][..n] == rows[..n]
  {
  }

  /** How a batch of rows ended: all processed, or stopped by the byte cap at position `at` of the batch. */
  datatype Fed = Drained(sink: Sink) | Exceeded(sink: Sink, at: nat)

  /** Rows that fit, fed after rows that fit, continue the same run. */
  lemma ReplayExtend(header: Row, before: seq<Row>, batch: seq<Row>, keepAll: bool, limit: int,
                     size: Row -> nat, maxBytes: int, sink: Sink, next: Sink)
    requires sink == Replay(Start(header), before, keepAll, limit, size) && Fits(0, before, size, maxBytes)
    requires next == Replay(sink, batch, keepAll, limit, size) && Fits(sink.resultBytes, batch, size, maxBytes)
    ensures next == Replay(Start(header), before + batch, keepAll, limit, size)
    ensures Fits(0, before + batch, size, maxBytes)
  {
    ReplayAppend(Start(header), before, batch, keepAll, limit, size);
    assert sink.resultBytes == BytesOf(before, size) by {
      ReplayCounts(Start(header), before, keepAll, limit, size);
    }
    FitsJoin(before, batch, size, maxBytes);
  }

  lemma FitsJoin(before: seq<Row>, batch: seq<Row>, size: Row -> nat, maxBytes: int)
    requires Fits(0, before, size, maxBytes) && Fits(BytesOf(before, size), batch, size, maxBytes)
    ensures Fits(0, before + batch, size, maxBytes)
  {
    var total := 0 + BytesOf(before, size);
    assert Fits(total, batch, size, maxBytes);
    FitsAppend(0, before, batch, size, maxBytes);
  }
}
