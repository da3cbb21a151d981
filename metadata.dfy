/**
 * MetadataUtil.setMetadata: the column notes a metadata service holds for
 * a table are appended, one per row, to the rows of a table description,
 * and the table's own note is added to the response. The HTTP request and
 * the JSON parsing are not part of this model: the parsed answer, or the
 * failure to get one, is an input.
 */
module Metadata {
  import opened Wrappers

  /** A cell of a row; a cell may be null. */
  type Cell = Option<string>
  type Record = seq<Cell>

  /** The `note` object of the metadata service: its `note` entry may be null. */
  datatype Note = Note(note: Option<string>)

  /** One entry of `columns`: its `note` object may be missing. */
  datatype ColumnInfo = ColumnInfo(note: Option<Note>)

  /** The parsed answer of the metadata service for one table. */
  datatype TableInfo = TableInfo(columns: seq<ColumnInfo>, note: Option<Note>)

  /** The cell appended for a column: null without a note object, else the object's note. */
  function NoteCell(c: ColumnInfo): (r: Cell)
    ensures c.note.None? ==> r.None?
    ensures c.note.Some? ==> r == c.note.value.note
  {
    match c.note
    case None => None
    case Some(n) => n.note
  }

  /**
   * The appended cell holds a text exactly when the service gave a note
   * object whose note is that text; a missing note object and a null note
   * both come out as a null cell, so the response cannot tell them apart.
   */
  lemma NoteCellReadsBack(c: ColumnInfo, t: string)
    ensures NoteCell(c) == Some(t) <==> c.note == Some(Note(Some(t)))
    ensures NoteCell(c).None? <==> c.note.None? || c.note.value.note.None?
  {
  }

  /** The row that row i of the records becomes. */
  function AnnotatedRow(record: Record, i: nat, columns: seq<ColumnInfo>): Record {
    if i < |columns| then record + [NoteCell(columns[i])] else record
  }

  /** The records with the notes appended, built up row by row. */
  function Annotated(records: seq<Record>, columns: seq<ColumnInfo>): seq<Record> {
    if records == [] then []
    else
      var last := |records| - 1;
      Annotated(records[..last], columns) + [AnnotatedRow(records[last], last, columns)]
  }

  /**
   * There are as many rows out as in; a row with a column entry at its
   * index gains exactly one cell, the note, after its own cells in order,
   * and every other row is kept as it is.
   */
  lemma {:induction false} AnnotatedRows(records: seq<Record>, columns: seq<ColumnInfo>)
    ensures |Annotated(records, columns)| == |records|
    ensures forall i :: 0 <= i < |records| ==>
      var row := Annotated(records, columns)[i];
      && (i < |columns| ==> row == records[i] + [NoteCell(columns[i])])
      && (i >= |columns| ==> row == records[i])
  {
    if records != [] {
      var last := |records| - 1;
      AnnotatedRows(records[..last], columns);
      assert records[..last] + [records[last]] == records;
    }
  }

  /** Dropping the appended note gives back every record. */
  lemma AnnotatedKeepsCells(records: seq<Record>, columns: seq<ColumnInfo>)
    ensures |Annotated(records, columns)| == |records|
    ensures forall i :: 0 <= i < |records| ==>
      |Annotated(records, columns)[i]| == |records[i]| + (if i < |columns| then 1 else 0) &&
      Annotated(records, columns)[i][..|records[i]|] == records[i]
  {
    AnnotatedRows(records, columns);
    forall i | 0 <= i < |records|
      ensures Annotated(records, columns)[i][..|records[i]|] == records[i]
    {
      var row := Annotated(records, columns)[i];
      if i < |columns| {
        assert row == records[i] + [NoteCell(columns[i])];
      }
    }
  }

  /** Lines 28-43: copies every row cell by cell and appends its column's note. */
  method MergeNotes(records: seq<Record>, columns: seq<ColumnInfo>) returns (merged: seq<Record>)
    ensures merged == Annotated(records, columns)
  {
    merged := [];
    var i := 0;
    while i < |records|
      invariant i <= |records|
      invariant merged == Annotated(records[..i], columns)
    {
      var row: Record := [];
      var j := 0;
      while j < |records[i]|
        invariant j <= |records[i]|
        invariant row == records[i][..j]
      {
        row := row + [records[i][j]];
        j := j + 1;
      }
      assert records[i][..j] == records[i];
      if i < |columns| {
        row := row + [NoteCell(columns[i])];
      }
      assert records[..i + 1][..i] == records[..i];
      merged := merged + [row];
      i := i + 1;
    }
    assert records[..i] == records;
  }

  /** The values the servlets put in their JSON response map. */
  datatype Value =
    | Rows(rows: seq<Record>)
    | Text(text: Option<string>)
    | Other

  const ResultsKey: string := "results"
  const NoteKey: string := "note"

  /** The `retVal` map a servlet fills and writes out as JSON. */
  class Response {
    var entries: map<string, Value>

    constructor(entries: map<string, Value>)
      ensures this.entries == entries
    {
      this.entries := entries;
    }

    /**
     * setMetadata: with the service's answer, "results" becomes the
     * annotated records and "note" the table note when the service has a
     * note object; when the request or the parsing fails (the exception is
     * logged) the map is left as it was.
     */
    method SetMetadata(answer: Option<TableInfo>, records: seq<Record>)
      modifies this
      ensures answer.None? ==> entries == old(entries)
      ensures answer.Some? && answer.value.note.None? ==>
        entries == old(entries)[ResultsKey := Rows(Annotated(records, answer.value.columns))]
      ensures answer.Some? && answer.value.note.Some? ==>
        entries == old(entries)[ResultsKey := Rows(Annotated(records, answer.value.columns))]
                               [NoteKey := Text(answer.value.note.value.note)]
    {
      if answer.None? {
        return;
      }
      var merged := MergeNotes(records, answer.value.columns);
      entries := entries[ResultsKey := Rows(merged)];
      if answer.value.note.Some? {
        entries := entries[NoteKey := Text(answer.value.note.value.note)];
      }
    }
  }
}
