/**
 * The collaborators the services write to: the query-history store
 * (DbUtil.storeError and DbUtil.insertQueryHistory), kept as ghost logs
 * because nothing in the core reads them back, and the directory of result
 * artifacts, a map from path to file content.
 */
module Sinks {
  import opened Wrappers

  /** Arguments of `storeError(db, datasource, engine, queryId, query, user, message)`. */
  datatype ErrorRecord = ErrorRecord(datasource: string, engine: string, queryId: string, query: string,
                                     user: Option<string>, message: string)

  /** Arguments of `insertQueryHistory(db, datasource, engine, query, user, queryId, lineNumber)`. */
  datatype HistoryRecord = HistoryRecord(datasource: string, engine: string, query: string, user: Option<string>,
                                         queryId: string, lineNumber: int)

  class History {
    ghost var errors: seq<ErrorRecord>
    ghost var queries: seq<HistoryRecord>

    ghost method StoreError(r: ErrorRecord)
      modifies this
      ensures errors == old(errors) + [r] && queries == old(queries)
    {
      errors := errors + [r];
    }

    ghost method InsertQueryHistory(r: HistoryRecord)
      modifies this
      ensures queries == old(queries) + [r] && errors == old(errors)
    {
      queries := queries + [r];
    }
  }

  /** A result artifact: tab-separated lines (header first), or the text of an error. */
  datatype Artifact = Table(lines: seq<seq<string>>) | Text(content: string)

  class ArtifactStore {
    var files: map<string, Artifact>

    /** Creates or overwrites the file at path. */
    method Write(path: string, a: Artifact)
      modifies this
      ensures files == old(files)[path := a]
    {
      files := files[path := a];
    }

    /** `File.createNewFile`: creates an empty table unless a file is already there, which it keeps. */
    method CreateNew(path: string) returns (created: bool)
      modifies this
      ensures created == (path !in old(files))
      ensures files == if created then old(files)[path := Table([])] else old(files)
    {
      created := path !in files;
      if created {
        files := files[path := Table([])];
      }
    }

    /** `Files.delete`: reports whether the file existed (a missing file makes it throw). */
    method Delete(path: string) returns (existed: bool)
      modifies this
      ensures existed == (path in old(files))
      ensures files == old(files) - {path}
    {
      existed := path in files;
      files := files - {path};
    }
  }
}
