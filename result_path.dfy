/**
 * PathUtil.getResultFilePath: where the result artifact of a query lives.
 * The directory is `<cwd>/result/<datasource>/<first eight characters of the
 * query id>` and the file is `<queryId>.tsv`, or `<queryId>.err` for an error.
 */
module ResultPath {
  import opened JavaStrings

  function Extension(error: bool): (r: string)
    ensures |r| == 3
    ensures r == "err" <==> error
  {
    if error then "err" else "tsv"
  }

  /** The directory, named after the date prefix of the query id. */
  function ResultDirectory(cwd: string, datasource: string, queryId: string): string
    requires |queryId| >= 8
  {
    cwd + "/result/" + datasource + "/" + queryId[..8]
  }

  /** `queryId.substring(0, 8)` throws on a shorter id, so callers pass generated ids of at least eight characters. */
  function ResultFilePath(cwd: string, datasource: string, queryId: string, error: bool): (p: string)
    requires |queryId| >= 8
    ensures StartsWith(p, ResultDirectory(cwd, datasource, queryId) + "/")
    ensures EndsWith(p, "/" + queryId + "." + Extension(error))
    ensures |p| == |ResultDirectory(cwd, datasource, queryId)| + |queryId| + 5
  {
    var dir := ResultDirectory(cwd, datasource, queryId);
    var p := dir + "/" + queryId + "." + Extension(error);
    assert p[..|dir + "/"|] == dir + "/";
    assert p[|p| - |"/" + queryId + "." + Extension(error)|..] == "/" + queryId + "." + Extension(error);
    p
  }

  /** The extension is "err" exactly for the error artifact. */
  lemma ErrorExtension(cwd: string, datasource: string, queryId: string, error: bool)
    requires |queryId| >= 8
    ensures EndsWith(ResultFilePath(cwd, datasource, queryId, error), ".err") <==> error
    ensures EndsWith(ResultFilePath(cwd, datasource, queryId, error), ".tsv") <==> !error
  {
    var p := ResultFilePath(cwd, datasource, queryId, error);
    var tail := "/" + queryId + "." + Extension(error);
    assert p[|p| - 4..] == tail[|tail| - 4..];
    assert tail[|tail| - 4..] == "." + Extension(error);
    assert ".tsv"[1] != ".err"[1];
  }

  /** The success and the error artifact of one query differ only in their three-letter extension. */
  lemma ArtifactsDifferOnlyInExtension(cwd: string, datasource: string, queryId: string)
    requires |queryId| >= 8
    ensures var ok := ResultFilePath(cwd, datasource, queryId, false);
            var err := ResultFilePath(cwd, datasource, queryId, true);
            |ok| == |err| && ok[..|ok| - 3] == err[..|err| - 3] &&
            ok[|ok| - 3..] == "tsv" && err[|err| - 3..] == "err"
  {
    var dir := ResultDirectory(cwd, datasource, queryId);
    var ok := ResultFilePath(cwd, datasource, queryId, false);
    var err := ResultFilePath(cwd, datasource, queryId, true);
    assert ok == dir + "/" + queryId + "." + "tsv";
    assert err == dir + "/" + queryId + "." + "err";
    assert ok[..|ok| - 3] == dir + "/" + queryId + ".";
    assert err[..|err| - 3] == dir + "/" + queryId + ".";
  }

  /** Distinct queries of one datasource, or the two outcomes of one query, never share an artifact. */
  lemma ArtifactPathInjective(cwd: string, datasource: string, q1: string, e1: bool, q2: string, e2: bool)
    requires |q1| >= 8 && |q2| >= 8
    requires ResultFilePath(cwd, datasource, q1, e1) == ResultFilePath(cwd, datasource, q2, e2)
    ensures q1 == q2 && e1 == e2
  {
    var d1, d2 := ResultDirectory(cwd, datasource, q1), ResultDirectory(cwd, datasource, q2);
    assert |d1| == |d2|;
    PathPartsInjective(d1, q1, Extension(e1), d2, q2, Extension(e2));
  }

  /** Two paths `dir/id.ext` with directories of one length and extensions of one length share their id and extension. */
  lemma PathPartsInjective(d1: string, q1: string, x1: string, d2: string, q2: string, x2: string)
    requires |d1| == |d2| && |x1| == |x2|
    requires d1 + "/" + q1 + "." + x1 == d2 + "/" + q2 + "." + x2
    ensures q1 == q2 && x1 == x2
  {
    var p1, p2 := d1 + "/" + q1 + "." + x1, d2 + "/" + q2 + "." + x2;
    assert |q1| == |q2|;
    forall k | 0 <= k < |q1| ensures q1[k] == q2[k] {
      assert q1[k] == p1[|d1| + 1 + k];
      assert q2[k] == p2[|d2| + 1 + k];
    }
    forall k | 0 <= k < |x1| ensures x1[k] == x2[k] {
      assert x1[k] == p1[|d1| + |q1| + 2 + k];
      assert x2[k] == p2[|d2| + |q2| + 2 + k];
    }
  }
}
