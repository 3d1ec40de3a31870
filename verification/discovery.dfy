/** Choosing the one application database among the candidate files the
    filesystem search found. The search itself is not modelled: its result
    is the sequence `paths`. */
module Discovery {
  import opened Rows

  /** The message written to the error console when no single database is
      found. */
  datatype Diagnostic = NoDatabase | MoreThanOne

  /** The path handed back (empty when there is no single candidate) and the
      diagnostic written, if any. */
  datatype Found = Found(path: string, diagnostic: Option<Diagnostic>)

  function FindDatabase(paths: seq<string>): (r: Found)
    ensures |paths| == 1 ==> r == Found(paths[0], None)
    ensures |paths| != 1 ==> r.path == ""
    ensures r.diagnostic == Some(NoDatabase) <==> |paths| == 0
    ensures r.diagnostic == Some(MoreThanOne) <==> |paths| > 1
  {
    if |paths| == 1 then Found(paths[0], None)
    else if |paths| > 0 then Found("", Some(MoreThanOne))
    else Found("", Some(NoDatabase))
  }

  /** The commands go on only when the returned path is non-empty; as every
      candidate path is non-empty, that is exactly when there is one
      candidate, and then it is that candidate that they open. */
  lemma CommandsProceedOnlyOnSingle(paths: seq<string>)
    requires forall i :: 0 <= i < |paths| ==> paths[i] != ""
    ensures FindDatabase(paths).path != "" <==> |paths| == 1
    ensures FindDatabase(paths).path != "" ==> FindDatabase(paths).path in paths
  {
  }
}
