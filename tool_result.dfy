/** The envelope every tool call returns (`ToolResult` record). */
module ToolResults {
  import opened Wrappers

  /**
   * `Success` has no default; the other four positional members default to
   * null, null, 0 and null. `duration` is a `TimeSpan`, kept as a tick count.
   */
  datatype ToolResult = ToolResult(
    success: bool,
    stdout: Option<string> := None,
    stderr: Option<string> := None,
    exitCode: int := 0,
    duration: Option<int> := None)

  /** The "soft failure" shape: not successful, with a diagnostic on standard error. */
  predicate IsSoftFailure(r: ToolResult) {
    !r.success && r.stderr.Some?
  }

  /** A record built from `Success` alone carries every default. */
  lemma DefaultsWhenOmitted(success: bool)
    ensures ToolResult(success).success == success
    ensures ToolResult(success).stdout == None
    ensures ToolResult(success).stderr == None
    ensures ToolResult(success).exitCode == 0
    ensures ToolResult(success).duration == None
  {
  }
}
