/**
 * The UI-automation tool family. Every operation is a stub that answers with
 * the same "not available" failure envelope whatever its arguments are.
 */
module UIAutomationTools {
  import opened Wrappers
  import opened ToolResults

  const UiAutomationUnavailable: string := "UI automation not available on this platform"
  const SendInputUnavailable: string := "SendInput not available on this platform"

  /** A failure carrying only `message` on standard error; every other member at its default. */
  predicate IsUnavailable(r: ToolResult, message: string) {
    && !r.success
    && r.stderr == Some(message)
    && r.stdout == None
    && r.exitCode == 0
    && r.duration == None
  }

  function FocusWindow(titleRegex: Option<string> := None, process: Option<string> := None,
                       classRegex: Option<string> := None): (r: ToolResult)
    ensures IsUnavailable(r, UiAutomationUnavailable) && IsSoftFailure(r)
  {
    ToolResult(false, stderr := Some(UiAutomationUnavailable))
  }

  function UiFind(nameRegex: Option<string> := None, automationId: Option<string> := None,
                  controlType: Option<string> := None, timeoutSec: int := 5): (r: ToolResult)
    ensures IsUnavailable(r, UiAutomationUnavailable) && IsSoftFailure(r)
  {
    ToolResult(false, stderr := Some(UiAutomationUnavailable))
  }

  function UiClick(path: string): (r: ToolResult)
    ensures IsUnavailable(r, UiAutomationUnavailable) && IsSoftFailure(r)
  {
    ToolResult(false, stderr := Some(UiAutomationUnavailable))
  }

  function TypeText(text: string, wpm: int := 300): (r: ToolResult)
    ensures IsUnavailable(r, SendInputUnavailable) && IsSoftFailure(r)
  {
    ToolResult(false, stderr := Some(SendInputUnavailable))
  }

  function Hotkey(keys: seq<string>): (r: ToolResult)
    ensures IsUnavailable(r, SendInputUnavailable) && IsSoftFailure(r)
  {
    ToolResult(false, stderr := Some(SendInputUnavailable))
  }
}
